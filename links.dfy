/**
 * The bookmark record and the three pure transforms the application applies
 * to its ordered collection of bookmarks: append a new record, drop the
 * records with a given id, and replace the records with a given id.
 */
module Links {

  /** A saved bookmark. `id` is the only key used to find a record again. */
  datatype Link = Link(id: string, url: string, title: string)

  /** The ids present in a collection. */
  function Ids(s: seq<Link>): set<string>
  {
    set i | 0 <= i < |s| :: s[i].id
  }

  /** No two positions of the collection carry the same id. */
  predicate DistinctIds(s: seq<Link>)
  {
    forall i, j :: 0 <= i < |s| && 0 <= j < |s| && s[i].id == s[j].id ==> i == j
  }

  /** `r` is obtained from `s` by dropping some of its elements, keeping the order of the rest. */
  predicate Subsequence(r: seq<Link>, s: seq<Link>)
    decreases |s|
  {
    if r == [] then true
    else if s == [] then false
    else (r[0] == s[0] && Subsequence(r[1..], s[1..])) || Subsequence(r, s[1..])
  }

  // ---------------------------------------------------------------- add

  /** Appending a record whose id is fresh keeps the ids distinct and adds exactly that id. */
  lemma AppendFresh(s: seq<Link>, l: Link)
    requires l.id !in Ids(s)
    ensures Ids(s + [l]) == Ids(s) + {l.id}
    ensures DistinctIds(s) ==> DistinctIds(s + [l])
  {
    var t := s + [l];
    forall x | x in Ids(t) ensures x in Ids(s) + {l.id} {
      var i :| 0 <= i < |t| && t[i].id == x;
      if i < |s| { assert s[i].id == x; }
    }
    forall x | x in Ids(s) + {l.id} ensures x in Ids(t) {
      if x == l.id { assert t[|s|].id == x; }
      else { var i :| 0 <= i < |s| && s[i].id == x; assert t[i].id == x; }
    }
    assert forall i :: 0 <= i < |s| ==> s[i].id in Ids(s) && t[i] == s[i];
  }

  // ---------------------------------------------------------------- delete

  /**
   * `links.filter(link => link.id !== id)`. Every record with another id is
   * kept exactly as often as before and none with the given id survives.
   */
  function Removed(s: seq<Link>, id: string): (r: seq<Link>)
    ensures |r| <= |s|
    ensures forall l :: multiset(r)[l] == if l.id == id then 0 else multiset(s)[l]
  {
    if s == [] then []
    else
      assert s == [s[0]] + s[1..];
      if s[0].id == id then Removed(s[1..], id)
      else [s[0]] + Removed(s[1..], id)
  }

  /** Deleting keeps the surviving records in their original relative order. */
  lemma {:induction false} RemovedIsSubsequence(s: seq<Link>, id: string)
    ensures Subsequence(Removed(s, id), s)
  {
    if s != [] {
      RemovedIsSubsequence(s[1..], id);
      var r := Removed(s, id);
      if s[0].id != id {
        assert r[0] == s[0] && r[1..] == Removed(s[1..], id);
      }
    }
  }

  /** A subsequence never holds a record more often than the sequence it is taken from. */
  lemma {:induction false} SubsequenceCounts(r: seq<Link>, s: seq<Link>)
    requires Subsequence(r, s)
    ensures multiset(r) <= multiset(s)
    decreases |s|
  {
    if r != [] {
      assert s == [s[0]] + s[1..];
      if r[0] == s[0] && Subsequence(r[1..], s[1..]) {
        SubsequenceCounts(r[1..], s[1..]);
        assert r == [r[0]] + r[1..];
      } else {
        SubsequenceCounts(r, s[1..]);
      }
    }
  }

  /**
   * The contract of Removed together with order preservation determine the
   * result completely: any subsequence of `s` that keeps each record with
   * another id as often as `s` does, and no record with `id`, is Removed(s, id).
   */
  lemma {:induction false} RemovedIsUnique(s: seq<Link>, id: string, r: seq<Link>)
    requires Subsequence(r, s)
    requires forall l :: multiset(r)[l] == if l.id == id then 0 else multiset(s)[l]
    ensures r == Removed(s, id)
  {
    if s == [] {
    } else {
      var x, t := s[0], s[1..];
      assert s == [x] + t;
      if x.id == id {
        assert multiset(r)[x] == 0;
        assert Subsequence(r, t) by {
          if r != [] { assert r[0] in multiset(r); }
        }
        forall l ensures multiset(r)[l] == if l.id == id then 0 else multiset(t)[l] {
          if l.id != id { assert l != x; }
        }
        RemovedIsUnique(t, id, r);
      } else {
        assert multiset(r)[x] == multiset(t)[x] + 1;
        assert r != [];
        assert r[0] == x && Subsequence(r[1..], t) by {
          if !(r[0] == x && Subsequence(r[1..], t)) {
            SubsequenceCounts(r, t);
            assert false;
          }
        }
        assert r == [x] + r[1..];
        forall l ensures multiset(r[1..])[l] == if l.id == id then 0 else multiset(t)[l] {
          assert multiset(r)[l] == multiset([x])[l] + multiset(r[1..])[l];
        }
        RemovedIsUnique(t, id, r[1..]);
      }
    }
  }

  /** The ids of a collection with a first record. */
  lemma IdsCons(x: Link, t: seq<Link>)
    ensures Ids([x] + t) == {x.id} + Ids(t)
  {
    var s := [x] + t;
    forall y | y in Ids(s) ensures y in {x.id} + Ids(t) {
      var i :| 0 <= i < |s| && s[i].id == y;
      assert i == 0 || t[i - 1].id == y;
    }
    assert s[0].id == x.id;
    forall y | y in Ids(t) ensures y in Ids(s) {
      var i :| 0 <= i < |t| && t[i].id == y;
      assert s[i + 1].id == y;
    }
  }

  /** A collection with a first record has distinct ids exactly when its rest does and lacks that record's id. */
  lemma DistinctCons(x: Link, t: seq<Link>)
    ensures DistinctIds([x] + t) <==> DistinctIds(t) && x.id !in Ids(t)
  {
    var s := [x] + t;
    assert s[0] == x;
    assert forall i :: 0 <= i < |t| ==> s[i + 1] == t[i];
    if DistinctIds(s) {
      forall i | 0 <= i < |t| ensures t[i].id != x.id {
        assert s[i + 1].id == t[i].id;
      }
      forall i, j | 0 <= i < |t| && 0 <= j < |t| && t[i].id == t[j].id ensures i == j {
        assert s[i + 1].id == s[j + 1].id;
      }
    }
    if DistinctIds(t) && x.id !in Ids(t) {
      assert forall i :: 0 <= i < |t| ==> t[i].id in Ids(t);
      forall i, j | 0 <= i < |s| && 0 <= j < |s| && s[i].id == s[j].id ensures i == j {
        assert i == 0 || s[i].id == t[i - 1].id;
        assert j == 0 || s[j].id == t[j - 1].id;
      }
    }
  }

  /** Deleting an id that is not present leaves the collection unchanged. */
  lemma {:induction false} RemovedMissing(s: seq<Link>, id: string)
    requires id !in Ids(s)
    ensures Removed(s, id) == s
  {
    if s != [] {
      assert s == [s[0]] + s[1..];
      IdsCons(s[0], s[1..]);
      RemovedMissing(s[1..], id);
    }
  }

  /** Deleting twice is deleting once. */
  lemma RemovedIdempotent(s: seq<Link>, id: string)
    ensures Removed(Removed(s, id), id) == Removed(s, id)
  {
    var r := Removed(s, id);
    assert forall i :: 0 <= i < |r| ==> multiset(r)[r[i]] > 0;
    RemovedMissing(r, id);
  }

  /** The ids after deleting are the old ids without the deleted one. */
  lemma RemovedIds(s: seq<Link>, id: string)
    ensures Ids(Removed(s, id)) == Ids(s) - {id}
  {
  }

  /**
   * With distinct ids, deleting removes exactly one record when the id is
   * present and none otherwise, and the ids stay distinct.
   */
  lemma {:induction false} RemovedDistinct(s: seq<Link>, id: string)
    requires DistinctIds(s)
    ensures DistinctIds(Removed(s, id))
    ensures |Removed(s, id)| == if id in Ids(s) then |s| - 1 else |s|
  {
    if s != [] {
      var x, t := s[0], s[1..];
      assert s == [x] + t;
      IdsCons(x, t);
      DistinctCons(x, t);
      RemovedDistinct(t, id);
      if x.id == id {
        RemovedMissing(t, id);
      } else {
        RemovedIds(t, id);
        DistinctCons(x, Removed(t, id));
      }
    }
  }

  // ---------------------------------------------------------------- update

  /**
   * `links.map(link => link.id === u.id ? u : link)`: same length, and each
   * position holds `u` where the old record had `u`'s id and the old record
   * everywhere else.
   */
  function Replaced(s: seq<Link>, u: Link): (r: seq<Link>)
    ensures |r| == |s|
    ensures forall i :: 0 <= i < |s| ==> r[i] == if s[i].id == u.id then u else s[i]
  {
    if s == [] then []
    else [if s[0].id == u.id then u else s[0]] + Replaced(s[1..], u)
  }

  /** Updating with an id that is not present leaves the collection unchanged. */
  lemma ReplacedMissing(s: seq<Link>, u: Link)
    requires u.id !in Ids(s)
    ensures Replaced(s, u) == s
  {
  }

  /** Updating never changes which ids are present, so distinct ids stay distinct. */
  lemma ReplacedIds(s: seq<Link>, u: Link)
    ensures Ids(Replaced(s, u)) == Ids(s)
    ensures DistinctIds(s) ==> DistinctIds(Replaced(s, u))
  {
  }

  /**
   * An edit keeps the record's id, so when ids are distinct, saving the
   * edited copy of the record at position `k` puts it back at position `k`
   * and leaves every other position as it was.
   */
  lemma EditedStaysInPlace(s: seq<Link>, k: nat, title: string, url: string)
    requires DistinctIds(s) && k < |s|
    ensures Replaced(s, s[k].(title := title, url := url)) == s[k := s[k].(title := title, url := url)]
  {
  }
}
