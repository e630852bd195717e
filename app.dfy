/**
 * The top-level application state: the ordered collection of links and the
 * link currently being edited (if any), the handlers that change them, and
 * the wiring of the add form and the edit modal to those handlers.
 */
module App {
  import opened Wrappers
  import opened Links
  import opened Validation
  import AddLinkForm
  import EditLinkModal

  class AppState {
    var links: seq<Link>
    /** `editingLink`: None, or the link the edit modal is open for. */
    var editing: Option<Link>

    /**
     * Mounting. `stored` is what the persistence hook yields: the saved
     * collection, or the empty default. Nothing is being edited.
     */
    constructor (stored: seq<Link>)
      ensures links == stored && editing == None
    {
      links, editing := stored, None;
    }

    /** The edit modal is rendered exactly when a link is selected for editing. */
    predicate ModalShown()
      reads this
    {
      editing.Some?
    }

    /**
     * `addLink`: appends a record with the fresh id `id` (drawn from
     * `crypto.randomUUID` in the application) and the given URL and title.
     */
    method AddLink(url: string, title: string, id: string)
      requires id !in Ids(links)
      modifies this
      ensures links == old(links) + [Link(id, url, title)]
      ensures Ids(links) == Ids(old(links)) + {id}
      ensures DistinctIds(old(links)) ==> DistinctIds(links)
      ensures editing == old(editing)
    {
      AppendFresh(links, Link(id, url, title));
      links := links + [Link(id, url, title)];
    }

    /**
     * `deleteLink`: drops every record with the id; the rest keep their
     * relative order, and an id that is not present changes nothing.
     */
    method DeleteLink(id: string)
      modifies this
      ensures links == Removed(old(links), id)
      ensures Ids(links) == Ids(old(links)) - {id}
      ensures Subsequence(links, old(links))
      ensures id !in Ids(old(links)) ==> links == old(links)
      ensures DistinctIds(old(links)) ==> DistinctIds(links)
      ensures editing == old(editing)
    {
      RemovedIds(links, id);
      RemovedIsSubsequence(links, id);
      if id !in Ids(links) {
        RemovedMissing(links, id);
      }
      if DistinctIds(links) {
        RemovedDistinct(links, id);
      }
      links := Removed(links, id);
    }

    /**
     * `updateLink`: replaces the records with `u`'s id by `u` in place, and
     * always closes the modal.
     */
    method UpdateLink(u: Link)
      modifies this
      ensures links == Replaced(old(links), u)
      ensures Ids(links) == Ids(old(links))
      ensures u.id !in Ids(old(links)) ==> links == old(links)
      ensures DistinctIds(old(links)) ==> DistinctIds(links)
      ensures editing == None && !ModalShown()
    {
      ReplacedIds(links, u);
      if u.id !in Ids(links) {
        ReplacedMissing(links, u);
      }
      links := Replaced(links, u);
      editing := None;
    }

    /** `openEditModal`: selects `l` for editing, which shows the modal. */
    method OpenEditModal(l: Link)
      modifies this`editing
      ensures editing == Some(l) && ModalShown()
    {
      editing := Some(l);
    }

    /** `closeEditModal`: clears the selection, which hides the modal. */
    method CloseEditModal()
      modifies this`editing
      ensures editing == None && !ModalShown()
    {
      editing := None;
    }

    /**
     * Submitting the add form, whose `onAddLink` is `addLink`: the collection
     * grows by the typed record exactly when the form accepts its input, and
     * the form shows the matching error, clearing its fields only on success.
     */
    method SubmitAddForm(form: AddLinkForm.FormState, parses: string -> bool, id: string)
      requires id !in Ids(links)
      modifies this, form
      ensures var accepted := !IsBlank(old(form.url)) && !IsBlank(old(form.title)) && parses(old(form.url));
              links == if accepted then old(links) + [Link(id, old(form.url), old(form.title))]
                       else old(links)
      ensures editing == old(editing)
      ensures IsBlank(old(form.url)) || IsBlank(old(form.title)) ==>
                form.error == RequiredMessage
                && form.url == old(form.url) && form.title == old(form.title)
      ensures !IsBlank(old(form.url)) && !IsBlank(old(form.title)) && !parses(old(form.url)) ==>
                form.error == InvalidUrlMessage
                && form.url == old(form.url) && form.title == old(form.title)
      ensures !IsBlank(old(form.url)) && !IsBlank(old(form.title)) && parses(old(form.url)) ==>
                form.error == NoError && form.url == "" && form.title == ""
    {
      var added := form.Submit(parses);
      if added.Some? {
        AddLink(added.value.url, added.value.title, id);
      }
    }

    /**
     * Submitting the edit modal, which is shown for `editing` and whose
     * `onUpdateLink` is `updateLink`: when the modal accepts its input the
     * edited copy of the link replaces it and the modal closes; otherwise
     * nothing in the application changes. The modal shows the matching error.
     */
    method SubmitEditModal(modal: EditLinkModal.ModalState, parses: string -> bool)
      requires editing == Some(modal.link)
      modifies this, modal`error
      ensures var accepted := !IsBlank(modal.url) && !IsBlank(modal.title) && parses(modal.url);
              if accepted then
                links == Replaced(old(links), modal.link.(title := modal.title, url := modal.url))
                && editing == None
              else links == old(links) && editing == old(editing)
      ensures IsBlank(modal.url) || IsBlank(modal.title) ==> modal.error == RequiredMessage
      ensures !IsBlank(modal.url) && !IsBlank(modal.title) && !parses(modal.url) ==>
                modal.error == InvalidUrlMessage
      ensures !IsBlank(modal.url) && !IsBlank(modal.title) && parses(modal.url) ==>
                modal.error == NoError
    {
      var updated := modal.Submit(parses);
      if updated.Some? {
        UpdateLink(updated.value);
      }
    }
  }

  /**
   * A run of the application: add A, add B after it, delete A, then retitle
   * B; what is left is B alone, retitled.
   */
  method Scenario(a: string, b: string) returns (final: seq<Link>)
    requires a != b
    ensures final == [Link(b, "https://b.com", "B2")]
  {
    var app := new AppState([]);
    app.AddLink("https://a.com", "A", a);
    app.AddLink("https://b.com", "B", b);
    assert app.links == [Link(a, "https://a.com", "A"), Link(b, "https://b.com", "B")];
    app.DeleteLink(a);
    assert app.links == [Link(b, "https://b.com", "B")];
    app.UpdateLink(Link(b, "https://b.com", "B2"));
    final := app.links;
  }

  /**
   * Editing through the modal: open the record at position `k`, retype its
   * title and save. When the new title is not blank and the URL parses, the
   * edited record replaces the old one at the same position, nothing else
   * moves, and the modal closes.
   */
  method EditInPlace(stored: seq<Link>, k: nat, newTitle: string, parses: string -> bool)
    returns (final: seq<Link>, shown: bool)
    requires DistinctIds(stored) && k < |stored|
    requires !IsBlank(stored[k].url) && !IsBlank(newTitle) && parses(stored[k].url)
    ensures final == stored[k := stored[k].(title := newTitle)]
    ensures !shown
  {
    var app := new AppState(stored);
    app.OpenEditModal(stored[k]);
    var modal := new EditLinkModal.ModalState(stored[k]);
    modal.SetTitle(newTitle);
    ghost var edited := stored[k].(title := newTitle, url := stored[k].url);
    assert app.links == stored && app.editing == Some(modal.link);
    assert modal.link.(title := modal.title, url := modal.url) == edited;
    assert !IsBlank(modal.url) && !IsBlank(modal.title) && parses(modal.url);
    app.SubmitEditModal(modal, parses);
    assert app.links == Replaced(stored, edited) && app.editing == None;
    EditedStaysInPlace(stored, k, newTitle, stored[k].url);
    final, shown := app.links, app.ModalShown();
  }
}
