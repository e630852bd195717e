/**
 * What the add form and the edit modal share: JavaScript's String.prototype.trim,
 * the "blank" test `!s.trim()`, and the two inline error messages.
 */
module Validation {

  /** Shown when the URL or the title is blank. */
  const RequiredMessage: string := "URL과 제목을 모두 입력해주세요."
  /** Shown when the URL does not parse. */
  const InvalidUrlMessage: string := "유효한 URL을 입력해주세요."
  /** No error is displayed. */
  const NoError: string := ""

  /**
   * The characters `trim` strips: ECMAScript's WhiteSpace (tab, vertical tab,
   * form feed, zero-width no-break space and the space separators of Unicode)
   * and LineTerminator (line feed, carriage return, line and paragraph separator).
   */
  const WhitespaceChars: set<char> := {
    '\t', '\n', '\r', '\U{000B}', '\U{000C}', ' ', '\U{00A0}', '\U{1680}',
    '\U{2000}', '\U{2001}', '\U{2002}', '\U{2003}', '\U{2004}', '\U{2005}',
    '\U{2006}', '\U{2007}', '\U{2008}', '\U{2009}', '\U{200A}', '\U{2028}',
    '\U{2029}', '\U{202F}', '\U{205F}', '\U{3000}', '\U{FEFF}'
  }

  predicate IsWhitespace(c: char)
  {
    c in WhitespaceChars
  }

  /** Only whitespace, or nothing at all. */
  predicate IsBlank(s: string)
  {
    forall k :: 0 <= k < |s| ==> IsWhitespace(s[k])
  }

  /** `s` with its leading whitespace removed: a suffix of `s`. */
  function TrimStart(s: string): (r: string)
    ensures |r| <= |s| && r == s[|s| - |r|..]
    ensures r == [] || !IsWhitespace(r[0])
    ensures IsBlank(s[..|s| - |r|])
  {
    if s != [] && IsWhitespace(s[0]) then TrimStart(s[1..]) else s
  }

  /** `s` with its trailing whitespace removed: a prefix of `s`. */
  function TrimEnd(s: string): (r: string)
    ensures |r| <= |s| && r == s[..|r|]
    ensures r == [] || !IsWhitespace(r[|r| - 1])
    ensures IsBlank(s[|r|..])
  {
    if s != [] && IsWhitespace(s[|s| - 1]) then TrimEnd(s[..|s| - 1]) else s
  }

  /**
   * `s.trim()`: what is left of `s` after cutting whitespace from both ends.
   * It begins and ends with a non-whitespace character, and it is empty
   * (so that the source's `!s.trim()` holds) exactly when `s` is blank.
   */
  function Trim(s: string): (r: string)
    ensures r == [] || (!IsWhitespace(r[0]) && !IsWhitespace(r[|r| - 1]))
    ensures r == [] <==> IsBlank(s)
  {
    var t := TrimStart(s);
    var r := TrimEnd(t);
    assert r == [] || r[0] == t[0];
    assert r == [] ==> s == s[..|s| - |t|] + t[|r|..];
    assert r != [] ==> s[|s| - |t|] == r[0];
    r
  }

  /** What `trim` keeps is a slice of `s` with only whitespace cut away on either side. */
  lemma TrimIsSlice(s: string)
    ensures exists i :: 0 <= i <= |s| && IsBlank(s[..i]) && Trim(s) <= s[i..]
                        && IsBlank(s[i..][|Trim(s)|..])
  {
    var t := TrimStart(s);
    var r := TrimEnd(t);
    var i := |s| - |t|;
    assert Trim(s) == r;
    assert t == s[i..] && IsBlank(s[..i]);
    assert r <= t && IsBlank(t[|r|..]);
  }
}
