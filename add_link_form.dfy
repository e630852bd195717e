/**
 * The "add a new link" form: two text fields and an inline error, and the
 * submit handler that validates them and hands them to the application.
 */
module AddLinkForm {
  import opened Wrappers
  import opened Validation

  /** The arguments of one `onAddLink(url, title)` call, in that order. */
  datatype AddRequest = AddRequest(url: string, title: string)

  class FormState {
    var url: string
    var title: string
    var error: string

    /** Mounting: both fields and the error start empty. */
    constructor ()
      ensures url == "" && title == "" && error == NoError
    {
      url, title, error := "", "", NoError;
    }

    /** Typing in the URL field. */
    method SetUrl(value: string)
      modifies this`url
      ensures url == value
    {
      url := value;
    }

    /** Typing in the title field. */
    method SetTitle(value: string)
      modifies this`title
      ensures title == value
    {
      title := value;
    }

    /**
     * Submitting the form. `parses(u)` tells whether `new URL(u)` succeeds.
     * The result is the `onAddLink` call made (None: the callback is not
     * called). The blank check comes first, so a blank field never yields the
     * invalid-URL message; only a successful submit clears the fields, and the
     * callback receives the values as typed, untrimmed.
     */
    method Submit(parses: string -> bool) returns (added: Option<AddRequest>)
      modifies this
      ensures IsBlank(old(url)) || IsBlank(old(title)) ==>
                error == RequiredMessage && added == None
                && url == old(url) && title == old(title)
      ensures !IsBlank(old(url)) && !IsBlank(old(title)) && !parses(old(url)) ==>
                error == InvalidUrlMessage && added == None
                && url == old(url) && title == old(title)
      ensures !IsBlank(old(url)) && !IsBlank(old(title)) && parses(old(url)) ==>
                error == NoError && added == Some(AddRequest(old(url), old(title)))
                && url == "" && title == ""
    {
      if Trim(url) == [] || Trim(title) == [] {
        error := RequiredMessage;
        return None;
      }
      if !parses(url) {
        error := InvalidUrlMessage;
        return None;
      }
      error := NoError;
      added := Some(AddRequest(url, title));
      url := "";
      title := "";
    }
  }
}
