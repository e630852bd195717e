/**
 * The "edit a link" modal: two text fields pre-filled from the link being
 * edited, an inline error, and the submit handler that validates them and
 * hands back the edited record.
 */
module EditLinkModal {
  import opened Wrappers
  import opened Links
  import opened Validation

  class ModalState {
    /** The `link` the modal was given. */
    var link: Link
    var title: string
    var url: string
    var error: string

    /** Mounting: the fields start as the link's title and URL, with no error. */
    constructor (link: Link)
      ensures this.link == link
      ensures title == link.title && url == link.url && error == NoError
    {
      this.link := link;
      title, url, error := link.title, link.url, NoError;
    }

    /**
     * The effect that runs when the modal is given another link: both fields
     * are reset to the new link's values; the error is left as it was.
     */
    method LinkChanged(newLink: Link)
      modifies this`link, this`title, this`url
      ensures link == newLink && title == newLink.title && url == newLink.url
      ensures error == old(error)
    {
      link := newLink;
      title := newLink.title;
      url := newLink.url;
    }

    /** Typing in the title field. */
    method SetTitle(value: string)
      modifies this`title
      ensures title == value
    {
      title := value;
    }

    /** Typing in the URL field. */
    method SetUrl(value: string)
      modifies this`url
      ensures url == value
    {
      url := value;
    }

    /**
     * Submitting the modal. `parses(u)` tells whether `new URL(u)` succeeds.
     * The result is the `onUpdateLink` call made (None: it is not called).
     * Only the error changes: unlike the add form, a successful submit keeps
     * the fields. The record handed back keeps the link's id and carries the
     * fields as typed, untrimmed.
     */
    method Submit(parses: string -> bool) returns (updated: Option<Link>)
      modifies this`error
      ensures link == old(link) && title == old(title) && url == old(url)
      ensures IsBlank(url) || IsBlank(title) ==>
                error == RequiredMessage && updated == None
      ensures !IsBlank(url) && !IsBlank(title) && !parses(url) ==>
                error == InvalidUrlMessage && updated == None
      ensures !IsBlank(url) && !IsBlank(title) && parses(url) ==>
                error == NoError && updated == Some(link.(title := title, url := url))
                && updated.value.id == link.id
    {
      if Trim(url) == [] || Trim(title) == [] {
        error := RequiredMessage;
        return None;
      }
      if !parses(url) {
        error := InvalidUrlMessage;
        return None;
      }
      error := NoError;
      updated := Some(link.(title := title, url := url));
    }
  }
}
