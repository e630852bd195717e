# Link Collector — a Dafny model

Link Collector is a single-page bookmark manager. The user adds, edits and
deletes links, each a record `{id, url, title}`. The application keeps them
as an ordered collection, together with the link currently selected for
editing, if any. Two forms feed it:

- the add form, which validates a title and a URL and then asks the
  application to append a new link;
- the edit modal, which is pre-filled from the selected link, validates the
  edited fields and hands back the edited record.

It is modelled in six modules:

- `Links`: the record, and the three pure list transforms the application
  applies: append, filter by id, and map-replace by id. Lemmas cover order,
  contents, ids and the no-op cases.
- `Validation`: JavaScript's `String.prototype.trim` over the ECMAScript
  whitespace and line-terminator characters, the blank test `!s.trim()`, and
  the two error messages, which the forms share.
- `AddLinkForm.FormState`, `EditLinkModal.ModalState`: the two components'
  state (`url`, `title`, `error`, and the modal's `link` prop) as classes.
  Their submit handlers are methods that follow the source's early-return
  sequence. Each return value is the callback invocation made: `None` means
  the callback was not called, `Some(args)` means it was called once with
  `args`.
- `Wrappers`: the shared `Option` type.
- `App.AppState`: `links` and `editingLink` as fields, the five handlers as
  methods, and the wiring of the two forms to those handlers. Two client
  methods compose whole interactions.

Foreign calls become parameters:

- Whether `new URL(u)` succeeds (the WHATWG URL parser) is the function
  parameter `parses: string -> bool`.
- The fresh id from `crypto.randomUUID()` is a parameter, and `AddLink`
  requires it not to be among the current ids.

The callbacks receive the fields as typed, untrimmed: the trimmed values are
used only for the blank test.

## Model

| member | source | states |
|---|---|---|
| App.AppState.constructor | App.tsx:11-12 | the collection starts as what the persistence hook yields and nothing is selected for editing |
| App.AppState.AddLink | App.tsx:14-21 | the new collection is the old one followed by `Link(id, url, title)`; the set of ids grows by exactly `id`; distinct ids stay distinct; the edit selection is untouched |
| Links.AppendFresh | App.tsx:15-20 | appending a record whose id is not present adds exactly that id and keeps ids pairwise distinct |
| App.AppState.DeleteLink | App.tsx:23-25 | the new collection is `Removed(old, id)`: the id is gone from the ids, the rest keep their relative order, a missing id changes nothing, distinct ids stay distinct, the selection is untouched |
| Links.Removed | App.tsx:24 | no record with the id survives and every other record occurs exactly as often as before (multiset count) |
| Links.RemovedIsSubsequence | App.tsx:24 | the surviving records keep their original relative order |
| Links.SubsequenceCounts | App.tsx:24 | a subsequence holds each record at most as often as the sequence it is taken from |
| Links.RemovedIsUnique | App.tsx:24 | any subsequence of the collection holding each other-id record as often as before and none with the id equals `Removed`: the contract fixes the result completely |
| Links.RemovedMissing | App.tsx:24 | deleting an id that is not present leaves the collection unchanged |
| Links.RemovedIdempotent | App.tsx:24 | deleting the same id twice is the same as deleting it once |
| Links.RemovedIds | App.tsx:24 | the ids after deleting are the old ids minus the deleted one |
| Links.RemovedDistinct | App.tsx:24 | with distinct ids, deleting keeps them distinct and shortens the collection by one exactly when the id was present |
| Links.IdsCons | App.tsx:24 | the ids of `[x] + t` are `x.id` plus those of `t` |
| Links.DistinctCons | App.tsx:24 | the ids of `[x] + t` are distinct exactly when `t`'s are and `x.id` is not among them |
| App.AppState.UpdateLink | App.tsx:27-30 | the new collection is `Replaced(old, u)`; the ids are unchanged; a missing id leaves the collection as it was; the selection is cleared and the modal hidden in every case |
| Links.Replaced | App.tsx:28 | same length; each position holds `u` where the old record had `u`'s id and the old record everywhere else |
| Links.ReplacedMissing | App.tsx:28 | updating with an id that is not present leaves the collection unchanged |
| Links.ReplacedIds | App.tsx:28 | updating never changes the set of ids, so distinct ids stay distinct |
| App.AppState.OpenEditModal | App.tsx:32-34 | the selection becomes the given link, so the modal is shown; the collection is untouched |
| App.AppState.CloseEditModal | App.tsx:36-38 | the selection is cleared, so the modal is hidden; the collection is untouched |
| App.AppState.ModalShown | App.tsx:77-83 | the modal is rendered exactly when a link is selected |
| App.AppState.SubmitAddForm | App.tsx:53 | a submit of the add form, whose callback is `addLink`, appends the typed record exactly when both fields are non-blank and the URL parses, and otherwise leaves the collection as it was; the form then shows the required-fields error, the invalid-URL error or no error by the same cases, and its fields are cleared exactly on success |
| App.AppState.SubmitEditModal | App.tsx:77-83 | the modal is shown for the selected link and its callback is `updateLink`: an accepted submit replaces the link by its edited copy and closes the modal; a rejected one changes nothing in the application; the modal's error is the required-fields message, the invalid-URL message or empty by the same three cases |
| App.Scenario | App.tsx:14-30 | adding A then B, deleting A and retitling B leaves exactly `[B retitled]` |
| App.EditInPlace | components/EditLinkModal.tsx:22-35 | with distinct ids, opening the record at position `k`, retyping its title and saving yields the collection with only position `k` changed to the retitled record, and the modal closed |
| Links.EditedStaysInPlace | components/EditLinkModal.tsx:35 | with distinct ids, replacing by an edited copy of the record at `k` (same id) changes position `k` only |
| Validation.TrimStart | components/AddLinkForm.tsx:16 | the result is a suffix of the input not starting with whitespace, and everything cut is whitespace |
| Validation.TrimEnd | components/AddLinkForm.tsx:16 | the result is a prefix of the input not ending with whitespace, and everything cut is whitespace |
| Validation.Trim | components/AddLinkForm.tsx:16 | the trimmed string starts and ends with non-whitespace, and is empty, so `!s.trim()` holds, exactly when the input is blank |
| Validation.TrimIsSlice | components/EditLinkModal.tsx:24 | the trimmed string is a slice of the input with only whitespace cut away on either side |
| AddLinkForm.FormState.constructor | components/AddLinkForm.tsx:10-12 | both fields and the error start empty |
| AddLinkForm.FormState.SetTitle | components/AddLinkForm.tsx:42 | typing sets the title field |
| AddLinkForm.FormState.SetUrl | components/AddLinkForm.tsx:53 | typing sets the URL field |
| AddLinkForm.FormState.Submit | components/AddLinkForm.tsx:14-31 | with a blank field: the required-fields error, no callback, fields kept. Both non-blank and the URL not parsing: the invalid-URL error, no callback, fields kept. Both non-blank and the URL parsing: error cleared, exactly one `onAddLink(url, title)` call with the untrimmed values in that order, both fields reset to empty |
| EditLinkModal.ModalState.constructor | components/EditLinkModal.tsx:13-15 | the fields start as the link's title and URL and the error is empty |
| EditLinkModal.ModalState.LinkChanged | components/EditLinkModal.tsx:17-20 | when the modal is given another link, both fields are reset to its title and URL and the error is left as it was |
| EditLinkModal.ModalState.SetTitle | components/EditLinkModal.tsx:60 | typing sets the title field |
| EditLinkModal.ModalState.SetUrl | components/EditLinkModal.tsx:70 | typing sets the URL field |
| EditLinkModal.ModalState.Submit | components/EditLinkModal.tsx:22-36 | blank field: the required-fields error and no callback. Both non-blank and the URL not parsing: the invalid-URL error and no callback. Otherwise: error cleared and exactly one `onUpdateLink` call with the link's id and the current untrimmed title and URL. Link and fields are never changed, unlike the add form |

## Left out

- Rendering, styling, icons, the overlay's click handling and `stopPropagation`: presentation only, with nothing to state.
- The persistence hook (`hooks/useLocalStorage`) and its JSON encoding and decoding: that file is not part of this model. The application's constructor takes the collection the hook yields as a parameter, and the JSON round trip is not modelled.
- `crypto.randomUUID`: randomness. The id is a parameter with a freshness precondition.
- The URL parser behind `new URL(u)`: a foreign implementation of the WHATWG URL Standard. It is the parameter `parses`, so its rules are not modelled.
- `components/LinkCard.tsx`: the favicon URL depends on the URL parser's `hostname`, the image fallback is a network event, and the two buttons only forward `link` or `link.id` to `openEditModal` and `deleteLink`.
- EditLinkModal.ModalState.LinkChanged: the model states what the effect does, not when React runs it. React runs it on mount and whenever the `link` prop changes by reference identity, and records have no identity here.
- React's batching of state updates and stale closures (for example `addLink` reading `links` instead of using a functional update): scheduling, outside a sequential model. Each handler here reads the state as it is when it runs.
- Trim: the whitespace set is ECMAScript's as of current Unicode. Strings are sequences of code points, not of UTF-16 units, which matters for no whitespace character.
- The browser's own constraint validation: both URL inputs are `type="url"` (components/AddLinkForm.tsx:51, components/EditLinkModal.tsx:68) and neither form sets `noValidate`, so the browser may refuse a submit before the handler runs, and it strips ASCII whitespace from a URL input's value. The model starts at the handler, with the field values as the handler reads them.
