# instaEXT core, modelled in Dafny

instaEXT is a small React application. The user selects up to twenty
screenshots. The application sends each one to an extraction service, which
returns the Instagram usernames it found. The application then shows the
usernames per image as editable tags, each linking to the profile, and offers a
"copy all links" button. This project models the application's state logic and
proves properties of it:

- `types.dfy` (module `Types`): the values shared by every part.
  - A `File` is modelled by its name, MIME type and size.
  - A `ProcessedImageResult` pairs a file with its usernames.
  - A thrown value is either an `Error` with a message or anything else.
  - One extraction call settles either with a username list or with a thrown value.
- `strings.dfy` (module `JsStrings`): the JavaScript string operations the code relies on.
  - `trim`, over the full ECMAScript whitespace and line-terminator set.
  - `startsWith` and `includes`.
  - `toLowerCase`, for ASCII letters only.
  - `replace(/^@/, '')`.
  - `join` with a one-character separator, and the `split` that undoes it.
- `batch.dfy` (module `Batch`): `handleProcessImages`'s joining of the per-file calls with
  `Promise.all`, and the classification of a failure into the one message shown.
  - `Promise.all` is a function of the calls' outcomes and the order in which they
    settled. A rejection is therefore reported as the first one to settle.
  - The model also includes the service's rethrow wrapper. Its prefix is what the
    classification then sees.
- `edits.dfy` (module `Edits`): the two copy-on-write updates of the result list
  (update and delete a username), as the values the state updaters return.
- `app.dfy` (module `App`): the application's state (`results`, `isLoading`,
  `error`) as a class whose three handler methods change it.
- `results_view.dfy` (module `ResultsView`):
  - what the result view derives from the list: the username total, the copied
    text, and the address each tag reports its edits with;
  - the edit state machine of one username tag, as a class.
- `uploader.dfy` (module `Uploader`):
  - the image filter and the `MAX_FILES` cut;
  - the upload panel's state (selected files, drag highlight) as a class.

In these cases the code's behaviour may be surprising; the model follows the code:

- An update or delete at an image index outside the list makes the state updater
  throw: the copied entry has no `usernames`, and spreading that undefined value
  into a new array raises a TypeError; it is not a no-op. The
  methods therefore require a valid image index. A username index past the end of
  the list is handled as the code does: `splice` removes nothing, and an
  assignment one past the end appends.
- `handleUpdateUsername` does not skip a value equal to the current one. It
  rewrites the entry anyway. Only the tag's save handler skips an unchanged
  value (`ResultsView.SaveRequest`).
- A username is not always non-empty. The update "@" stores the empty string
  (`Edits.UpdateWithLoneAtStoresEmpty`).

## Model

| member | source | states |
|---|---|---|
| JsStrings.TrimStartSpec | instaEXT/App.tsx:52 | trim's leading pass keeps a suffix of the input, drops only whitespace, and leaves no leading whitespace |
| JsStrings.TrimEndSpec | instaEXT/App.tsx:52 | trim's trailing pass keeps a prefix of the input, drops only whitespace, and leaves no trailing whitespace |
| JsStrings.TrimRemovesOnlyWhitespace | instaEXT/components/ResultsDisplay.tsx:30 | `trim()` returns a contiguous slice of its input; everything outside it is whitespace, and the result neither starts nor ends with whitespace |
| JsStrings.BlankIffAllWhitespace | instaEXT/App.tsx:52 | `!s.trim()` holds exactly when every character of `s` is whitespace (both directions) |
| JsStrings.Trim | instaEXT/App.tsx:52 | `.trim()`: characterised by TrimRemovesOnlyWhitespace (a contiguous slice, only whitespace removed, no whitespace at either end) and TrimIdempotent |
| JsStrings.IsBlank | instaEXT/App.tsx:52 | `!s.trim()`: characterised by BlankIffAllWhitespace (blank exactly when every character is whitespace) |
| JsStrings.NotBlankWithNonWhitespace | instaEXT/App.tsx:52 | one non-whitespace character makes a value non-blank, so it is not treated as a delete |
| JsStrings.TrimIdempotent | instaEXT/components/ResultsDisplay.tsx:30-31 | trimming an already trimmed value changes nothing |
| JsStrings.TrimmedNonEmptyIsNotBlank | instaEXT/components/ResultsDisplay.tsx:30-31 | a non-empty trimmed value passes the application's non-blank test |
| JsStrings.Includes | instaEXT/App.tsx:38 | `includes` holds exactly when the substring occurs at some position (both directions) |
| JsStrings.ToLowerCase | instaEXT/App.tsx:37 | lower-casing keeps the length and maps every character independently |
| JsStrings.LowerCaseSlice | instaEXT/App.tsx:37 | lower-casing commutes with slicing |
| JsStrings.LowerCaseAppend | instaEXT/App.tsx:37 | lower-casing distributes over concatenation |
| JsStrings.StripLeadingAt | instaEXT/App.tsx:61 | `replace(/^@/, '')` gives back the input or the input without one leading '@', and is one shorter exactly when the input starts with '@' |
| JsStrings.Join | instaEXT/components/ResultsDisplay.tsx:135 | `.join('\n')`: characterised by SplitJoin (split undoes it), JoinSplitsAt, JoinStartsWithFirst and JoinContainsEveryPart |
| JsStrings.SplitJoin | instaEXT/components/ResultsDisplay.tsx:132-135 | splitting joined parts on the separator gives the parts back when no part contains it |
| JsStrings.JoinSplitsAt | instaEXT/components/ResultsDisplay.tsx:135 | the joined text can be cut at any part boundary into the joins of the two halves and one separator |
| JsStrings.JoinStartsWithFirst | instaEXT/components/ResultsDisplay.tsx:135 | the joined text begins with the first part |
| JsStrings.JoinContainsEveryPart | instaEXT/components/ResultsDisplay.tsx:135 | every part occurs whole inside the joined text |
| Batch.FirstRejection | instaEXT/App.tsx:31 | none when every call in the settling order was fulfilled; otherwise the reason of the earliest rejected call in that order, all calls before it fulfilled |
| Batch.PromiseAll | instaEXT/App.tsx:24-32 | fulfilled exactly when every call is, with call p's usernames at position p; otherwise rejected with the reason of some rejected call |
| Batch.PromiseAllIgnoresSettleOrder | instaEXT/App.tsx:24-32 | when every call is fulfilled the joined result does not depend on the order in which the calls settled |
| Batch.LaterPositionCanWin | instaEXT/App.tsx:31-33 | with two rejected calls, the reported reason is the one that settled first, not the one at the lower position |
| Batch.ClassifyError | instaEXT/App.tsx:33-45 | a non-Error gives the generic message; an Error gives the API-key message when its lower-cased message mentions "api key", and its own message exactly when it does not |
| Batch.ApiKeyInAnyCase | instaEXT/App.tsx:37-39 | "api key" in any letter case at any position of the message gives the API-key message |
| Batch.ServiceFailure | instaEXT/geminiService.ts:70-77 | the service always rethrows an Error whose message starts with "Image processing failed" |
| Batch.ServiceApiKeyFailureIsClassified | instaEXT/geminiService.ts:73-74 | an API-key failure inside the service still reaches the user as the API-key message after the prefix is added |
| Batch.ServiceFailureMessageIsNotEmpty | instaEXT/geminiService.ts:73-76 | whatever the service failed with, the message the application sets is non-empty, so the error banner is shown |
| Edits.SetAt | instaEXT/App.tsx:60-61 | assignment at index j of a copy: entry j is the new value, every other entry is kept, and the length grows only when j is one past the end |
| Edits.RemoveAt | instaEXT/App.tsx:72-73 | `splice(j, 1)` on a copy: entries before j are kept, later ones move down by one; an index past the end removes nothing |
| Edits.RemoveAtInverse | instaEXT/App.tsx:73 | putting the removed entry back at j restores the list |
| Edits.RemoveAtMultiset | instaEXT/App.tsx:73 | deleting loses exactly the one entry, with multiplicities |
| Edits.DeleteUsername | instaEXT/App.tsx:68-78 | only the addressed image's usernames change (by RemoveAt); its file and every other image are kept |
| Edits.UpdateUsername | instaEXT/App.tsx:51-66 | a blank value is exactly the delete; any other value, with one leading '@' removed, is set at the address, and nothing else changes |
| Edits.UpdateKeepsShape | instaEXT/App.tsx:57-65 | an update at an existing address keeps the number of images, every image's username count, and every other username |
| Edits.UpdateOverridesUpdate | instaEXT/App.tsx:57-65 | a second update of the same entry overrides the first |
| Edits.UpdateStoresStripped | instaEXT/App.tsx:61 | a non-blank update stores the value with its leading '@' removed at exactly the addressed entry |
| Edits.UpdateStripsOneAt | instaEXT/App.tsx:61 | only one '@' is removed: "@@x" is stored as "@x" |
| Edits.UpdateDoesNotTrim | instaEXT/App.tsx:52-61 | the stored value is not trimmed, and an '@' after a space is kept: " @bob" is stored as is |
| Edits.LoneAtIsNotBlank | instaEXT/App.tsx:52-61 | "@" is not blank, and stripping its '@' leaves the empty string |
| Edits.UpdateWithLoneAtStoresEmpty | instaEXT/App.tsx:52-61 | updating with "@" stores the empty string |
| Edits.DeleteExample | instaEXT/App.tsx:68-78 | deleting entry 1 of ["a", "b", "c"] gives ["a", "c"] and leaves the other image alone |
| App.AppState.constructor | instaEXT/App.tsx:12-14 | no results, not loading, no error |
| App.AppState.ProcessImages | instaEXT/App.tsx:16-49 | an empty batch changes nothing; otherwise loading ends off, and either every file is paired in input order with its own usernames and there is no error, or the list is empty and the error is the classification of a rejected call's reason (the first to settle) |
| App.AppState.DeleteUsername | instaEXT/App.tsx:68-78 | the list becomes Edits.DeleteUsername of the old list; the loading flag and the error are untouched |
| App.AppState.UpdateUsername | instaEXT/App.tsx:51-66 | the list becomes Edits.UpdateUsername of the old list, so a blank value goes through the delete; the loading flag and the error are untouched |
| ResultsView.ProfileUrl | instaEXT/components/ResultsDisplay.tsx:67 | the link is the profile prefix followed by exactly the username, and contains a newline only if the username does |
| ResultsView.AllUsernames | instaEXT/components/ResultsDisplay.tsx:133 | `.flatMap(result => result.usernames)`: characterised by AllUsernamesAppend and UsernamePosition (image order first, then username order) |
| ResultsView.AllUsernamesAppend | instaEXT/components/ResultsDisplay.tsx:133 | flattening distributes over concatenating result lists |
| ResultsView.TotalUsernames | instaEXT/components/ResultsDisplay.tsx:127 | the left fold of username counts equals the number of flattened usernames |
| ResultsView.UsernamePosition | instaEXT/components/ResultsDisplay.tsx:132-133 | username j of image i sits in the flattened list after all the usernames of earlier images |
| ResultsView.Links | instaEXT/components/ResultsDisplay.tsx:132-134 | one link per username, in flattened order, each the profile link of that username |
| ResultsView.CopyAllText | instaEXT/components/ResultsDisplay.tsx:129-135 | nothing is copied exactly when the total is zero |
| ResultsView.CopyAllTextHasEveryLink | instaEXT/components/ResultsDisplay.tsx:129-135 | whenever some username exists, the copied text contains the profile link of every username |
| ResultsView.CopyAllTextLines | instaEXT/components/ResultsDisplay.tsx:132-135 | when no username contains a newline, the copied text's lines are exactly the links, one per username, with no trailing empty line |
| ResultsView.CopyAllExample | instaEXT/components/ResultsDisplay.tsx:132-135 | ["alice"] and ["bob", "carol"] copy as three links in that order, separated by two newlines |
| ResultsView.CardTags | instaEXT/components/ResultsDisplay.tsx:108-115 | a card renders one tag per username |
| ResultsView.Cards | instaEXT/components/ResultsDisplay.tsx:170-178 | one card per result |
| ResultsView.OnUpdate | instaEXT/components/ResultsDisplay.tsx:112 | the tag's update callback carries the tag's own (card, username) address; TagBindingAddressesItsEntry states it is (i, j) for tag j of card i |
| ResultsView.OnDelete | instaEXT/components/ResultsDisplay.tsx:113 | the tag's delete callback carries the tag's own address; TagBindingAddressesItsEntry states it is (i, j) for tag j of card i |
| ResultsView.TagBindingAddressesItsEntry | instaEXT/components/ResultsDisplay.tsx:108-113 | tag j of card i shows username (i, j), reports edits and deletes with address (i, j), and links to the same URL as that username's copied line |
| ResultsView.SaveRequest | instaEXT/components/ResultsDisplay.tsx:29-34 | an update is reported exactly when the trimmed edit is non-empty and differs from the shown username; the reported value is the trimmed edit and is never blank |
| ResultsView.SavedEditReplacesEntry | instaEXT/components/ResultsDisplay.tsx:30-31 | a reported save replaces the entry with the trimmed edit, one '@' removed, and keeps the list's length |
| ResultsView.EditableUsernameTag.constructor | instaEXT/components/ResultsDisplay.tsx:17-19 | a tag starts not editing, with the buffer holding its username |
| ResultsView.EditableUsernameTag.StartEditing | instaEXT/components/ResultsDisplay.tsx:79 | editing starts and the buffer is kept |
| ResultsView.EditableUsernameTag.Change | instaEXT/components/ResultsDisplay.tsx:55 | the buffer takes the typed value |
| ResultsView.EditableUsernameTag.Save | instaEXT/components/ResultsDisplay.tsx:29-34 | reports SaveRequest of the buffer, always ends editing, and keeps the buffer |
| ResultsView.EditableUsernameTag.Cancel | instaEXT/components/ResultsDisplay.tsx:36-39 | the buffer goes back to the username and editing ends |
| ResultsView.EditableUsernameTag.KeyDown | instaEXT/components/ResultsDisplay.tsx:41-47 | Enter behaves as Save, Escape as Cancel, and any other key changes and reports nothing |
| Uploader.IsImage | instaEXT/components/ImageUploader.tsx:20 | `file.type.startsWith('image/')`; FilterImages and SelectionIsFirstImages state every kept file satisfies it, and ImagePositions that no such file is dropped |
| Uploader.FilterImages | instaEXT/components/ImageUploader.tsx:19-20 | the kept files are all images and no more than the input |
| Uploader.ImagePositions | instaEXT/components/ImageUploader.tsx:20 | the increasing positions of exactly the image files |
| Uploader.FilterImagesAtPositions | instaEXT/components/ImageUploader.tsx:19-20 | the filter keeps exactly the files at the image positions, in order |
| Uploader.SelectFiles | instaEXT/components/ImageUploader.tsx:19-21 | the selection is the first min(MAX_FILES, number of images) filtered files |
| Uploader.SelectionIsFirstImages | instaEXT/components/ImageUploader.tsx:19-21 | the selection has at most 20 files, all images, and they are the first image files of the input in their original order |
| Uploader.NoImagesSelectsNothing | instaEXT/components/ImageUploader.tsx:19-21 | a list with no image files selects nothing |
| Uploader.ImageUploader.constructor | instaEXT/components/ImageUploader.tsx:11-12 | no files, no drag highlight |
| Uploader.ImageUploader.FileChange | instaEXT/components/ImageUploader.tsx:15-24 | a present file list, even an empty one, replaces the selection by its selection; an absent one changes nothing; the panel invariant is kept |
| Uploader.ImageUploader.Drop | instaEXT/components/ImageUploader.tsx:26-37 | the highlight goes off; a non-empty dropped list replaces the selection by its selection, otherwise it is kept |
| Uploader.ImageUploader.DragEvent | instaEXT/components/ImageUploader.tsx:39-47 | dragenter and dragover set the highlight, dragleave clears it, other events keep it; files never change |
| Uploader.ImageUploader.Clear | instaEXT/components/ImageUploader.tsx:57-62 | the selection becomes empty |
| Uploader.ImageUploader.ProcessClick | instaEXT/components/ImageUploader.tsx:53-55 | the batch handed to the processing handler is the current selection: only images, at most MAX_FILES |

## Left out

- The extraction service's body is not modelled. That covers the network call, base64 encoding, the model prompt and JSON parsing. Each call's result is a parameter (`Outcome`); only the service's rethrow wrapper is modelled (`Batch.ServiceFailure`).
- Concurrency is not modelled. The calls run at the same time, and only the order in which they settle matters. That order is a parameter of `Batch.PromiseAll` and `App.AppState.ProcessImages`.
- The intermediate renders while the batch is pending are not modelled. `ProcessImages` states the state before the batch (empty batch) and after it. Between the two, the state is loading, with no error and an empty list.
- The console logging of errors is left out because it has no effect on state.
- App.AppState.UpdateUsername and App.AppState.DeleteUsername require an image index inside the list. With any other index the code's updater throws a TypeError, and React's behaviour after that is not modelled.
- App.AppState.UpdateUsername: a username index more than one past the end is excluded by its requires. The JavaScript assignment would leave holes in the array, and the view never produces such an index.
- Negative and fractional indices are not modelled. Indices are natural numbers.
- JsStrings.ToLowerCase: lower-cases ASCII letters only. Full Unicode case mapping is not modelled. The test compares against the ASCII text "api key", but a non-ASCII letter that lower-cases to an ASCII one (such as U+212A KELVIN SIGN to 'k') would match in JavaScript and does not here.
- Strings are modelled as sequences of Unicode code points (`char`), not of the UTF-16 code units JavaScript uses: lone surrogates and the two-unit length of characters outside the Basic Multilingual Plane are not captured, and no normalisation is modelled.
- DOM and browser effects are not modelled:
  - object URLs for previews and their revocation;
  - input focus and selection when a tag starts editing;
  - the clipboard write and its success or failure;
  - the "Copied!" / "Copy Failed" button text and its 2.5-second timer;
  - resetting the file input's value in `clearFiles`;
  - `preventDefault` and `stopPropagation` on drag events;
  - the browse button.
- The file size shown in kilobytes is floating-point formatting and is not modelled.
- Buttons disabled while loading are not modelled. The model allows every handler call at any time, which covers every call the interface can make.
- A tag's blur-triggered save when it unmounts is not modelled; `Save` covers the blur handler itself.
- The Header, Footer and Loader components render fixed markup and are left out.
- The shared type declarations file is not part of this model. `Types` restates the two shapes the code uses.
