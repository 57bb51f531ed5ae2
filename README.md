# Photo-picker core, modelled in Dafny

The repository is a small client-side photo-selection gallery. A visitor
pastes a Google Drive folder link, the app lists the folder's images in a
grid, and the visitor "likes" some of them. An admin view lists the liked
file names and copies them, comma-separated, for the photographer.

This project models the two pieces of that app which carry logic, and proves
what they promise:

- `services/driveService.ts`, as pure functions (module `DriveService`):
  - `extractFolderId`: the leftmost `folders/` followed by at least 25
    characters of `[A-Za-z0-9_-]` gives the greedy id run; otherwise the
    input is trimmed.
  - `getDriveImageUrl`: the thumbnail URL template.
  - The tail of `fetchDriveFiles` that turns the decoded answer of the
    listing API into a file list or an error. The network call is a
    parameter.
- `App.tsx`:
  - The selection updaters as functions on values (module `Selection`):
    `toggle`, the copy-list text, and the grid's "is selected" marks.
  - The component's state as a class (module `App`, class `Gallery`): the
    link box, the files, `loading`, `error` and the selected names. Its
    methods are specified by those functions.
- `types.ts`: `GoogleDriveFile` is the datatype `Types.DriveFile`.
  `Wrappers` holds `Option` and `Result`.

Trimming follows `String.prototype.trim`. Its whitespace set is written out
in `DriveService.IsWhitespace`: ECMAScript's WhiteSpace and LineTerminator
code points as of Unicode 15.

The id pattern is given twice. `DriveService.MatchStartsAt` is the reference
definition: the literal plus 25 id characters. `DriveService.MatchesAt` is
the regular expression's greedy attempt. `MatchesAtIsMatchStart` proves the
two agree.

Facts about the code that the model keeps:
- The code never rejects a folder reference. Any input without a match is
  trimmed and used as is.
- There is no quota error. The errors are the missing-key error, the
  not-public error, the generic rejection carrying the API's message, and
  any error thrown while requesting, decoding or reading the answer.
- A restored selection is not deduplicated, so it may hold duplicates.
  Toggling keeps a duplicate-free list duplicate-free.

## Model

| member | source | states |
|---|---|---|
| DriveService.Trim | services/driveService.ts:17 | the result is an infix of the input with only whitespace cut off both ends; it neither starts nor ends with whitespace; it is empty iff the input is all whitespace |
| DriveService.TrimUnchanged | services/driveService.ts:17 | a string that neither starts nor ends with whitespace trims to itself |
| DriveService.IdRunLength | services/driveService.ts:16 | the greedy `[a-zA-Z0-9_-]` run: all its characters are id characters and it stops at the end of input or at a non-id character |
| DriveService.MatchesAtIsMatchStart | services/driveService.ts:16 | the greedy attempt (`MatchesAt`: `folders/` + run of at least 25) succeeds at a position iff the reference definition (`MatchStartsAt`: `folders/` + 25 id characters) has a match there |
| DriveService.FindMatch | services/driveService.ts:16 | the regular expression's scan returns a match position with no match before it, or none when no position matches |
| DriveService.ExtractFolderId | services/driveService.ts:14-18 | the empty input gives the empty id; the id is never longer than the input |
| DriveService.ExtractFolderIdFound | services/driveService.ts:16-17 | with a leftmost match at p, the id is the text right after `folders/`, at least 25 id characters, maximal (followed by the end or a non-id character) |
| DriveService.ExtractFolderIdNotFound | services/driveService.ts:17 | with no match anywhere the id is the trimmed input |
| DriveService.BareIdUnchanged | services/driveService.ts:16-17 | a bare id of id characters only is returned unchanged |
| DriveService.ExtractFolderIdIdempotent | services/driveService.ts:14-18 | extracting from an extracted id gives the same id |
| DriveService.ExtractFolderIdFromLink | services/driveService.ts:16 | a share link `host/folders/<id><tail>`, whose host has no `f` and whose tail does not continue the id, yields exactly the id |
| DriveService.ExtractFolderIdExample | services/driveService.ts:14-18 | the link `https://drive.example.com/drive/folders/1aBcDeFgHiJkLmNoPqRsTuVwXyZ0123` yields `1aBcDeFgHiJkLmNoPqRsTuVwXyZ0123` |
| DriveService.DriveImageUrl | services/driveService.ts:7-9 | the thumbnail URL is the fixed prefix `https://drive.google.com/thumbnail?id=`, then exactly the id, then the fixed suffix `&sz=w800`, and nothing else |
| DriveService.ThumbnailUrlRoundTrip | services/driveService.ts:7-9 | the id is read back unchanged from its thumbnail URL |
| DriveService.DriveImageUrlInjective | services/driveService.ts:7-9 | distinct ids give distinct thumbnail URLs |
| DriveService.ListRequestUrl | services/driveService.ts:34 | the listing URL is the files endpoint with the query opening, the folder id, the parents-and-image-type query with `&key=`, the key, and the fields and page-size parameters, in that order and nothing else |
| DriveService.RejectionMessage | services/driveService.ts:44 | a generic rejection carries the API's message when it is non-empty, and the default text exactly when the message is absent or empty; never empty text |
| DriveService.ToDriveFiles | services/driveService.ts:51-55 | the mapping keeps the number and order of entries and copies id, name and mimeType of each |
| DriveService.ClassifyBody | services/driveService.ts:40-55 | success iff the answer has no error object; `PERMISSION_DENIED` gives the not-public error; any other error the generic rejection with the API's message, or the default text when that is absent or empty; an absent or empty list the empty success; a list a success of the same length |
| DriveService.ClassifyReply | services/driveService.ts:36-58 | any error thrown while requesting, decoding or reading the answer is passed on; a decoded answer is classified |
| DriveService.FetchDriveFiles | services/driveService.ts:25-60 | without a usable key (`ApiKeyConfigured`: absent, empty or the text `undefined` is unusable) nothing is requested and the missing-key error results; otherwise the listing URL for the cleaned folder id is requested and its reply classified |
| DriveService.ListingCopiesEntries | services/driveService.ts:51-55 | every entry of a listing reappears at the same index with the same id, name and mimeType |
| DriveService.PermissionDeniedIsDistinct | services/driveService.ts:40-45 | a permission-denied answer never classifies like any other error answer, and its message differs from the default rejection text |
| Selection.Without | App.tsx:67 | the filter removes every occurrence of the name, keeps every other name that was there and adds none, and shortens the list by exactly the number of occurrences |
| Selection.WithoutKeepsCounts | App.tsx:67 | the filter keeps every other name exactly as often as it occurred |
| Selection.WithoutAbsent | App.tsx:67 | filtering out an absent name leaves the list as it was |
| Selection.WithoutConcat | App.tsx:67 | filtering distributes over concatenation, so the remaining names keep their relative order |
| Selection.WithoutDistinct | App.tsx:67 | filtering keeps a duplicate-free list duplicate-free |
| Selection.Toggled | App.tsx:67 | toggle flips the membership of the toggled name and of no other name; an absent name is appended at the end after the unchanged list; a present name makes the list shorter |
| Selection.ToggleRemoves | App.tsx:67 | toggling a present name is the filter, which keeps every other name as often as it occurred |
| Selection.ToggleKeepsDistinct | App.tsx:67 | toggle keeps a duplicate-free selection duplicate-free |
| Selection.ToggleTwiceAbsent | App.tsx:67 | toggling an absent name twice restores the exact original list |
| Selection.ToggleTwicePresent | App.tsx:67 | toggling a present name twice restores the same set of names, with that name once and at the end |
| Selection.ToggleExample | App.tsx:67 | toggling `sunset.jpg` on the empty selection gives `["sunset.jpg"]`, and toggling again gives `[]` |
| Selection.CardMarks | App.tsx:126 | there is one mark per file of the grid |
| Selection.CardMarksByName | App.tsx:126 | a card is marked iff its name is selected, so files sharing a name share the mark |
| Selection.ToggleFlipsMarks | App.tsx:126 | toggling a name flips exactly the marks of the cards with that name |
| Selection.Stem | App.tsx:71 | `split('.')[0]` is the prefix of the name before its first `.`: no `.` in it, followed by `.` or the end |
| Selection.StemWithoutDot | App.tsx:71 | a name with no `.` is kept whole |
| Selection.Stems | App.tsx:71 | one entry per selected name, in order, each the name cut at its first `.` |
| Selection.Join | App.tsx:71 | `join(', ')`: for every input, each part stands at its offset (the earlier parts plus one separator each), in order, with `", "` right after every part but the last; the length is the parts plus one separator between each two neighbours; no parts give the empty text |
| Selection.JoinEndsWithLastPart | App.tsx:71 | the joined text ends right after its last part, so the placed parts and separators are all of it |
| Selection.CopyText | App.tsx:71 | for every selection, the copied text holds each selected name cut at its first `.` at its offset, in selection order, with `", "` after every entry but the last, and nothing after the last entry; empty for no selection, the cut name alone for one |
| Selection.SplitJoin | App.tsx:71 | joining at least one entry free of `,` with `", "` and splitting at `", "` gives the entries back |
| Selection.CopyTextEntries | App.tsx:71 | the copied text lists, in selection order, one entry per selected name, each the name cut at its first `.`; the empty selection copies the empty text |
| App.Gallery.constructor | App.tsx:34-40 | the initial state: empty link box, no files, not loading, no error, nothing selected |
| App.Gallery.SetFolderInput | App.tsx:102 | typing sets the link box and nothing else |
| App.Gallery.Toggle | App.tsx:66-68 | the selection becomes the toggled list; membership flips for that name only; no duplicates appear; nothing else changes |
| App.Gallery.ClearSelection | App.tsx:140 | a confirmed clear empties the selection, a refused one keeps it; nothing else changes |
| App.Gallery.CopyList | App.tsx:70-74 | the copied text is the copy text of the current selection; empty when nothing is selected |
| App.Gallery.BeginScan | App.tsx:51-54 | with an empty link box nothing is requested and nothing changes; otherwise the link box is requested, `loading` is set and the error cleared |
| App.Gallery.EndScan | App.tsx:55-63 | a found list replaces the files and an empty one sets the no-images error; a failure sets its message as the error and keeps the files; `loading` ends false |
| App.Gallery.Scan | App.tsx:51-64 | an empty link box changes nothing; otherwise `loading` ends false, success sets the files and the error exactly when the list is empty, and failure sets the error and keeps the files |

## Left out

- The rendering is left out: JSX, CSS classes, icons, the view-mode switch and `PhotoCard`'s `loaded` flag with its placeholder image. These are UI only.
- The persistence of the selection in `localStorage` through `JSON.parse`/`JSON.stringify` is left out. It is browser storage and library serialisation. The load at App.tsx:44 is unguarded, so a malformed stored value throws; the model does not pretend it fails open.
- The clipboard write, the timer and the `copied` flag are left out, and so is the `window.confirm` prompt. The prompt's answer is the `confirmed` parameter of `ClearSelection`.
- `fetch`, `response.json()` and `process.env` are I/O. The key is a parameter, and so is the reply the server would give.
- `fetchDriveFilesViaAI`, which `handleScan` awaits, is not part of this model. Its result is the `ScanOutcome` parameter.
- Cancellation and stale replies are left out. A reply that arrives after a newer scan overwrites its result in the source too. The "in flight" guard is only the disabled button.
- A decoded answer of an unexpected shape makes the code throw a TypeError while reading it, and the catch at services/driveService.ts:56-58 rethrows it. Examples are a JSON `null` answer, a `files` value that is not an array, and a `null` entry. `ResponseBody` represents only well-shaped answers, so such an error counts as a `Failed` reply.
- `console.error` in the catch block is left out. The catch rethrows the same error, which `ClassifyReply` passes on.
- Strings are sequences of Unicode scalar values. JavaScript strings are UTF-16 code units. The difference does not matter here: the id class is ASCII and every trimmed character is in the Basic Multilingual Plane.
- Selection.CopyTextEntries: reading the copied text back into entries is stated only for selections whose cut names contain no `,`. A name such as `a,b.jpg` makes the text ambiguous to split. Where each entry stands in the text is stated for every selection by `Selection.CopyText`.
- DriveService.ExtractFolderIdFromLink: states the result only for hosts without the letter `f`. This sufficient condition rules out an earlier `folders/`. The general case is `ExtractFolderIdFound`.
- The listing asks for one page of at most 1000 files and never follows a next-page token. The model takes the decoded answer as given and does not model paging.
