# mrpc-icon in Dafny

A model of the decisions inside the MRPC icon manager, a single React page
that lists the icon assets of a Discord application and uploads new ones.
The page owns one piece of state, the ordered list of icon records it shows.
That list is filled by one listing request at startup and extended by each
accepted upload. The model keeps the pure logic of that page:

- `IconName` (`icon_name.dfy`) derives the icon name from the selected
  file's name. The source does this with
  `replace(/\.[^/.]+$/, "")` followed by `replaceAll(".", "_")`. The regular
  expression is stated as the ghost predicate `ExtensionMatchAt`, and the
  implementation, which looks only at the last '.', is proved to remove
  exactly the match.
- `IconList` (`icon_list.dfy`) models the icon list. It covers the
  upload-outcome step on the HTTP status and the presence of `id`, the
  startup load that replaces the list, and a whole session of sequential
  uploads.
- `Requests` (`requests.dfy`) models the upload body `{image, name, type: "1"}`
  and the CDN image address template. It also gives a parser that reads back any
  address it accepts as that template, and that recovers both ids when the
  application id contains no '/'.
- `Strings` (`strings.dfy`) and `Wrappers` (`wrappers.dfy`) hold small
  helpers: `indexOf`/`lastIndexOf` and an `Option` type. `None` stands for
  JavaScript's `undefined`.

The network and the file reader are parameters; the notification is an
output tag. A completed upload is an `UploadResponse`: either no response,
or a status with its body, which may not parse. A completed listing is a
`ListingResponse`. The notification shown is an `Outcome` tag. The data URI
of the file and the application id are opaque inputs.

## Notes on the code's behaviour

- The extension is stripped only when at least one character follows the
  last `.` and none of those characters is `/`. So `"file."` becomes
  `"file_"` and `"a.b/c"` becomes `"a_b/c"`.
- An upload can end in four ways. Besides the three notifications, a status 200 body that is not
  JSON (or is `null`) and a request that fails outright both throw out of
  the handler. The list is then unchanged and no notification appears. The
  model calls this outcome `Rejected`.
- The code never checks that ids in the list are unique.
  `UploadKeepsIdsUnique` states when uniqueness survives an upload: exactly
  when the server returns a fresh `id`.
- The code treats `id` as present whenever `json["id"] !== undefined`. So a
  JSON `null` id counts as present too.

## Model

| member | source | states |
|---|---|---|
| IconName.StripExtension | src/App.tsx:27 | when `/\.[^/.]+$/` matches at some index k, the result is the name cut at k; when it matches nowhere, the name is unchanged |
| IconName.ReplaceDots | src/App.tsx:27 | `replaceAll(".", "_")` keeps the length and maps each character on its own: '.' becomes '_', every other character stays |
| IconName.DeriveIconName | src/App.tsx:27 | the derived name contains no '.'; it is never longer than the file name; it is the '_'-for-'.' image of a prefix of the file name; that prefix ends where the extension match starts, or is the whole name when nothing matches |
| IconName.ExtensionUnique | src/App.tsx:27 | at most one index starts a match of the extension pattern, so the leftmost match that a non-global `replace` removes is the only one |
| IconName.ExtensionIffLastDot | src/App.tsx:27 | the pattern matches somewhere exactly when the last '.' is followed by at least one character and none of them is '/' |
| IconName.NoDotUnchanged | src/App.tsx:27 | a file name with no '.' is submitted as the icon name unchanged |
| IconName.DeriveIdempotent | src/App.tsx:27 | deriving a name from an already derived name returns it unchanged |
| IconName.StrippedIffExtension | src/App.tsx:27 | the derived name is shorter than the file name exactly when the pattern matches; a match removes at least two characters (the '.' and one more) |
| IconName.ExampleVersionedName | src/App.tsx:27 | "my.icon.v2.png" gives "my_icon_v2" |
| IconName.ExampleDoubleExtension | src/App.tsx:27 | "x.tar.gz" gives "x_tar" |
| IconName.ExampleUpperCaseExtension | src/App.tsx:27 | "Logo.PNG" gives "Logo" |
| IconName.ExampleTrailingDot | src/App.tsx:27 | "file." gives "file_": a bare trailing '.' is not an extension |
| IconName.ExampleSlashAfterDot | src/App.tsx:27 | "a.b/c" gives "a_b/c": a '/' after the last '.' blocks the strip |
| IconName.ExampleHiddenFile | src/App.tsx:27 | ".hidden" gives the empty name |
| Strings.LastIndexOf | src/App.tsx:27 | returns -1 exactly when the character is absent; otherwise it returns an index holding the character with no occurrence after it |
| IconList.UploadStep | src/App.tsx:48-68 | status 200 with an `id` is the only success: the payload is appended as the new last element. Status 200 without `id` gives the size hint, any other status gives the upload error, and a body that cannot be read or a failed request gives no notification. The list is unchanged in every non-success case |
| IconList.UploadAll | src/App.tsx:48-51 | sequential uploads never remove or reorder earlier records; they add at most one record per response, and every added record has an `id` |
| IconList.UploadAllAppendsAccepted | src/App.tsx:48-51 | after a run of uploads the list is the old list followed by exactly the accepted payloads, in arrival order |
| IconList.UploadKeepsIdsUnique | src/App.tsx:50-51 | from a list with unique ids, the list after an upload has unique ids if and only if any accepted payload's id is not already in the list |
| IconList.Load | src/App.tsx:33-36 | a listing response replaces the list with exactly its records, in response order; a failed listing leaves the list as it was |
| IconList.LoadIdempotent | src/App.tsx:33-36 | loading the same listing twice gives the same list as loading it once |
| IconList.Session | src/App.tsx:33-51 | starting from the empty list, a load followed by sequential uploads gives the listing's records (none if the listing failed) followed by the accepted payloads |
| Requests.UploadRequestFor | src/App.tsx:25-29 | the upload body carries the data URI verbatim, the derived name (which has no '.' and is no longer than the file name), and `type` "1" |
| Requests.Render | src/App.tsx:102 | a template literal renders a present value as its text and a missing one (`undefined`) as "undefined" |
| Requests.CdnUrl | src/App.tsx:102 | an image address starts with the CDN prefix, ends with ".png", and is as long as the prefix, the rendered application id, one '/', the rendered icon id and ".png" together |
| Requests.CdnUrlAroundIconId | src/App.tsx:102 | an image address is the text fixed by the application id, then the rendered icon id, then ".png" |
| Requests.ParseCdnUrl | src/App.tsx:102 | any address the parser accepts is exactly the CDN template filled with the ids it returns, and the application id it returns has no '/' |
| Requests.CdnUrlRoundTrip | src/App.tsx:102 | when the application id has no '/', the parser recovers both ids from the template's address; a missing id reads back as "undefined" |
| Requests.CdnUrlInjective | src/App.tsx:102 | for any one application id (including one containing '/'), two icons get the same image address if and only if their ids render to the same text |
| Requests.ImageSources | src/App.tsx:98-102 | the gallery shows one image per record, in list order, each at that record's CDN address |
| Requests.DistinctIdsDistinctImages | src/App.tsx:98-102 | for any application id, records with distinct present ids are shown with distinct image addresses |

## Left out

- The `fetch` calls to the upload endpoint and to the asset-listing endpoint, and the listing URL built from the application id (src/App.tsx:40-47, 73-76): network I/O. Their results enter the model as `UploadResponse` and `ListingResponse`.
- HTTP status on the listing: the code never checks it, and a JSON body that is not an array (an error object, say) would become the list and break rendering. The model's `Listing` carries an array only.
- `JSON.stringify` of the upload body and `response.json()`: serialisation and parsing are not modelled. A parsed object is reduced to its `id`, `name` and `type` properties. Other properties of an appended payload are kept verbatim by the code, and the model does not track them.
- `FileReader.readAsDataURL` and the base64 data URI (src/App.tsx:21-24): a browser API. The data URI is an opaque string. Selecting no file (`files![0]` undefined) is not modelled.
- SweetAlert notifications (src/App.tsx:52-68): presentation. They become the `Outcome` tag, and the message texts appear only in its documentation.
- React state, refs, the click handler and the JSX layout apart from the image address (src/App.tsx:13-18, 77-113): UI plumbing.
- IconList.UploadAll: uploads are applied one after another, each seeing the list the previous one left. The code appends to the `icons` captured when the upload began, so overlapping uploads, or an upload overlapping the startup load, can lose records. That interleaving is not modelled.
- The configured application id (src/App.tsx:11) is an opaque `Option<string>` parameter; `None` is an unset environment variable.
- Strings are sequences of `char`. JavaScript strings are UTF-16 code units. '.' and '/' are single units either way, so this does not affect the name derivation.
