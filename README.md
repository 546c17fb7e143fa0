# Item catalogue: server store and client view state, in Dafny

This project models the two pieces of logic in a small item-catalogue web
application: the Express server (`server/index.js`) that keeps submitted items
in a process-wide list, and the React page (`src/App.js`) that submits items,
lists them in a grid and shows one at a time in a modal with an image carousel.

- `text.dfy` (module `Text`): `Option` for values JavaScript leaves
  `undefined`, prefix/suffix tests, how a template literal prints an absent
  value (`undefined`) and a whole number (its decimal digits), the parse back
  from digits, and first-occurrence search.
- `items.dfy` (module `Items`): the item record the server stores and returns
  as JSON and the client keeps in its list.
- `server.dfy` (module `Server`): the upload filename rule
  `<Date.now()>-<originalname>` with the clock reading as a parameter, the URL
  built for each uploaded file, the item built by `POST /items`, the route as a
  function on the store (`Post`), the class `CatalogServer` whose `items` field
  the routes update, and the enquiry mail with the mail transport's outcome as
  a parameter.
- `client.dfy` (module `Client`): `getImageUrl`, the grid tile's cover picture,
  JavaScript's sign-of-dividend `%` (`JsRem`), the carousel's index updates,
  the form and the multipart body built from it, and the class `App` holding
  the component state (`items`, `form`, `selectedItem`, `carouselIndex`,
  `success`), one method per event handler. Network replies are parameters
  of the handlers.

The carousel index is a JavaScript number, so it is modelled as `Index(i)` or
`NaN`: with an empty image list `(prev + 1) % 0` is NaN, and the click
handlers stay callable on such an item. The pure index functions `NextIndex`
and `PrevIndex` require a positive image count, where `%` is defined.

A request to `POST /items` that is not multipart leaves `req.files`
undefined, so `req.files.map` throws and the handler answers 500 with its JSON
error. A multipart request with more than ten files is stopped by the upload
middleware before the handler runs; the framework's default error handler
answers 500. In both cases the store is unchanged.

Stored filenames are not collision-free: two files get the same name
whenever they share an original name and the millisecond in which they are
stored (`Server.StoredFilenameCollision`).

The page's submit runs `handleSubmit` only when the browser's validation of
the inputs marked `required` (name, type, description) passes; the model
checks that gate (`Client.RequiredFilled`) before posting.

## Model

| member | source | states |
|---|---|---|
| `Text.Render` | server/index.js:98-99 | an absent value prints as `undefined`, a string as itself |
| `Text.Decimal` | server/index.js:45 | `${Date.now()}` prints a clock reading as at least one decimal digit, with no leading zero |
| `Text.ParseDecimalOfDecimal` | server/index.js:45 | the decimal digits of a clock reading read back as that reading |
| `Text.DecimalInjective` | server/index.js:45 | two clock readings print alike only if they are equal |
| `Server.StoredFilename` | server/index.js:44-46 | the stored name is the clock reading's digits, a `-`, then the original name; it ends with the original name |
| `Server.SplitStoredFilenameInverse` | server/index.js:45 | splitting a stored name at its first `-` gives back the clock reading and the original name |
| `Server.StoredFilenameCollision` | server/index.js:45 | two stored names are equal exactly when clock reading and original name are both equal |
| `Server.StoreFile` | server/index.js:44-46 | a stored file keeps its original name, its name on disk is `<reading>-<originalname>`, and that name splits back into reading and original name |
| `Server.StoreFiles` | server/index.js:55 | the files of one request are stored one for one, in order |
| `Server.UploadPrefixLiteral` | server/index.js:60 | the upload prefix built from `PORT` is `http://localhost:5000/uploads/` |
| `Server.UploadUrl` | server/index.js:60 | an upload URL is the upload prefix (so starts with `http`) followed by the stored filename: prefix, suffix and length |
| `Server.FilenameOfUrl` | server/index.js:60 | recognises exactly the URLs under the upload prefix, and rebuilding the URL from the result gives it back |
| `Server.FilenameOfUploadUrl` | server/index.js:60 | the stored filename is recovered from its upload URL |
| `Server.UploadedImages` | server/index.js:59-61 | one URL per stored file, same length, entry k naming file k |
| `Server.Accepted` | server/index.js:55 | a request reaches the end of the handler only if it is multipart (so `req.files` is set) and carries at most 10 files |
| `Server.NewItem` | server/index.js:57-69 | name, type, description and cover image are copied from the body; `images` has one URL per uploaded file, in upload order, entry k being the prefix plus `<reading>-<originalname>` of file k |
| `Server.Post` | server/index.js:55-77 | status 201 exactly when the request is multipart with at most 10 files; then the store gains exactly the returned item at its end; otherwise status 500 and the store is unchanged |
| `Server.ReplayAppendsAccepted` | server/index.js:52-77 | after any sequence of requests the store is the old store followed by the items of the accepted requests, in order; earlier entries never change |
| `Server.AcceptedItemsOfAccepted` | server/index.js:55-71 | when every request is accepted, one item per request, item k built from request k |
| `Server.PostsFromEmpty` | server/index.js:52-82 | after K accepted posts from the empty initial list, the list has length K and entry k is the item of post k |
| `Server.CatalogServer.constructor` | server/index.js:52 | the list starts empty |
| `Server.CatalogServer.PostItems` | server/index.js:55-77 | the new list and the reply are those of `Post` on the old list; on 201 the list is the old one plus the returned item |
| `Server.CatalogServer.GetItems` | server/index.js:80-82 | replies 200 with the whole list, in insertion order, and changes nothing |
| `Server.EnquiryMail` | server/index.js:95-100 | subject is `Enquiry about: ` followed by the name, text is `A user is interested in the item: ` followed by the name |
| `Server.ItemNameOfEnquirySubject` | server/index.js:98 | the item name is read back from the subject |
| `Server.Enquire` | server/index.js:92-110 | the one mail handed to the transport is the enquiry mail; the reply is 200 exactly when it was delivered, else 500 |
| `Client.Falsy` | src/App.js:95 | `!image` holds exactly for an absent image and the empty string |
| `Client.GetImageUrl` | src/App.js:94-99 | every result starts with `http`; absent or empty gives the placeholder; a string starting with `http` is returned as is; anything else is `API_BASE/uploads/` followed by it (prefix, suffix and length) |
| `Client.GetImageUrlIdempotent` | src/App.js:94-99 | resolving a resolved URL changes nothing |
| `Client.GetImageUrlAgreesWithServer` | src/App.js:94-99 | a bare filename resolves to the server's upload URL for it, and a server-built URL passes through |
| `Client.FirstImage` | src/App.js:173 | `item.images?.[0]` is present exactly when the item has images, and then it is the first image |
| `Client.CoverUrl` | src/App.js:173 | the tile shows the cover image when it is non-empty, else the first image, else the placeholder |
| `Client.JsRem` | src/App.js:69 | a remainder strictly between `-n` and `n` with the sign of the dividend, equal to Dafny's `%` on a non-negative dividend |
| `Client.JsRemOfMinusOne` | src/App.js:76 | without adding the length, stepping back from index 0 would give -1 |
| `Client.NextIndex` | src/App.js:67-71 | from an index in `[0, n)` the result stays in `[0, n)`: the next index, or 0 after the last |
| `Client.PrevIndex` | src/App.js:73-79 | from an index in `[0, n)` the result stays in `[0, n)`: the previous index, or `n - 1` before the first |
| `Client.PrevUndoesNext` | src/App.js:67-79 | on in-range indices, previous undoes next and next undoes previous |
| `Client.NextRepeatedWraps` | src/App.js:67-71 | k presses of next (k at most n) move the index k places, wrapping past the last image |
| `Client.NextFullCycle` | src/App.js:67-71 | n presses of next return to the starting image |
| `Client.Advance` | src/App.js:69 | the updated index still fits the image list; with no images it becomes NaN |
| `Client.Retreat` | src/App.js:75-77 | the updated index still fits the image list; with no images it becomes NaN |
| `Client.CarouselImage` | src/App.js:196 | with images and a fitting index, the image at the index; with none, absent |
| `Client.WithField` | src/App.js:111-140 | one text input's change sets that field and keeps every other field |
| `Client.RequiredFilled` | src/App.js:111-133 | the form passes the `required` checks exactly when name, type and description are non-empty; the empty form does not |
| `Client.Payload` | src/App.js:30-38 | the posted body carries the four text fields and the selected files, in order |
| `Client.SubmissionRequest` | src/App.js:30-45 | the server sees a multipart request whose name, type, description and cover image are the four text fields sent, and whose files are the submitted files, one for one, in order |
| `Client.UploadedUrlNamesFile` | src/App.js:94-99 | the URL the server builds for an upload ends with the original file name and is shown as is |
| `Client.SubmitThroughServer` | src/App.js:27-50 | the server accepts the body of a form with at most 10 files, so it stores one new item; that item carries the form's text fields and one URL per selected file, in order, each ending with that file's name and shown by the page as is |
| `Client.EnquiryAlert` | src/App.js:81-92 | the success alert is shown exactly when the fetch resolves |
| `Client.EnquiryAlertIgnoresServerFailure` | src/App.js:82-88 | when mail delivery fails the server answers 500 and the page still shows the success alert |
| `Client.CheckedEnquiryAlert` | src/App.js:81-92 | with the reply status checked, success is shown exactly on a 2xx status |
| `Client.CheckedEnquiryAlertMatchesServer` | src/App.js:81-92 | with the status checked, success is shown exactly when the mail was delivered |
| `Client.App.constructor` | src/App.js:5-16 | empty list, empty form, nothing selected, index 0, no success flag |
| `Client.App.ItemsLoaded` | src/App.js:20-25 | a loaded list replaces `items`; a failure changes nothing |
| `Client.App.EditField` | src/App.js:111-140 | the form gets the edited field; nothing else changes |
| `Client.App.HandleImageList` | src/App.js:59-65 | the chosen files replace the form's images; the text fields and the rest of the state are kept |
| `Client.App.HandleSubmit` | src/App.js:27-57 | with a required field empty nothing is posted and nothing changes; otherwise posts the form's body; an ok reply appends exactly the returned item, resets every form field and raises the success flag; a non-ok reply or a thrown error changes nothing |
| `Client.App.SuccessTimerFired` | src/App.js:52 | the success flag goes down and nothing else changes |
| `Client.App.SelectItem` | src/App.js:163-169 | the clicked item is selected and the carousel index is 0 |
| `Client.App.CloseModal` | src/App.js:204 | nothing is selected; the index keeps its value |
| `Client.App.NextImage` | src/App.js:67-71 | with an item selected the index advances; without one it is unchanged; the index keeps fitting the image list |
| `Client.App.PrevImage` | src/App.js:73-79 | with an item selected the index steps back; without one it is unchanged; the index keeps fitting the image list |
| `Client.App.CarouselUrl` | src/App.js:194-200 | the modal shows the image at the index, or the placeholder when the item has no images |
| `Client.App.HandleEnquire` | src/App.js:81-92 | posts the selected item's name and shows the alert of `EnquiryAlert`; with nothing selected nothing is posted and the failure alert is shown |

## Findings

| source | as written | input that shows it | evidently intended | confidence | as-written member | corrected member |
|---|---|---|---|---|---|---|
| src/App.js:82-88 | the success alert is shown whenever `fetch` resolves, and `fetch` resolves on a 500 reply | the mail transport fails, `POST /enquire` answers 500, the page alerts "Enquiry email sent." | check `res.ok` before reporting success, as `handleSubmit` does | medium, not executed | `Client.EnquiryAlertIgnoresServerFailure` | `Client.CheckedEnquiryAlertMatchesServer` |

The component model `Client.App.HandleEnquire` keeps the alert as written,
so that the class states what the page does; `Client.CheckedEnquiryAlert` is
the corrected rule with its property proved.

## Left out

- Rendering, inline styles and layout of the page: only the values it shows (cover, carousel picture) are modelled.
- `fetch`, JSON parsing and `alert`: each reply is a parameter of the handler that awaits it (`LoadReply`, `SubmitReply`, `EnquiryFetch`), and the alert text is a result.
- The three-second delay of the success flag: only the timer's callback is modelled, as `SuccessTimerFired`.
- `URL.createObjectURL`: the preview URLs of chosen files are given with the files.
- The MySQL connection: it is opened but never used by the routes.
- The disk writes of the upload middleware, the upload directory creation, static serving, CORS and `listen`: only the filename rule and the file-count limit are kept; `Date.now()` is a parameter per file.
- Other upload middleware rejections (an unexpected field name) and the files written before a rejection: not modelled.
- The mail transport, its configuration and the `from`/`to` addresses from the environment: the delivery outcome is a parameter of `Server.Enquire`.
- Concurrency: requests and events are handled one at a time. In particular `handleSubmit` appends to the `items` it captured when it was called; a list loaded while the post was pending would be overwritten, which a sequential model cannot show.
- `Client.SubmissionRequest`: a file's name as the server receives it (`originalname`) is taken to be the browser's `File.name`; the browser's multipart encoding escapes `"`, CR and LF in file names, so for such names the URL ends with the escaped name, not the one chosen.
- `Server.Enquire`: `itemName` is modelled as absent or a string; a JSON body may carry `null`, a number or another value, which the subject would print in its own way (`null`, `42`).
- `Server.Post`: each body field is modelled as absent or one string; a text field repeated in a multipart body arrives as an array, which is not modelled.
- `Client.JsRem`: for a negative dividend the contract states only the sign and the bound, not the magnitude; the carousel only ever divides non-negative values.
- `Client.NextIndex`: JavaScript numbers are doubles; indices are modelled as unbounded integers, which agrees for every image count a list can have.
