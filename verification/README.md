# MultiLang Caption — a Dafny model

A user signs in, uploads an image, and the server stores it. The server then attaches a caption in English, Telugu and Hindi, drawn from a mock captioner. Users list, view and delete their own images. The browser validates files before uploading, builds a plain-text caption export, and shows the latest image, the three most recent images and a history grid. A keyword-routed support chatbot answers questions.

The model is purely functional. Each module is one piece of the program:

| module | models |
|---|---|
| `Common` | `Option` and `Result` |
| `Strings` | the JavaScript string operations the program relies on: `startsWith`, `includes`, `toLowerCase` (ASCII), `trim`, `slice`, `toString` of a size |
| `Schema` | the `users` and `images` rows, the insert shape without `id`/`createdAt`, the three-caption triple |
| `Storage` | `DatabaseStorage` over an abstract store: a user map, an image sequence in insertion order, a logical clock for `createdAt`, and the table constraints as an invariant `Valid` |
| `Captioner` | the mock captioner: the three fixed caption triples and the random choice of one |
| `Routes` | the upload middleware (MIME filter, 10 MiB limit) and the route handlers, each a transition from a server state (store plus the set of stored file names) to a response and a new server state |
| `UploadClient` | the upload widget's file checks, first-file rule and mutation outcome |
| `Chatbot` | the support widget's first-match keyword router and its conversation state |
| `CaptionExport` | the caption export text and its download name, with a reader that recovers the fields |
| `Views` | what the caption panel, the recent-activity sidebar and the history grid derive from the newest-first image list |

The program's randomness, clock, file system and database become explicit inputs:

- the caption choice is an index below three;
- the generated image id and the stored file name are parameters of an upload;
- a failure to read the stored file is a flag;
- `createdAt` is the store's clock, which every insert and upsert advances;
- the formatted upload date is a string parameter.

A file the upload middleware refuses (not an image, or over 10 MiB) leaves the route through Express's error handling, which answers 500 for an error without a status of its own; `Routes.MiddlewareErrorStatus` is 500. The response carries the raised error's message: the filter's "Only image files are allowed" or the size limit's "File too large".

## Model

| member | source | states |
|---|---|---|
| Storage.Empty | shared/schema.ts:27-50 | the empty tables satisfy every constraint of `Storage.Valid` |
| Storage.ValidFitsClock | shared/schema.ts:27-50 | under the table constraints of `Storage.Valid` (keyed users, unique emails, unique image ids, owners that exist) and the clock discipline, a store never holds more images than the clock has ticked |
| Storage.GetUser | server/storage.ts:31-34 | the user with that id when one is stored, and nothing otherwise |
| Storage.UpsertUser | server/storage.ts:36-49 | a new id inserts a user and a known id updates it, keeping `createdAt` and refreshing `updatedAt`; a key the data gives (null included) is written, while a left-out key keeps the stored value on update and is null on insert; the user count grows by at most one; an email another user holds is refused; reading the user back gives the row just written |
| Storage.UpsertUserPreservesValid | shared/schema.ts:27-35 | upserting keeps user ids keyed and emails unique, along with every other store constraint |
| Storage.CascadeDeleteUser | shared/schema.ts:40 | removing a user removes exactly that user's images and keeps every other image; reading that user afterwards gives nothing |
| Storage.CascadeDeleteUserPreservesValid | shared/schema.ts:40 | after the cascade every image still references an existing user |
| Storage.CreateImage | server/storage.ts:52-58 | the insert fails exactly on a duplicate id or an unknown owner; otherwise exactly one row is appended, carrying the given fields, the generated id and the current time, and the earlier rows are untouched |
| Storage.CreateImagePreservesValid | shared/schema.ts:38-50 | inserting keeps ids unique, owners existing and creation times increasing |
| Storage.KeepPreservesOrder | server/storage.ts:60-65 | filtering the table by owner keeps ids unique and creation times increasing |
| Storage.GetImagesByUserId | server/storage.ts:60-64 | the list holds exactly the images owned by that user and no others |
| Storage.GetImagesByUserIdNewestFirst | server/storage.ts:65 | the list is in strictly decreasing `createdAt` order, newest first |
| Storage.GetImageById | server/storage.ts:68-74 | the row with that id when one exists, and nothing when none does |
| Storage.SetCaptions | server/storage.ts:76-86 | rows with that id get the three captions and every other row is unchanged |
| Storage.UpdateImageCaptions | server/storage.ts:76-87 | the three captions of that row are set and every other field and row is unchanged; the row is returned exactly when it existed |
| Storage.UpdateImageCaptionsPreservesValid | server/storage.ts:76-87 | a caption update keeps every store constraint |
| Storage.DeleteImage | server/storage.ts:89-94 | reports true exactly when a row with that id existed; afterwards no row has that id, every other row remains, and nothing changes when the id was absent |
| Storage.DeleteImagePreservesValid | server/storage.ts:89-94 | a delete keeps every store constraint |
| Storage.DeleteImageIdempotent | server/storage.ts:89-94 | a second delete of the same id reports false and leaves the store as the first left it |
| Schema.Resolve | server/storage.ts:38-46 | a key left out of the insert object keeps the current column value, and a given key, null included, replaces it |
| Schema.FromInsert | shared/schema.ts:57-60 | the store supplies `id` and `createdAt`, and every insert field is carried into the row unchanged |
| Schema.InsertRoundTrip | shared/schema.ts:57-60 | a row is recovered from its insert fields, its id and its creation time |
| Schema.WithCaptions | shared/schema.ts:46-48 | all three captions are set, the rest of the row is untouched, and captions are never partly set |
| Captioner.GenerateImageCaptions | server/routes.ts:31-59 | the captions are one of the three fixed triples, each with three non-empty captions |
| Captioner.DrawIndex | server/routes.ts:53 | `Math.floor(r * 3)` for a random `r` in [0, 1) is an index below three, and it is the floor |
| Routes.FileFilter | server/routes.ts:21-27 | a MIME type passes exactly when it is `image/` followed by any subtype |
| Routes.RejectionMessage | server/routes.ts:18-27 | a non-image is refused with "Only image files are allowed" and an oversized file with the size limit's "File too large" |
| Routes.CheckUpload | server/routes.ts:16-28 | a file passes exactly when its MIME type starts with `image/` and its size is at most 10·1024·1024 bytes; the filter is applied before the size limit |
| Routes.UploadRecord | server/routes.ts:91-98 | the inserted row belongs to the requester, its URL is `/uploads/` followed by the stored name, its size text reads back as the byte count, and it has no captions |
| Routes.HandleUpload | server/routes.ts:81-115 | no file gives 400 and changes nothing; a refused file gives 500 with the refusal's message and changes nothing; an accepted file is stored on disk; a failed insert answers 500 "Failed to upload image" with the store unchanged; users are never touched |
| Routes.UploadSucceedsIff | server/routes.ts:81-115 | the upload answers 200 exactly when a file is given and accepted, the insert succeeds and the file reads back |
| Routes.UploadAnswersRow | server/routes.ts:101-110 | a successful upload answers with the captioned row it inserted |
| Routes.UploadSuccess | server/routes.ts:91-110 | a successful upload appends exactly one row, owned by the requester, whose three captions are one of the fixed triples, and stores its file |
| Routes.UploadRejectedChangesNothing | server/routes.ts:16-28 | a non-image or oversized file adds no row and stores no file |
| Routes.UploadFaultLeavesBareRow | server/routes.ts:101-114 | a failure after the insert answers 500 and keeps the row with null captions; there is no rollback |
| Routes.UploadPreservesValid | server/routes.ts:81-115 | every upload outcome keeps every store constraint |
| Routes.UploadKeepsCaptionsConsistent | server/routes.ts:101-108 | uploads never leave a row with some captions set and others null |
| Routes.HandleListImages | server/routes.ts:118-127 | the response is the storage listing: exactly the requester's images, newest first (strictly decreasing `createdAt` in a valid store) |
| Routes.HandleAuthUser | server/routes.ts:66-75 | the response is the requester's user row, or `undefined` when none is stored |
| Routes.HandleGetImage | server/routes.ts:130-151 | 404 exactly when the image is absent, then 403 exactly when another user owns it, else 200 with the requester's row |
| Routes.HandleDeleteImage | server/routes.ts:154-188 | 404 and 403 as for reading, both without effect; an owner's delete removes the file name from disk and the row from the store and answers 200 |
| Routes.DeleteThenList | server/routes.ts:170-180 | after an owner's delete, listing no longer shows the image and its file is gone |
| Routes.DeleteTwice | server/routes.ts:159-163 | a second delete of the same image answers 404 and changes nothing |
| Routes.DeletePreservesValid | server/routes.ts:154-188 | the delete route keeps every store constraint |
| Routes.OwnershipIsolation | server/routes.ts:141-168 | no route returns, lists or removes an image the requester does not own |
| UploadClient.HandleFileSelect | client/src/components/image-upload.tsx:59-79 | a non-image is refused before the size is looked at; a file over 10 MiB is refused and one of exactly 10 MiB passes; a file passing both checks is uploaded, once and unchanged |
| UploadClient.HandleDrop | client/src/components/image-upload.tsx:91-99 | a drop with no files does nothing; otherwise only the first file is checked |
| UploadClient.HandleFileInputChange | client/src/components/image-upload.tsx:101-106 | a missing or empty file list does nothing; otherwise only the first file is checked |
| UploadClient.ClientAcceptanceImpliesServer | client/src/components/image-upload.tsx:60-76 | every file the widget uploads passes the server's filter and size limit |
| UploadClient.ClientAndServerAgree | client/src/components/image-upload.tsx:60-76 | the widget and the server accept exactly the same files |
| UploadClient.SettleUpload | client/src/components/image-upload.tsx:25-37 | the mutation succeeds exactly on a 2xx response whose body parses as JSON, and then invalidates the `/api/images` query; a 2xx response with a body that does not parse (the route's `res.json(undefined)`) fails with the parse error; any other response fails with a message made of the status, `": "` and the response text |
| UploadClient.FailureMessageCarriesStatus | client/src/components/image-upload.tsx:25-28 | the status can be read back from the start of a failure message |
| Strings.StartsWith | server/routes.ts:22 | `startsWith` holds exactly when the prefix is no longer than the string and agrees with it character by character |
| Strings.Includes | client/src/components/support-chatbot.tsx:62 | `includes` holds exactly when the keyword occurs at some position of the message |
| Strings.ToLower | client/src/components/support-chatbot.tsx:60 | lower-casing keeps the length and maps each character by `LowerChar` |
| Strings.LowerChar | client/src/components/support-chatbot.tsx:60 | `A`–`Z` map to `a`–`z`, every other character is kept, and no upper-case ASCII letter is left |
| Strings.ToLowerIdempotent | client/src/components/support-chatbot.tsx:60 | lower-casing twice is lower-casing once |
| Strings.TrimStart | client/src/components/support-chatbot.tsx:103 | the result is a suffix, all of the removed prefix is whitespace, and the result does not start with whitespace |
| Strings.TrimEnd | client/src/components/support-chatbot.tsx:103 | the result is a prefix, all of the removed suffix is whitespace, and the result does not end with whitespace |
| Strings.Trim | client/src/components/support-chatbot.tsx:103 | the result is no longer than the input, neither starts nor ends with whitespace, and is empty exactly when every character is whitespace |
| Strings.NatToString | server/routes.ts:96 | the decimal text of a size is non-empty, all digits, and has no leading zero |
| Strings.NatToStringRoundTrip | server/routes.ts:96 | parsing the decimal text of a size gives back the size |
| Strings.Take | client/src/components/recent-activity-sidebar.tsx:61 | `slice(0, n)` is the prefix of length at most `n` |
| Chatbot.GetBotResponse | client/src/components/support-chatbot.tsx:59-100 | every message gets a non-empty reply: the text of the first rule whose keyword occurs in the lower-cased message |
| Chatbot.Classify | client/src/components/support-chatbot.tsx:62-99 | an upload keyword always wins, and the default reply is given exactly when none of the nine keyword groups occurs |
| Chatbot.FirstMatching | client/src/components/support-chatbot.tsx:62-96 | the index found matches and no earlier rule does; nothing is found exactly when no rule matches |
| Chatbot.ClassifyIsFirstMatch | client/src/components/support-chatbot.tsx:62-99 | the chain of branches, as written, routes every message the same way as the first-match rule table |
| Chatbot.BotTopicIsFirstMatch | client/src/components/support-chatbot.tsx:59-99 | the answered topic is that of the first matching rule on the lower-cased message, or the default |
| Chatbot.BotTopicIgnoresCase | client/src/components/support-chatbot.tsx:60 | a message and its lower-cased form get the same reply |
| Chatbot.NoKeywordGivesDefault | client/src/components/support-chatbot.tsx:98-99 | a message without any keyword gets the default reply |
| Chatbot.HiInsideAWord | client/src/components/support-chatbot.tsx:86 | "This" gets the greeting, because `hi` occurs inside the word |
| Chatbot.EarlierRuleShadows | client/src/components/support-chatbot.tsx:62-72 | "How to delete?" contains `delete` but gets the upload reply, because an earlier rule matches first |
| Chatbot.AddMessage | client/src/components/support-chatbot.tsx:41-49 | the message is appended at the end, every earlier message stays in place, and nothing else changes |
| Chatbot.AddBotMessage | client/src/components/support-chatbot.tsx:51-57 | the typing indicator turns on and the reply is queued without being shown yet; nothing else changes |
| Chatbot.DeliverBotReply | client/src/components/support-chatbot.tsx:53-56 | when the timer fires, the oldest queued reply is shown and the indicator is cleared; nothing else changes |
| Chatbot.HandleSend | client/src/components/support-chatbot.tsx:102-109 | blank input changes nothing; otherwise the user's message is appended, the reply to that same input is queued, and the input is cleared |
| Chatbot.OpenChatbot | client/src/components/support-chatbot.tsx:29-38 | the `openChatbot` window event opens the widget and queues the greeting exactly when the conversation is empty, changing nothing else |
| Chatbot.OpenByButton | client/src/components/support-chatbot.tsx:118-124 | the floating button opens the widget and changes nothing else |
| Chatbot.ButtonNeverGreets | client/src/components/support-chatbot.tsx:29-38 | the floating button (support-chatbot.tsx:118-124) never queues the greeting, while the `openChatbot` event greets an empty conversation |
| Chatbot.SendThenReply | client/src/components/support-chatbot.tsx:102-109 | a send followed by its timer leaves the question and then its answer at the end of the chat |
| Chatbot.ShownAnswerIsResponse | client/src/components/support-chatbot.tsx:104-107 | the bot message queued for a user's message shows the reply `getBotResponse` gives it |
| Chatbot.TypingClearedEarly | client/src/components/support-chatbot.tsx:51-57 | after two quick sends, the first timer clears the indicator while the second reply is still pending |
| CaptionExport.Interpolate | client/src/components/history-grid.tsx:34 | a null caption is written as the text `null` |
| CaptionExport.ExportFileName | client/src/components/history-grid.tsx:46 | the name is `captions-`, then the original name, then `.txt` |
| CaptionExport.ExportText | client/src/components/history-grid.tsx:30-40 | the export starts with `Image: ` and the original name, and its length is the fields' lengths plus the 48 characters of the template |
| CaptionExport.ExportLines | client/src/components/history-grid.tsx:30-40 | the export consists of eleven lines |
| CaptionExport.ExportTextIsLines | client/src/components/history-grid.tsx:30-40 | the template text is exactly its eleven lines joined by newlines |
| CaptionExport.ExportRoundTrip | client/src/components/history-grid.tsx:30-40 | reading an export back gives the original name, the upload date and the three captions, provided none of them contains a line break |
| CaptionExport.ExportCaptionOrder | client/src/components/history-grid.tsx:33-40 | the captions appear under their labels in the order English, Telugu, Hindi |
| Views.LatestImage | client/src/components/caption-results.tsx:30 | the latest image is the first element of the list, when there is one |
| Views.CaptionResults | client/src/components/caption-results.tsx:78-107 | the panel shows the redirect, then the skeleton, then the placeholder exactly when there is no latest image, and otherwise exactly that image |
| Views.DownloadLatest | client/src/components/caption-results.tsx:48-72 | no download without a latest image; otherwise the same export the history grid builds for that image |
| Views.LatestDownloadReadsBack | client/src/components/caption-results.tsx:51-67 | the panel's download is named after the latest image and reads back to its name, date and captions |
| Views.CopyText | client/src/components/caption-results.tsx:136 | copying a null caption copies the empty string |
| Views.RecentImages | client/src/components/recent-activity-sidebar.tsx:28 | at most three images, the first ones of the list; an undefined list gives none |
| Views.Preview | client/src/components/recent-activity-sidebar.tsx:61 | the preview is at most the first 30 characters of the English caption, followed by `...` |
| Views.RecentActivity | client/src/components/recent-activity-sidebar.tsx:34-68 | "No recent uploads" exactly when there are no recent images; otherwise the cards are shown, one per recent image, in order |
| Views.HistoryGrid | client/src/components/history-grid.tsx:75-86 | an absent or empty list gives the empty state; otherwise the cards are shown, one per image, in list order |
| Views.ViewsAgree | client/src/components/caption-results.tsx:30 | the panel, the first sidebar card and the first history card show the same image |
| Views.LatestIsNewest | client/src/components/caption-results.tsx:30 | for the server's listing, the panel shows the requester's newest image, and shows nothing exactly when the requester has no images |
| Views.RecentAreNewest | client/src/components/recent-activity-sidebar.tsx:28 | for the server's listing, the sidebar shows the requester's newest images: each one is newer than any image left out |

## Left out

- I/O is not modelled: Express routing, multer's multipart parsing and disk writes, static file serving, and `fs`. The disk is a set of stored file names. A failed read of the uploaded file is an input flag.
- Authentication and sessions are not modelled. The Replit middleware and the sessions table are out of scope, and the requester id is a parameter of every handler.
- Persistence internals are not modelled: SQL generation, transactions and row counts. The store is a map plus a sequence, and a failed insert is an error value, so database failures other than a duplicate id, an unknown owner or a taken email are out.
- Time and randomness are inputs. `Math.random` is a choice index. `Date.now`, `new Date()` and `toLocaleString` become a logical clock and a formatted-date string.
- The `setTimeout` delays (2000 ms captioning, 1000 ms bot reply, 500 ms redirect) are out. The bot reply timer is an explicit queue.
- Rendering is not modelled: React, styling, toasts, the clipboard, and the Blob/anchor download. The views are data that say what each component shows.
- Concurrency is out. Each handler runs on its own, so the owner-delete 500 branch ("Failed to delete image") cannot be reached in the model: the row was found just before.
- Strings.ToLower: lower-cases ASCII letters only, because JavaScript's full Unicode case mapping is not modelled.
- Strings.LowerChar: keeps every character outside `A`–`Z`, including non-ASCII capitals that JavaScript would lower-case, for the same reason.
- The error handler in server/index.ts is not part of this model. Only the status a middleware error ends with (500) is used, and the response body is modelled as the error's message rather than in the handler's format.
- Routes.RejectionMessage: "File too large" is the message of the size-limit error multer raises; multer is not part of this model.
- The unauthorised-error test in lib/authUtils is not part of this model. The views receive it as a flag in their query.
- `GET /api/auth/user` models only the store read. Its failure branch (500) is not modelled.
- Message ids and timestamps in the chatbot are not modelled.
- Chatbot.HandleSend: a bot message in the conversation records which canned reply it shows (the greeting, or the topic of an answer) rather than the text itself; `Chatbot.BotText` gives that text, and `Chatbot.ShownAnswerIsResponse` states that an answer shows the text `Chatbot.GetBotResponse` gives.
- The pages (`login`, `signup`, `landing`, `dashboard`, `history`) and the navigation header are layout only and are not modelled.
- Strings.Take: strings are sequences of Unicode scalar values, while JavaScript's `slice(0, 30)` counts UTF-16 code units, so `Strings.Take` and `Views.Preview` differ from the program on text outside the Basic Multilingual Plane. The mock's English captions are ASCII and cannot reach this.
- Views.Preview: takes 30 scalar values of the caption where JavaScript takes 30 UTF-16 code units, as under `Strings.Take`; the mock's English captions are ASCII, where the two agree.
- Schema.FromInsert: `createdAt` and `updatedAt` are nullable columns (shared/schema.ts:33-34 and :49), but the model's rows always carry a time (`nat`), because the store always stamps them and no modelled path writes null.
- Chatbot.OpenChatbot: listening for the event and removing the listener is not modelled. The event handler's read of the message count is the current one, which is what re-registering the listener on every count change achieves.
- Storage.UpsertUser: the upsert shape has no `createdAt` or `updatedAt` keys, which the insert type allows; the store always stamps both.
- UploadClient.SettleUpload: the text of the JSON parse error belongs to the browser, so it is a parameter.
