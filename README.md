# Cheque ledger: a Dafny model

This project models the core of a small bank-cheque ledger web application, which has three parts:

- **The page's ledger** (`app/page.js`). The ledger is a list of cheque rows. Each row has five text fields, a photo path, a save date and a draft flag (`isNew`). Four handlers replace the list with a new one: save, cancel, delete and field edit. The scan handler merges a recognised cheque into a row. One draft row is always kept at the end. Only saved rows are written to local storage.
- **The cleaning and parsing step of the recognition call** (`app/api/savePhoto/getInfo.js`). The service's raw answer has its code fences and escaped newlines removed. It is then trimmed and handed to `JSON.parse`.
- **The scan route** (`app/api/savePhoto/route.js`). The route runs a capture script and classifies the outcome. It has the printed image recognised and attaches the file name as `path`. It answers 200 when this succeeds and 400 when any step fails.

Files and modules:

| file | module | contents |
|---|---|---|
| common.dfy | `Common` | `Option`, `Result`, the error kinds of the scan path |
| js_string.dfy | `JsString` | `String.prototype.trim` (ECMAScript whitespace set), `split` and `join` with a one-character separator |
| json.dfy | `Json` | JSON values, the HTTP reply, reading a string member |
| ledger.dfy | `Ledger` | rows; `formatDate`; the transitions as functions; the one-draft invariant; the class `ChequeApp` whose methods update `cheques` and `editId` |
| sanitizer.dfy | `Sanitizer` | the single left-to-right `replace` pass, `Clean`, `GetChequeInfo` |
| capture_route.dfy | `CaptureRoute` | `saveImage`'s decision, attaching `path`, the status and body of `POST` |
| pipeline.dfy | `Pipeline` | from the capture outcome and the service's text to the ledger after a scan |

Several inputs are parameters of the model:

- `Date.now()` becomes `freshId` and `new Date()` becomes `today`.
- The answer to `window.confirm` becomes `confirmed`.
- `JSON.parse` becomes `parse: string -> Option<JsonValue>`, with `None` meaning it throws.
- The upload and generation calls to the recognition service become `remote` (or the reply `Result` itself).
- The `exec` callback's arguments become an `ExecOutcome`.
- The request body arrives already parsed, as `Option<JsonValue>`.

The cleaning is not idempotent. The code makes one pass, and removing one match can create another, so one pass is not a fixpoint. `Sanitizer.CleanNotIdempotent` shows this: "``\n`" (with a backslash-`n` in the middle) cleans to "```", and cleaning that again gives "". What does hold is that a fenced JSON text parses like the bare text. `Sanitizer.DecorationIsTransparent` proves it.

## Model

| member | source | states |
|---|---|---|
| JsString.TrimStartIndex | app/api/savePhoto/getInfo.js:63 | The kept part starts after the leading whitespace and at a character that is not whitespace. |
| JsString.Trim | app/api/savePhoto/getInfo.js:63 | `trim()` returns the infix left after cutting whitespace from both ends. Everything cut is whitespace, and the result has none at either end. |
| JsString.TrimPadded | app/api/savePhoto/getInfo.js:63 | Trimming whitespace + m + whitespace, where m has no whitespace at its ends, gives exactly m. |
| JsString.TrimKeepsBetween | app/api/savePhoto/getInfo.js:63 | Everything between two non-whitespace characters is kept by `trim`, in its place. |
| JsString.TrimTight | app/api/savePhoto/route.js:39 | A string with no whitespace at either end is its own trim. |
| JsString.TrimIdempotent | app/api/savePhoto/route.js:39 | Trimming twice is trimming once. |
| JsString.Split | app/page.js:10 | `split('-')` gives at least one part, and no part contains the separator. |
| JsString.JoinSplit | app/page.js:10 | Joining the parts of a split with the separator gives back the string. |
| JsString.SplitJoin | app/page.js:10 | Splitting a join of separator-free parts gives back those parts. |
| Json.StringMember | app/page.js:126-131 | `value[key]` is a string exactly when the value is an object holding a string under that key, and then it is that string. |
| Ledger.Set | app/page.js:114 | `{ ...c, [field]: value }` reads `value` at the named field and the old value at every other field. Id and draft flag are kept. |
| Ledger.FormatDate | app/page.js:8-12 | "" formats to "". Any other text formats to something containing "/". |
| Ledger.FormatDateReverses | app/page.js:8-12 | "Y-M-D", with dash-free parts, formats to "D/M/Y". |
| Ledger.FormatDateWithoutDash | app/page.js:10-11 | Text without a dash gives "undefined/undefined/" followed by the text, since only one part exists. |
| Ledger.CreateEmptyRow | app/page.js:14-24 | A new row is a draft with the given id and save date. All six required fields are empty, so it cannot be saved. |
| Ledger.FindIndex | app/page.js:62 | The position of the first row with the id, or the length when there is none. |
| Ledger.Find | app/page.js:62 | `find` returns nothing exactly when no row has the id, and otherwise the first row that has it. |
| Ledger.Filter | app/page.js:89 | `filter` keeps only rows that pass, each with its original multiplicity. |
| Ledger.FilterConcat | app/page.js:89 | `filter` keeps the relative order, because it distributes over concatenation. |
| Ledger.MarkSaved | app/page.js:71-73 | Every row with the id becomes saved and stamped with today. Every other row is unchanged. |
| Ledger.WithDraft | app/page.js:74-76 | A draft is present afterwards. A ledger that has a draft is returned as it is, and one without gets the new row appended at the end. |
| Ledger.Save | app/page.js:61-85 | Without a complete first row for the id, nothing changes. Otherwise the rows with the id become saved on today, others are kept, and a draft is present. Exactly one new empty draft is appended, and only when every earlier draft had the saved id. |
| Ledger.FilterLeavesDraft | app/page.js:89-92 | A filter that drops exactly the drafts with the id leaves a draft exactly when some draft had another id. |
| Ledger.DraftAfter | app/page.js:90-92 | After the conditional push the given rows come first in order, with the new draft after them exactly when none of them was a draft. |
| Ledger.FilterThenDraft | app/page.js:89-93 | Filtering then pushing keeps the filtered rows first, in order. The new draft follows exactly when every draft had the id. |
| Ledger.Cancel | app/page.js:87-96 | Removes exactly the draft rows with the id, so saved rows with it stay. The remaining rows keep their order and multiplicity, and a draft is present. A new empty draft is appended, as the last row, exactly when every draft had the id. |
| Ledger.Delete | app/page.js:98-110 | Unconfirmed, nothing changes. Confirmed, every row with the id is removed whatever its state, and the others keep their order and multiplicity. A new empty draft is appended, as the last row, exactly when every draft had the id. |
| Ledger.Change | app/page.js:112-116 | Same length and order. Only the named field of rows with the id changes, and ids and draft flags are kept. |
| Ledger.Merge | app/page.js:122-135 | A matching row takes amount, date, owner→ownerName, chequeNum→chequeNumber, BankName→bankName and "/scanned/"+path. Its id, draft flag and save date are kept, and other rows are unchanged. |
| Ledger.ApplyScan | app/page.js:118-145 | A 2xx reply whose body is not `null` merges that body. Any other outcome leaves the ledger untouched, including a `null` body, where reading a field throws into the catch. Draft flags never change. |
| Ledger.Persisted | app/page.js:55 | The persisted list holds no draft. It holds every saved row with its multiplicity. |
| Ledger.Visible | app/page.js:147-169 | Draft rows always pass the view filter. Saved rows pass exactly when the date filter keeps them, and nothing else appears. |
| Ledger.SaveKeepsOneDraft | app/page.js:70-78 | From exactly one draft, a save leaves exactly one draft. |
| Ledger.CancelKeepsOneDraft | app/page.js:88-94 | From exactly one draft, a cancel leaves exactly one draft. |
| Ledger.DeleteKeepsOneDraft | app/page.js:100-106 | From exactly one draft, a delete leaves exactly one draft. |
| Ledger.EditsKeepDraftCount | app/page.js:112-136 | Field edits and scan merges keep the number of drafts. |
| Ledger.ReloadHasOneDraft | app/page.js:44-57 | The persisted rows plus a new row hold exactly one draft. |
| Ledger.CancelKeepsSavedDeleteRemoves | app/page.js:89-101 | A saved row with the id survives cancel but not a confirmed delete. |
| Ledger.SavedRowIsPersisted | app/page.js:55-73 | After a save, the saved row stamped with today is among the persisted rows. |
| Ledger.ChequeApp.constructor | app/page.js:44-52 | At startup the ledger is the stored rows plus a new draft, and no row is open for editing. |
| Ledger.ChequeApp.HandleEdit | app/page.js:59 | Opens the row for editing and leaves the ledger alone. |
| Ledger.ChequeApp.HandleSave | app/page.js:61-85 | Reports whether the guard passed, moves the ledger by `Save`, closes editing only on success, and keeps a draft present. |
| Ledger.ChequeApp.HandleCancel | app/page.js:87-96 | Moves the ledger by `Cancel`, closes editing, and leaves a draft present. |
| Ledger.ChequeApp.HandleDelete | app/page.js:98-110 | Moves the ledger by `Delete` and keeps a draft present. |
| Ledger.ChequeApp.HandleChange | app/page.js:112-116 | Moves the ledger by `Change` and keeps a draft present. |
| Ledger.ChequeApp.HandlePhotoChange | app/page.js:118-145 | Moves the ledger by `ApplyScan` and keeps a draft present. |
| Ledger.ChequeApp.ChequesToSave | app/page.js:54-57 | What is written to storage holds no draft. |
| Sanitizer.StripMarkers | app/api/savePhoto/getInfo.js:62 | The pass never lengthens the text. |
| Sanitizer.Clean | app/api/savePhoto/getInfo.js:61-63 | Cleaned text is no longer than the raw text and has no whitespace at either end. |
| Sanitizer.MarkerAtMatches | app/api/savePhoto/getInfo.js:62 | An alternative starts at a position exactly when the pass finds a match of positive length there. |
| Sanitizer.StripKeeps | app/api/savePhoto/getInfo.js:62 | Where no alternative matches, the first character is kept and the pass goes on. |
| Sanitizer.StripDropsEscape | app/api/savePhoto/getInfo.js:62 | Where backslash-`n` starts, it is dropped and the pass goes on. |
| Sanitizer.StripPlainPrefix | app/api/savePhoto/getInfo.js:62 | A prefix where no alternative starts passes through unchanged. |
| Sanitizer.StripPlainFrom | app/api/savePhoto/getInfo.js:62 | From a position on, characters where no alternative starts are kept one by one. |
| Sanitizer.StripPlainPart | app/api/savePhoto/getInfo.js:62 | The same, for text written as a plain part followed by the rest. |
| Sanitizer.PlainTextOnlyTrimmed | app/api/savePhoto/getInfo.js:62-63 | Text with none of the three patterns is only trimmed. |
| Sanitizer.NoMarkerBeforeNewline | app/api/savePhoto/getInfo.js:62 | A newline after marker-free text ends every match that could start before it. |
| Sanitizer.NoMarkerBeforeEscape | app/api/savePhoto/getInfo.js:62 | No match starts before an escaped newline that follows marker-free text. |
| Sanitizer.FencedJsonCleansToItself | app/api/savePhoto/getInfo.js:62-63 | "```json"+newline+J+newline+"```" cleans to exactly J, for a J with no marker and no whitespace at its ends. |
| Sanitizer.StripTrailingEscape | app/api/savePhoto/getInfo.js:62 | An escaped newline after marker-free text is dropped, and the text before it is kept whole. |
| Sanitizer.EscapedNewlinesAroundRemoved | app/api/savePhoto/getInfo.js:62-63 | Backslash-`n` on both sides of such a J is removed, giving exactly J. |
| Sanitizer.StripSplit | app/api/savePhoto/getInfo.js:62 | The pass splits at any position that no match reaches across: the result is the pass over the part before it followed by the pass over the rest. |
| Sanitizer.MatchBeforeNewline | app/api/savePhoto/getInfo.js:62 | No alternative reaches across a line break, except "```json" right before it. |
| Sanitizer.MatchBeforeBackslash | app/api/savePhoto/getInfo.js:62 | No alternative reaches across a backslash. |
| Sanitizer.StripAroundNewline | app/api/savePhoto/getInfo.js:62 | For any a not ending in "```json" and any b, the pass over a+newline+b is the pass over a, the newline, then the pass over b. |
| Sanitizer.StripAroundEscape | app/api/savePhoto/getInfo.js:62 | For any a and b, the pass over a+backslash-`n`+b is the pass over a followed by the pass over b. |
| Sanitizer.NewlineSurvives | app/api/savePhoto/getInfo.js:62-63 | For any a not ending in "```json" and any b, when the pass leaves a non-whitespace character on each side, the newline between them is in the cleaned text, at its original place. |
| Sanitizer.NewlineInside | app/api/savePhoto/getInfo.js:63 | A line break between two non-whitespace characters is kept by `trim`. |
| Sanitizer.EscapedNewlineRemoved | app/api/savePhoto/getInfo.js:62-63 | For any a and b, cleaning a+backslash-`n`+b trims the pass over a joined to the pass over b: the pair is gone wherever it stands. |
| Sanitizer.CleanNotIdempotent | app/api/savePhoto/getInfo.js:61-63 | One pass is not a fixpoint: the second call cleans further. |
| Sanitizer.GetChequeInfo | app/api/savePhoto/getInfo.js:60-71 | A failed service call is rethrown. Cleaned text that does not parse fails with MalformedJson and returns no record. Otherwise the result is the parsed value. |
| Sanitizer.DecorationIsTransparent | app/api/savePhoto/getInfo.js:60-67 | A fenced JSON text yields the same result as the bare text. |
| CaptureRoute.SaveImage | app/api/savePhoto/route.js:25-44 | An exec error rejects whatever stdout holds. Non-empty stderr rejects. Otherwise the result is stdout with its surrounding whitespace cut. |
| CaptureRoute.AttachPath | app/api/savePhoto/route.js:13-14 | An object gains `path` and keeps its other members. An array is serialised unchanged. A primitive or null throws. |
| CaptureRoute.Handle | app/api/savePhoto/route.js:7-15 | A rejected body fails with BadRequestBody. Otherwise a failed script run fails with its error, then a failed extraction of `public\scanned\`+name fails with its error. Otherwise the result is the extraction with `path` attached. |
| CaptureRoute.Post | app/api/savePhoto/route.js:6-20 | The status is 200 or 400. It is 400 exactly when a step fails, and then the body is `{error: "Invalid request"}`. |
| CaptureRoute.OkReplyCarriesPath | app/api/savePhoto/route.js:11-14 | A 200 reply means a clean run. For an object it carries the trimmed, unprefixed file name under `path` next to the recognised members. |
| CaptureRoute.FailuresAnswer400 | app/api/savePhoto/route.js:16-19 | Any of these gives the same 400 reply: a bad body, an exec error, stderr output, a failed extraction, or a primitive extraction result. |
| Pipeline.ObjectReply | app/api/savePhoto/route.js:11-14 | A clean run whose image is recognised as an object gets 200 with `path` attached. |
| Pipeline.MergeAttached | app/page.js:122-135 | Merging an object with `path` attached takes the text fields from the object and the photo from the path. |
| Pipeline.ScanFillsRow | app/page.js:118-136 | A clean run whose image is read as an object fills the matching rows from it and sets the photo from the trimmed script output. Draft flags and other rows are kept. |
| Pipeline.ScanFailureKeepsLedger | app/page.js:138-140 | The ledger stays exactly as it was when any of these fails: the script, the service, the parse, or the result's shape. |
| Pipeline.FencedResponseSameReply | app/api/savePhoto/getInfo.js:60-67 | A fenced and an unfenced service answer give the page the same reply. |

## Left out

- `app/layout.js` is not part of this model. It is static metadata and markup.
- JSX rendering, status messages, the print window, `setTimeout` message clearing and `isLoading` are UI only.
- The date-based view filters (`pastDue`, `today`, `month`, `year`, `dateRange`) depend on JavaScript `Date` and the clock. `Ledger.Visible` takes them as the predicate `keepSaved`.
- `totalAmount` is left out because it is floating-point `parseFloat` arithmetic.
- The `localStorage` reads and writes are browser I/O. Only the filter deciding what is written is modelled. The stored list is an input of the constructor.
- The upload and generation calls to the recognition service, including the safety settings, are foreign network calls. They are the input `remote`. Line 40 of `getInfo.js` passes the safety settings as the second argument of `getGenerativeModel`, and whether they take effect cannot be told from this code.
- `JSON.parse` itself is the opaque parameter `parse`.
- Spawning PowerShell and the command line and script path it is built from are left out, because they are OS process I/O. The chequeId is only used in that command, so the route does not depend on it. Only the classification of the callback's outcome is modelled.
- Request-body parsing and `NextResponse` serialisation are framework plumbing. A body that is not JSON or is `null` is the one rejection condition kept.
- Concurrency is not modelled. `handleChange` and `handlePhotoChange` map over the `cheques` of their closure rather than the latest state. The model applies every handler to the current ledger, so a stale closure overwriting a concurrent change is not captured.
- Ledger.Merge: a scan value that is not a string is written as "". For a missing value, `null`, `false` or `0` this agrees with the code, whose save guard refuses those values as it refuses "". A non-zero number, `true`, an object or an array is stored as it is by the code, and the save guard then accepts the row; the model stores "" and refuses that save, because row fields are text here. A missing `path` gives the photo "/scanned/undefined"; a `path` that is not a string cannot arrive, since the route sets it to the file name.
- Ledger.Change: the field name is one of the seven text fields. Editing `id` or `isNew` through `handleChange` is not modelled, because the page only passes text field names.
- Ledger.FormatDate: its own contract only says that "/" appears. The exact result for well-formed dates is `Ledger.FormatDateReverses`.
- Sanitizer.StripMarkers: its own contract states only the length bound. Its behaviour is stated by the `Strip...` lemmas and the cleaning lemmas after them.
- Error messages carry only their text. The `Error(e)` rewrapping in `getChequeInfo`'s `catch` and the console logging have no effect on the reply, and are left out.
