# User-action and error recorder: a Dafny model

This project models the core logic of a Chrome extension that records what a
user does on a page and what goes wrong underneath it. The extension has three
parts.

- **Content script** (`content.js`). Captures `click`, `input`, `change` and
  `submit` events. For each one it builds an action record with the target's
  selector path. It appends the record to a per-host list in extension
  storage, capped at 100 entries.
- **Page-world script** (`injected.js`). Assigns replacement `setItem`,
  `removeItem` and `clear` functions to `localStorage` and `sessionStorage`.
  They are meant to post an error record instead of throwing when the native
  primitive fails. It also wraps `XMLHttpRequest` and `fetch`, classifying
  responses and normalising request and response bodies for error reports.
- **Background worker** (`background.js`). Turns a list of captured actions
  into a text report:
  - it sorts the list by timestamp, stably and in place;
  - it merges runs of `input` events on one field and marks a following
    `change` as a confirmation;
  - it renders one line per entry;
  - it lays the report out in a fixed six-part format.

The Dafny modules follow the three scripts:

- `text.dfy` (`Text`): the JavaScript string built-ins the scripts rely on, with their own lemmas: `join`, `split` on one character, `includes`, `startsWith` and `slice(0, n)`.
- `action_model.dfy` (`ActionModel`): the action record shared by the content script and the background worker.
- `background.dfy` (`Background`):
  - `getStorageKey` and the file-name timestamp rewrite;
  - the report generator. The sort is an in-place insertion sort on an `array`, proved equal to a stable-sort specification. The merge is a fold, with its own method that works on the sorted array.
- `injected.dfy` (`Injected`):
  - the storage recorder and the wrapped storage, as classes whose methods update their state;
  - `isErrorStatus`, `parseBody`, `parseResponseBody`;
  - the per-request state of the `XMLHttpRequest` wrapper, as a class;
  - the decision and payload of the fetch wrapper.
- `content.dfy` (`Content`):
  - the action record;
  - the capped append;
  - the ancestor walk of `getElementPath`, as a loop;
  - the `DOMContentLoaded` install guard, as a class.

Some JavaScript facilities are not reimplemented. Each one is a parameter of the functions that use it:

| JavaScript facility | Parameter |
|---|---|
| `new Date(timestamp)` in the sort comparator | `when: string -> int` |
| `String.prototype.trim` | `trim` |
| `JSON.parse` (`None` when it throws) | `parse` |
| `JSON.stringify` | `stringify` |
| the UTF-8 size from `new Blob([s]).size` | `byteSize` |
| the current time | `now` |

The outcome of a native storage primitive is also a parameter, of type `NativeOutcome`: it either completes or throws a DOM error.

## Model

| member | source | states |
|---|---|---|
| Background.StorageKey | background.js:2-3 | The key starts with `storage_`, followed by exactly the host, followed by exactly the suffix. |
| Background.StorageKeyInjective | background.js:3 | Two hosts give the same key for one suffix only if they are the same host. |
| Background.ReplaceSeparators | background.js:6 | The rewrite keeps the length, turns every `:` and `.` into `-`, and leaves every other character in place. |
| Background.ReplaceSeparatorsIdempotent | background.js:6 | No `:` or `.` is left, so a second rewrite changes nothing. |
| Background.FileName | background.js:85 | The file name starts with the prefix and a dash and ends with a dot and the extension. Between them lies exactly the rewritten time, and nothing else: the length is the sum of the parts plus two. |
| Background.FileNameSingleDot | background.js:73-85 | With a dot-free prefix and extension, the only dot in the name is the one before the extension. |
| Background.Insert | background.js:11 | Inserting into the stable order adds exactly one entry. |
| Background.SortByTime | background.js:11 | The stable sort by timestamp keeps the length. |
| Background.InsertPermutes | background.js:11 | Insertion adds exactly the new entry, as a multiset. |
| Background.InsertKeepsSorted | background.js:11 | Inserting into a time-ordered list keeps it time-ordered. |
| Background.InsertAtTime | background.js:11 | The new entry goes after every entry with the same time, so same-time entries keep their order. |
| Background.SortByTimeIsStableSort | background.js:11 | The result is ordered by time and is a permutation of the input. For every time, the entries with that time appear in their input order, which is stability. |
| Background.InsertSplit | background.js:11 | If every entry from position j on is later than x, and the entry before j is not, the insertion places x at j. |
| Background.ShiftLater | background.js:11 | The inner loop of one insertion pass shifts the later-timed entries before i one place right. It returns the gap, which sits right after the last entry that is not later than x. |
| Background.InsertAt | background.js:11 | One in-place pass leaves the first i+1 cells equal to the insertion of a[i] into the first i. The cells after i are unchanged. |
| Background.SortInPlace | background.js:11 | `rawData.sort` reorders the array in place into the stable time order of its old contents. |
| Background.MergeSize | background.js:13-29 | The merge never returns more entries than it gets, and it returns none exactly when it gets none. |
| Background.StepChangesOnlyLast | background.js:14-28 | One `reduce` step either appends the event as a copy with `isConfirmed` false, or keeps the length and leaves every entry but the last as it was. |
| Background.StepKeepsMerged | background.js:14-28 | One `reduce` step keeps a fully merged list fully merged. |
| Background.Merge | background.js:13-29 | The fold of the steps from `[]` never returns more entries than it is given. |
| Background.ReduceStep | background.js:14-28 | The three branches of the `reduce` callback compute exactly one merge step of the fold. |
| Background.MergeInputOverwrites | background.js:17-20 | An input that follows a retained input on the same id adds no entry. It overwrites that entry's value and keeps its type, time and confirmation. |
| Background.MergeChangeConfirms | background.js:23-26 | A change that follows a retained input on the same id adds no entry. It sets that entry's `isConfirmed` to true. |
| Background.MergeAppends | background.js:14-28 | Any other event is appended as a copy with `isConfirmed` false. Only the last retained entry is consulted. |
| Background.MergeIsFullyMerged | background.js:13-29 | Every result entry has `isConfirmed` set, and non-inputs have it false. No entry would absorb its successor. |
| Background.MergeKeepsOrder | background.js:13-29 | Each retained entry comes from a distinct input event, apart from value and confirmation. These source events occur in increasing input order. |
| Background.ProcessEvents | background.js:10-30 | Sorts `rawData` in place into the stable time order, then returns the merge of the sorted array. The merge loop keeps the fold as its invariant. |
| Background.TimeTokenSecondWord | background.js:34 | The time is the text between the first and second spaces of the timestamp (or its end), which has no space. With no space at all it is `undefined`. |
| Background.ClickLabel | background.js:44-45 | An anchor is labelled `点击切换到「` + trimmed link text + `」`, whatever its text. Any other element gets its trimmed text, and `点击「id」` only when that is blank. |
| Background.LineBody | background.js:37-49 | The text follows the rendering rules (`RendersAs`). An input or change line is `完成输入` when confirmed and `正在输入` otherwise, followed by `「id」值：value`; an absent value reads `undefined`. A click on an `A` starts with `点击切换到「` + trimmed link text + `」`. Another click starts with its trimmed text, or with `点击「id」` when that text is blank. Every click line is exactly its label (`ClickLabel`) followed by ` (位置 X:x, Y:y)`, with nothing between. Any other type gives `未识别操作类型：` followed by the type. |
| Background.Describe | background.js:33-50 | Every line starts with `[` + the time token + `] `. The text after that head follows each per-type rendering rule of `LineBody`, and a click line ends with its position. |
| Background.Descriptions | background.js:32-52 | Gives exactly one line per processed entry, in the same order. |
| Background.SortThreeInOrder | background.js:11 | Three actions with strictly increasing times keep their order under the stable sort. |
| Background.MergeTypeThenConfirm | background.js:13-29 | Two inputs and a change on one field merge into one entry, confirmed and carrying the second value. |
| Background.TypeThenConfirmExample | background.js:10-52 | Two inputs on one field followed by a change, in time order, yield one confirmed line. The line carries the second value and the first input's time. |
| Background.FormatReport | background.js:54-63 | The report is the header, the `操作记录：` line, the descriptions joined by newlines, the end marker, the raw-data heading and the raw text, joined by newlines. |
| Background.ReportLines | background.js:54-63 | Splitting the report on `\n` gives the header, the heading, the lines of each description in turn (one empty line when there is none), both markers, then the lines of the raw text. Descriptions may contain newlines. |
| Background.ReportLinesOnePerDescription | background.js:54-63 | When no description contains a newline, each description is exactly one line of the report. |
| Background.BuildActionReport | background.js:158-164 | The download report formats the descriptions of the merge of the sorted array. Its raw-data part is the text of the array before sorting. |
| Injected.StorageErrorKey | injected.js:3-5 | Storage errors are keyed `storage_` followed by exactly the host. |
| Injected.RequestKey | injected.js:73-75 | Network errors are keyed by the storage-error key of the host immediately followed by `_request`, with nothing between. |
| Injected.KeysOfOneHostDiffer | injected.js:73-75 | The two keys of one host differ. |
| Injected.KeysAcrossHostsMeet | injected.js:3-5 | The request key of a host equals the storage-error key of that host with `_request` appended, so across hosts the two kinds of record can share a key. |
| Injected.StorageErrorInfo | injected.js:38-46 | The record has exactly `storageType`, `error` and `timestamp`; `error` has exactly the error's `name` and `message` and the key. |
| Injected.StorageRecorder.constructor | injected.js:59 | A new recorder has posted nothing. |
| Injected.StorageRecorder.HandleStorageError | injected.js:37-57 | Posts exactly one `__EXTENSION_SAVE_LOG__` message, keyed `storage_<host>`. It carries the storage type, the error's name and message, the key and the time. |
| Injected.WrappedStorage.Wrap | injected.js:7-11 | Wrapping keeps the storage contents and binds the storage type and the recorder. |
| Injected.WrappedStorage.SetItem | injected.js:12-18 | On success it stores the value and posts nothing. On a native throw the contents are unchanged, exactly one error message with the key is posted, and nothing is re-thrown. |
| Injected.WrappedStorage.RemoveItem | injected.js:20-26 | On success it removes the key and posts nothing. On a native throw the contents are unchanged, exactly one error message with the key is posted, and nothing is re-thrown. |
| Injected.WrappedStorage.Clear | injected.js:28-34 | On success it empties the storage and posts nothing. On a native throw the contents are unchanged and exactly one error message with key `''` is posted. |
| Injected.ErrorStatusCodesAreHttpErrors | injected.js:64 | Every listed error status is at least 400, so the list adds no case. |
| Injected.IsErrorStatus | injected.js:77-85 | Every status ≥ 400 is an error whatever the body. For 200, it is an error iff `code` is present and not 200, or `_parseError` is truthy. Any other status below 400 is not an error. |
| Injected.FetchReports | injected.js:149 | The fetch wrapper reports a call iff its status is outside 200..299, or it is 200 with a business error. |
| Injected.RedirectsReportedOnlyByFetch | injected.js:149 | A 3xx status is reported by the fetch wrapper, but not by the XHR wrapper, which tests only `isErrorStatus`. |
| Injected.FromEntries | injected.js:191 | The converted form data has exactly the entry names as keys. |
| Injected.FromEntriesLastWins | injected.js:191 | The value kept for a name is the one of its last entry. |
| Injected.ParseBody | injected.js:178-208 | null and undefined become null. A string, Blob or ArrayBuffer over 1e6 bytes becomes `[BODY TOO LARGE]`. Within the limit, a string becomes its parsed JSON, or stays itself if unparsable, and a Blob or ArrayBuffer is unchanged. FormData becomes a plain map with no size check. Every other value is returned unchanged. |
| Injected.ParseBodyAtLimit | injected.js:201 | The limit is exclusive: exactly 1e6 bytes is kept, one more byte is replaced. |
| Injected.ParseResponseBody | injected.js:210-252 | See the note after this table. |
| Injected.BranchesPartition | injected.js:212-240 | Every content type falls into exactly one of the stream, text, JSON and blob branches. |
| Injected.StreamBodyNotRead | injected.js:215-221 | A stream's result does not depend on what the body readers would return. |
| Injected.EventStreamIsStream | injected.js:215-224 | `text/event-stream` starts with `text/`, yet it is treated as a stream. |
| Injected.MissingContentTypeIsBinary | injected.js:212 | A missing content-type header counts as `''` and lands in the blob branch. |
| Injected.ParseErrorRawIsShortPrefix | injected.js:232-236 | An unparsable JSON text gives `_parseError: true` with `raw` equal to its first min(1000, length) characters. |
| Injected.BusinessErrorsComeFromJson | injected.js:79-83 | On a 200 response, only a JSON-branch result read within the limit can be a business error. |
| Injected.UnparsableJsonIsError | injected.js:230-236 | A 200 JSON response whose text does not parse is classified as an error. |
| Injected.BusinessCodeIsError | injected.js:79-81 | A 200 JSON response whose parsed `code` is present and not 200 is classified as an error. |
| Injected.MonitoredXhr.constructor | injected.js:92-96 | A new request has an empty `_request` and `_response`, no headers and no `loadend` listener, and has posted nothing. |
| Injected.MonitoredXhr.Open | injected.js:98-101 | `open` replaces the request record: the method and URL are set, the headers are empty, and any earlier body is dropped. Listeners from earlier `send` calls stay. |
| Injected.MonitoredXhr.SetRequestHeader | injected.js:103-106 | After `open` it records the header, with a later value for a name replacing an earlier one. Before `open` it throws and changes nothing. |
| Injected.MonitoredXhr.Send | injected.js:108-113 | `send` stores the normalised request body and adds one more `loadend` listener. |
| Injected.MonitoredXhr.RunListener | injected.js:112-119 | One listener run normalises the response with `parseBody`. It posts one `{type: 'xhr', …}` record keyed `storage_<host>_request` iff `isErrorStatus` holds, with no `ok` test; otherwise it posts nothing. |
| Injected.XhrRecord | injected.js:115-131 | The XHR record has exactly `type: 'xhr'`, the URL, the request body, the response body and the time. |
| Injected.MonitoredXhr.LoadEnd | injected.js:112-120 | A `loadend` event runs every listener added so far. On an error status it posts one record per `send` call made on the object; otherwise it posts nothing. |
| Injected.ReportsPerSend | injected.js:108-121 | An object opened and sent once posts one record on an error response. Opened and sent again, it posts two for the second error response. |
| Injected.FetchReport | injected.js:143-164 | A save-log message keyed `storage_<host>_request` is produced iff the call is reported. It carries the normalised request body and the parsed response body. |
| Content.ActionsKey | content.js:14 | The actions key is `userActions_` followed by exactly the host. |
| Content.ActionKeysNeverMeet | content.js:14 | The key the content script writes never equals the key `storage_<host>_actions` that the background worker reads, for any pair of hosts. |
| Content.MakeAction | content.js:21-42 | The record keeps type, time, URL and path. Every present target field and coordinate is kept; an absent field becomes `''` and an absent coordinate 0. Its `innerText` is the first min(50, n) characters of the n-character text, so the whole text when it is no longer than 50. The top-level value is present only for input and change, where it is the target's value. `isConfirmed` is absent. |
| Content.IdlessInputsMerge | content.js:26 | Two consecutive inputs whose targets both lack an id are recorded with id `''`, so the merge keeps one entry: the first, with the second value. |
| Content.CappedAppend | content.js:47-55 | The new list has min(100, n+1) entries. Its last entry is the new action, and it is the newest suffix of the old list plus the action. |
| Content.AppendBelowCap | content.js:50-55 | Below the cap nothing is dropped. |
| Content.AppendToFullList | content.js:53-55 | On a full list of 100, the oldest entry gives way to the new one. |
| Content.AppendAllKeepsNewest | content.js:46-58 | After any number of appends, each reading the list the previous one wrote, the stored list is the newest 100 entries of everything recorded, in order. |
| Content.LowerCase | content.js:74 | Lower-casing keeps the length and maps each character on its own. |
| Content.SelectorParts | content.js:74-79 | A selector is the lower-cased node name followed by `#id` if the id is non-empty. Otherwise it is followed by `.` and the classes joined with `.` if `className` is non-empty. Otherwise nothing follows. |
| Content.Selector | content.js:74-79 | A selector starts with the lower-cased node name and, when the id is non-empty, ends with `#id`. |
| Content.ElementRun | content.js:73 | The walk visits exactly the leading run of element nodes in the ancestor chain. |
| Content.ReversedOrder | content.js:80 | Unshifting each visited element's selector puts the k-th selector at the k-th element counted from the root end. |
| Content.GetElementPath | content.js:69-88 | The loop returns the selectors of the element run, root first, joined with ` > `. |
| Content.ElementPath | content.js:69-88 | The path is empty when the target is not an element. Otherwise it starts with the outermost element's selector and ends with the target's. |
| Content.PathSelectors | content.js:71-83 | The path has one selector per element of the run. The event target's selector is last and the outermost element's is first. |
| Content.RecordAction | content.js:18-66 | Returns the key `userActions_<host>` and the capped append of the new record to the stored list. An absent key counts as empty. |
| Content.Document.constructor | content.js:109 | A document starts without the install flag and without listeners. |
| Content.Document.AddEventListeners | content.js:101-105 | Registers one capturing listener per event type, in the order click, input, change, submit. |
| Content.Document.OnContentLoaded | content.js:108-113 | Installs the listeners only if the flag is unset, and then sets it. |
| Content.LoadTwice | content.js:108-113 | Two `DOMContentLoaded` runs on a fresh document install each listener once. |

`Injected.ParseResponseBody` checks its branches in priority order:

1. A content type containing `stream` gives metadata only.
2. Otherwise, a type starting with `text/` gives the text, or `[TEXT TOO LONG]` when it is longer than 1e6.
3. Otherwise, a type containing `json` gives `[JSON TOO LARGE]` when longer than 1e6. Within the limit it gives the parsed value, or `{_parseError, raw}` when the text does not parse.
4. Otherwise it gives the blob metadata.

A failed body read gives `{_error, _status}`.

## Left out

- `popup.js` is left out as a whole. It is UI glue: status text, tab queries and script injection into the page.
- Every `chrome.*` call is left out: `storage.local` get/set/remove, `downloads.download`, `tabs.captureVisibleTab` and `runtime.onMessage`. So are the two `getActions` handlers and the background message dispatcher. Extension storage appears only as the map that `RecordAction` reads and the list it returns to be written.
- `window.postMessage` delivery is left out. The relay that would receive `__EXTENSION_SAVE_LOG__` messages is absent from the code, so only the posted payloads are modelled.
- The installation of the `XMLHttpRequest` and `fetch` wrappers is left out: replacing the globals, subclassing, `clone` and `await`. So are the native calls they forward to: `super.open`, `super.setRequestHeader`, `super.send` and `originalFetch`. Modelled are the XHR wrapper's own state (`MonitoredXhr`), including how many `loadend` listeners its `send` calls have added, and the fetch wrapper's decision and payload (`FetchReport`); the fetch wrapper returns the original response.
- Injected.WrappedStorage: assumes that the assignments `storage.setItem = …`, `storage.removeItem = …` and `storage.clear = …` (injected.js:12, 20, 28) replace the native methods. A `Storage` object has a named property setter, and under the Web IDL rules for such objects an assignment of a string-named property plausibly stores an item of that name, here holding the function's text, while the native method stays in place. The model does not capture that reading; under it a failing primitive would throw, and nothing would be posted.
- `StorageManager.getStorageSizeMB` and `StorageManager.formatReport` are left out. The first uses floating-point division and `toFixed`. The second is called with a JSON string where it expects an array.
- Screenshot capture and the data-URL encoding of the downloaded report are left out. Only the file names are modelled.
- `Date` is abstract. The comparator is an integer-valued `when`, so a timestamp that does not parse is not modelled: its comparison would be NaN. `toLocaleString`, `toISOString` and `Date.now` are given strings or numbers.
- `JSON.parse`, `JSON.stringify`, `String.prototype.trim` and the UTF-8 size of a Blob are parameters rather than reimplementations.
- Background.Describe: positions render as integers. A fractional `clientX` would render as a decimal, which is not modelled.
- Content.LowerCase: lower-cases ASCII letters only. Element node names are ASCII, so full Unicode case mapping is not modelled.
- Injected.ParseResponseBody: counts lengths in characters, whereas `text.length` counts UTF-16 code units. A text with characters outside the Basic Multilingual Plane can therefore reach the 1e6 and 1000 limits sooner in JavaScript.
- Injected.ParseBody: the branch where measuring a body's size throws is not modelled. In the source it returns the body unchanged. FormData values are strings only; `File` values are not modelled.
- Content.MakeAction: `slice(0, 50)` counts UTF-16 code units, whereas the model counts characters. A text with characters outside the Basic Multilingual Plane keeps fewer characters in JavaScript.
- Content.AppendAllKeepsNewest: holds only for appends that do not overlap. The append is an asynchronous read-modify-write (content.js:46-58). Events dispatched in one task each call `storage.local.get` before any `set` runs: click, input and change on a checkbox, input and change on a select, click and submit on a submit button. All of them read the same list, and only the last write survives. The lost entries also change the report: a select whose `input` was lost has its `change` rendered as `正在输入`. The asynchrony is not modelled.
- Content.GetElementPath: the `catch` branch that returns `''` is not modelled. Node names, ids and class lists are plain strings here, so nothing in the walk can throw. The same holds for the `try`/`catch` around `recordAction`.
- Content.Selector: an SVG element's `className` is an object, not a string, and is not modelled. `classList` is the given list of class tokens, not re-derived from `className`. So a `className` made only of spaces gives the selector `name.`, as in the browser.
- Listener registration is a list. `addEventListener` ignores a duplicate registration, but the install guard already prevents duplicates.

## Where the code and its design description differ

The model follows the code in each case.

- **The merged line's time.** The design description says a typed-then-confirmed field is shown with the time of the confirming `change`. The code only overwrites `value` and `isConfirmed` on the retained entry, so the line shows the first `input`'s time (`Background.TypeThenConfirmExample`).
- **The actions keys.** The content script writes `userActions_<host>` (content.js:14). The background worker reads `storage_<host>_actions` (background.js:149). `Content.ActionKeysNeverMeet` proves the two never coincide. They are modelled as written, not reconciled.
- **When listeners are installed.** They are installed only from the `DOMContentLoaded` handler. There is no immediate install for a document that has already loaded.
- **Storage type names.** The storage type in a storage-error record is `localStorage` or `sessionStorage`.
- **`target.path`.** It is a single string, joined with ` > `, not a list.
- **Raw text in the report.** The raw-data part is stringified before `processEvents` sorts the array in place, so it shows the capture order.
- **Fields without an id.** A target without an id is recorded with id `''` (content.js:26), and the merge compares ids (background.js:17). The design merges inputs on the same element id, meaning the same element. In the code, consecutive inputs on two different fields that both lack an id share the id `''` and merge into one entry (`Content.IdlessInputsMerge`).
- **Reused XHR objects.** Every `send` adds another `loadend` listener, and listeners outlive a request. The design observes each outbound call once. An object reused through `open` and `send`, however, posts one record per `send` so far for each error response (`Injected.ReportsPerSend`).
- **Fetch error records.** They carry no `type` field. Only XHR records carry `type: 'xhr'`. The XHR wrapper normalises the response with `parseBody`, not `parseResponseBody`.
