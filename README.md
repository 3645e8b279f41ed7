# API tester page — a Dafny model

This project models the logic of the API tester page (`ApiTester`) of the
web front end. On that page a user composes an HTTP request: a method, a URL,
query parameters, header rows and a body. The page substitutes the active
environment's `{{name}}` variables into the URL and sends the request through
the backend proxy. It then shows the status line, time, headers and body of
the answer, and keeps a history of the last 25 sends. Requests can be saved
into collections and folders on the backend and loaded back. Collections can
be created, renamed, duplicated and deleted, and they are mapped to
workspaces in local storage.

The model has one module per concern and one class for the page's state:

- `Common`: JavaScript truthiness, `trim`, `split`/`join`, decimal numerals and `parseInt`.
- `UriComponent`: `encodeURIComponent` over UTF-8, with a decoder as its inverse.
- `QueryString`: the query string and the final URL, with a parser as their inverse.
- `Templates`: `applyEnvToUrl` (global literal replacement of `{{key}}`) and the scan for unresolved `{{…}}` placeholders.
- `HeaderObjects`: the header object built from the editor rows by assignment, as an ordered association list with unique keys.
- `Outgoing`: the descriptor handed to the proxy (method, URL, headers with the default `Content-Type`, body).
- `Responses`: the status line, the elapsed time and the response header rows; also reading the status line back as the save handler does.
- `History`: the 25-entry, newest-first request log.
- `Collections`: collections, folders and requests, the workspace map, and the enrichment of the server's listing.
- `Html`: `escapeHtml`, with an unescaper as its inverse.
- `Tester`: the page's state as the class `ApiTester`, and its handlers as methods.

Everything the page receives from outside is a parameter of the handler that
receives it: backend answers, prompt and confirm results, random UUIDs,
clocks, and the local-storage workspace map. Each handler changes exactly the
state fields that the page's setters change. `AfterSend`, `AfterSave` and
`Loaded` define what sending, saving and loading do; the page's properties
are proved about these functions, and the methods are proved to follow them.

Where the page's evident intent and its code differ, the model follows the
code:

- **Duplicate environment keys.** The earlier variable wins, because its pass
  has already replaced every `{{key}}`. The later one still applies when the
  earlier replacement spells a new `{{key}}` (`Templates.DuplicateKeyCanRebuildToken`).
- **Loading a stored request.** Missing or empty fields leave the editor's
  current values in place; they are not reset to empty.
- **The default `Content-Type`.** It is added when that header is absent and
  also when it is present but empty.

## Model

| member | source | states |
|---|---|---|
| Common.ParseDecimal | src/pages/ApiTester.jsx:1048-1050 | `parseInt` of the decimal numeral of any natural number gives back that number |
| Common.TrimEmptyIffBlank | src/pages/ApiTester.jsx:737 | a string trims to empty exactly when it is all white space, which is when a key row counts as blank |
| Common.JoinSplit | src/pages/ApiTester.jsx:1048-1051 | joining the pieces of `split(c)` with `c` rebuilds the string |
| Common.SplitJoin | src/pages/ApiTester.jsx:1048-1051 | splitting a join of `c`-free pieces gives back the pieces |
| UriComponent.EncodeComponent | src/pages/ApiTester.jsx:738 | the encoding holds only unreserved characters, `%` and hex digits |
| UriComponent.DecodeEncode | src/pages/ApiTester.jsx:738 | percent-decoding the UTF-8 encoding of any string gives back the string, so encoding loses nothing |
| QueryString.KeptRows | src/pages/ApiTester.jsx:737 | a row is kept exactly when its key is not blank, and nothing else is kept; a single row is kept or dropped by that test alone |
| QueryString.KeptRowsAppend | src/pages/ApiTester.jsx:737 | the filter works row by row in order: filtering two lists in a row gives the two filtered lists in a row, so the kept rows keep their order |
| QueryString.QueryReadsBack | src/pages/ApiTester.jsx:736-739 | when some row is kept, parsing the query gives back exactly the kept rows, in order |
| QueryString.QueryEmptyIffNoRows | src/pages/ApiTester.jsx:736-742 | the query is empty exactly when no row has a non-blank key |
| QueryString.FinalUrlShape | src/pages/ApiTester.jsx:740-742 | with no kept rows the final URL is the URL; otherwise it is the URL, `&` if the URL already has `?` else `?`, then a query that reads back to the kept rows |
| QueryString.FinalUrlExample | src/pages/ApiTester.jsx:736-742 | `https://api.x/y` with the row `lang=en` becomes `https://api.x/y?lang=en` |
| Templates.ApplyEnvToUrl | src/pages/ApiTester.jsx:575-585 | the loop gives the URL unchanged without an active environment or variables, and otherwise every variable's pass applied in list order |
| Templates.SubstituteAppend | src/pages/ApiTester.jsx:579-583 | the passes over two lists in a row equal the passes over their concatenation |
| Templates.VariableWithoutTokenIgnored | src/pages/ApiTester.jsx:579-583 | a variable whose `{{key}}` no longer occurs when its turn comes can be dropped without changing the result |
| Templates.DuplicateKeyCanRebuildToken | src/pages/ApiTester.jsx:579-583 | with two variables named `k`, the first can build a new `{{k}}` that the second then replaces |
| Templates.EmptyKeysSkipped | src/pages/ApiTester.jsx:580 | variables with an empty key have no effect |
| Templates.NoPlaceholderUnchanged | src/pages/ApiTester.jsx:575-585 | with literal variables, a URL holding no `{{name}}` placeholder is sent unchanged, and the scan finds nothing unresolved in it |
| Templates.TokenIsPlaceholder | src/pages/ApiTester.jsx:579-583 | the `{{key}}` of a literal key is a placeholder the scan would report, since such a key holds no `}` |
| Templates.SubstituteAllNoPlaceholder | src/pages/ApiTester.jsx:579-583 | the passes of literal variables leave a URL without placeholders unchanged |
| Templates.NoOpenPairUnchanged | src/pages/ApiTester.jsx:575-585 | a URL without any `{{` is sent unchanged whatever the variables, and has nothing unresolved |
| Templates.NonLiteralKeyChangesUrl | src/pages/ApiTester.jsx:579-583 | without literal keys the first property fails: the key `}` turns `{{}}}`, which has no placeholder, into its value |
| Templates.PlaceholdersIffHasPlaceholder | src/pages/ApiTester.jsx:792-793 | the global match of `\{\{([^}]+)\}\}` finds something exactly when the URL holds `{{`, a non-empty `}`-free run, then `}}` |
| Templates.SinglePlaceholder | src/pages/ApiTester.jsx:792-796 | a brace-free prefix followed by one `{{name}}` yields exactly the name `name` |
| Templates.ScanFinalToken | src/pages/ApiTester.jsx:792-796 | a `{{name}}` ending the URL is matched and stripped of its braces to `name` |
| Templates.ResolveKnownExample | src/pages/ApiTester.jsx:575-585 | `https://x/{{K}}` with `K = V` active resolves to `https://x/V`, which has no unresolved placeholder |
| Templates.ResolveMissingExample | src/pages/ApiTester.jsx:789-805 | `https://x/{{MISSING}}` stays as it is, and the scan reports `MISSING` |
| HeaderObjects.Assign | src/pages/ApiTester.jsx:755 | after `o[key] = v`, `key` maps to `v` and every other key is unchanged |
| HeaderObjects.LookupAbsent | src/pages/ApiTester.jsx:759 | a key has no value exactly when it is not among the object's keys |
| HeaderObjects.AssignKeys | src/pages/ApiTester.jsx:755 | assigning to an existing key keeps the key order; a new key goes last |
| HeaderObjects.AssignUnique | src/pages/ApiTester.jsx:755 | assignment keeps the keys distinct |
| HeaderObjects.BuildHeaderObject | src/pages/ApiTester.jsx:1038-1042 | the save handler's loop builds the same object as the send handler's filter and forEach |
| HeaderObjects.FromRowsLookup | src/pages/ApiTester.jsx:752-755 | each key maps to the value of its last non-blank row, and keys without such a row are absent |
| HeaderObjects.FromRowsKeys | src/pages/ApiTester.jsx:752-755 | the object's keys are distinct, and they are exactly the keys of the non-blank rows |
| HeaderObjects.FromRowsExample | src/pages/ApiTester.jsx:752-755 | of two `X-A` rows the later wins and keeps the first one's position; a blank-key row is dropped |
| HeaderObjects.RowsRoundTrip | src/pages/ApiTester.jsx:647-657 | rows with distinct non-blank keys survive building the object and listing its entries again |
| Outgoing.WithContentType | src/pages/ApiTester.jsx:759-760 | an absent or empty `Content-Type` becomes the default; a non-empty one and every other header are kept |
| Outgoing.BodyIffCarries | src/pages/ApiTester.jsx:807-819 | the descriptor has no body exactly for GET and HEAD; other methods carry the editor text, raw for JSON and text, as the parse source for form |
| Outgoing.DescriptorHeader | src/pages/ApiTester.jsx:752-776 | each header is the last non-blank row's value, except that a JSON or text body on a body-carrying method gets the default `Content-Type` when no row gives it a value |
| Outgoing.ContentTypeExample | src/pages/ApiTester.jsx:756-764 | a lower-case `content-type` row does not stop the default `Content-Type`, which goes after it |
| Responses.StatusCode | src/pages/ApiTester.jsx:850 | the proxy's non-zero status is used, and otherwise the transport's |
| Responses.Elapsed | src/pages/ApiTester.jsx:854-858 | the proxy's `timeMs` is used when present, and otherwise the local measurement |
| Responses.StatusRoundTrip | src/pages/ApiTester.jsx:852 | the save handler reads back from a status line the code and the status text without its trailing white space |
| Responses.StatusLineTrimEnd | src/pages/ApiTester.jsx:852 | rebuilding a status line from the message read back gives the same line |
| Responses.RawStatusRoundTrip | src/pages/ApiTester.jsx:908 | the untrimmed status line of a non-JSON answer reads back exactly |
| Responses.SortByKey | src/pages/ApiTester.jsx:864-866 | the result is sorted by key and is a permutation of the entries |
| Responses.ResponseHeaders | src/pages/ApiTester.jsx:861-867 | an array is shown as it is; an object's entries are shown sorted and complete; anything else shows no rows |
| History.Record | src/pages/ApiTester.jsx:890-904 | the new entry comes first and the old log follows, cut so that at most 25 entries remain |
| History.RecordAllNewestFirst | src/pages/ApiTester.jsx:890-904 | after any number of sends the log is the newest 25 entries, newest first |
| History.OldestDropped | src/pages/ApiTester.jsx:903 | after 26 sends into an empty log the first send is gone and the other 25 remain, newest first |
| Html.EscapeHtml | src/pages/ApiTester.jsx:2065-2073 | the result holds none of `< > " '` and is never shorter than the input |
| Html.EscapeUnchangedIff | src/pages/ApiTester.jsx:2065-2073 | a string is left unchanged exactly when it has none of the five special characters |
| Html.UnescapeEscape | src/pages/ApiTester.jsx:2065-2073 | the entities read back to the original text, so escaping loses nothing |
| Collections.FirstId | src/pages/ApiTester.jsx:122-124 | the first truthy id among `id`, `col_id` and `cid`, and none exactly when all three are falsy |
| Collections.FindCollection | src/pages/ApiTester.jsx:146 | the first collection with the id, and none exactly when no collection has it |
| Collections.FindFolder | src/pages/ApiTester.jsx:995-999 | the first folder with the given name, and none exactly when no folder has it |
| Collections.RenameAll | src/pages/ApiTester.jsx:150-152 | every collection with the id is renamed; the others and the order are unchanged |
| Collections.Copy | src/pages/ApiTester.jsx:166-170 | the copy has the fresh id and the name with ` (copy)`; its description, requests and folders are the original's |
| Collections.WithoutCollection | src/pages/ApiTester.jsx:199 | exactly the collections with another id remain; a single collection is kept or dropped by its id alone |
| Collections.WithoutCollectionAppend | src/pages/ApiTester.jsx:199 | the filter works element by element in order, so the remaining collections keep their order |
| Collections.AddFolderTo | src/pages/ApiTester.jsx:1357-1376 | the folder is appended to each collection with the id; the others are unchanged |
| Collections.AddRequestTo | src/pages/ApiTester.jsx:221-230 | the request is appended to each collection with the id; the others are unchanged |
| Collections.MapCollection | src/pages/ApiTester.jsx:129-133 | the active workspace lists the id exactly once more if it was absent; other workspaces are unchanged |
| Collections.MapCollectionNoDuplicates | src/pages/ApiTester.jsx:130-132 | mapping a collection keeps every workspace's list free of duplicates |
| Collections.RemoveId | src/pages/ApiTester.jsx:204 | exactly the other ids remain, a single id is kept or dropped by the test alone, and a list without duplicates keeps none |
| Collections.RemoveIdAppend | src/pages/ApiTester.jsx:204 | the filter works id by id in order, so every workspace list keeps its order |
| Collections.MapWithout | src/pages/ApiTester.jsx:202-206 | the set of workspaces is unchanged, each list is its old list filtered by `RemoveId` (so in the old order), no list holds the id any more and every other id stays listed |
| Collections.RemoveFromWorkspaces | src/pages/ApiTester.jsx:202-206 | the loop over the workspaces removes the id from each list |
| Collections.RemoveAbsentId | src/pages/ApiTester.jsx:204 | filtering out an id that is not listed changes nothing |
| Collections.Displayed | src/pages/ApiTester.jsx:705-713 | with a non-empty id list for the workspace, the list filtered by `Listed`; otherwise the whole list, unchanged |
| Collections.Listed | src/pages/ApiTester.jsx:709-710 | exactly the collections whose id is in the list remain; a single collection is kept or dropped by that test alone |
| Collections.ListedAppend | src/pages/ApiTester.jsx:709-710 | the filter works element by element, so the shown collections keep the order of the collection list, not of the id list |
| Collections.FolderApis | src/pages/ApiTester.jsx:289-291 | exactly the saved APIs whose folder id is the folder's; a single API is kept or dropped by that test alone |
| Collections.FolderApisAppend | src/pages/ApiTester.jsx:289-291 | a folder's requests keep the order of the listing |
| Collections.DirectApis | src/pages/ApiTester.jsx:306-308 | exactly the saved APIs without a folder whose collection id is the collection's; a single API is kept or dropped by that test alone |
| Collections.DirectApisAppend | src/pages/ApiTester.jsx:306-308 | a collection's direct requests keep the order of the listing |
| Collections.RequestOf | src/pages/ApiTester.jsx:311-317 | the request's id is `id` or `_id`, its label is the method (default GET), a space and the URL, and it has no folder |
| Collections.FetchPartition | src/pages/ApiTester.jsx:270-319 | each folder holds exactly its own APIs; the requests are the folder-less APIs of the collection, labelled, in order; a failed folder fetch leaves no folders |
| Collections.FolderMembersNotDirect | src/pages/ApiTester.jsx:289-308 | an API listed under a folder is never also a direct request of a collection |
| Tester.ErrorBodyStart | src/pages/ApiTester.jsx:928-932 | the error body starts with `Error: ` followed by the message |
| Tester.Blocker | src/pages/ApiTester.jsx:782-786 | without an API base the send stops with the API_BASE message |
| Tester.BlockerIff | src/pages/ApiTester.jsx:782-805 | the proxy is called exactly when the API base is set and the substituted URL has no unresolved placeholder |
| Tester.FailedSendKeepsHistory | src/pages/ApiTester.jsx:925-933 | a stopped or failed send shows `Network error` and an `Error: ` body, clears the headers, and changes neither the time nor the history |
| Tester.JsonAnswerRecords | src/pages/ApiTester.jsx:848-903 | a JSON answer records exactly one entry in front of the old log, with the code, the method, the unsubstituted URL and the time shown; the shown status line reads back to that code |
| Tester.AnsweredSendRecords | src/pages/ApiTester.jsx:848-903 | a send answered with JSON records exactly one entry in front of the old log, with the code, the method, the unsubstituted URL and the time shown; the shown status line reads back to that code |
| Tester.NonJsonSendFails | src/pages/ApiTester.jsx:905-933 | a send answered with anything but JSON shows `Network error` and the error of the second read of the body, keeps the local time, and leaves the history as it was |
| Tester.TextFallbackDiffers | src/pages/ApiTester.jsx:905-923 | for a non-JSON answer the history shown is the old one, while the intended fallback records a new entry |
| Tester.TextAnswerRecords | src/pages/ApiTester.jsx:905-923 | the intended plain-text fallback records exactly one entry in front of the old log, and its raw status line reads back to the transport's code |
| Tester.SendKnownExample | src/pages/ApiTester.jsx:789-807 | `https://x/{{K}}` with `K = V` active reaches the proxy |
| Tester.SendMissingExample | src/pages/ApiTester.jsx:792-805 | `https://x/{{MISSING}}` is refused with the unresolved-variables message naming `MISSING` |
| Tester.InitHeaders | src/pages/ApiTester.jsx:752-776 | the loop builds the header object that the descriptor carries |
| Tester.SaveIntoExisting | src/pages/ApiTester.jsx:1017-1029 | saving into an existing collection appends the new folder and the saved request to that collection only |
| Tester.SaveIntoNew | src/pages/ApiTester.jsx:986-989 | saving into a new collection prepends one collection with the title, holding the folder and the request |
| Tester.NewCollectionFolderCreated | src/pages/ApiTester.jsx:995-1015 | the folder lookup sees the collection list from before the save, so for a new collection the folder is always created |
| Tester.Upper | src/pages/ApiTester.jsx:641 | each ASCII lower-case letter of the method becomes upper case and every other character is kept |
| Tester.StatusFieldsRestore | src/pages/ApiTester.jsx:678-681 | the code and message saved from a status line rebuild the same status line on load |
| Tester.BuilderFieldsRestore | src/pages/ApiTester.jsx:1038-1063 | saving and loading back gives the upper-cased method, the URL with its query string as the save sent it, the body, and the header rows when their keys are distinct and non-blank (no rows come back as the default `Accept` row); an empty method, URL or body keeps the editor's value |
| Tester.SaveThenLoadRestores | src/pages/ApiTester.jsx:1038-1063 | saving a full editor and loading the record back restores it, except that the URL becomes the final URL with its query string: method, headers, body, response and status |
| Tester.LoadSavedEditor | src/pages/ApiTester.jsx:1038-1063 | for an editor whose URL is the one the save sent, loading the saved record back restores the whole editor |
| Tester.LoadStored | src/pages/ApiTester.jsx:639-682 | a record with every field present determines the editor completely, whatever it showed before |
| Tester.ApiTester.constructor | src/pages/ApiTester.jsx:716-733 | the page starts with GET, the welcome URL, one `Accept` header row, the sample JSON body, an empty pane and an empty history |
| Tester.ApiTester.DisplayedCollections | src/pages/ApiTester.jsx:705-713 | the sidebar shows `Listed` of the collection list for the active workspace's ids, in the order of the collection list, or all of them when that workspace has none mapped |
| Tester.ApiTester.AddCollection | src/pages/ApiTester.jsx:105-143 | a cancelled prompt or a failed create changes nothing; otherwise the new collection comes first and is mapped to the active workspace, with no duplicates in the map |
| Tester.ApiTester.RenameCollection | src/pages/ApiTester.jsx:145-153 | an unknown id or an empty name changes nothing; otherwise only the named collection is renamed |
| Tester.ApiTester.DuplicateCollection | src/pages/ApiTester.jsx:163-172 | an unknown id changes nothing; otherwise the copy of the first match is prepended |
| Tester.ApiTester.DeleteCollection | src/pages/ApiTester.jsx:173-217 | without confirmation or on a failed delete nothing changes; otherwise the list is `WithoutCollection` of the old one and every workspace list is its old list through `RemoveId`, both order-preserving filters |
| Tester.ApiTester.AddFolder | src/pages/ApiTester.jsx:1326-1389 | an empty name or a failed create changes nothing; otherwise the folder, with the server's id or a fresh one, is appended to that collection |
| Tester.ApiTester.AddRequest | src/pages/ApiTester.jsx:218-231 | an empty label changes nothing; otherwise a request with a fresh id is appended to that collection |
| Tester.ApiTester.FetchCollections | src/pages/ApiTester.jsx:234-327 | a signed-out user or a failed listing keeps the list; otherwise the list is the enriched listing |
| Tester.ApiTester.SetEnvironment | src/pages/ApiTester.jsx:575-585 | the active environment and its variables are those given |
| Tester.ApiTester.SendRequest | src/pages/ApiTester.jsx:744-940 | the pane becomes `AfterSend` of the old pane (a non-JSON answer ends in the catch block, as written), and the proxy receives the descriptor exactly when nothing blocks the send |
| Tester.ApiTester.Clear | src/pages/ApiTester.jsx:747-749 | the status, response headers and body are cleared; time and history are kept |
| Tester.ApiTester.ShowOutcome | src/pages/ApiTester.jsx:836-936 | the pane becomes `Answer` of the old pane: the JSON answer, or for a non-JSON answer the local time and then the catch block's error, or the thrown error; the history keeps at most 25 entries |
| Tester.ApiTester.SaveRequest | src/pages/ApiTester.jsx:957-1103 | a failed collection create sends nothing; otherwise the payload holds the folder id, final URL, header object, body, method, response and parsed status, and the collections change as the save defines |
| Tester.ApiTester.SelectRequest | src/pages/ApiTester.jsx:610-692 | without a token or id only the URL becomes the label; a failed load changes nothing; a loaded record updates the editor field by field |
| Tester.ApiTester.ApplyRecord | src/pages/ApiTester.jsx:639-682 | the editor becomes the record's effect on the old editor |

## Left out

- Network, `fetch` and the backend are not modelled. Every answer is a parameter: `Reply`, `LoadReply`, `Outcome`, the listing and the saved APIs.
- Authorisation headers and tokens are left out. Only whether a token exists is a parameter, of `Tester.ApiTester.SelectRequest`.
- Local storage is not modelled. The workspace map is a field that starts from a value given to the constructor, so a missing or unreadable stored map is simply the empty map. `getWorkspaceCollections` and `setWorkspaceCollections` are the reads and writes of that field.
- `window.prompt`, `confirm` and the alert pop-ups are left out. A prompt's answer and a confirmation are parameters; alerts have no effect on state.
- `performance.now`, `Math.round`, `Date.now` and `crypto.randomUUID` are left out. Elapsed milliseconds, the current time and fresh ids are parameters, and fresh ids are not claimed to be unique.
- Tester.ApiTester.SendRequest requires every environment variable to be literal: a key without regular-expression metacharacters and a value without `$`. Otherwise `escapeRegExp` and the special `$` replacement patterns would change the result.
- Templates.ApplyEnvToUrl has the same requirement, for the same reason.
- JSON is not modelled: `JSON.parse`, `JSON.stringify` and pretty-printing. A response body is the text the page displays (`ReplyBody`), and a stored body or response is its displayed text.
- Form bodies are left out: the `FormData` built for a form body and the `JSON.parse` of the proxy body are not modelled. The descriptor keeps the raw text (`FormSource`).
- `localeCompare` is replaced by code-unit order. Locale collation is not available here.
- JavaScript objects are modelled as insertion-ordered lists. JavaScript moves integer-like keys to the front, and that ordering is left out.
- Strings are sequences of Unicode scalar values. UTF-16 surrogate pairs and lone surrogates are left out; a lone surrogate would make `encodeURIComponent` throw.
- Tester.Upper changes ASCII letters only. JavaScript's `toUpperCase` also maps other letters, and some of them change the length (`ß` becomes `SS`).
- `typeof` checks on backend fields are left out. A field is either present with the modelled type or absent.
- Tester.Outcome: the message of the error that `text()` throws on an already read body is a parameter, `textError`, since its wording depends on the browser.
- The regular-expression test in `onSelectRequest` is not modelled: both of its branches set the URL to the label, so it has no effect.
- The save payload field `res_status` is not read back under that name: the load reads `res_statuscode`. `Tester.LoadStored` states the round trip for a record whose `res_statuscode` holds the saved code.
- In `sendRequest` the API-base check runs before substitution. `Tester.ApiTester.Dispatch` computes the substituted URL first, which changes nothing observable.
- Loading flags, tab selection, menus, the mobile overlay and all rendering are left out. They do not affect the modelled state.
- Environment and workspace management are left out: creating, editing, deleting and listing them. Only `SetEnvironment`, which selects the active variables, is modelled.
- The `authChanged` listener's sign-out branch is left out. It only empties the collection list.
- A folder created from the menu has only an id and a name. The model gives it an empty description and no APIs.

## Findings

| source | as written | input that shows it | evidently intended | confidence | as-written member | corrected member |
|---|---|---|---|---|---|---|
| src/pages/ApiTester.jsx:841-923 | `json()` reads the body before the plain-text fallback calls `text()` on the same response, so `text()` throws and the catch block shows `Network error`; no history entry is made | any proxy answer whose body is not JSON, e.g. an HTML error page | the fallback shows the raw status line and the text, and records a history entry | high, not executed | Tester.TextFallbackDiffers | Tester.TextAnswerRecords |
