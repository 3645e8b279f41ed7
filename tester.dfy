/** The API-tester page's state and its handlers. Every answer from the
    backend, every value typed into a prompt, every random UUID and clock
    reading is a parameter; the handlers change the fields exactly as the
    page's state setters do. What sending, saving and loading do to the
    response pane, the editor and the collection list is first defined as a
    function of the old values (`AfterSend`, `AfterSave`, `Loaded`); the
    page's properties are proved about those functions, and each handler is
    proved to change its fields as they say. */
module Tester {
  import opened Common
  import Q = QueryString
  import T = Templates
  import H = HeaderObjects
  import O = Outgoing
  import R = Responses
  import L = History
  import C = Collections

  // ---------------------------------------------------------------------------
  // What comes back from the outside
  // ---------------------------------------------------------------------------

  /** The ids in the `data` object of a successful create or save answer:
      `id`, `_id`, `folder_id`, `col_id` and `cid`. */
  datatype Created = Created(
    id: Option<string>,
    altId: Option<string>,
    folderId: Option<string>,
    colId: Option<string>,
    cid: Option<string>)

  /** A backend answer: not `ok` (the page throws and alerts), or `ok` with
      its `data`, if any. */
  datatype Reply = Failed | Ok(data: Option<Created>)

  /** What came back from the proxy call: the call threw, or it answered
      with a transport status, a JSON object (`None` when `json()` failed
      or gave a falsy value), the text of the answer's body, the message
      of the error `text()` throws on a body `json()` has already read,
      and the locally measured time in whole milliseconds. */
  datatype Outcome =
    | Unreachable(message: string)
    | Answered(transport: R.Transport, json: Option<R.ProxyJson>, text: string, textError: string, localMs: int)

  /** A stored API record (`json.data` of `/url/:id`); the body and the
      response are the texts the page shows for them. */
  datatype StoredApi = StoredApi(
    verb: Option<string>,
    url: Option<string>,
    headers: Option<H.Object>,
    body: Option<string>,
    response: Option<string>,
    resStatusCode: Option<nat>,
    statusMessage: Option<string>)

  datatype LoadReply = LoadFailed | Fetched(data: Option<StoredApi>)

  /** The body of the save call: `f_id`, `url`, `headers`, `body`, `method`,
      `response`, `res_status`, `statusmessage`. */
  datatype SavePayload = SavePayload(
    folderId: Option<string>,
    url: string,
    headers: H.Object,
    body: string,
    verb: string,
    response: string,
    resStatus: Option<int>,
    statusMessage: string)

  /** The response pane and the history. */
  datatype Pane = Pane(
    status: Option<string>,
    timeMs: Option<int>,
    headers: seq<KeyValue>,
    body: string,
    history: seq<L.Entry>)

  /** The fields a loaded record can set. */
  datatype Editor = Editor(
    verb: string,
    url: string,
    headers: seq<KeyValue>,
    body: string,
    response: string,
    status: Option<string>)

  /** The collection id the save dialog uses for "new collection". */
  const NewTarget: string := "__new"

  const DefaultUrl: string := "https://api.claritypi.dev/v1/welcome"

  const ApiBaseMissing: string := "API_BASE is not defined. Check your .env file for VITE_API_BASE"

  function AsSeq<X>(o: Option<X>): seq<X> {
    if o.Some? then [o.value] else []
  }

  // ---------------------------------------------------------------------------
  // Sending
  // ---------------------------------------------------------------------------

  /** `names.join(', ')`. */
  function CommaList(names: seq<string>): string {
    if names == [] then ""
    else if |names| == 1 then names[0]
    else names[0] + ", " + CommaList(names[1..])
  }

  /** The message of the error thrown for unresolved placeholders. */
  function UnresolvedMessage(names: seq<string>): string {
    var v := CommaList(names);
    "URL contains unresolved environment variables: " + v + "\n\n"
    + "Please:\n"
    + "1. Click \"Manage Env\" to create an environment\n"
    + "2. Add the variable(s): " + v + "\n"
    + "3. Select the environment before sending the request\n\n"
    + "Or replace {{" + v + "}} with an actual URL like: http://localhost:3000"
  }

  /** `` `Error: ${e.message || String(e)}\n\nDetails: ${e.stack || 'No stack trace available'}` ``;
      `message` stands for `e.message || String(e)`. */
  function ErrorBody(message: string, stack: string): string {
    "Error: " + message + "\n\nDetails: " + (if stack == "" then "No stack trace available" else stack)
  }

  /** The error text starts with `Error: ` and then the message. */
  lemma ErrorBodyStart(message: string, stack: string)
    ensures var body := ErrorBody(message, stack);
      |body| >= 7 + |message| && body[..7] == "Error: " && body[7..7 + |message|] == message
  {
    var body := ErrorBody(message, stack);
    var rest := "\n\nDetails: " + (if stack == "" then "No stack trace available" else stack);
    assert body == "Error: " + (message + rest);
    assert body[7..7 + |message|] == (message + rest)[..|message|];
  }

  /** Why a send stops before the proxy call: no API base, or a placeholder
      left in the substituted URL, whose names the message lists. */
  function Blocker(apiBaseSet: bool, toSend: string): (r: Option<string>)
    ensures !apiBaseSet ==> r == Some(ApiBaseMissing)
  {
    if !apiBaseSet then Some(ApiBaseMissing)
    else if T.Placeholders(toSend, 0) != [] then Some(UnresolvedMessage(T.Placeholders(toSend, 0)))
    else None
  }

  /** A send goes ahead exactly when the API base is set and the substituted
      URL holds no `{{name}}` placeholder. */
  lemma BlockerIff(apiBaseSet: bool, toSend: string)
    ensures Blocker(apiBaseSet, toSend).None? <==> apiBaseSet && !T.HasPlaceholder(toSend)
  {
    T.PlaceholdersIffHasPlaceholder(toSend);
  }

  /** The catch block: "Network error" and the error text; everything else
      stays. */
  function Failure(p: Pane, message: string, stack: string): Pane {
    p.(status := Some("Network error"), body := ErrorBody(message, stack))
  }

  /** The pane once the proxy call has returned or thrown. An answer that
      is not JSON reaches the catch block: `json()` has read its body, so
      `text()` throws, after the local time has been shown. */
  function Answer(p: Pane, verb: string, finalUrl: string, outcome: Outcome, now: int, stack: string): Pane {
    match outcome
    case Unreachable(message) => Failure(p, message, stack)
    case Answered(transport, Some(j), _, _, localMs) =>
      var code := R.StatusCode(j, transport);
      var time := R.Elapsed(j, localMs);
      Pane(Some(R.StatusLine(code, R.StatusText(j, transport))), Some(time),
           R.ResponseHeaders(j.headers), R.BodyText(j.body),
           L.Record(p.history, L.Entry(now, verb, finalUrl, code, time)))
    case Answered(_, None, _, textError, localMs) =>
      Failure(p, textError, stack).(timeMs := Some(localMs))
  }

  /** The plain-text fallback as it is evidently meant to work: the
      answer's own status line and text, and a history entry with the
      local time. */
  function IntendedAnswer(p: Pane, verb: string, finalUrl: string, outcome: Outcome, now: int, stack: string): Pane {
    match outcome
    case Answered(transport, None, text, _, localMs) =>
      Pane(Some(R.RawStatusLine(transport)), Some(localMs), [], text,
           L.Record(p.history, L.Entry(now, verb, finalUrl, transport.status, localMs)))
    case _ => Answer(p, verb, finalUrl, outcome, now, stack)
  }

  /** The pane as `sendRequest` clears it before anything else. */
  function Cleared(p: Pane): Pane {
    p.(status := None, headers := [], body := "")
  }

  /** The pane after `sendRequest`, from the pane before it, the method, the
      URL with its query string, that URL after substitution, and what the
      outside world did. */
  function AfterSend(p: Pane, verb: string, finalUrl: string, toSend: string,
                     apiBaseSet: bool, outcome: Outcome, now: int, stack: string): Pane {
    match Blocker(apiBaseSet, toSend)
    case Some(message) => Failure(Cleared(p), message, stack)
    case None => Answer(Cleared(p), verb, finalUrl, outcome, now, stack)
  }

  /** Clearing the pane and then either stopping or answering is `AfterSend`. */
  lemma SendComposes(p: Pane, mid: Pane, q: Pane, verb: string, finalUrl: string, toSend: string,
                     apiBaseSet: bool, outcome: Outcome, now: int, stack: string)
    requires mid == Cleared(p)
    requires Blocker(apiBaseSet, toSend).Some? ==> q == Failure(mid, Blocker(apiBaseSet, toSend).value, stack)
    requires Blocker(apiBaseSet, toSend).None? ==> q == Answer(mid, verb, finalUrl, outcome, now, stack)
    ensures q == AfterSend(p, verb, finalUrl, toSend, apiBaseSet, outcome, now, stack)
  {
  }

  /** A send that is stopped, or whose proxy call throws, shows
      "Network error" and an `Error: ` body and leaves the time and the
      history as they were. */
  lemma FailedSendKeepsHistory(p: Pane, verb: string, finalUrl: string, toSend: string,
                               apiBaseSet: bool, outcome: Outcome, now: int, stack: string)
    requires !apiBaseSet || T.HasPlaceholder(toSend) || outcome.Unreachable?
    ensures var q := AfterSend(p, verb, finalUrl, toSend, apiBaseSet, outcome, now, stack);
      && q.status == Some("Network error") && |q.body| >= 7 && q.body[..7] == "Error: "
      && q.headers == [] && q.timeMs == p.timeMs && q.history == p.history
  {
    BlockerIff(apiBaseSet, toSend);
    var m := match Blocker(apiBaseSet, toSend)
             case Some(b) => b
             case None => outcome.message;
    ErrorBodyStart(m, stack);
  }

  /** What an answer does to the history and the status line: exactly
      one entry, for this send, is recorded in front of the old log, and
      the pane shows its time and a status line that reads back to its
      code. */
  predicate RecordsAnswer(p: Pane, q: Pane, verb: string, finalUrl: string, now: int) {
    && q.history != []
    && q.history == L.Record(p.history, q.history[0])
    && q.history[0].id == now && q.history[0].verb == verb && q.history[0].url == finalUrl
    && q.timeMs == Some(q.history[0].time)
    && R.ParseStatus(q.status).0 == Some(q.history[0].status as int)
  }

  lemma JsonAnswerRecords(p: Pane, verb: string, finalUrl: string, transport: R.Transport,
                          j: R.ProxyJson, text: string, textError: string, localMs: int, now: int, stack: string)
    ensures RecordsAnswer(p, Answer(p, verb, finalUrl, Answered(transport, Some(j), text, textError, localMs), now, stack),
                          verb, finalUrl, now)
  {
    var code := R.StatusCode(j, transport);
    var txt := R.StatusText(j, transport);
    var time := R.Elapsed(j, localMs);
    var q := Answer(p, verb, finalUrl, Answered(transport, Some(j), text, textError, localMs), now, stack);
    assert q.history == L.Record(p.history, L.Entry(now, verb, finalUrl, code, time));
    assert q.status == Some(R.StatusLine(code, txt));
    R.StatusRoundTrip(code, txt);
  }

  /** The intended plain-text fallback records the answer as a JSON answer
      is recorded. */
  lemma TextAnswerRecords(p: Pane, verb: string, finalUrl: string, transport: R.Transport,
                          text: string, textError: string, localMs: int, now: int, stack: string)
    ensures RecordsAnswer(p, IntendedAnswer(p, verb, finalUrl, Answered(transport, None, text, textError, localMs), now, stack),
                          verb, finalUrl, now)
  {
    var q := IntendedAnswer(p, verb, finalUrl, Answered(transport, None, text, textError, localMs), now, stack);
    assert q.history == L.Record(p.history, L.Entry(now, verb, finalUrl, transport.status, localMs));
    assert q.status == Some(R.RawStatusLine(transport));
    R.RawStatusRoundTrip(transport);
  }

  /** A send answered with JSON puts one entry at the front of the history:
      its method, the URL before substitution, and the time the pane shows;
      the older entries follow, at most 25 in all. The status line the pane
      shows reads back (as the save handler parses it) to the code the
      entry records. */
  lemma AnsweredSendRecords(p: Pane, verb: string, finalUrl: string, toSend: string,
                            outcome: Outcome, now: int, stack: string)
    requires !T.HasPlaceholder(toSend) && outcome.Answered? && outcome.json.Some?
    ensures RecordsAnswer(p, AfterSend(p, verb, finalUrl, toSend, true, outcome, now, stack), verb, finalUrl, now)
  {
    BlockerIff(true, toSend);
    assert AfterSend(p, verb, finalUrl, toSend, true, outcome, now, stack)
        == Answer(Cleared(p), verb, finalUrl, outcome, now, stack);
    JsonAnswerRecords(Cleared(p), verb, finalUrl, outcome.transport, outcome.json.value, outcome.text,
                      outcome.textError, outcome.localMs, now, stack);
  }

  /** A send answered with anything but JSON shows "Network error" and the
      error of the second read of the body, with the local time; the
      history is left as it was. */
  lemma NonJsonSendFails(p: Pane, verb: string, finalUrl: string, toSend: string,
                         outcome: Outcome, now: int, stack: string)
    requires !T.HasPlaceholder(toSend) && outcome.Answered? && outcome.json.None?
    ensures var q := AfterSend(p, verb, finalUrl, toSend, true, outcome, now, stack);
      && q.status == Some("Network error") && q.body == ErrorBody(outcome.textError, stack)
      && q.headers == [] && q.timeMs == Some(outcome.localMs) && q.history == p.history
  {
    BlockerIff(true, toSend);
  }

  /** As written, the plain-text fallback never records the send: when no
      entry of the log carries the send's timestamp, the intended history
      and the one shown differ. */
  lemma TextFallbackDiffers(p: Pane, verb: string, finalUrl: string, outcome: Outcome, now: int, stack: string)
    requires outcome.Answered? && outcome.json.None?
    requires forall i :: 0 <= i < |p.history| ==> p.history[i].id != now
    ensures Answer(p, verb, finalUrl, outcome, now, stack).history == p.history
    ensures IntendedAnswer(p, verb, finalUrl, outcome, now, stack).history != p.history
  {
    var q := IntendedAnswer(p, verb, finalUrl, outcome, now, stack);
    assert q.history[0].id == now;
  }

  /** A URL whose placeholder the active environment defines is sent. */
  lemma SendKnownExample(p: Pane, verb: string, outcome: Outcome, now: int, stack: string)
    ensures var u := "https://x/{{K}}";
      AfterSend(p, verb, u, T.Resolved(u, Some("env"), [T.Variable("K", Some("V"))]), true, outcome, now, stack)
      == Answer(Cleared(p), verb, u, outcome, now, stack)
  {
    T.ResolveKnownExample();
    assert Blocker(true, "https://x/V") == None;
  }

  /** A URL with a placeholder no variable defines is stopped, and the
      message names the variable. */
  lemma SendMissingExample(p: Pane, verb: string, outcome: Outcome, now: int, stack: string)
    ensures var u := "https://x/{{MISSING}}";
      AfterSend(p, verb, u, T.Resolved(u, Some("env"), [T.Variable("K", Some("V"))]), true, outcome, now, stack)
      == Failure(Cleared(p), UnresolvedMessage(["MISSING"]), stack)
  {
    T.ResolveMissingExample();
    assert Blocker(true, "https://x/{{MISSING}}") == Some(UnresolvedMessage(["MISSING"]));
  }

  /** `init.headers`, built as the page builds it: the header object of the
      rows, then the default `Content-Type` for a JSON or text body on a
      method that carries one. */
  method InitHeaders(verb: string, bodyType: O.BodyType, rows: seq<KeyValue>) returns (hdrs: H.Object)
    ensures hdrs == O.InitHeaders(verb, bodyType, rows)
  {
    hdrs := H.BuildHeaderObject(rows);
    if O.CarriesBody(verb) && O.DefaultContentType(bodyType).Some? {
      hdrs := O.WithContentType(hdrs, O.DefaultContentType(bodyType).value);
    }
  }

  // ---------------------------------------------------------------------------
  // Saving
  // ---------------------------------------------------------------------------

  /** `saveNewCollectionName || 'Untitled'`. */
  function Title(newName: string): string {
    if newName != "" then newName else "Untitled"
  }

  /** The id the save handler files the request under: the chosen
      collection, or for a new one the server's id, else `__new` itself. */
  function TargetId(target: string, createReply: Reply): string {
    if target != NewTarget then target
    else if createReply.Ok? && createReply.data.Some? then
      var d := createReply.data.value;
      match C.FirstId(d.id, d.colId, d.cid)
      case Some(x) => x
      case None => target
    else target
  }

  /** The folder id the payload carries and the folder the handler appends,
      if it creates one. The lookup is by exact name in `stale`, the
      collections as they were when the dialog was submitted. */
  function FolderPlan(stale: seq<C.Collection>, targetId: string, folderName: string, folderReply: Reply)
    : (Option<string>, Option<C.Folder>)
  {
    if IsBlank(folderName) then (None, None)
    else match C.ExistingFolder(stale, targetId, folderName)
      case Some(f) => (f.id, None)
      case None =>
        if folderReply.Ok? && folderReply.data.Some? then
          var d := folderReply.data.value;
          var fid := C.FirstId(d.id, d.altId, d.folderId);
          (fid, Some(C.Folder(fid, folderName, "", [])))
        else (None, None)
  }

  /** The payload: the header object of the editor rows and the response
      pane's status line read back into a code and a message. */
  function PayloadOf(folderId: Option<string>, finalUrl: string, rows: seq<KeyValue>, body: string,
                     verb: string, response: string, status: Option<string>): SavePayload {
    var parsed := R.ParseStatus(status);
    SavePayload(folderId, finalUrl, H.FromRows(rows), body, verb, response, parsed.0, parsed.1)
  }

  /** The request the handler appends once the save answer carries data:
      `{ id: saved.id || saved._id || uuid, name: label, folder }`. */
  function SavedRef(saveReply: Reply, freshId: string, name: string, folderId: Option<string>): Option<C.RequestRef> {
    if saveReply.Ok? && saveReply.data.Some? then
      var given := C.Either(saveReply.data.value.id, saveReply.data.value.altId);
      Some(C.RequestRef(Some(if Truthy(given) then given.value else freshId), name, folderId))
    else None
  }

  /** The collection list after a save that was not abandoned: the new
      collection first (for the "new collection" target), then the created
      folder and the saved request appended to every collection with the
      target id. */
  function AfterSave(cols: seq<C.Collection>, target: string, newName: string, targetId: string,
                     folder: Option<C.Folder>, saved: Option<C.RequestRef>): seq<C.Collection> {
    var withCol := if target == NewTarget then [C.NewCollection(targetId, Title(newName))] + cols else cols;
    var withFolder := if folder.Some? then C.AddFolderTo(withCol, targetId, folder.value) else withCol;
    if saved.Some? then C.AddRequestTo(withFolder, targetId, saved.value) else withFolder
  }

  /** Saving into an existing collection changes no other collection, and
      the target gets the created folder and the saved request at the end
      of its lists, nothing else. */
  lemma SaveIntoExisting(cols: seq<C.Collection>, target: string, newName: string,
                         folder: Option<C.Folder>, saved: Option<C.RequestRef>)
    requires target != NewTarget
    ensures var r := AfterSave(cols, target, newName, target, folder, saved);
      && |r| == |cols|
      && forall i :: 0 <= i < |cols| ==>
           r[i] == if cols[i].id == target
                   then cols[i].(folders := cols[i].folders + AsSeq(folder),
                                 requests := cols[i].requests + AsSeq(saved))
                   else cols[i]
  {
    var withFolder := if folder.Some? then C.AddFolderTo(cols, target, folder.value) else cols;
    assert |withFolder| == |cols|;
    forall i | 0 <= i < |cols|
      ensures withFolder[i] == if cols[i].id == target then cols[i].(folders := cols[i].folders + AsSeq(folder)) else cols[i]
    {
      if folder.None? {
        assert cols[i].folders + [] == cols[i].folders;
      }
    }
    forall i | 0 <= i < |cols|
      ensures AfterSave(cols, target, newName, target, folder, saved)[i]
           == if cols[i].id == target
              then cols[i].(folders := cols[i].folders + AsSeq(folder), requests := cols[i].requests + AsSeq(saved))
              else cols[i]
    {
      if saved.None? {
        assert cols[i].requests + [] == cols[i].requests;
      }
    }
  }

  /** Saving into a new collection puts it first, holding only the created
      folder and the saved request, and keeps the others after it. */
  lemma SaveIntoNew(cols: seq<C.Collection>, newName: string, targetId: string,
                    folder: Option<C.Folder>, saved: Option<C.RequestRef>)
    ensures var r := AfterSave(cols, NewTarget, newName, targetId, folder, saved);
      && |r| == |cols| + 1
      && r[0] == C.Collection(targetId, Title(newName), "", AsSeq(saved), AsSeq(folder))
  {
    var withCol := [C.NewCollection(targetId, Title(newName))] + cols;
    assert withCol[0].id == targetId;
    var withFolder := if folder.Some? then C.AddFolderTo(withCol, targetId, folder.value) else withCol;
    assert withFolder[0] == C.Collection(targetId, Title(newName), "", [], AsSeq(folder));
  }

  /** The folder lookup reads the collections from before the new
      collection was added: a folder name given for a new collection whose
      id the list did not hold is always created afresh. */
  lemma NewCollectionFolderCreated(cols: seq<C.Collection>, targetId: string, folderName: string, d: Created)
    requires C.FindCollection(cols, targetId).None?
    requires !IsBlank(folderName)
    ensures var plan := FolderPlan(cols, targetId, folderName, Ok(Some(d)));
      && plan.1 == Some(C.Folder(plan.0, folderName, "", []))
      && (plan.0.Some? <==> Truthy(d.id) || Truthy(d.altId) || Truthy(d.folderId))
  {
  }

  // ---------------------------------------------------------------------------
  // Loading
  // ---------------------------------------------------------------------------

  /** `toUpperCase` on the ASCII letters. */
  function Upper(s: string): (r: string)
    ensures |r| == |s|
    ensures forall i :: 0 <= i < |s| ==> r[i] == if 'a' <= s[i] <= 'z' then (s[i] as int - 32) as char else s[i]
  {
    if s == [] then []
    else [if 'a' <= s[0] <= 'z' then (s[0] as int - 32) as char else s[0]] + Upper(s[1..])
  }

  /** The editor once a fetched record is applied: each field present (for
      strings: non-empty) in the record replaces the editor's, every other
      field is kept. An empty header object gives the default `Accept` row;
      the status line is built from a non-zero `res_statuscode`. */
  function Loaded(e: Editor, a: StoredApi): Editor {
    Editor(
      if Truthy(a.verb) then Upper(a.verb.value) else e.verb,
      if Truthy(a.url) then a.url.value else e.url,
      if a.headers.Some? then H.ToRows(a.headers.value) else e.headers,
      if Truthy(a.body) then a.body.value else e.body,
      if Truthy(a.response) then a.response.value else e.response,
      if a.resStatusCode.Some? && a.resStatusCode.value != 0
      then Some(R.StatusLine(a.resStatusCode.value, OrElse(a.statusMessage, "")))
      else e.status)
  }

  /** `Loaded` field by field. */
  lemma LoadedIs(e: Editor, a: StoredApi, n: Editor)
    requires n.verb == if Truthy(a.verb) then Upper(a.verb.value) else e.verb
    requires n.url == if Truthy(a.url) then a.url.value else e.url
    requires n.headers == if a.headers.Some? then H.ToRows(a.headers.value) else e.headers
    requires n.body == if Truthy(a.body) then a.body.value else e.body
    requires n.response == if Truthy(a.response) then a.response.value else e.response
    requires n.status == if a.resStatusCode.Some? && a.resStatusCode.value != 0
                         then Some(R.StatusLine(a.resStatusCode.value, OrElse(a.statusMessage, "")))
                         else e.status
    ensures Loaded(e, a) == n
  {
  }

  /** The record stored for a payload, with its `res_status` given back as
      `res_statuscode` (a negative code is not stored). */
  function Stored(p: SavePayload): StoredApi {
    StoredApi(Some(p.verb), Some(p.url), Some(p.headers), Some(p.body), Some(p.response),
              if p.resStatus.Some? && p.resStatus.value >= 0 then Some(p.resStatus.value as nat) else None,
              Some(p.statusMessage))
  }

  /** The status fields of a payload, stored and loaded back, rebuild the
      status line they were parsed from. */
  lemma StatusFieldsRestore(code: nat, text: string)
    requires code != 0
    ensures var parsed := R.ParseStatus(Some(R.StatusLine(code, text)));
      && parsed.0 == Some(code as int)
      && R.StatusLine(code, OrElse(Some(parsed.1), "")) == R.StatusLine(code, text)
  {
    var parsed := R.ParseStatus(Some(R.StatusLine(code, text)));
    R.StatusRoundTrip(code, text);
    assert parsed == (Some(code as int), TrimEnd(text));
    assert OrElse(Some(parsed.1), "") == TrimEnd(text);
    R.StatusLineTrimEnd(code, text);
  }

  /** Saving an editor and loading the stored record back gives the
      request builder back: the method upper-cased, the URL the save sent
      (the builder's URL with its query string), the body, and the header
      rows (distinct, non-blank keys; no rows come back as the default
      `Accept` row). An empty method, URL or body is not restored. */
  lemma BuilderFieldsRestore(e: Editor, before: Editor, folderId: Option<string>, params: seq<KeyValue>)
    requires forall i :: 0 <= i < |e.headers| ==> HasKey(e.headers[i])
    requires H.UniqueKeys(e.headers)
    ensures var final := Q.FinalUrl(e.url, params);
      var n := Loaded(before, Stored(PayloadOf(folderId, final, e.headers, e.body, e.verb, e.response, e.status)));
      && n.verb == (if e.verb != [] then Upper(e.verb) else before.verb)
      && n.url == (if final != [] then final else before.url)
      && n.headers == (if e.headers != [] then e.headers else H.DefaultRows)
      && n.body == (if e.body != [] then e.body else before.body)
  {
    if e.headers != [] {
      H.RowsRoundTrip(e.headers);
    } else {
      assert H.FromRows(e.headers) == [];
    }
  }

  /** Saving a whole editor and loading the stored record back restores
      it, except that the URL becomes the one the save sent: the
      upper-case method, the header rows (distinct, non-blank keys), the
      body, the response text and the status line. */
  lemma SaveThenLoadRestores(e: Editor, before: Editor, folderId: Option<string>, params: seq<KeyValue>,
                             code: nat, text: string)
    requires e.verb != [] && forall i :: 0 <= i < |e.verb| ==> !('a' <= e.verb[i] <= 'z')
    requires e.url != [] && e.body != [] && e.response != []
    requires e.headers != [] && (forall i :: 0 <= i < |e.headers| ==> HasKey(e.headers[i]))
    requires H.UniqueKeys(e.headers)
    requires code != 0 && e.status == Some(R.StatusLine(code, text))
    ensures var final := Q.FinalUrl(e.url, params);
      Loaded(before, Stored(PayloadOf(folderId, final, e.headers, e.body, e.verb, e.response, e.status)))
      == e.(url := final)
  {
    Q.FinalUrlShape(e.url, params);
    LoadSavedEditor(e.(url := Q.FinalUrl(e.url, params)), before, folderId, code, text);
  }

  /** The round trip for an editor whose URL is the one the save sent. */
  lemma LoadSavedEditor(e: Editor, before: Editor, folderId: Option<string>, code: nat, text: string)
    requires e.verb != [] && forall i :: 0 <= i < |e.verb| ==> !('a' <= e.verb[i] <= 'z')
    requires e.url != [] && e.body != [] && e.response != []
    requires e.headers != [] && (forall i :: 0 <= i < |e.headers| ==> HasKey(e.headers[i]))
    requires H.UniqueKeys(e.headers)
    requires code != 0 && e.status == Some(R.StatusLine(code, text))
    ensures Loaded(before, Stored(PayloadOf(folderId, e.url, e.headers, e.body, e.verb, e.response, e.status))) == e
  {
    var parsed := R.ParseStatus(e.status);
    StatusFieldsRestore(code, text);
    var a := StoredApi(Some(e.verb), Some(e.url), Some(H.FromRows(e.headers)), Some(e.body), Some(e.response),
                       Some(code), Some(parsed.1));
    assert Stored(PayloadOf(folderId, e.url, e.headers, e.body, e.verb, e.response, e.status)) == a;
    LoadStored(e, before, a, code, parsed.1);
  }

  lemma LoadStored(e: Editor, before: Editor, a: StoredApi, code: nat, message: string)
    requires e.verb != [] && forall i :: 0 <= i < |e.verb| ==> !('a' <= e.verb[i] <= 'z')
    requires e.url != [] && e.body != [] && e.response != []
    requires e.headers != [] && (forall i :: 0 <= i < |e.headers| ==> HasKey(e.headers[i]))
    requires H.UniqueKeys(e.headers)
    requires code != 0 && e.status == Some(R.StatusLine(code, OrElse(Some(message), "")))
    requires a == StoredApi(Some(e.verb), Some(e.url), Some(H.FromRows(e.headers)), Some(e.body), Some(e.response),
                            Some(code), Some(message))
    ensures Loaded(before, a) == e
  {
    assert Upper(e.verb) == e.verb;
    H.RowsRoundTrip(e.headers);
  }

  // ---------------------------------------------------------------------------
  // The page
  // ---------------------------------------------------------------------------

  class ApiTester {
    // Collections and their workspace mapping
    var collections: seq<C.Collection>
    var workspaceMap: map<string, seq<string>>
    var activeWorkspace: string
    // Environment
    var activeEnvId: Option<string>
    var envVariables: seq<T.Variable>
    // Request builder
    var verb: string
    var url: string
    var params: seq<KeyValue>
    var headers: seq<KeyValue>
    var bodyType: O.BodyType
    var rawBody: string
    // Response pane and history
    var status: Option<string>
    var timeMs: Option<int>
    var respHeaders: seq<KeyValue>
    var respBody: string
    var history: seq<L.Entry>

    /** The history never holds more than 25 entries. */
    predicate Valid()
      reads this`history
    {
      |history| <= L.Limit
    }

    /** The page as first rendered; `stored` is the workspace map read from
        storage (empty when absent or unreadable). */
    constructor(workspace: string, stored: map<string, seq<string>>)
      ensures Valid()
      ensures collections == [] && workspaceMap == stored && activeWorkspace == workspace
      ensures activeEnvId == None && envVariables == []
      ensures verb == "GET" && url == DefaultUrl && params == []
      ensures headers == H.DefaultRows
      ensures bodyType == O.Json && rawBody == "{ \"hello\": \"world\" }"
      ensures status == None && timeMs == None && respHeaders == [] && respBody == "" && history == []
    {
      collections := [];
      workspaceMap := stored;
      activeWorkspace := workspace;
      activeEnvId := None;
      envVariables := [];
      verb := "GET";
      url := DefaultUrl;
      params := [];
      headers := H.DefaultRows;
      bodyType := O.Json;
      rawBody := "{ \"hello\": \"world\" }";
      status := None;
      timeMs := None;
      respHeaders := [];
      respBody := "";
      history := [];
    }

    /** The builder's URL with its query string. */
    function FinalUrl(): string
      reads this`url, this`params
    {
      Q.FinalUrl(url, params)
    }

    function PaneOf(): Pane
      reads this`status, this`timeMs, this`respHeaders, this`respBody, this`history
    {
      Pane(status, timeMs, respHeaders, respBody, history)
    }

    function EditorOf(): Editor
      reads this`verb, this`url, this`headers, this`rawBody, this`respBody, this`status
    {
      Editor(verb, url, headers, rawBody, respBody, status)
    }

    /** The collections the sidebar lists for the active workspace: those
        whose id its list holds, in the order of the collection list, or all
        of them when it has no list or an empty one. */
    function DisplayedCollections(): (r: seq<C.Collection>)
      reads this
      ensures activeWorkspace in workspaceMap && workspaceMap[activeWorkspace] != [] ==>
        && r == C.Listed(collections, workspaceMap[activeWorkspace])
        && forall c :: c in r <==> c in collections && c.id in workspaceMap[activeWorkspace]
      ensures !(activeWorkspace in workspaceMap && workspaceMap[activeWorkspace] != []) ==> r == collections
    {
      C.Displayed(collections, if activeWorkspace in workspaceMap then Some(workspaceMap[activeWorkspace]) else None)
    }

    // -------------------------------------------------------------------------
    // Collections
    // -------------------------------------------------------------------------

    /** `addCollection`: with a title and an `ok` answer, the new collection
        (the server's id, else `freshId`) goes first and its id joins the
        active workspace's list unless already there. */
    method AddCollection(title: Option<string>, reply: Reply, freshId: string)
      modifies this`collections, this`workspaceMap
      ensures !Truthy(title) || reply.Failed? ==>
        collections == old(collections) && workspaceMap == old(workspaceMap)
      ensures Truthy(title) && reply.Ok? ==>
        var id := match (if reply.data.Some? then C.FirstId(reply.data.value.id, reply.data.value.colId, reply.data.value.cid) else None)
                  case Some(x) => x
                  case None => freshId;
        && collections == [C.NewCollection(id, title.value)] + old(collections)
        && workspaceMap == C.MapCollection(old(workspaceMap), activeWorkspace, id)
      ensures (forall k :: k in old(workspaceMap) ==> C.NoDuplicates(old(workspaceMap)[k])) ==>
        forall k :: k in workspaceMap ==> C.NoDuplicates(workspaceMap[k])
    {
      if !Truthy(title) || reply.Failed? {
        return;
      }
      var id := freshId;
      if reply.data.Some? {
        var d := reply.data.value;
        var first := C.FirstId(d.id, d.colId, d.cid);
        if first.Some? {
          id := first.value;
        }
      }
      collections := [C.NewCollection(id, title.value)] + collections;
      if forall k :: k in workspaceMap ==> C.NoDuplicates(workspaceMap[k]) {
        C.MapCollectionNoDuplicates(workspaceMap, activeWorkspace, id);
      }
      workspaceMap := C.MapCollection(workspaceMap, activeWorkspace, id);
    }

    /** `renameCollection`: only when a collection has the id and the new name
        is not empty; every collection with the id gets the name, nothing
        else changes. */
    method RenameCollection(id: string, newName: Option<string>)
      modifies this`collections
      ensures C.FindCollection(old(collections), id).None? || !Truthy(newName) ==> collections == old(collections)
      ensures C.FindCollection(old(collections), id).Some? && Truthy(newName) ==>
        collections == C.RenameAll(old(collections), id, newName.value)
    {
      if C.FindCollection(collections, id).None? || !Truthy(newName) {
        return;
      }
      collections := C.RenameAll(collections, id, newName.value);
    }

    /** `duplicateCollection`: a copy of the first collection with the id,
        under a fresh id and the name `<name> (copy)`, goes first. */
    method DuplicateCollection(id: string, freshId: string)
      modifies this`collections
      ensures match C.FindCollection(old(collections), id)
        case None => collections == old(collections)
        case Some(c) => collections == [C.Copy(c, freshId)] + old(collections)
    {
      match C.FindCollection(collections, id)
      case None =>
      case Some(c) =>
        collections := [C.Copy(c, freshId)] + collections;
    }

    /** `deleteCollection`: after confirmation and an `ok` answer, the
        collection leaves the list and its id leaves every workspace list;
        every workspace key stays. */
    method DeleteCollection(id: string, confirmed: bool, reply: Reply)
      modifies this`collections, this`workspaceMap
      ensures !confirmed || reply.Failed? ==>
        collections == old(collections) && workspaceMap == old(workspaceMap)
      ensures confirmed && reply.Ok? ==>
        && collections == C.WithoutCollection(old(collections), id)
        && workspaceMap == C.MapWithout(old(workspaceMap), id)
    {
      if !confirmed || reply.Failed? {
        return;
      }
      collections := C.WithoutCollection(collections, id);
      workspaceMap := C.RemoveFromWorkspaces(workspaceMap, id);
    }

    /** "Add folder" from a collection's menu: with a name and an `ok`
        answer, the folder `{id, name}` (the server's `id || _id`, else
        `freshId`) is appended to the collection. */
    method AddFolder(colId: string, name: Option<string>, reply: Reply, freshId: string)
      modifies this`collections
      ensures !Truthy(name) || reply.Failed? ==> collections == old(collections)
      ensures Truthy(name) && reply.Ok? ==>
        var given := if reply.data.Some? then C.Either(reply.data.value.id, reply.data.value.altId) else None;
        var fid := if Truthy(given) then given.value else freshId;
        collections == C.AddFolderTo(old(collections), colId, C.Folder(Some(fid), name.value, "", []))
    {
      if !Truthy(name) || reply.Failed? {
        return;
      }
      var fid := freshId;
      if reply.data.Some? {
        var given := C.Either(reply.data.value.id, reply.data.value.altId);
        if Truthy(given) {
          fid := given.value;
        }
      }
      collections := C.AddFolderTo(collections, colId, C.Folder(Some(fid), name.value, "", []));
    }

    /** `addRequestTo`: with a label, `{id: freshId, name}` is appended to the
        collection's requests. */
    method AddRequest(colId: string, name: Option<string>, freshId: string)
      modifies this`collections
      ensures !Truthy(name) ==> collections == old(collections)
      ensures Truthy(name) ==>
        collections == C.AddRequestTo(old(collections), colId, C.RequestRef(Some(freshId), name.value, None))
    {
      if !Truthy(name) {
        return;
      }
      collections := C.AddRequestTo(collections, colId, C.RequestRef(Some(freshId), name.value, None));
    }

    /** `fetchCollectionsFromServer`: for a signed-in user whose collection
        listing succeeded, the list becomes the enriched listing; otherwise
        nothing changes. `apis` is the saved-API listing, empty when that
        request failed. */
    method FetchCollections(signedIn: bool, apis: seq<C.SavedApi>, listing: Option<seq<C.Listing>>)
      modifies this`collections
      ensures !signedIn || listing.None? ==> collections == old(collections)
      ensures signedIn && listing.Some? ==> collections == C.EnrichAll(listing.value, apis)
    {
      if !signedIn || listing.None? {
        return;
      }
      collections := C.EnrichAll(listing.value, apis);
    }

    /** The environment handlers' net effect on the page: the active
        environment and its freshly fetched variables. */
    method SetEnvironment(envId: Option<string>, vars: seq<T.Variable>)
      modifies this`activeEnvId, this`envVariables
      ensures activeEnvId == envId && envVariables == vars
    {
      activeEnvId := envId;
      envVariables := vars;
    }

    // -------------------------------------------------------------------------
    // Sending, saving, loading
    // -------------------------------------------------------------------------

    /** `sendRequest`: the pane becomes `AfterSend` of the old pane, and
        `sent` is the descriptor handed to the proxy, absent when the send
        was stopped before the call. */
    method SendRequest(apiBaseSet: bool, outcome: Outcome, now: int, stack: string)
      returns (sent: Option<O.Descriptor>)
      requires Valid()
      requires T.AllLiteral(envVariables)
      modifies this`status, this`timeMs, this`respHeaders, this`respBody, this`history
      ensures Valid()
      ensures var toSend := T.Resolved(FinalUrl(), activeEnvId, envVariables);
        && PaneOf() == AfterSend(old(PaneOf()), verb, FinalUrl(), toSend, apiBaseSet, outcome, now, stack)
        && sent == if Blocker(apiBaseSet, toSend).Some? then None
                   else Some(O.Describe(verb, toSend, bodyType, rawBody, headers))
    {
      ghost var before := PaneOf();
      Clear();
      ghost var mid := PaneOf();
      var hdrs := InitHeaders(verb, bodyType, headers);
      var final := FinalUrl();
      var toSend := T.ApplyEnvToUrl(final, activeEnvId, envVariables);
      sent := Dispatch(apiBaseSet, final, toSend, hdrs, outcome, now, stack);
      SendComposes(before, mid, PaneOf(), verb, final, toSend, apiBaseSet, outcome, now, stack);
      assert O.Describe(verb, toSend, bodyType, rawBody, headers)
          == O.Descriptor(verb, toSend, hdrs, O.ProxyBody(verb, bodyType, rawBody));
    }

    /** The checks of `sendRequest` and the proxy call: stopped with the
        blocker's message shown, or sent and answered. The URL is substituted
        whether or not the API base is set, which changes nothing since the
        substitution has no effect. */
    method Dispatch(apiBaseSet: bool, final: string, toSend: string, hdrs: H.Object,
                    outcome: Outcome, now: int, stack: string)
      returns (sent: Option<O.Descriptor>)
      requires Valid()
      modifies this`status, this`timeMs, this`respHeaders, this`respBody, this`history
      ensures Valid()
      ensures Blocker(apiBaseSet, toSend).Some? ==>
        sent.None? && PaneOf() == Failure(old(PaneOf()), Blocker(apiBaseSet, toSend).value, stack)
      ensures Blocker(apiBaseSet, toSend).None? ==>
        && sent == Some(O.Descriptor(verb, toSend, hdrs, O.ProxyBody(verb, bodyType, rawBody)))
        && PaneOf() == Answer(old(PaneOf()), verb, final, outcome, now, stack)
    {
      if !apiBaseSet {
        ShowError(ApiBaseMissing, stack);
        assert Blocker(apiBaseSet, toSend) == Some(ApiBaseMissing);
        return None;
      }
      var unresolved := T.Placeholders(toSend, 0);
      if unresolved != [] {
        ShowError(UnresolvedMessage(unresolved), stack);
        assert Blocker(apiBaseSet, toSend) == Some(UnresolvedMessage(unresolved));
        return None;
      }
      assert Blocker(apiBaseSet, toSend) == None;
      sent := Some(O.Descriptor(verb, toSend, hdrs, O.ProxyBody(verb, bodyType, rawBody)));
      ShowOutcome(final, outcome, now, stack);
    }

    /** The start of `sendRequest`: status, headers and body cleared. */
    method Clear()
      modifies this`status, this`respHeaders, this`respBody
      ensures PaneOf() == Cleared(old(PaneOf()))
    {
      status := None;
      respHeaders := [];
      respBody := "";
    }

    /** The catch block of `sendRequest`. */
    method ShowError(message: string, stack: string)
      modifies this`status, this`respBody
      ensures PaneOf() == Failure(old(PaneOf()), message, stack)
    {
      status := Some("Network error");
      respBody := ErrorBody(message, stack);
    }

    /** The part of `sendRequest` after the proxy call: the pane shows the
        answer, or the error the call threw. */
    method ShowOutcome(final: string, outcome: Outcome, now: int, stack: string)
      requires Valid()
      modifies this`status, this`timeMs, this`respHeaders, this`respBody, this`history
      ensures Valid()
      ensures PaneOf() == Answer(old(PaneOf()), verb, final, outcome, now, stack)
    {
      match outcome
      case Unreachable(message) =>
        ShowError(message, stack);
      case Answered(transport, json, _, textError, localMs) =>
        timeMs := Some(localMs);
        match json
        case Some(j) =>
          var code := R.StatusCode(j, transport);
          var time := R.Elapsed(j, localMs);
          status := Some(R.StatusLine(code, R.StatusText(j, transport)));
          timeMs := Some(time);
          respHeaders := R.ResponseHeaders(j.headers);
          respBody := R.BodyText(j.body);
          history := L.Record(history, L.Entry(now, verb, final, code, time));
        case None =>
          ShowError(textError, stack);
    }

    /** `handleSaveRequest`. A failed creation of a new target collection
        ends the save with nothing sent; otherwise the payload is built from
        the editor and the pane, and the list becomes `AfterSave` of the old
        one. `payload` is what was sent to be saved. */
    method SaveRequest(target: string, newName: string, folderName: string,
                       createReply: Reply, folderReply: Reply, saveReply: Reply, freshId: string)
      returns (payload: Option<SavePayload>)
      modifies this`collections
      ensures target == NewTarget && createReply.Failed? ==>
        payload.None? && collections == old(collections)
      ensures !(target == NewTarget && createReply.Failed?) ==>
        var id := TargetId(target, createReply);
        var plan := FolderPlan(old(collections), id, folderName, folderReply);
        && payload == Some(PayloadOf(plan.0, FinalUrl(), headers, rawBody, verb, respBody, status))
        && collections == AfterSave(old(collections), target, newName, id, plan.1,
                                    SavedRef(saveReply, freshId, verb + " " + FinalUrl(), plan.0))
    {
      var stale := collections;
      var targetId := target;
      if target == NewTarget {
        if createReply.Failed? {
          return None;
        }
        targetId := TargetId(target, createReply);
        collections := [C.NewCollection(targetId, Title(newName))] + collections;
      }
      assert targetId == TargetId(target, createReply);
      ghost var withCol := collections;
      ghost var plan := FolderPlan(stale, targetId, folderName, folderReply);

      var folderId: Option<string> := None;
      if !IsBlank(folderName) {
        match C.ExistingFolder(stale, targetId, folderName)
        case Some(f) =>
          folderId := f.id;
        case None =>
          if folderReply.Ok? && folderReply.data.Some? {
            var d := folderReply.data.value;
            folderId := C.FirstId(d.id, d.altId, d.folderId);
            collections := C.AddFolderTo(collections, targetId, C.Folder(folderId, folderName, "", []));
          }
      }

      assert folderId == plan.0;
      assert collections == if plan.1.Some? then C.AddFolderTo(withCol, targetId, plan.1.value) else withCol;

      var obj := H.BuildHeaderObject(headers);
      var parsed := R.ParseStatus(status);
      payload := Some(SavePayload(folderId, FinalUrl(), obj, rawBody, verb, respBody, parsed.0, parsed.1));

      if saveReply.Ok? && saveReply.data.Some? {
        var given := C.Either(saveReply.data.value.id, saveReply.data.value.altId);
        var reqId := if Truthy(given) then given.value else freshId;
        collections := C.AddRequestTo(collections, targetId,
          C.RequestRef(Some(reqId), verb + " " + FinalUrl(), folderId));
      }
    }

    /** `onSelectRequest`. Without a token or a request id the URL becomes
        the request's label; a failed fetch or a record without data changes
        nothing; otherwise the editor becomes `Loaded` of the old one. */
    method SelectRequest(req: C.RequestRef, hasToken: bool, reply: LoadReply)
      modifies this`verb, this`url, this`headers, this`rawBody, this`respBody, this`status
      ensures !hasToken || !Truthy(req.id) ==> EditorOf() == old(EditorOf()).(url := req.name)
      ensures hasToken && Truthy(req.id) && !(reply.Fetched? && reply.data.Some?) ==>
        EditorOf() == old(EditorOf())
      ensures hasToken && Truthy(req.id) && reply.Fetched? && reply.data.Some? ==>
        EditorOf() == Loaded(old(EditorOf()), reply.data.value)
    {
      if !hasToken || !Truthy(req.id) {
        url := req.name;
        return;
      }
      if reply.LoadFailed? || reply.data.None? {
        return;
      }
      ApplyRecord(reply.data.value);
    }

    /** The fields of a fetched record copied into the editor. */
    method ApplyRecord(a: StoredApi)
      modifies this`verb, this`url, this`headers, this`rawBody, this`respBody, this`status
      ensures EditorOf() == Loaded(old(EditorOf()), a)
    {
      ghost var before := EditorOf();
      var v, u, h, b, r, st := verb, url, headers, rawBody, respBody, status;
      if Truthy(a.verb) {
        v := Upper(a.verb.value);
      }
      if Truthy(a.url) {
        u := a.url.value;
      }
      if a.headers.Some? {
        h := H.ToRows(a.headers.value);
      }
      if Truthy(a.body) {
        b := a.body.value;
      }
      if Truthy(a.response) {
        r := a.response.value;
      }
      if a.resStatusCode.Some? && a.resStatusCode.value != 0 {
        st := Some(R.StatusLine(a.resStatusCode.value, OrElse(a.statusMessage, "")));
      }
      LoadedIs(before, a, Editor(v, u, h, b, r, st));
      SetEditor(Editor(v, u, h, b, r, st));
    }

    /** The six setters of the editor and the pane's status and body. */
    method SetEditor(n: Editor)
      modifies this`verb, this`url, this`headers, this`rawBody, this`respBody, this`status
      ensures EditorOf() == n
    {
      verb, url, headers, rawBody, respBody, status := n.verb, n.url, n.headers, n.body, n.response, n.status;
    }
  }
}
