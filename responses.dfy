/** What the page shows once the proxy answers: the status line, the elapsed
    time, the response headers as `{k, v}` rows sorted by key, and the body;
    and the inverse reading of the status line that the save handler stores
    as `(res_status, statusmessage)`. */
module Responses {
  import opened Common

  /** The HTTP response's own status and status text (`proxyRes`). */
  datatype Transport = Transport(status: nat, statusText: string)

  /** The headers field of the proxy's JSON answer. */
  datatype ReplyHeaders =
    | HeaderArray(rows: seq<KeyValue>)   // already an array: used as it is
    | HeaderMap(entries: seq<KeyValue>)  // an object: its entries, sorted by key
    | NoHeaders                          // missing, null or not an object

  /** The body field of the proxy's JSON answer: missing or null, or the text
      the page displays for it (pretty-printing is not part of this model). */
  datatype ReplyBody = Missing | Rendered(text: string)

  /** `{ status, statusText, timeMs, headers, body }` from the proxy. */
  datatype ProxyJson = ProxyJson(
    status: Option<nat>,
    statusText: Option<string>,
    timeMs: Option<int>,
    headers: ReplyHeaders,
    body: ReplyBody)

  // ---------------------------------------------------------------------------
  // Status line
  // ---------------------------------------------------------------------------

  /** `` `${code} ${text}`.trim() ``. */
  function StatusLine(code: nat, text: string): string {
    Trim(Decimal(code) + " " + text)
  }

  /** `proxyJson.status || proxyRes.status`: a missing or zero status falls
      back to the transport's. */
  function StatusCode(reply: ProxyJson, transport: Transport): (code: nat)
    ensures reply.status.Some? && reply.status.value != 0 ==> code == reply.status.value
    ensures !(reply.status.Some? && reply.status.value != 0) ==> code == transport.status
  {
    match reply.status
    case Some(n) => if n != 0 then n else transport.status
    case None => transport.status
  }

  /** `proxyJson.statusText || proxyRes.statusText || ''`. */
  function StatusText(reply: ProxyJson, transport: Transport): string {
    OrElse(reply.statusText, transport.statusText)
  }

  /** The proxy's `timeMs` when it is a number, else the local measurement. */
  function Elapsed(reply: ProxyJson, localMs: int): (t: int)
    ensures reply.timeMs.Some? ==> t == reply.timeMs.value
    ensures reply.timeMs.None? ==> t == localMs
  {
    if reply.timeMs.Some? then reply.timeMs.value else localMs
  }

  /** The body shown: empty for a missing body. */
  function BodyText(body: ReplyBody): string {
    match body
    case Missing => ""
    case Rendered(t) => t
  }

  /** The status line of a proxy answer that is not JSON:
      `` `${proxyRes.status} ${proxyRes.statusText}` ``, not trimmed. */
  function RawStatusLine(transport: Transport): string {
    Decimal(transport.status) + " " + transport.statusText
  }

  // ---------------------------------------------------------------------------
  // Reading the status line back (save handler)
  // ---------------------------------------------------------------------------

  /** `parts = status.split(' ')`, `parseInt(parts[0], 10)` (NaN read as
      absent) and `parts.slice(1).join(' ')`; a missing or empty status gives
      no code and an empty message. */
  function ParseStatus(status: Option<string>): (Option<int>, string) {
    if !Truthy(status) then (None, "")
    else
      var parts := Split(status.value, ' ');
      (ParseInt(parts[0]), Join(parts[1..], ' '))
  }

  lemma {:induction false} TrimEndBlank(s: string)
    requires IsBlank(s)
    ensures TrimEnd(s) == []
  {
    TrimEndConcat([], s);
    assert [] + s == s;
  }

  /** A string of digits holds no space, so it splits into itself. */
  lemma SplitDigits(d: string)
    requires forall i :: 0 <= i < |d| ==> IsDigit(d[i])
    ensures Split(d, ' ') == [d]
  {
    assert forall i :: 0 <= i < |d| ==> d[i] != ' ';
  }

  /** Splitting `code + " " + rest` at its first space, parsing the head and
      joining the tail again gives back the code and the rest. */
  lemma ParseCodeThenRest(code: nat, rest: string)
    ensures ParseStatus(Some(Decimal(code) + " " + rest)) == (Some(code as int), rest)
  {
    DigitsThenRest(Decimal(code), rest);
    ParseDecimal(code);
  }

  /** A numeral, one space and a rest split into the numeral and the rest. */
  lemma DigitsThenRest(d: string, rest: string)
    requires forall i :: 0 <= i < |d| ==> IsDigit(d[i])
    ensures ParseStatus(Some(d + " " + rest)) == (ParseInt(d), rest)
  {
    assert forall i :: 0 <= i < |d| ==> d[i] != ' ';
    var s := d + " " + rest;
    assert s == d + [' '] + rest;
    SplitAtFirst(d, rest, ' ');
    var parts := [d] + Split(rest, ' ');
    assert Split(s, ' ') == parts;
    assert parts[1..] == Split(rest, ' ');
    JoinSplit(rest, ' ');
  }

  /** The shape of a status line: the code alone when the text is blank,
      else the code, one space and the text without trailing white space. */
  lemma StatusLineShape(code: nat, text: string)
    ensures StatusLine(code, text)
         == if IsBlank(text) then Decimal(code) else Decimal(code) + " " + TrimEnd(text)
  {
    var d := Decimal(code);
    var s := d + " " + text;
    assert s == (d + " ") + text;
    assert s[0] == d[0];
    DigitNotSpace(d[0]);
    TrimStartNoLeading(s);
    TrimEndConcat(d + " ", text);
    if IsBlank(text) {
      DigitsThenSpace(d);
    }
  }

  /** A numeral followed by one space trims back to the numeral. */
  lemma DigitsThenSpace(d: string)
    requires d != [] && forall i :: 0 <= i < |d| ==> IsDigit(d[i])
    ensures TrimEnd(d + " ") == d
  {
    var s := d + " ";
    assert IsJsSpace(s[|s| - 1]);
    assert s[..|s| - 1] == d;
    assert TrimEnd(s) == TrimEnd(d);
    DigitNotSpace(d[|d| - 1]);
    TrimEndNoTrailing(d);
  }

  /** The save handler reads back what the response pane shows: the code, and
      the status text without its trailing white space. */
  lemma StatusRoundTrip(code: nat, text: string)
    ensures ParseStatus(Some(StatusLine(code, text))) == (Some(code as int), TrimEnd(text))
  {
    StatusLineShape(code, text);
    if IsBlank(text) {
      TrimEndBlank(text);
      CodeAloneReadsBack(code);
    } else {
      ParseCodeThenRest(code, TrimEnd(text));
    }
  }

  /** A line holding only the code reads back as the code and no message. */
  lemma CodeAloneReadsBack(code: nat)
    ensures ParseStatus(Some(Decimal(code))) == (Some(code as int), "")
  {
    DigitsAlone(Decimal(code));
    ParseDecimal(code);
  }

  /** A numeral alone splits into itself and an empty message. */
  lemma DigitsAlone(d: string)
    requires d != [] && forall i :: 0 <= i < |d| ==> IsDigit(d[i])
    ensures ParseStatus(Some(d)) == (ParseInt(d), "")
  {
    SplitDigits(d);
    assert Split(d, ' ')[1..] == [];
    assert Join([], ' ') == "";
  }

  /** Building the line again from the message read back gives the same
      line. */
  lemma StatusLineTrimEnd(code: nat, text: string)
    ensures StatusLine(code, TrimEnd(text)) == StatusLine(code, text)
  {
    var t := TrimEnd(text);
    StatusLineShape(code, text);
    StatusLineShape(code, t);
    if t == [] {
      assert text[|t|..] == text;
    } else {
      if IsBlank(text) {
        TrimEndBlank(text);
      }
      assert !IsBlank(t) by { assert !IsJsSpace(t[|t| - 1]); }
      TrimEndNoTrailing(t);
    }
  }

  /** The untrimmed line of a non-JSON answer reads back exactly. */
  lemma RawStatusRoundTrip(transport: Transport)
    ensures ParseStatus(Some(RawStatusLine(transport))) == (Some(transport.status as int), transport.statusText)
  {
    ParseCodeThenRest(transport.status, transport.statusText);
  }

  // ---------------------------------------------------------------------------
  // Response headers
  // ---------------------------------------------------------------------------

  /** Code-unit order on keys: the total order that stands in for the
      page's locale-dependent `localeCompare`. */
  predicate KeyLe(a: string, b: string) {
    a == [] || (b != [] && (a[0] < b[0] || (a[0] == b[0] && KeyLe(a[1..], b[1..]))))
  }

  lemma {:induction false} KeyLeTotal(a: string, b: string)
    ensures KeyLe(a, b) || KeyLe(b, a)
  {
    if a != [] && b != [] && a[0] == b[0] {
      KeyLeTotal(a[1..], b[1..]);
    }
  }

  predicate SortedByKey(s: seq<KeyValue>) {
    forall i :: 0 < i < |s| ==> KeyLe(s[i - 1].k, s[i].k)
  }

  /** Insertion of one entry into a sorted list, after the entries whose key
      does not exceed it. */
  function Insert(x: KeyValue, s: seq<KeyValue>): (r: seq<KeyValue>)
    requires SortedByKey(s)
    ensures SortedByKey(r)
    ensures multiset(r) == multiset(s) + multiset{x}
    ensures r[0] == x || (s != [] && r[0] == s[0])
  {
    if s == [] then [x]
    else if !KeyLe(s[0].k, x.k) then
      KeyLeTotal(s[0].k, x.k);
      [x] + s
    else
      var t := Insert(x, s[1..]);
      assert s == [s[0]] + s[1..];
      [s[0]] + t
  }

  /** The entries of a header object sorted by key. */
  function SortByKey(s: seq<KeyValue>): (r: seq<KeyValue>)
    ensures SortedByKey(r)
    ensures multiset(r) == multiset(s)
  {
    if s == [] then []
    else
      assert s == [s[0]] + s[1..];
      Insert(s[0], SortByKey(s[1..]))
  }

  /** The rows the response pane lists. */
  function ResponseHeaders(h: ReplyHeaders): (rows: seq<KeyValue>)
    ensures h.HeaderArray? ==> rows == h.rows
    ensures h.HeaderMap? ==> SortedByKey(rows) && multiset(rows) == multiset(h.entries)
    ensures h.NoHeaders? ==> rows == []
  {
    match h
    case HeaderArray(rows) => rows
    case HeaderMap(entries) => SortByKey(entries)
    case NoHeaders => []
  }
}
