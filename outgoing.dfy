/** The request the page hands to the backend proxy in `sendRequest`:
    method, the substituted URL, the header object built from the editor
    rows (with a default `Content-Type` for JSON and text bodies), and the
    body, which GET and HEAD never carry. */
module Outgoing {
  import opened Common
  import opened HeaderObjects

  /** The body editor's mode. */
  datatype BodyType = Json | Text | Form

  /** The `body` of the proxied request. A form body is the raw editor text,
      which the page hands to `JSON.parse` (and to `FormData`); that parse is
      not part of this model. */
  datatype Body = NoBody | Raw(text: string) | FormSource(source: string)

  /** `{ method, url, headers, body }` as sent to the proxy. */
  datatype Descriptor = Descriptor(verb: string, url: string, headers: Object, body: Body)

  const ContentType: string := "Content-Type"

  /** Every method but GET and HEAD carries a body. */
  predicate CarriesBody(verb: string) {
    verb != "GET" && verb != "HEAD"
  }

  /** The `Content-Type` the page adds for a body mode, if any. */
  function DefaultContentType(bodyType: BodyType): Option<string> {
    match bodyType
    case Json => Some("application/json")
    case Text => Some("text/plain")
    case Form => None
  }

  /** `if (!headers['Content-Type']) headers['Content-Type'] = t`: an absent or
      empty `Content-Type` is set to `t`; a non-empty one is kept. */
  function WithContentType(o: Object, t: string): (r: Object)
    ensures Lookup(r, ContentType) == if Truthy(Lookup(o, ContentType)) then Lookup(o, ContentType) else Some(t)
    ensures forall key :: key != ContentType ==> Lookup(r, key) == Lookup(o, key)
  {
    if Truthy(Lookup(o, ContentType)) then o else Assign(o, ContentType, t)
  }

  /** `init.headers` once the body section has run. */
  function InitHeaders(verb: string, bodyType: BodyType, rows: seq<KeyValue>): Object {
    var o := FromRows(rows);
    if CarriesBody(verb) && DefaultContentType(bodyType).Some? then
      WithContentType(o, DefaultContentType(bodyType).value)
    else o
  }

  /** The proxied body. */
  function ProxyBody(verb: string, bodyType: BodyType, rawBody: string): Body {
    if !CarriesBody(verb) then NoBody
    else if bodyType == Form then FormSource(rawBody)
    else Raw(rawBody)
  }

  function Describe(verb: string, urlToSend: string, bodyType: BodyType, rawBody: string, rows: seq<KeyValue>): Descriptor {
    Descriptor(verb, urlToSend, InitHeaders(verb, bodyType, rows), ProxyBody(verb, bodyType, rawBody))
  }

  /** GET and HEAD carry no body; every other method carries the editor text,
      verbatim for JSON and text bodies. */
  lemma BodyIffCarries(verb: string, urlToSend: string, bodyType: BodyType, rawBody: string, rows: seq<KeyValue>)
    ensures var d := Describe(verb, urlToSend, bodyType, rawBody, rows);
      && (d.body == NoBody <==> verb == "GET" || verb == "HEAD")
      && (CarriesBody(verb) && bodyType != Form ==> d.body == Raw(rawBody))
      && (CarriesBody(verb) && bodyType == Form ==> d.body == FormSource(rawBody))
  {
  }

  /** Each header of the descriptor is the last non-blank row with that key,
      except that a JSON or text body on a body-carrying method gets the
      default `Content-Type` when no row gives it a non-empty value. */
  lemma DescriptorHeader(verb: string, urlToSend: string, bodyType: BodyType, rawBody: string,
                         rows: seq<KeyValue>, key: string)
    ensures Lookup(Describe(verb, urlToSend, bodyType, rawBody, rows).headers, key)
         == if key == ContentType && CarriesBody(verb) && bodyType != Form && !Truthy(LastValue(rows, key))
            then DefaultContentType(bodyType)
            else LastValue(rows, key)
  {
    FromRowsLookup(rows, key);
    FromRowsLookup(rows, ContentType);
  }

  /** The injected default goes after the rows' own headers, and the test is
      on the exact key `Content-Type`: a lower-case `content-type` row does
      not stop it. */
  lemma ContentTypeExample()
    ensures Describe("POST", "https://x/", Json, "{}", [KeyValue("content-type", "text/csv")]).headers
         == [KeyValue("content-type", "text/csv"), KeyValue("Content-Type", "application/json")]
  {
    var row := KeyValue("content-type", "text/csv");
    assert !IsBlank(row.k) by { assert !IsJsSpace(row.k[0]); }
    assert [row][1..] == [];
    assert Assign([], row.k, row.v) == [row];
    assert FromRows([row]) == AssignRows([row], []);
    assert row.k != ContentType by { assert row.k[0] != ContentType[0]; }
    assert Lookup([row], ContentType) == None;
  }
}
