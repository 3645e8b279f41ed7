/** The URL the page shows and sends: the query-parameter rows whose key is
    not blank, each written `encodeURIComponent(k)=encodeURIComponent(v)`,
    joined by `&` in row order and appended to the typed URL after `?`, or
    after `&` when the URL already has a `?`. */
module QueryString {
  import opened Common
  import opened UriComponent

  /** The rows kept by the `filter`, in their original order. */
  function KeptRows(rows: seq<KeyValue>): (kept: seq<KeyValue>)
    ensures forall r :: r in kept <==> r in rows && HasKey(r)
    ensures |kept| <= |rows|
    ensures |rows| == 1 ==> kept == if HasKey(rows[0]) then rows else []
  {
    if rows == [] then []
    else if HasKey(rows[0]) then [rows[0]] + KeptRows(rows[1..])
    else KeptRows(rows[1..])
  }

  /** The filter keeps the row order: filtering a concatenation
      concatenates the filtered parts. */
  lemma {:induction false} KeptRowsAppend(a: seq<KeyValue>, b: seq<KeyValue>)
    ensures KeptRows(a + b) == KeptRows(a) + KeptRows(b)
  {
    if a == [] {
      assert a + b == b;
    } else {
      assert (a + b)[1..] == a[1..] + b;
      KeptRowsAppend(a[1..], b);
    }
  }

  /** One `k=v` pair of the query string. */
  function Pair(row: KeyValue): string {
    EncodeComponent(row.k) + "=" + EncodeComponent(row.v)
  }

  function Pairs(rows: seq<KeyValue>): (pairs: seq<string>)
    ensures |pairs| == |rows|
    ensures forall i :: 0 <= i < |rows| ==> pairs[i] == Pair(rows[i])
  {
    if rows == [] then [] else [Pair(rows[0])] + Pairs(rows[1..])
  }

  /** The `query` constant of the page. */
  function Query(params: seq<KeyValue>): string {
    Join(Pairs(KeptRows(params)), '&')
  }

  /** The separator put between the URL and the query string. */
  function Separator(url: string): char {
    if '?' in url then '&' else '?'
  }

  /** The `finalUrl` constant of the page. */
  function FinalUrl(url: string, params: seq<KeyValue>): string {
    var q := Query(params);
    if q == "" then url else url + [Separator(url)] + q
  }

  // ---------------------------------------------------------------------------
  // Reading a query string back
  // ---------------------------------------------------------------------------

  /** One `k=v` pair read back: split at the first `=`, both sides decoded. */
  function ParsePair(part: string): Option<KeyValue> {
    var i := IndexOf(part, '=');
    if i == |part| then None
    else
      match (DecodeComponent(part[..i]), DecodeComponent(part[i + 1..]))
      case (Some(k), Some(v)) => Some(KeyValue(k, v))
      case _ => None
  }

  function ParsePairs(parts: seq<string>): Option<seq<KeyValue>> {
    if parts == [] then Some([])
    else
      match (ParsePair(parts[0]), ParsePairs(parts[1..]))
      case (Some(r), Some(rs)) => Some([r] + rs)
      case _ => None
  }

  /** A query string read back into rows. */
  function ParseQuery(q: string): Option<seq<KeyValue>> {
    ParsePairs(Split(q, '&'))
  }

  // ---------------------------------------------------------------------------
  // Properties
  // ---------------------------------------------------------------------------

  /** A character outside the encoded alphabet never appears in an encoding. */
  lemma NotInEncoding(s: string, c: char)
    requires !IsEncodedChar(c)
    ensures c !in EncodeComponent(s)
  {
  }

  lemma PairReadsBack(row: KeyValue)
    ensures ParsePair(Pair(row)) == Some(row)
    ensures '&' !in Pair(row)
  {
    var ek, ev := EncodeComponent(row.k), EncodeComponent(row.v);
    NotInEncoding(row.k, '&');
    NotInEncoding(row.v, '&');
    NotInEncoding(row.k, '=');
    SplitAtEquals(ek, ev);
    DecodeEncode(row.k);
    DecodeEncode(row.v);
  }

  /** `a=b` with no `=` in `a` is cut at that `=` into `a` and `b`. */
  lemma SplitAtEquals(a: string, b: string)
    requires '=' !in a
    ensures var p := a + "=" + b;
      IndexOf(p, '=') == |a| && p[..|a|] == a && p[|a| + 1..] == b
  {
    var p := a + "=" + b;
    assert forall j :: 0 <= j < |a| ==> p[j] == a[j];
    assert p[|a|] == '=';
  }

  lemma {:induction false} PairsReadBack(rows: seq<KeyValue>)
    ensures ParsePairs(Pairs(rows)) == Some(rows)
  {
    if rows != [] {
      PairReadsBack(rows[0]);
      PairsReadBack(rows[1..]);
      assert Pairs(rows) == [Pair(rows[0])] + Pairs(rows[1..]);
      ParsePairsCons(Pair(rows[0]), Pairs(rows[1..]), rows[0], rows[1..]);
      assert [rows[0]] + rows[1..] == rows;
    }
  }

  lemma ParsePairsCons(part: string, parts: seq<string>, row: KeyValue, rows: seq<KeyValue>)
    requires ParsePair(part) == Some(row) && ParsePairs(parts) == Some(rows)
    ensures ParsePairs([part] + parts) == Some([row] + rows)
  {
    assert ([part] + parts)[1..] == parts;
  }

  /** The query string holds exactly the kept rows, in order: reading it back
      gives them again. */
  lemma QueryReadsBack(params: seq<KeyValue>)
    requires KeptRows(params) != []
    ensures ParseQuery(Query(params)) == Some(KeptRows(params))
  {
    var kept := KeptRows(params);
    var pairs := Pairs(kept);
    forall k | 0 <= k < |pairs| ensures '&' !in pairs[k] {
      PairReadsBack(kept[k]);
    }
    SplitJoin(pairs, '&');
    PairsReadBack(kept);
  }

  /** The query string is empty exactly when no row is kept. */
  lemma QueryEmptyIffNoRows(params: seq<KeyValue>)
    ensures Query(params) == "" <==> KeptRows(params) == []
  {
    var kept := KeptRows(params);
    if kept != [] {
      var pairs := Pairs(kept);
      assert Join(pairs, '&')[..|pairs[0]|] == pairs[0] by {
        if |pairs| > 1 {
          assert Join(pairs, '&') == pairs[0] + ([ '&' ] + Join(pairs[1..], '&'));
        }
      }
      assert pairs[0][|EncodeComponent(kept[0].k)|] == '=';
    }
  }

  /** `finalUrl` is the typed URL exactly when no parameter row has a key;
      otherwise it is the URL, the right separator, and a query string that
      reads back as the kept rows in order. */
  lemma FinalUrlShape(url: string, params: seq<KeyValue>)
    ensures KeptRows(params) == [] ==> FinalUrl(url, params) == url
    ensures KeptRows(params) != [] ==>
      var f := FinalUrl(url, params);
      && |f| > |url| + 1
      && f[..|url|] == url
      && f[|url|] == (if '?' in url then '&' else '?')
      && ParseQuery(f[|url| + 1..]) == Some(KeptRows(params))
  {
    QueryEmptyIffNoRows(params);
    if KeptRows(params) != [] {
      var f := FinalUrl(url, params);
      var q := Query(params);
      assert f == url + [Separator(url)] + q;
      assert f[|url| + 1..] == q;
      QueryReadsBack(params);
    }
  }

  /** One row `lang=en` on a URL without a query gives `?lang=en`. */
  lemma FinalUrlExample()
    ensures FinalUrl("https://api.x/y", [KeyValue("lang", "en")]) == "https://api.x/y?lang=en"
  {
    var url := "https://api.x/y";
    LangQuery();
    assert '?' !in url by {
      assert forall i :: 0 <= i < |url| ==> url[i] != '?';
    }
    FinalUrlWithQuestion(url, [KeyValue("lang", "en")], "lang=en");
    assert url + ['?'] + "lang=en" == "https://api.x/y?lang=en";
  }

  lemma FinalUrlWithQuestion(url: string, params: seq<KeyValue>, q: string)
    requires '?' !in url && Query(params) == q && q != ""
    ensures FinalUrl(url, params) == url + ['?'] + q
  {
  }

  lemma LangQuery()
    ensures Query([KeyValue("lang", "en")]) == "lang=en"
  {
    var row := KeyValue("lang", "en");
    assert !IsJsSpace("lang"[0]);
    assert HasKey(row);
    assert KeptRows([row]) == [row];
    LangEncoded();
    assert Pair(row) == "lang=en";
    assert Pairs([row]) == ["lang=en"];
  }

  lemma LangEncoded()
    ensures EncodeComponent("lang") == "lang" && EncodeComponent("en") == "en"
  {
    assert EncodeComponent("g") == "g";
    assert EncodeComponent("ng") == "ng";
    assert EncodeComponent("ang") == "ang";
    assert EncodeComponent("n") == "n";
  }
}
