/** `escapeHtml`: the five characters `& < > " '` become the entities
    `&amp; &lt; &gt; &quot; &#39;`; every other character is kept. */
module Html {

  predicate IsSpecial(c: char) {
    c == '&' || c == '<' || c == '>' || c == '"' || c == '\''
  }

  /** The replacement of one character. */
  function Entity(c: char): (r: string)
    ensures IsSpecial(c) ==> |r| >= 4 && r[0] == '&'
    ensures !IsSpecial(c) ==> r == [c]
  {
    match c
    case '&' => "&amp;"
    case '<' => "&lt;"
    case '>' => "&gt;"
    case '"' => "&quot;"
    case '\'' => "&#39;"
    case _ => [c]
  }

  /** `s.replace(/[&<>"']/g, …)`. The result holds none of `< > " '`, and
      is never shorter than `s`. */
  function EscapeHtml(s: string): (r: string)
    ensures |r| >= |s|
    ensures forall i :: 0 <= i < |r| ==> r[i] != '<' && r[i] != '>' && r[i] != '"' && r[i] != '\''
  {
    if s == [] then []
    else
      var e := Entity(s[0]);
      var t := EscapeHtml(s[1..]);
      assert forall i :: 0 <= i < |e| ==> e[i] != '<' && e[i] != '>' && e[i] != '"' && e[i] != '\'';
      assert forall i :: |e| <= i < |e + t| ==> (e + t)[i] == t[i - |e|];
      e + t
  }

  /** A string without special characters is left as it is, and only such a
      string is. */
  lemma {:induction false} EscapeUnchangedIff(s: string)
    ensures EscapeHtml(s) == s <==> forall i :: 0 <= i < |s| ==> !IsSpecial(s[i])
  {
    if s != [] {
      EscapeUnchangedIff(s[1..]);
      var t := EscapeHtml(s[1..]);
      if IsSpecial(s[0]) {
        assert |EscapeHtml(s)| == |Entity(s[0])| + |t| > |s|;
      } else {
        assert EscapeHtml(s) == [s[0]] + t;
        assert s == [s[0]] + s[1..];
        assert (forall i :: 0 <= i < |s| ==> !IsSpecial(s[i]))
           <==> (forall i :: 0 <= i < |s[1..]| ==> !IsSpecial(s[1..][i])) by {
          forall i | 0 <= i < |s[1..]| ensures s[1..][i] == s[i + 1] { }
        }
        if EscapeHtml(s) == s {
          assert t == ([s[0]] + t)[1..] == s[1..];
        }
      }
    }
  }

  predicate StartsWith(s: string, p: string) {
    |p| <= |s| && s[..|p|] == p
  }

  /** Reading the five entities back into characters. */
  function UnescapeHtml(r: string): string
    decreases |r|
  {
    if r == [] then []
    else if StartsWith(r, "&amp;") then "&" + UnescapeHtml(r[5..])
    else if StartsWith(r, "&lt;") then "<" + UnescapeHtml(r[4..])
    else if StartsWith(r, "&gt;") then ">" + UnescapeHtml(r[4..])
    else if StartsWith(r, "&quot;") then "\"" + UnescapeHtml(r[6..])
    else if StartsWith(r, "&#39;") then "'" + UnescapeHtml(r[5..])
    else [r[0]] + UnescapeHtml(r[1..])
  }

  lemma UnescapeEntity(c: char, rest: string)
    ensures UnescapeHtml(Entity(c) + rest) == [c] + UnescapeHtml(rest)
  {
    match c
    case '&' => UnescapeAmp(rest);
    case '<' => UnescapeLt(rest);
    case '>' => UnescapeGt(rest);
    case '"' => UnescapeQuot(rest);
    case '\'' => UnescapeApos(rest);
    case _ => UnescapePlain(c, rest);
  }

  lemma UnescapePlain(c: char, rest: string)
    requires !IsSpecial(c)
    ensures UnescapeHtml([c] + rest) == [c] + UnescapeHtml(rest)
  {
    var r := [c] + rest;
    assert forall p: string :: p != [] && p[0] == '&' ==> !StartsWith(r, p) by {
      forall p: string | p != [] && p[0] == '&' && |p| <= |r| ensures r[..|p|] != p {
        assert r[..|p|][0] == c;
      }
    }
    assert "&amp;"[0] == '&' && "&lt;"[0] == '&' && "&gt;"[0] == '&' && "&quot;"[0] == '&' && "&#39;"[0] == '&';
    assert r[1..] == rest;
  }

  lemma UnescapeAmp(rest: string)
    ensures UnescapeHtml("&amp;" + rest) == "&" + UnescapeHtml(rest)
  {
    var r := "&amp;" + rest;
    assert r[..5] == "&amp;" && r[5..] == rest;
  }

  lemma UnescapeLt(rest: string)
    ensures UnescapeHtml("&lt;" + rest) == "<" + UnescapeHtml(rest)
  {
    var r := "&lt;" + rest;
    assert !StartsWith(r, "&amp;") by { assert r[1] == 'l'; }
    assert r[..4] == "&lt;" && r[4..] == rest;
  }

  lemma UnescapeGt(rest: string)
    ensures UnescapeHtml("&gt;" + rest) == ">" + UnescapeHtml(rest)
  {
    var r := "&gt;" + rest;
    assert !StartsWith(r, "&amp;") by { assert r[1] == 'g'; }
    assert !StartsWith(r, "&lt;") by { assert r[1] == 'g'; }
    assert r[..4] == "&gt;" && r[4..] == rest;
  }

  lemma UnescapeQuot(rest: string)
    ensures UnescapeHtml("&quot;" + rest) == "\"" + UnescapeHtml(rest)
  {
    var r := "&quot;" + rest;
    assert !StartsWith(r, "&amp;") by { assert r[1] == 'q'; }
    assert !StartsWith(r, "&lt;") by { assert r[1] == 'q'; }
    assert !StartsWith(r, "&gt;") by { assert r[1] == 'q'; }
    assert r[..6] == "&quot;" && r[6..] == rest;
  }

  lemma UnescapeApos(rest: string)
    ensures UnescapeHtml("&#39;" + rest) == "'" + UnescapeHtml(rest)
  {
    var r := "&#39;" + rest;
    assert !StartsWith(r, "&amp;") by { assert r[1] == '#'; }
    assert !StartsWith(r, "&lt;") by { assert r[1] == '#'; }
    assert !StartsWith(r, "&gt;") by { assert r[1] == '#'; }
    assert !StartsWith(r, "&quot;") by { assert r[1] == '#'; }
    assert r[..5] == "&#39;" && r[5..] == rest;
  }

  /** Escaping loses nothing: the entities read back to the original text. */
  lemma {:induction false} UnescapeEscape(s: string)
    ensures UnescapeHtml(EscapeHtml(s)) == s
  {
    if s != [] {
      UnescapeEntity(s[0], EscapeHtml(s[1..]));
      UnescapeEscape(s[1..]);
      assert s == [s[0]] + s[1..];
    }
  }
}
