/** Environment templating of the URL (`applyEnvToUrl`) and the check that
    refuses to send a URL still holding a `{{name}}` placeholder.

    The source builds, for each variable, the regular expression
    `\{\{key\}\}` and calls `String.prototype.replace` with it globally. For
    keys without regular-expression metacharacters and values without `$`
    that is a literal, left-to-right, non-overlapping replacement of every
    `{{key}}`, which is what `ReplaceAll` models. */
module Templates {
  import opened Common

  /** An environment variable `{id, key, value}`; `value` may be absent. */
  datatype Variable = Variable(key: string, value: Option<string>)

  /** The placeholder `{{key}}`. */
  function Token(key: string): string {
    "{{" + key + "}}"
  }

  /** `v.value ?? ''`. */
  function ValueOf(v: Variable): string {
    match v.value
    case Some(x) => x
    case None => ""
  }

  predicate IsRegexMeta(c: char) {
    c in ".*+?^${}()|[]\\"
  }

  /** A variable that the regular expression and the replacement string of
      the source treat literally. */
  predicate IsLiteral(v: Variable) {
    && (forall i :: 0 <= i < |v.key| ==> !IsRegexMeta(v.key[i]))
    && '$' !in ValueOf(v)
  }

  /** Every variable that takes part in substitution is literal. */
  predicate AllLiteral(vars: seq<Variable>) {
    forall i :: 0 <= i < |vars| && vars[i].key != "" ==> IsLiteral(vars[i])
  }

  // ---------------------------------------------------------------------------
  // Literal global replacement
  // ---------------------------------------------------------------------------

  predicate OccursAt(s: string, pat: string, i: nat) {
    i + |pat| <= |s| && s[i..i + |pat|] == pat
  }

  predicate Occurs(s: string, pat: string) {
    exists i: nat | i <= |s| :: OccursAt(s, pat, i)
  }

  /** `s.replace(/pat/g, rep)` for a literal, non-empty pattern: occurrences
      are found left to right, do not overlap, and the inserted text is not
      scanned again. */
  function ReplaceAll(s: string, pat: string, rep: string): string
    requires pat != []
    decreases |s|
  {
    if |s| < |pat| then s
    else if s[..|pat|] == pat then rep + ReplaceAll(s[|pat|..], pat, rep)
    else [s[0]] + ReplaceAll(s[1..], pat, rep)
  }

  /** Replacing a pattern that does not occur changes nothing. */
  lemma {:induction false} ReplaceAbsent(s: string, pat: string, rep: string)
    requires pat != []
    requires !Occurs(s, pat)
    ensures ReplaceAll(s, pat, rep) == s
    decreases |s|
  {
    if |s| >= |pat| {
      assert !OccursAt(s, pat, 0);
      assert !Occurs(s[1..], pat) by {
        forall i: nat | OccursAt(s[1..], pat, i) ensures OccursAt(s, pat, i + 1) {
          assert s[1..][i..i + |pat|] == s[i + 1..i + 1 + |pat|];
        }
      }
      ReplaceAbsent(s[1..], pat, rep);
    }
  }

  // ---------------------------------------------------------------------------
  // applyEnvToUrl
  // ---------------------------------------------------------------------------

  /** One pass of the loop: a variable with an empty key is skipped. */
  function Substitute(s: string, v: Variable): string {
    if v.key == "" then s else ReplaceAll(s, Token(v.key), ValueOf(v))
  }

  /** The passes of the loop, in the order the variables are listed. */
  function SubstituteAll(s: string, vars: seq<Variable>): string
    decreases |vars|
  {
    if vars == [] then s else SubstituteAll(Substitute(s, vars[0]), vars[1..])
  }

  /** What `applyEnvToUrl(rawUrl)` returns: the URL as it is when no
      environment is active or it has no variables, else every pass applied. */
  function Resolved(rawUrl: string, activeEnvId: Option<string>, vars: seq<Variable>): string {
    if !Truthy(activeEnvId) || vars == [] then rawUrl else SubstituteAll(rawUrl, vars)
  }

  /** `applyEnvToUrl`: the loop over the variables reassigning `out`. */
  method ApplyEnvToUrl(rawUrl: string, activeEnvId: Option<string>, vars: seq<Variable>)
    returns (out: string)
    requires AllLiteral(vars)
    ensures out == Resolved(rawUrl, activeEnvId, vars)
  {
    if !Truthy(activeEnvId) || |vars| == 0 {
      return rawUrl;
    }
    out := rawUrl;
    for i := 0 to |vars|
      invariant SubstituteAll(out, vars[i..]) == SubstituteAll(rawUrl, vars)
    {
      var v := vars[i];
      assert vars[i..][1..] == vars[i + 1..];
      if v.key == "" {
        continue;
      }
      out := ReplaceAll(out, Token(v.key), ValueOf(v));
    }
    assert vars[|vars|..] == [];
  }

  /** Passes over a concatenated list are the passes over each part in turn. */
  lemma {:induction false} SubstituteAppend(s: string, a: seq<Variable>, b: seq<Variable>)
    ensures SubstituteAll(s, a + b) == SubstituteAll(SubstituteAll(s, a), b)
    decreases |a|
  {
    if a != [] {
      assert (a + b)[1..] == a[1..] + b;
      SubstituteAppend(Substitute(s, a[0]), a[1..], b);
    } else {
      assert a + b == b;
    }
  }

  /** A variable whose placeholder no longer occurs when its pass comes has
      no effect: dropping it from the list gives the same URL. In
      particular, of two variables with the same key the later one is
      ignored whenever the earlier pass left no `{{key}}` behind. */
  lemma VariableWithoutTokenIgnored(s: string, vars: seq<Variable>, j: nat)
    requires j < |vars|
    requires !Occurs(SubstituteAll(s, vars[..j]), Token(vars[j].key))
    ensures SubstituteAll(s, vars) == SubstituteAll(s, vars[..j] + vars[j + 1..])
  {
    var mid := SubstituteAll(s, vars[..j]);
    assert vars == vars[..j] + ([vars[j]] + vars[j + 1..]);
    SubstituteAppend(s, vars[..j], [vars[j]] + vars[j + 1..]);
    SubstituteAppend(s, vars[..j], vars[j + 1..]);
    if vars[j].key != "" {
      ReplaceAbsent(mid, Token(vars[j].key), ValueOf(vars[j]));
    }
    assert Substitute(mid, vars[j]) == mid;
    assert ([vars[j]] + vars[j + 1..])[1..] == vars[j + 1..];
  }

  /** The earlier of two same-key variables does not always win: its value
      can rebuild a placeholder that the later pass then replaces. */
  lemma DuplicateKeyCanRebuildToken()
    ensures
      var vars := [Variable("k", Some("k")), Variable("k", Some("X"))];
      && SubstituteAll("{{{{k}}}}", vars[..1]) == "{{k}}"
      && SubstituteAll("{{{{k}}}}", vars) == "X"
  {
    var vars := [Variable("k", Some("k")), Variable("k", Some("X"))];
    assert Token("k") == "{{k}}";
    RebuildFirstPass();
    ReplaceWholeToken("{{k}}", "X");
    assert Substitute("{{{{k}}}}", vars[0]) == "{{k}}";
    assert Substitute("{{k}}", vars[1]) == "X";
    assert vars[..1][1..] == [];
    assert vars[1..][1..] == [];
  }

  /** The first pass of the example above: the inner token is replaced by
      `k`, leaving a new token behind. */
  lemma RebuildFirstPass()
    ensures ReplaceAll("{{{{k}}}}", "{{k}}", "k") == "{{k}}"
  {
    assert ReplaceAll("{{k}}}}", "{{k}}", "k") == "k}}" by {
      assert ReplaceAll("}}", "{{k}}", "k") == "}}";
    }
    var u := "{{{k}}}}";
    assert u[..5] != "{{k}}" by { assert u[..5][2] == '{'; }
    assert u[1..] == "{{k}}}}";
    assert ReplaceAll(u, "{{k}}", "k") == "{" + "k}}";
  }

  /** Dropping every variable with an empty key does not change the result. */
  function KeyedOnly(vars: seq<Variable>): (r: seq<Variable>)
    ensures forall v :: v in r <==> v in vars && v.key != ""
  {
    if vars == [] then []
    else if vars[0].key == "" then KeyedOnly(vars[1..])
    else [vars[0]] + KeyedOnly(vars[1..])
  }

  lemma {:induction false} EmptyKeysSkipped(s: string, vars: seq<Variable>)
    ensures SubstituteAll(s, vars) == SubstituteAll(s, KeyedOnly(vars))
    decreases |vars|
  {
    if vars != [] {
      EmptyKeysSkipped(Substitute(s, vars[0]), vars[1..]);
      if vars[0].key != "" {
        assert KeyedOnly(vars)[1..] == KeyedOnly(vars[1..]);
      }
    }
  }

  // ---------------------------------------------------------------------------
  // URLs without any `{{`
  // ---------------------------------------------------------------------------

  predicate HasOpenPair(s: string) {
    exists i :: 0 <= i < |s| - 1 && s[i] == '{' && s[i + 1] == '{'
  }

  /** Every placeholder starts with `{{`. */
  lemma TokenNeedsOpenPair(s: string, key: string)
    ensures Occurs(s, Token(key)) ==> HasOpenPair(s)
  {
    if Occurs(s, Token(key)) {
      var i: nat :| i <= |s| && OccursAt(s, Token(key), i);
      assert s[i..i + |Token(key)|][0] == s[i] && s[i..i + |Token(key)|][1] == s[i + 1];
    }
  }

  lemma {:induction false} SubstituteAllNoOpenPair(s: string, vars: seq<Variable>)
    requires !HasOpenPair(s)
    ensures SubstituteAll(s, vars) == s
  {
    if vars != [] {
      if vars[0].key != "" {
        TokenNeedsOpenPair(s, vars[0].key);
        ReplaceAbsent(s, Token(vars[0].key), ValueOf(vars[0]));
      }
      SubstituteAllNoOpenPair(s, vars[1..]);
    }
  }


  // ---------------------------------------------------------------------------
  // The unresolved-placeholder scan: /\{\{([^}]+)\}\}/g
  // ---------------------------------------------------------------------------

  /** The end of a match of `\{\{([^}]+)\}\}` starting at `i`, if any. The
      greedy `[^}]+` stops at the first `}`, which must then be followed by
      another `}`; backtracking cannot help since no shorter run ends before
      a `}`. */
  function MatchAt(s: string, i: nat): (r: Option<nat>)
    ensures r.Some? ==> i + 5 <= r.value <= |s|
  {
    if i + 2 <= |s| && s[i] == '{' && s[i + 1] == '{' then
      var j := i + 2 + IndexOf(s[i + 2..], '}');
      if j > i + 2 && j + 2 <= |s| && s[j + 1] == '}' then Some(j + 2) else None
    else None
  }

  /** `m.replace(/[{}]/g, '')`. */
  function StripBraces(m: string): (r: string)
    ensures '{' !in r && '}' !in r
  {
    if m == [] then []
    else if m[0] == '{' || m[0] == '}' then StripBraces(m[1..])
    else [m[0]] + StripBraces(m[1..])
  }

  /** The names of the global matches from position `i` on, left to right. */
  function Placeholders(s: string, i: nat): seq<string>
    decreases |s| - i
  {
    if i >= |s| then []
    else
      match MatchAt(s, i)
      case Some(e) => [StripBraces(s[i..e])] + Placeholders(s, e)
      case None => Placeholders(s, i + 1)
  }

  /** The URL holds `{{`, a non-empty run free of `}`, then `}}`. */
  predicate HasPlaceholder(s: string) {
    exists i, j :: 0 <= i && i + 2 < j && j + 2 <= |s| && IsPlaceholder(s, i, j)
  }

  predicate IsPlaceholder(s: string, i: int, j: int)
    requires 0 <= i && i + 2 < j && j + 2 <= |s|
  {
    && s[i] == '{' && s[i + 1] == '{'
    && (forall k :: i + 2 <= k < j ==> s[k] != '}')
    && s[j] == '}' && s[j + 1] == '}'
  }

  lemma {:induction false} NoMatchWithoutOpenPair(s: string, i: nat)
    requires !HasOpenPair(s)
    ensures Placeholders(s, i) == []
    decreases |s| - i
  {
    if i < |s| {
      assert MatchAt(s, i).None? by {
        if i + 2 <= |s| && s[i] == '{' { assert !(s[i + 1] == '{'); }
      }
      NoMatchWithoutOpenPair(s, i + 1);
    }
  }

  lemma MatchAtPlaceholder(s: string, i: nat, j: nat)
    requires i + 2 < j && j + 2 <= |s| && IsPlaceholder(s, i, j)
    ensures MatchAt(s, i) == Some(j + 2)
  {
    var t := s[i + 2..];
    assert t[j - i - 2] == '}';
    assert forall k :: 0 <= k < j - i - 2 ==> t[k] == s[i + 2 + k] && t[k] != '}';
    assert IndexOf(t, '}') == j - i - 2;
  }

  lemma {:induction false} PlaceholderFound(s: string, k: nat, i: nat, j: nat)
    requires k <= i && i + 2 < j && j + 2 <= |s| && IsPlaceholder(s, i, j)
    ensures Placeholders(s, k) != []
    decreases i - k
  {
    assert k < |s|;
    match MatchAt(s, k)
    case Some(e) =>
      assert Placeholders(s, k) == [StripBraces(s[k..e])] + Placeholders(s, e);
    case None =>
      if k == i {
        MatchAtPlaceholder(s, i, j);
        assert false;
      }
      PlaceholderFound(s, k + 1, i, j);
      assert Placeholders(s, k) == Placeholders(s, k + 1);
  }

  lemma {:induction false} MatchGivesPlaceholder(s: string, i: nat)
    requires Placeholders(s, i) != []
    ensures HasPlaceholder(s)
    decreases |s| - i
  {
    match MatchAt(s, i)
    case Some(e) =>
      var j := e - 2;
      var t := s[i + 2..];
      assert j == i + 2 + IndexOf(t, '}');
      assert forall k :: i + 2 <= k < j ==> s[k] == t[k - i - 2];
      assert s[j] == t[j - i - 2];
      assert IsPlaceholder(s, i, j);
    case None =>
      MatchGivesPlaceholder(s, i + 1);
  }

  /** The token of a literal key is a placeholder: a literal key holds no
      `}`, since `}` is a regular-expression metacharacter. */
  lemma TokenIsPlaceholder(s: string, v: Variable)
    requires v.key != "" && IsLiteral(v)
    ensures Occurs(s, Token(v.key)) ==> HasPlaceholder(s)
  {
    if Occurs(s, Token(v.key)) {
      var key := v.key;
      var i: nat :| i <= |s| && OccursAt(s, Token(key), i);
      var t := s[i..i + |Token(key)|];
      var j := i + 2 + |key|;
      assert t == "{{" + key + "}}";
      assert s[i] == t[0] && s[i + 1] == t[1] && s[j] == t[j - i] && s[j + 1] == t[j + 1 - i];
      forall k | i + 2 <= k < j ensures s[k] != '}' {
        assert s[k] == t[k - i] == key[k - i - 2];
        assert !IsRegexMeta(key[k - i - 2]);
      }
      assert IsPlaceholder(s, i, j);
    }
  }

  /** Passes of literal variables leave a URL without placeholders as it is. */
  lemma {:induction false} SubstituteAllNoPlaceholder(s: string, vars: seq<Variable>)
    requires !HasPlaceholder(s) && AllLiteral(vars)
    ensures SubstituteAll(s, vars) == s
    decreases |vars|
  {
    if vars != [] {
      if vars[0].key != "" {
        TokenIsPlaceholder(s, vars[0]);
        ReplaceAbsent(s, Token(vars[0].key), ValueOf(vars[0]));
      }
      assert AllLiteral(vars[1..]) by {
        forall i | 0 <= i < |vars[1..]| && vars[1..][i].key != "" ensures IsLiteral(vars[1..][i]) {
          assert vars[1..][i] == vars[i + 1];
        }
      }
      SubstituteAllNoPlaceholder(s, vars[1..]);
    }
  }

  /** A URL without a `{{name}}` placeholder is sent as typed, and the scan
      finds nothing unresolved in it. */
  lemma NoPlaceholderUnchanged(s: string, activeEnvId: Option<string>, vars: seq<Variable>)
    requires !HasPlaceholder(s) && AllLiteral(vars)
    ensures Resolved(s, activeEnvId, vars) == s
    ensures Placeholders(s, 0) == []
  {
    SubstituteAllNoPlaceholder(s, vars);
    PlaceholdersIffHasPlaceholder(s);
  }

  /** A URL with no `{{` at all is sent as typed whatever the variables. */
  lemma NoOpenPairUnchanged(s: string, activeEnvId: Option<string>, vars: seq<Variable>)
    requires !HasOpenPair(s)
    ensures Resolved(s, activeEnvId, vars) == s
    ensures Placeholders(s, 0) == []
  {
    SubstituteAllNoOpenPair(s, vars);
    NoMatchWithoutOpenPair(s, 0);
  }

  /** Without literal keys a URL free of placeholders can still change:
      the key `}` matches inside `{{}}}`. */
  lemma NonLiteralKeyChangesUrl()
    ensures !HasPlaceholder("{{}}}")
    ensures SubstituteAll("{{}}}", [Variable("}", Some("x"))]) == "x"
  {
    var s := "{{}}}";
    forall i, j | 0 <= i && i + 2 < j && j + 2 <= |s| ensures !IsPlaceholder(s, i, j) {
      assert i == 0 && j == 3;
      assert s[2] == '}';
    }
    assert Token("}") == s;
    assert ReplaceAll(s, s, "x") == "x" + ReplaceAll([], s, "x");
  }

  /** The scan finds a match exactly when the URL holds a placeholder. */
  lemma PlaceholdersIffHasPlaceholder(s: string)
    ensures Placeholders(s, 0) != [] <==> HasPlaceholder(s)
  {
    if Placeholders(s, 0) != [] {
      MatchGivesPlaceholder(s, 0);
    }
    if HasPlaceholder(s) {
      var i, j :| 0 <= i && i + 2 < j && j + 2 <= |s| && IsPlaceholder(s, i, j);
      PlaceholderFound(s, 0, i, j);
    }
  }

  /** A prefix without `{` is copied unchanged by a replacement whose
      pattern starts with `{`. */
  lemma {:induction false} ReplaceSkipsBraceFree(a: string, rest: string, pat: string, rep: string)
    requires pat != [] && pat[0] == '{' && '{' !in a
    ensures ReplaceAll(a + rest, pat, rep) == a + ReplaceAll(rest, pat, rep)
    decreases |a|
  {
    var s := a + rest;
    if a == [] {
      assert s == rest;
    } else if |s| < |pat| {
      assert ReplaceAll(rest, pat, rep) == rest;
    } else {
      assert a[0] in a;
      assert s[..|pat|] != pat by {
        assert s[..|pat|][0] == a[0];
      }
      assert s[1..] == a[1..] + rest;
      ReplaceSkipsBraceFree(a[1..], rest, pat, rep);
      assert [a[0]] + a[1..] == a;
    }
  }

  /** The scan passes over characters other than `{` without a match. */
  lemma {:induction false} PlaceholdersSkipBraceFree(s: string, k: nat, n: nat)
    requires k <= n <= |s|
    requires forall i :: k <= i < n ==> s[i] != '{'
    ensures Placeholders(s, k) == Placeholders(s, n)
    decreases n - k
  {
    if k < n {
      assert MatchAt(s, k).None?;
      PlaceholdersSkipBraceFree(s, k + 1, n);
    }
  }

  /** `https://x/{{K}}` with `K = V` in the active environment: `{{K}}` is replaced,
      and the result holds no placeholder. */
  lemma ResolveKnownExample()
    ensures Resolved("https://x/{{K}}", Some("env"), [Variable("K", Some("V"))]) == "https://x/V"
    ensures Placeholders("https://x/V", 0) == []
  {
    KnownSubstitution();
    var r := "https://x/V";
    PlaceholdersSkipBraceFree(r, 0, |r|);
  }

  /** A string that is exactly the pattern becomes the replacement. */
  lemma ReplaceWholeToken(pat: string, rep: string)
    requires pat != []
    ensures ReplaceAll(pat, pat, rep) == rep
  {
    assert pat[..|pat|] == pat;
    assert pat[|pat|..] == [];
    assert ReplaceAll([], pat, rep) == [];
    assert rep + [] == rep;
  }

  lemma KnownPass()
    ensures Substitute("https://x/{{K}}", Variable("K", Some("V"))) == "https://x/V"
  {
    assert Token("K") == "{{K}}";
    ReplaceWholeToken("{{K}}", "V");
    ReplaceSkipsBraceFree("https://x/", "{{K}}", "{{K}}", "V");
    assert "https://x/{{K}}" == "https://x/" + "{{K}}";
  }

  lemma KnownSubstitution()
    ensures Resolved("https://x/{{K}}", Some("env"), [Variable("K", Some("V"))]) == "https://x/V"
  {
    var v := Variable("K", Some("V"));
    KnownPass();
    assert [v][1..] == [];
    assert SubstituteAll("https://x/V", []) == "https://x/V";
  }

  /** Second example: a placeholder with no variable survives substitution
      and the scan reports it by name. */
  lemma ResolveMissingExample()
    ensures Resolved("https://x/{{MISSING}}", Some("env"), [Variable("K", Some("V"))]) == "https://x/{{MISSING}}"
    ensures Placeholders("https://x/{{MISSING}}", 0) == ["MISSING"]
  {
    var vars := [Variable("K", Some("V"))];
    var m := "https://x/{{MISSING}}";
    assert Token("K") == "{{K}}";
    assert !Occurs(m, "{{K}}") by {
      forall i: nat | i <= |m| ensures !OccursAt(m, "{{K}}", i) {
        if i + 5 <= |m| {
          assert m[i..i + 5][2] == m[i + 2];
          assert m[i + 2] != 'K';
        }
      }
    }
    ReplaceAbsent(m, "{{K}}", "V");
    assert vars[1..] == [];
    MissingScan();
  }

  lemma MissingScan()
    ensures Placeholders("https://x/{{MISSING}}", 0) == ["MISSING"]
  {
    assert "https://x/{{MISSING}}" == "https://x/" + Token("MISSING");
    SinglePlaceholder("https://x/", "MISSING");
  }

  lemma {:induction false} StripBracesConcat(a: string, b: string)
    ensures StripBraces(a + b) == StripBraces(a) + StripBraces(b)
  {
    if a == [] {
      assert a + b == b;
    } else {
      assert (a + b)[1..] == a[1..] + b;
      StripBracesConcat(a[1..], b);
    }
  }

  lemma {:induction false} StripBracesFree(n: string)
    requires '{' !in n && '}' !in n
    ensures StripBraces(n) == n
  {
    if n != [] {
      assert n[0] in n;
      assert forall c :: c in n[1..] ==> c in n;
      StripBracesFree(n[1..]);
      assert [n[0]] + n[1..] == n;
    }
  }

  /** Stripping the braces of a placeholder gives back its name. */
  lemma StripToken(name: string)
    requires '{' !in name && '}' !in name
    ensures StripBraces(Token(name)) == name
  {
    assert Token(name) == "{{" + (name + "}}");
    StripBracesConcat("{{", name + "}}");
    StripBracesConcat(name, "}}");
    StripBracesFree(name);
    assert StripBraces("{{") == [] && StripBraces("}}") == [];
  }

  /** A placeholder that ends the URL is the last match. */
  lemma ScanFinalToken(m: string, p: nat, name: string)
    requires name != [] && '{' !in name && '}' !in name
    requires p + |Token(name)| == |m| && m[p..] == Token(name)
    ensures Placeholders(m, p) == [name]
  {
    var j := p + 2 + |name|;
    FinalTokenIsPlaceholder(m, p, name);
    MatchAtPlaceholder(m, p, j);
    StripToken(name);
    assert m[p..j + 2] == Token(name);
    LastMatch(m, p, j + 2, name);
  }

  /** The `{{name}}` ending the URL at `p` is a placeholder. */
  lemma FinalTokenIsPlaceholder(m: string, p: nat, name: string)
    requires name != [] && '}' !in name
    requires p + |Token(name)| == |m| && m[p..] == Token(name)
    ensures p + 2 + |name| + 2 == |m| && IsPlaceholder(m, p, p + 2 + |name|)
  {
    var j := p + 2 + |name|;
    assert m[p] == m[p..][0] && m[p + 1] == m[p..][1];
    assert m[j] == m[p..][j - p] && m[j + 1] == m[p..][j + 1 - p];
    forall k | p + 2 <= k < j ensures m[k] != '}' {
      assert m[k] == m[p..][k - p] == name[k - p - 2];
    }
  }

  /** A match that ends the URL is the last one the scan reports. */
  lemma LastMatch(s: string, i: nat, e: nat, name: string)
    requires i < e == |s| && MatchAt(s, i) == Some(e) && StripBraces(s[i..e]) == name
    ensures Placeholders(s, i) == [name]
  {
    assert Placeholders(s, e) == [];
    assert Placeholders(s, i) == [name] + [];
  }

  /** A URL whose only `{` characters open one placeholder: the scan reports
      exactly that placeholder's name. */
  lemma SinglePlaceholder(a: string, name: string)
    requires '{' !in a
    requires name != [] && '{' !in name && '}' !in name
    ensures Placeholders(a + Token(name), 0) == [name]
  {
    var m := a + Token(name);
    forall i | 0 <= i < |a| ensures m[i] != '{' {
      assert m[i] == a[i];
    }
    PlaceholdersSkipBraceFree(m, 0, |a|);
    assert m[|a|..] == Token(name);
    ScanFinalToken(m, |a|, name);
  }
}
