/**
 * The two patterns of scripts/rescope-vendor.ts as they are written: what the codemod's scanners match is exactly
 * what the patterns' characters say, and what they replace stands between the same characters afterwards.
 */
module RescopePatterns {
  import opened Options
  import opened JavaScript
  import opened RescopeCells
  import opened RescopeLine

  // (['"`])name((?:/[^'"`\s]*)?)\1

  /** Nothing, or a slash and then neither quotes nor white space. */
  ghost predicate IsSubpath(sub: string) {
    sub == "" || (sub[0] == '/' && IsPlain(sub[1..]))
  }

  ghost predicate IsPlain(s: string) {
    forall c | c in s :: c != '\'' && c != '"' && c != '`' && !IsSpace(c)
  }

  ghost predicate IsToken(s: string, name: string) {
    exists quote, sub :: TokenForm(s, name, quote, sub)
  }

  ghost predicate TokenForm(s: string, name: string, quote: char, sub: string) {
    (quote == '\'' || quote == '"' || quote == '`') && s == [quote] + name + sub + [quote] && IsSubpath(sub)
  }

  lemma {:induction false} ClosingFinds(plain: string, quote: char, rest: string)
    requires IsPlain(plain) && (quote == '\'' || quote == '"' || quote == '`')
    ensures Closing(plain + ([quote] + rest), quote) == Some(|plain|)
  {
    var s := plain + ([quote] + rest);
    if plain == "" {
      assert s == [quote] + rest;
    } else {
      assert plain[0] in plain && s[0] == plain[0] && s[1..] == plain[1..] + ([quote] + rest);
      assert IsPlain(plain[1..]) by { assert forall c | c in plain[1..] :: c in plain; }
      ClosingFinds(plain[1..], quote, rest);
    }
  }

  lemma {:induction false} ClosingIsPlain(s: string, quote: char)
    requires (quote == '\'' || quote == '"' || quote == '`') && Closing(s, quote).Some?
    ensures var n := Closing(s, quote).value; s[n] == quote && IsPlain(s[..n])
  {
    if s[0] != quote {
      ClosingIsPlain(s[1..], quote);
      var n := Closing(s, quote).value;
      assert s[..n] == [s[0]] + s[1..][..n - 1];
    }
  }

  /** Every text of the pattern's shape is matched to its end. */
  lemma TokenIsMatched(quote: char, name: string, sub: string, rest: string)
    requires (quote == '\'' || quote == '"' || quote == '`') && IsSubpath(sub)
    ensures TokenMatch([quote] + name + sub + [quote] + rest, name) == Some(|name| + |sub| + 2)
  {
    var s := [quote] + name + sub + [quote] + rest;
    assert s[1..] == name + (sub + ([quote] + rest));
    assert s[1..][..|name|] == name && s[1..][|name|..] == sub + ([quote] + rest);
    if sub == "" {
      assert sub + ([quote] + rest) == [quote] + rest;
    } else {
      assert (sub + ([quote] + rest))[1..] == sub[1..] + ([quote] + rest);
      ClosingFinds(sub[1..], quote, rest);
    }
  }

  /** And nothing else is matched. */
  lemma MatchIsToken(s: string, name: string)
    requires TokenMatch(s, name).Some?
    ensures IsToken(s[..TokenMatch(s, name).value], name)
  {
    var quote, after, n := s[0], s[1..][|name|..], TokenMatch(s, name).value;
    assert s == [quote] + (name + after);
    if after[0] == quote {
      assert s[..n] == [quote] + name + "" + [quote];
      assert TokenForm(s[..n], name, quote, "");
    } else {
      ClosingIsPlain(after[1..], quote);
      var sub := after[..n - |name| - 2];
      assert sub[1..] == after[1..][..|sub| - 1];
      assert s[..n] == [quote] + name + sub + [quote];
      assert TokenForm(s[..n], name, quote, sub);
    }
  }

  /** The scanner matches exactly what the pattern says. */
  lemma TokenMatchIsPattern(s: string, name: string, n: nat)
    ensures TokenMatch(s, name) == Some(n) <==> n <= |s| && IsToken(s[..n], name)
  {
    if TokenMatch(s, name).Some? { MatchIsToken(s, name); }
    if n <= |s| && IsToken(s[..n], name) {
      var quote, sub :| TokenForm(s[..n], name, quote, sub);
      assert s == [quote] + name + sub + [quote] + s[n..];
      TokenIsMatched(quote, name, sub, s[n..]);
    }
  }

  /** A token keeps its quotes and its subpath, and replacing goes on behind it. */
  lemma TokenIsReplaced(quote: char, from: string, to: string, sub: string, rest: string)
    requires (quote == '\'' || quote == '"' || quote == '`') && IsSubpath(sub)
    ensures ReplaceTokens([quote] + from + sub + [quote] + rest, from, to)
            == [quote] + to + sub + [quote] + ReplaceTokens(rest, from, to)
  {
    var s := [quote] + from + sub + [quote] + rest;
    TokenIsMatched(quote, from, sub, rest);
    var n := |from| + |sub| + 2;
    assert s[n..] == rest && s[1..n] == from + sub + [quote];
    assert s[1..n][|from|..] == sub + [quote];
    assert [quote] + to + (sub + [quote]) == [quote] + to + sub + [quote];
  }

  /** A token that is all of the text. */
  lemma OneTokenIsReplaced(quote: char, from: string, to: string, sub: string)
    requires (quote == '\'' || quote == '"' || quote == '`') && IsSubpath(sub)
    ensures ReplaceTokens([quote] + from + sub + [quote], from, to) == [quote] + to + sub + [quote]
  {
    TokenIsReplaced(quote, from, to, sub, "");
    assert [quote] + from + sub + [quote] + "" == [quote] + from + sub + [quote];
    assert [quote] + to + sub + [quote] + "" == [quote] + to + sub + [quote];
  }

  /** A character where no token begins is copied. */
  lemma OtherTextIsCopied(s: string, from: string, to: string)
    requires s != "" && forall n: nat | n <= |s| :: !IsToken(s[..n], from)
    ensures ReplaceTokens(s, from, to) == [s[0]] + ReplaceTokens(s[1..], from, to)
  {
    if TokenMatch(s, from).Some? { MatchIsToken(s, from); }
  }

  // ^(\s*(?:-\s*)?name:[ \t]+)name([ \t]*(?:#.*)?)$

  ghost predicate AllTabs(s: string) {
    forall c | c in s :: c == ' ' || c == '\t'
  }

  /** `name:` and at least one space or tab. */
  ghost predicate IsKey(s: string) {
    |s| > 5 && s[..5] == "name:" && AllTabs(s[5..])
  }

  /** White space, and then the key. */
  ghost predicate IsSpacedKey(s: string) {
    IsKey(s) || (s != "" && IsSpace(s[0]) && IsSpacedKey(s[1..]))
  }

  /** White space, a dash, white space, and then the key. */
  ghost predicate IsDashedKey(s: string) {
    s != "" && ((s[0] == '-' && IsSpacedKey(s[1..])) || (IsSpace(s[0]) && IsDashedKey(s[1..])))
  }

  /** `\s*(?:-\s*)?name:[ \t]+` */
  ghost predicate IsKeyPrefix(s: string) {
    IsSpacedKey(s) || IsDashedKey(s)
  }

  /** `[ \t]*(?:#.*)?` */
  ghost predicate IsTrailer(s: string) {
    IsComment(s) || (s != "" && (s[0] == ' ' || s[0] == '\t') && IsTrailer(s[1..]))
  }

  ghost predicate IsComment(s: string) {
    s == "" || (s[0] == '#' && forall c | c in s :: !IsTerminator(c))
  }

  /** A match at a line's start: prefix, name, trailer, and then the line's end. */
  ghost predicate YamlForm(s: string, name: string, p: nat, n: nat) {
    && p + |name| + n <= |s| && IsKeyPrefix(s[..p]) && s[p..p + |name|] == name
    && IsTrailer(s[p + |name|..p + |name| + n])
    && (p + |name| + n == |s| || IsTerminator(s[p + |name| + n]))
  }

  /** What the automaton has still to read, at each of its stages. */
  ghost predicate Reads(s: string, stage: Stage) {
    match stage
    case Indent => IsKeyPrefix(s)
    case Dashed => IsSpacedKey(s)
    case Key(k) => 1 <= k <= 5 && |s| > 5 - k && s[..5 - k] == "name:"[k..] && AllTabs(s[5 - k..])
    case Gap => AllTabs(s)
  }

  lemma {:induction false} PrefixReads(s: string, stage: Stage)
    requires PrefixAcross(s, stage).Some? && (stage.Key? ==> 1 <= stage.matched <= 5)
    ensures Reads(s[..PrefixAcross(s, stage).value], stage)
  {
    var p := PrefixAcross(s, stage).value;
    if s != "" && AdvanceAcross(s[0], stage).Some? {
      var next := AdvanceAcross(s[0], stage).value;
      PrefixReads(s[1..], next);
      assert s[..p] == [s[0]] + s[1..][..p - 1];
      ReadsStep(s[0], s[1..][..p - 1], stage, next);
    }
  }

  lemma ReadsStep(c: char, s: string, stage: Stage, next: Stage)
    requires AdvanceAcross(c, stage) == Some(next) && Reads(s, next) && (stage.Key? ==> 1 <= stage.matched <= 5)
    ensures Reads([c] + s, stage)
  {
    assert ([c] + s)[1..] == s;
    if stage.Key? {
      ReadsInKey(c, s, stage.matched, next);
    } else if next == Key(1) {
      KeyBegins(s);
    }
  }

  lemma KeyBegins(s: string)
    requires Reads(s, Key(1))
    ensures IsKey(['n'] + s)
  {
    var more := ['n'] + s;
    assert more[..5] == ['n'] + s[..4] && more[5..] == s[4..];
  }

  lemma ReadsInKey(c: char, s: string, k: nat, next: Stage)
    requires 1 <= k <= 5 && AdvanceAcross(c, Key(k)) == Some(next) && Reads(s, next)
    ensures Reads([c] + s, Key(k))
  {
    var more := [c] + s;
    if k < 5 {
      assert more[..5 - k] == [c] + s[..4 - k] && more[5 - k..] == s[4 - k..];
      assert "name:"[k..] == ["name:"[k]] + "name:"[k + 1..];
    }
  }

  /** The automaton reads every such prefix, up to a character that is no tab. */
  lemma {:induction false} ReadsPrefix(s: string, rest: string, stage: Stage)
    requires Reads(s, stage) && rest != "" && !IsTab(rest[0])
    ensures PrefixAcross(s + rest, stage) == Some(|s|)
  {
    if s == "" {
      assert s + rest == rest;
    } else {
      assert (s + rest)[0] == s[0] && (s + rest)[1..] == s[1..] + rest;
      var next := StepReads(s, stage);
      ReadsPrefix(s[1..], rest, next);
    }
  }

  lemma StepReads(s: string, stage: Stage) returns (next: Stage)
    requires s != "" && Reads(s, stage)
    ensures AdvanceAcross(s[0], stage) == Some(next) && Reads(s[1..], next)
  {
    match stage
    case Gap =>
      assert s[0] in s && AllTabs(s[1..]) by { assert forall c | c in s[1..] :: c in s; }
      next := Gap;
    case Key(k) => next := StepInKey(s, k);
    case Dashed => next := StepInSpaces(s, stage);
    case Indent =>
      if IsSpacedKey(s) {
        next := StepInSpaces(s, stage);
      } else {
        assert IsDashedKey(s);
        next := if s[0] == '-' then Dashed else Indent;
      }
  }

  lemma StepInKey(s: string, k: nat) returns (next: Stage)
    requires s != "" && Reads(s, Key(k))
    ensures AdvanceAcross(s[0], Key(k)) == Some(next) && Reads(s[1..], next)
  {
    if k == 5 {
      assert s[5 - k..] == s && s[0] in s;
      assert AllTabs(s[1..]) by { assert forall c | c in s[1..] :: c in s; }
      next := Gap;
    } else {
      assert s[0] == s[..5 - k][0] == "name:"[k];
      assert s[1..][..4 - k] == s[..5 - k][1..] == "name:"[k + 1..];
      assert s[1..][4 - k..] == s[5 - k..];
      next := Key(k + 1);
    }
  }

  lemma StepInSpaces(s: string, stage: Stage) returns (next: Stage)
    requires IsSpacedKey(s) && (stage == Dashed || stage == Indent)
    ensures s != "" && AdvanceAcross(s[0], stage) == Some(next) && Reads(s[1..], next)
  {
    if IsKey(s) {
      assert s[0] == s[..5][0] == 'n';
      assert s[1..][..4] == s[..5][1..] == "ame:" == "name:"[1..];
      assert s[1..][4..] == s[5..];
      next := Key(1);
    } else {
      next := stage;
    }
  }

  lemma {:induction false} LineRunIs(s: string, n: nat)
    requires n <= |s| && (forall c | c in s[..n] :: !IsTerminator(c)) && (n == |s| || IsTerminator(s[n]))
    ensures LineRun(s) == n
  {
    if n > 0 {
      assert s[0] == s[..n][0] && s[..n][0] in s[..n];
      assert s[1..][..n - 1] == s[..n][1..];
      LineRunIs(s[1..], n - 1);
    }
  }

  lemma {:induction false} LineRunEnds(s: string)
    ensures var n := LineRun(s); (forall c | c in s[..n] :: !IsTerminator(c)) && (n == |s| || IsTerminator(s[n]))
  {
    if s != "" && !IsTerminator(s[0]) {
      LineRunEnds(s[1..]);
      assert s[..LineRun(s)] == [s[0]] + s[1..][..LineRun(s[1..])];
    }
  }

  lemma SuffixStep(s: string)
    requires s != "" && (s[0] == ' ' || s[0] == '\t')
    ensures SuffixRun(s).Some? <==> SuffixRun(s[1..]).Some?
    ensures SuffixRun(s).Some? ==> SuffixRun(s).value == SuffixRun(s[1..]).value + 1
  {
    var m := TabRun(s[1..]);
    assert s[m + 1..] == s[1..][m..];
  }

  lemma {:induction false} TrailerIsRead(s: string, n: nat)
    requires n <= |s| && IsTrailer(s[..n]) && (n == |s| || IsTerminator(s[n]))
    ensures SuffixRun(s) == Some(n)
    decreases n
  {
    if n > 0 && s[0] != '#' {
      assert s[..n][1..] == s[1..][..n - 1];
      TrailerIsRead(s[1..], n - 1);
      SuffixStep(s);
    } else {
      assert s[0..] == s;
      if n > 0 {
        assert IsComment(s[..n]);
        LineRunIs(s, n);
      }
    }
  }

  lemma {:induction false} SuffixIsTrailer(s: string)
    requires SuffixRun(s).Some?
    ensures var n := SuffixRun(s).value; IsTrailer(s[..n]) && (n == |s| || IsTerminator(s[n]))
  {
    var n := SuffixRun(s).value;
    if s != "" && (s[0] == ' ' || s[0] == '\t') {
      SuffixStep(s);
      SuffixIsTrailer(s[1..]);
      assert s[..n][1..] == s[1..][..n - 1];
    } else {
      assert s[0..] == s;
      LineRunEnds(s);
      assert IsComment(s[..n]);
    }
  }

  lemma YamlMatchHasForm(s: string, name: string, p: nat, n: nat)
    requires YamlMatch(s, name) == Some((p, n))
    ensures YamlForm(s, name, p, n)
  {
    hide PrefixAcross, SuffixRun, IsTrailer, IsKeyPrefix;
    PrefixReads(s, Indent);
    SuffixIsTrailer(s[p..][|name|..]);
    CutsOf(s, p, |name|, n);
  }

  lemma YamlFormIsMatched(s: string, name: string, p: nat, n: nat)
    requires IsName(name) && YamlForm(s, name, p, n)
    ensures YamlMatch(s, name) == Some((p, n))
  {
    hide PrefixAcross, SuffixRun, IsTrailer, IsKeyPrefix;
    CutsOf(s, p, |name|, n);
    assert s == s[..p] + s[p..];
    assert s[p] == s[p..p + |name|][0] == name[0] && name[0] in name;
    ReadsPrefix(s[..p], s[p..], Indent);
    TrailerIsRead(s[p..][|name|..], n);
  }

  /** The scanner matches exactly what the pattern says. */
  lemma YamlMatchIsPattern(s: string, name: string, p: nat, n: nat)
    requires IsName(name)
    ensures YamlMatch(s, name) == Some((p, n)) <==> YamlForm(s, name, p, n)
  {
    hide YamlMatch, YamlForm;
    if YamlMatch(s, name) == Some((p, n)) { YamlMatchHasForm(s, name, p, n); }
    if YamlForm(s, name, p, n) { YamlFormIsMatched(s, name, p, n); }
  }

  lemma CutsOf(s: string, p: nat, m: nat, n: nat)
    requires p + m + n <= |s|
    ensures s[p..][..m] == s[p..p + m] && s[p..][m..] == s[p + m..]
    ensures s[p..][m..][..n] == s[p + m..p + m + n] && s[p..][m..][n..] == s[p + m + n..]
    ensures p + m + n < |s| ==> s[p..][m..][n] == s[p + m + n]
  {
  }

  /** At a line's start, the name of a scalar is replaced and the text around it is kept. */
  lemma ScalarIsReplaced(s: string, from: string, to: string, p: nat, n: nat)
    requires IsName(from) && YamlForm(s, from, p, n)
    ensures ReplaceYaml(s, from, to, true)
            == s[..p] + to + s[p + |from|..p + |from| + n] + ReplaceYaml(s[p + |from| + n..], from, to, false)
  {
    hide YamlMatch, ReplaceYaml, IsKeyPrefix, IsTrailer;
    YamlMatchIsPattern(s, from, p, n);
    ReplaceStep(s, from, to, p, n);
    CutsOf(s, p, |from|, n);
  }

  lemma ReplaceStep(s: string, from: string, to: string, p: nat, n: nat)
    requires from != "" && YamlMatch(s, from) == Some((p, n))
    ensures var after := s[p..][|from|..];
            ReplaceYaml(s, from, to, true) == s[..p] + to + after[..n] + ReplaceYaml(after[n..], from, to, false)
  {
  }

  /** A scalar that is all of the text. */
  lemma OneScalarIsReplaced(prefix: string, from: string, to: string, trailer: string)
    requires IsName(from) && IsKeyPrefix(prefix) && IsTrailer(trailer)
    ensures ReplaceYaml(prefix + from + trailer, from, to, true) == prefix + to + trailer
  {
    var s, p, n := prefix + from + trailer, |prefix|, |trailer|;
    assert s[..p] == prefix && s[p..p + |from|] == from && s[p + |from|..p + |from| + n] == trailer;
    assert s[p + |from| + n..] == "";
    ScalarIsReplaced(s, from, to, p, n);
    assert prefix + to + trailer + "" == prefix + to + trailer;
  }

  /** A character where no scalar begins is copied. */
  lemma OtherLinesAreCopied(s: string, from: string, to: string, start: bool)
    requires IsName(from) && s != "" && (start ==> forall p, n: nat :: !YamlForm(s, from, p, n))
    ensures ReplaceYaml(s, from, to, start) == [s[0]] + ReplaceYaml(s[1..], from, to, IsTerminator(s[0]))
  {
    if YamlMatch(s, from).Some? {
      YamlMatchIsPattern(s, from, YamlMatch(s, from).value.0, YamlMatch(s, from).value.1);
    }
  }
}
