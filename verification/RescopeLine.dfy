/** The codemod's two patterns read character by character, and `rewriteLine`, shown to act on cells. */
module RescopeLine {
  import opened Options
  import opened JavaScript
  import opened RescopeCells
  import Sequences

  function Join(cells: Cells): string {
    match cells
    case Last(text) => text
    case Cell(text, d, rest) => text + ([d] + Join(rest))
  }

  function Parse(s: string): Cells {
    if s == "" then Last("")
    else if IsDelimiter(s[0]) then Cell("", s[0], Parse(s[1..]))
    else
      match Parse(s[1..])
      case Last(text) => Last([s[0]] + text)
      case Cell(text, d, rest) => Cell([s[0]] + text, d, rest)
  }

  /** Delimiters are exactly the characters between cells. */
  predicate Clean(cells: Cells) {
    match cells
    case Last(text) => NoDelimiter(text)
    case Cell(text, d, rest) => NoDelimiter(text) && IsDelimiter(d) && Clean(rest)
  }

  lemma {:induction false} JoinUndoesParse(s: string)
    ensures Join(Parse(s)) == s && Clean(Parse(s))
  {
    if s == "" {
    } else {
      JoinUndoesParse(s[1..]);
    }
  }

  lemma {:induction false} ParseText(text: string)
    requires NoDelimiter(text)
    ensures Parse(text) == Last(text)
  {
    if text == "" {
    } else {
      assert text[0] in text;
      ParseText(text[1..]);
    }
  }

  lemma {:induction false} ParseCell(text: string, d: char, rest: string)
    requires NoDelimiter(text) && IsDelimiter(d)
    ensures Parse(text + ([d] + rest)) == Cell(text, d, Parse(rest))
  {
    if text == "" {
      assert text + ([d] + rest) == [d] + rest;
    } else {
      assert (text + ([d] + rest))[1..] == text[1..] + ([d] + rest);
      assert text[0] in text;
      ParseCell(text[1..], d, rest);
    }
  }

  lemma {:induction false} ParseUndoesJoin(cells: Cells)
    requires Clean(cells)
    ensures Parse(Join(cells)) == cells
  {
    match cells
    case Last(text) => ParseText(text);
    case Cell(text, d, rest) =>
      ParseCell(text, d, Join(rest));
      ParseUndoesJoin(rest);
  }

  // The token pattern.

  /** Length of `[^'"\x60\s]*` when the given quote follows it. */
  function Closing(s: string, quote: char): (n: Option<nat>)
    ensures n.Some? ==> n.value < |s|
  {
    if s == "" then None
    else if s[0] == quote then Some(0)
    else if IsQuote(s[0]) || IsSpace(s[0]) then None
    else
      var rest := Closing(s[1..], quote);
      if rest.Some? then Some(rest.value + 1) else None
  }

  /** Length of a match of the token pattern at the start. */
  function TokenMatch(s: string, from: string): (n: Option<nat>)
    ensures n.Some? ==> |from| + 2 <= n.value <= |s|
  {
    if s != "" && IsQuote(s[0]) && StartsWith(s[1..], from) then
      var after := s[1..][|from|..];
      if after == "" then None
      else if after[0] == s[0] then Some(|from| + 2)
      else if after[0] == '/' then
        var n := Closing(after[1..], s[0]);
        if n.Some? then Some(|from| + 3 + n.value) else None
      else None
    else None
  }

  /** `replace` with the global token pattern. */
  function ReplaceTokens(s: string, from: string, to: string): string {
    if s == "" then ""
    else
      var n := TokenMatch(s, from);
      if n.Some?
      then [s[0]] + to + s[1..n.value][|from|..] + ReplaceTokens(s[n.value..], from, to)
      else [s[0]] + ReplaceTokens(s[1..], from, to)
  }

  lemma {:induction false} ClosingAtCellEnd(text: string, tail: string, quote: char)
    requires NoDelimiter(text) && IsQuote(quote) && (tail == "" || IsDelimiter(tail[0]))
    ensures Closing(text + tail, quote) ==
            if NoSpace(text) && tail != "" && tail[0] == quote then Some(|text|) else None
  {
    if text == "" {
      assert text + tail == tail;
    } else {
      assert (text + tail)[1..] == text[1..] + tail;
      assert text[0] in text;
      ClosingAtCellEnd(text[1..], tail, quote);
      assert forall c | c in text :: c == text[0] || c in text[1..];
    }
  }

  /** After a quote and a name, the pattern matches exactly when the cell goes on as a subpath closed by that quote. */
  lemma SubpathAtCell(after: string, tail: string, quote: char)
    requires NoDelimiter(after) && IsQuote(quote) && (tail == "" || IsDelimiter(tail[0]))
    requires after != "" && after[0] == '/'
    ensures Closing((after + tail)[1..], quote) ==
            if NoSpace(after) && tail != "" && tail[0] == quote then Some(|after| - 1) else None
  {
    assert (after + tail)[1..] == after[1..] + tail;
    assert forall c | c in after[1..] :: c in after;
    ClosingAtCellEnd(after[1..], tail, quote);
    assert forall c | c in after :: c == '/' || c in after[1..];
  }

  lemma NameThenSpaceless(text: string, from: string)
    requires NoSpace(from) && StartsWith(text, from)
    ensures NoSpace(text) <==> NoSpace(text[|from|..])
  {
    assert text == from + text[|from|..];
    assert forall c | c in text[|from|..] :: c in text;
  }

  /** After a quote, the pattern matches exactly when the next cell does and the same quote closes it. */
  lemma TokenAtCell(quote: char, text: string, tail: string, from: string)
    requires IsQuote(quote) && NoDelimiter(text) && IsName(from) && (tail == "" || IsDelimiter(tail[0]))
    ensures TokenMatch([quote] + (text + tail), from) ==
            if Matches(Token(from, ""), text, true) && tail != "" && tail[0] == quote then Some(|text| + 2) else None
  {
    assert ([quote] + (text + tail))[1..] == text + tail;
    NameStaysInCell(text, tail, from);
    if StartsWith(text, from) {
      var after := text[|from|..];
      NameThenSpaceless(text, from);
      assert (text + tail)[|from|..] == after + tail;
      assert NoDelimiter(after) by { assert forall c | c in after :: c in text; }
      if after != "" {
        assert after[0] in after;
        if after[0] == '/' { SubpathAtCell(after, tail, quote); }
      }
    }
  }

  /** A name cannot run past the end of its cell. */
  lemma NameStaysInCell(text: string, tail: string, from: string)
    requires IsName(from) && (tail == "" || IsDelimiter(tail[0]))
    ensures StartsWith(text + tail, from) <==> StartsWith(text, from)
  {
    if |text| < |from| <= |text + tail| {
      assert (text + tail)[..|from|][|text|] == tail[0];
      assert from[|text|] in from;
    } else if |from| <= |text| {
      assert (text + tail)[..|from|] == text[..|from|];
    }
  }

  /** Text up to a delimiter is copied when no token opens in it. */
  lemma {:induction false} TokensSkipText(text: string, tail: string, from: string, to: string)
    requires NoDelimiter(text)
    ensures ReplaceTokens(text + tail, from, to) == text + ReplaceTokens(tail, from, to)
  {
    if text == "" {
      assert text + tail == tail;
    } else {
      assert text[0] in text;
      assert (text + tail)[1..] == text[1..] + tail;
      TokensSkipText(text[1..], tail, from, to);
    }
  }

  lemma {:induction false} TokensArePass(cells: Cells, from: string, to: string, start: bool)
    requires Clean(cells) && IsName(from)
    ensures ReplaceTokens(Join(cells), from, to) == Join(Pass(Token(from, to), cells, None, start))
    decreases cells, 0
  {
    match cells
    case Last(text) =>
      TokensSkipText(text, "", from, to);
      assert text + "" == text;
    case Cell(text, d, rest) =>
      TokensSkipText(text, [d] + Join(rest), from, to);
      if IsQuote(d) {
        OpenTokensArePass(rest, d, from, to, IsTerminator(d));
      } else {
        assert TokenMatch([d] + Join(rest), from) == None;
        assert ([d] + Join(rest))[1..] == Join(rest);
        TokensArePass(rest, from, to, IsTerminator(d));
      }
  }

  lemma TokenReplaced(quote: char, text: string, rest: string, from: string, to: string)
    requires IsQuote(quote) && StartsWith(text, from)
    requires TokenMatch([quote] + (text + ([quote] + rest)), from) == Some(|text| + 2)
    ensures ReplaceTokens([quote] + (text + ([quote] + rest)), from, to) ==
            [quote] + ((to + text[|from|..]) + ([quote] + ReplaceTokens(rest, from, to)))
  {
    var s, after := [quote] + (text + ([quote] + rest)), ReplaceTokens(rest, from, to);
    assert s[1..|text| + 2] == text + [quote] && s[|text| + 2..] == rest;
    assert (text + [quote])[|from|..] == text[|from|..] + [quote];
    Sequences.Rewrap([quote], to, text[|from|..], [quote], after);
  }

  lemma {:induction false} OpenTokensArePass(cells: Cells, quote: char, from: string, to: string, start: bool)
    requires Clean(cells) && IsName(from) && IsQuote(quote)
    ensures ReplaceTokens([quote] + Join(cells), from, to) ==
            [quote] + Join(Pass(Token(from, to), cells, Some(quote), start))
    decreases cells, 1
  {
    var s := [quote] + Join(cells);
    assert s[1..] == Join(cells);
    TokensArePass(cells, from, to, start);
    match cells
    case Last(text) =>
      assert text + "" == text;
      TokenAtCell(quote, text, "", from);
    case Cell(text, d, rest) =>
      TokenAtCell(quote, text, [d] + Join(rest), from);
      if Matches(Token(from, to), text, true) && d == quote {
        TokenReplaced(quote, text, Join(rest), from, to);
        TokensArePass(rest, from, to, IsTerminator(d));
      }
  }

  // The YAML pattern.

  /** The prefix automaton on raw text, where `\s*` may also run over line terminators. */
  function AdvanceAcross(c: char, stage: Stage): Option<Stage> {
    if IsTerminator(c) && (stage.Indent? || stage.Dashed?) then Some(stage) else Advance(c, stage)
  }

  function PrefixAcross(s: string, stage: Stage): (r: Option<nat>)
    ensures r.Some? ==> r.value <= |s|
  {
    if s != "" && AdvanceAcross(s[0], stage).Some? then
      var rest := PrefixAcross(s[1..], AdvanceAcross(s[0], stage).value);
      if rest.Some? then Some(rest.value + 1) else None
    else if stage == Gap then Some(0)
    else None
  }

  function LineRun(s: string): (n: nat)
    ensures n <= |s|
  {
    if s == "" || IsTerminator(s[0]) then 0 else 1 + LineRun(s[1..])
  }

  /** Length of `[ \t]*(?:#.*)?` when `$` follows it. */
  function SuffixRun(s: string): (n: Option<nat>)
    ensures n.Some? ==> n.value <= |s|
  {
    var m := TabRun(s);
    if m == |s| || IsTerminator(s[m]) then Some(m)
    else if s[m] == '#' then Some(m + LineRun(s[m..]))
    else None
  }

  /** The name and a suffix after which `$` matches. */
  predicate NameStands(s: string, name: string) {
    StartsWith(s, name) && SuffixRun(s[|name|..]).Some?
  }

  /** Where a match of the YAML pattern at the start has its name, and how long its suffix is. */
  function YamlMatch(s: string, from: string): (r: Option<(nat, nat)>)
    ensures r.Some? ==> r.value.0 + |from| + r.value.1 <= |s|
  {
    var p := PrefixAcross(s, Indent);
    if p.Some? && NameStands(s[p.value..], from)
    then Some((p.value, SuffixRun(s[p.value..][|from|..]).value))
    else None
  }

  /** `replace` with the global multi-line YAML pattern; `start` tells whether `^` matches here. */
  function ReplaceYaml(s: string, from: string, to: string, start: bool): string
    requires from != ""
    decreases |s|
  {
    if start && YamlMatch(s, from).Some? then
      var (p, n) := YamlMatch(s, from).value;
      var after := s[p..][|from|..];
      s[..p] + to + after[..n] + ReplaceYaml(after[n..], from, to, false)
    else if s == "" then ""
    else [s[0]] + ReplaceYaml(s[1..], from, to, IsTerminator(s[0]))
  }

  /** Within a line, text is copied. */
  lemma {:induction false} YamlSkipsLine(s: string, n: nat, from: string, to: string)
    requires n <= LineRun(s) && from != ""
    ensures ReplaceYaml(s, from, to, false) == s[..n] + ReplaceYaml(s[n..], from, to, false)
  {
    var rest := ReplaceYaml(s[n..], from, to, false);
    if n == 0 {
      assert s[0..] == s && s[..0] + rest == rest;
    } else {
      var head, tail := [s[0]], s[1..];
      YamlSkipsLine(tail, n - 1, from, to);
      assert tail[n - 1..] == s[n..] && s[..n] == head + tail[..n - 1];
      Sequences.Associate(head, tail[..n - 1], rest);
    }
  }

  lemma {:induction false} TabsAreInLine(s: string)
    ensures TabRun(s) + LineRun(s[TabRun(s)..]) == LineRun(s)
  {
    if s == "" || !IsTab(s[0]) {
    } else {
      TabsAreInLine(s[1..]);
      assert s[1..][TabRun(s[1..])..] == s[TabRun(s)..];
    }
  }

  /** A match only changes the name: what follows it is processed as the rest of its line. */
  lemma YamlMatchStep(s: string, before: string, after: string, from: string, to: string)
    requires from != "" && s == before + (from + after)
    requires YamlMatch(s, from).Some? && YamlMatch(s, from).value.0 == |before|
    ensures ReplaceYaml(s, from, to, true) == before + (to + ReplaceYaml(after, from, to, false))
  {
    var n := YamlMatch(s, from).value.1;
    CutsAround(before, from, after);
    SuffixIsCopied(s, after, from, to);
    Sequences.Regroup(before, to, after[..n], ReplaceYaml(after[n..], from, to, false));
  }

  lemma CutsAround(before: string, name: string, after: string)
    ensures (before + (name + after))[..|before|] == before && (before + (name + after))[|before|..][|name|..] == after
  {
    assert (before + (name + after))[|before|..] == name + after;
  }

  lemma SuffixIsCopied(s: string, after: string, from: string, to: string)
    requires from != "" && YamlMatch(s, from).Some? && after == s[YamlMatch(s, from).value.0..][|from|..]
    ensures var n := YamlMatch(s, from).value.1;
      n <= |after| && ReplaceYaml(after, from, to, false) == after[..n] + ReplaceYaml(after[n..], from, to, false)
  {
    TabsAreInLine(after);
    YamlSkipsLine(after, YamlMatch(s, from).value.1, from, to);
  }

  lemma CutBeyond(a: string, b: string, n: nat)
    requires |a| <= n <= |a + b|
    ensures (a + b)[n..] == b[n - |a|..] && (a + b)[..n] == a + b[..n - |a|]
  {
  }

  lemma CutInside(a: string, b: string, n: nat)
    requires n <= |a|
    ensures (a + b)[n..] == a[n..] + b && (a + b)[..n] == a[..n]
  {
  }

  /** The text before and after the name a match finds. */
  lemma YamlMatchTaken(s: string, from: string) returns (before: string, after: string)
    requires YamlMatch(s, from).Some?
    ensures s == before + (from + after) && |before| == YamlMatch(s, from).value.0
  {
    var p := YamlMatch(s, from).value.0;
    before, after := s[..p], s[p..][|from|..];
    assert s[p..] == from + after;
  }

  lemma {:induction false} YamlSkipsText(text: string, tail: string, from: string, to: string)
    requires NoDelimiter(text) && from != ""
    ensures ReplaceYaml(text + tail, from, to, false) == text + ReplaceYaml(tail, from, to, false)
  {
    if text == "" {
      assert text + tail == tail;
    } else {
      assert (text + tail)[1..] == text[1..] + tail;
      assert text[0] in text;
      YamlSkipsText(text[1..], tail, from, to);
    }
  }

  /** A prefix that ends inside the first cell is that cell's own. */
  lemma {:induction false} PrefixInCell(text: string, tail: string, stage: Stage)
    requires NoDelimiter(text) && (tail == "" || IsDelimiter(tail[0]))
    ensures PrefixAgrees(PrefixAcross(text + tail, stage), PrefixFrom(text, stage), |text|)
  {
    if text == "" {
      assert text + tail == tail;
    } else {
      assert (text + tail)[1..] == text[1..] + tail && (text + tail)[0] == text[0];
      assert !IsDelimiter(text[0]) by { assert text[0] in text; }
      var next := Advance(text[0], stage);
      if next.Some? {
        assert NoDelimiter(text[1..]);
        PrefixInCell(text[1..], tail, next.value);
      }
    }
  }

  predicate PrefixAgrees(across: Option<nat>, own: Option<nat>, size: nat) {
    && (across.Some? && across.value <= size ==> own == across)
    && (own.Some? ==> across == own)
  }

  /** A prefix that leaves the first cell crosses a terminator, and is a prefix from there as well. */
  lemma {:induction false} PrefixBeyondCell(text: string, d: char, rest: string, stage: Stage)
    requires NoDelimiter(text) && IsDelimiter(d)
    requires var across := PrefixAcross(text + ([d] + rest), stage); across.Some? && across.value > |text|
    ensures IsTerminator(d)
    ensures PrefixAcross(rest, Indent) == Some(PrefixAcross(text + ([d] + rest), stage).value - |text| - 1)
  {
    if text == "" {
      assert text + ([d] + rest) == [d] + rest;
      if stage == Dashed { DashIsOptional(rest); }
    } else {
      assert (text + ([d] + rest))[1..] == text[1..] + ([d] + rest);
      assert text[0] in text;
      PrefixBeyondCell(text[1..], d, rest, Advance(text[0], stage).value);
    }
  }

  lemma {:induction false} DashIsOptional(s: string)
    requires PrefixAcross(s, Dashed).Some?
    ensures PrefixAcross(s, Indent) == PrefixAcross(s, Dashed)
  {
    if s == "" || !IsSpace(s[0]) {
    } else {
      DashIsOptional(s[1..]);
    }
  }

  lemma {:induction false} TabsStayInCell(text: string, tail: string)
    requires NoDelimiter(text) && (tail == "" || IsDelimiter(tail[0]))
    ensures TabRun(text + tail) == TabRun(text)
  {
    if text == "" {
      assert text + tail == tail;
    } else {
      assert (text + tail)[1..] == text[1..] + tail;
      TabsStayInCell(text[1..], tail);
    }
  }

  lemma SuffixInCell(text: string, tail: string)
    requires NoDelimiter(text) && (tail == "" || IsDelimiter(tail[0]))
    ensures SuffixRun(text + tail).Some? <==> YamlSuffix(text, tail == "" || IsTerminator(tail[0]))
  {
    TabsStayInCell(text, tail);
    var m := TabRun(text);
    if m < |text| { assert text[m] in text; }
  }

  lemma NameThenSuffix(here: string, tail: string, from: string)
    requires NoDelimiter(here) && IsName(from) && (tail == "" || IsDelimiter(tail[0]))
    ensures NameStands(here + tail, from) <==> NameEnds(here, from, tail == "" || IsTerminator(tail[0]))
  {
    NameStaysInCell(here, tail, from);
    if StartsWith(here, from) {
      assert (here + tail)[|from|..] == here[|from|..] + tail;
      assert forall c | c in here[|from|..] :: c in here;
      SuffixInCell(here[|from|..], tail);
    }
  }

  lemma NameAfterPrefix(text: string, tail: string, from: string, p: nat)
    requires NoDelimiter(text) && IsName(from) && (tail == "" || IsDelimiter(tail[0])) && p <= |text|
    ensures NameStands((text + tail)[p..], from) <==> NameEnds(text[p..], from, tail == "" || IsTerminator(tail[0]))
  {
    CutInside(text, tail, p);
    assert forall c | c in text[p..] :: c in text;
    NameThenSuffix(text[p..], tail, from);
  }

  /** At a line's start the pattern finds its name in the first cell exactly when that cell matches. */
  lemma YamlAtCell(text: string, tail: string, from: string)
    requires NoDelimiter(text) && IsName(from) && (tail == "" || IsDelimiter(tail[0]))
    ensures var here := YamlMatch(text + tail, from); var ends := tail == "" || IsTerminator(tail[0]);
      && (Matches(Yaml(from, ""), text, ends) ==> here.Some? && here.value.0 == YamlPrefix(text).value)
      && (here.Some? && here.value.0 <= |text| ==> Matches(Yaml(from, ""), text, ends))
  {
    PrefixInCell(text, tail, Indent);
    var p := PrefixAcross(text + tail, Indent);
    if p.Some? && p.value <= |text| { NameAfterPrefix(text, tail, from, p.value); }
  }

  /** A match that starts on an earlier line is also found from the start of the name's own line. */
  lemma MatchOnNextLine(text: string, d: char, rest: string, from: string)
    requires NoDelimiter(text) && IsDelimiter(d) && from != "" && YamlMatch((text + [d]) + rest, from).Some?
    requires YamlMatch((text + [d]) + rest, from).value.0 > |text|
    ensures IsTerminator(d)
    ensures var (p, n) := YamlMatch((text + [d]) + rest, from).value;
      YamlMatch(rest, from) == Some((p - |text| - 1, n))
  {
    assert (text + [d]) + rest == text + ([d] + rest);
    PrefixBeyondCell(text, d, rest, Indent);
    CutBeyond(text + [d], rest, YamlMatch((text + [d]) + rest, from).value.0);
  }

  /** It then edits what that match edits. */
  lemma EditShifts(line: string, rest: string, from: string, to: string)
    requires from != "" && YamlMatch(line + rest, from).Some? && YamlMatch(rest, from).Some?
    requires YamlMatch(line + rest, from).value.0 == |line| + YamlMatch(rest, from).value.0
    ensures ReplaceYaml(line + rest, from, to, true) == line + ReplaceYaml(rest, from, to, true)
  {
    var before, after := YamlMatchTaken(rest, from);
    YamlMatchStep(rest, before, after, from, to);
    assert line + (before + (from + after)) == (line + before) + (from + after);
    YamlMatchStep(line + rest, line + before, after, from, to);
    var tail := to + ReplaceYaml(after, from, to, false);
    assert line + (before + tail) == (line + before) + tail;
  }

  /** A line's first cell is copied when it does not match. */
  lemma YamlKeepsCell(text: string, tail: string, from: string, to: string)
    requires NoDelimiter(text) && IsName(from) && (tail == "" || IsDelimiter(tail[0]))
    requires !Matches(Yaml(from, ""), text, tail == "" || IsTerminator(tail[0]))
    ensures ReplaceYaml(text + tail, from, to, true) == text + ReplaceYaml(tail, from, to, false)
  {
    YamlAtCell(text, tail, from);
    if YamlMatch(text + tail, from).Some? {
      YamlNextLine(text, tail[0], tail[1..], tail, from, to);
    } else {
      YamlSkipsText(text, tail, from, to);
    }
  }

  lemma YamlNextLine(text: string, d: char, rest: string, tail: string, from: string, to: string)
    requires NoDelimiter(text) && IsDelimiter(d) && from != "" && tail == [d] + rest
    requires YamlMatch(text + tail, from).Some? && YamlMatch(text + tail, from).value.0 > |text|
    ensures ReplaceYaml(text + tail, from, to, true) == text + ReplaceYaml(tail, from, to, false)
  {
    Sequences.Associate(text, [d], rest);
    assert ReplaceYaml((text + [d]) + rest, from, to, true) == (text + [d]) + ReplaceYaml(rest, from, to, true) by {
      MatchOnNextLine(text, d, rest, from);
      EditShifts(text + [d], rest, from, to);
    }
    assert IsTerminator(d) by { MatchOnNextLine(text, d, rest, from); }
    YamlStepsOver(d, rest, from, to);
    Sequences.Associate(text, [d], ReplaceYaml(rest, from, to, true));
  }

  lemma YamlStepsOver(c: char, rest: string, from: string, to: string)
    requires from != ""
    ensures ReplaceYaml([c] + rest, from, to, false) == [c] + ReplaceYaml(rest, from, to, IsTerminator(c))
  {
    assert ([c] + rest)[1..] == rest;
  }

  /** A line's first cell is swapped when it matches. */
  lemma YamlSwapsCell(text: string, tail: string, from: string, to: string)
    requires NoDelimiter(text) && IsName(from) && (tail == "" || IsDelimiter(tail[0]))
    requires Matches(Yaml(from, to), text, tail == "" || IsTerminator(tail[0]))
    ensures ReplaceYaml(text + tail, from, to, true) == Swap(Yaml(from, to), text) + ReplaceYaml(tail, from, to, false)
  {
    var ends := tail == "" || IsTerminator(tail[0]);
    var before, after := SwapSplits(text, from, to, ends);
    assert YamlMatch(text + tail, from).Some? && YamlMatch(text + tail, from).value.0 == |before| by {
      YamlAtCell(text, tail, from);
    }
    YamlCellSwapped(before, after, tail, from, to);
  }

  lemma SwapSplits(text: string, from: string, to: string, ends: bool) returns (before: string, after: string)
    requires Matches(Yaml(from, to), text, ends)
    ensures text == before + (from + after) && Swap(Yaml(from, to), text) == before + (to + after)
    ensures |before| == YamlPrefix(text).value
  {
    before, after := YamlTaken(from, to, text, ends);
    YamlAssembled(before, from, to, after, ends);
  }

  lemma YamlCellSwapped(before: string, after: string, tail: string, from: string, to: string)
    requires NoDelimiter(before + (from + after)) && from != ""
    requires var here := YamlMatch((before + (from + after)) + tail, from); here.Some? && here.value.0 == |before|
    ensures ReplaceYaml((before + (from + after)) + tail, from, to, true) ==
            (before + (to + after)) + ReplaceYaml(tail, from, to, false)
  {
    var rest := ReplaceYaml(tail, from, to, false);
    Sequences.Regroup(before, from, after, tail);
    YamlMatchStep((before + (from + after)) + tail, before, after + tail, from, to);
    assert ReplaceYaml(after + tail, from, to, false) == after + rest by {
      assert forall c | c in after :: c in before + (from + after);
      YamlSkipsText(after, tail, from, to);
    }
    Sequences.Regroup(before, to, after, rest);
  }

  lemma {:induction false} YamlIsPass(cells: Cells, from: string, to: string, open: Option<char>, start: bool)
    requires Clean(cells) && IsName(from)
    ensures ReplaceYaml(Join(cells), from, to, start) == Join(Pass(Yaml(from, to), cells, open, start))
  {
    var text, tail := cells.text, if cells.Last? then "" else [cells.delimiter] + Join(cells.rest);
    assert text + "" == text;
    if !start {
      YamlSkipsText(text, tail, from, to);
    } else if Matches(Yaml(from, to), text, tail == "" || IsTerminator(tail[0])) {
      YamlSwapsCell(text, tail, from, to);
    } else {
      YamlKeepsCell(text, tail, from, to);
    }
    if cells.Last? {
    } else {
      assert tail[1..] == Join(cells.rest);
      YamlIsPass(cells.rest, from, to, Opens(cells.delimiter), IsTerminator(cells.delimiter));
    }
  }
}
