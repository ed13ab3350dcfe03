/** Whole files: `rewriteLine` and `rewrite` of scripts/rescope-vendor.ts with their skips and fences. */
module RescopeFile {
  import opened Options
  import opened JavaScript
  import opened RescopeCells
  import opened RescopeRules
  import opened RescopeLine
  import opened RescopeText
  import Sequences
  import Splitting

  datatype Rename = Rename(upstream: string, scoped: string)

  datatype Pattern = Pattern(upstream: string, from: string, to: string)

  datatype GenericSkip = GenericSkip(file: string, upstream: seq<string>)

  function Orient(renames: seq<Rename>, reverse: bool): seq<Pattern> {
    if renames == [] then []
    else
      var (u, s) := (renames[0].upstream, renames[0].scoped);
      [if reverse then Pattern(u, s, u) else Pattern(u, u, s)] + Orient(renames[1..], reverse)
  }

  /** Longest source name first, ties in table order. */
  function LongerName(): (Pattern, Pattern) -> bool {
    (p: Pattern, q: Pattern) => |q.from| <= |p.from|
  }

  function SortByLength(all: seq<Pattern>): seq<Pattern> {
    Sequences.Sort(all, LongerName())
  }

  function Patterns(renames: seq<Rename>, reverse: bool): seq<Pattern> {
    SortByLength(Orient(renames, reverse))
  }

  predicate Skipped(file: string, p: Pattern, skips: seq<GenericSkip>) {
    exists skip | skip in skips :: skip.file == file && p.upstream in skip.upstream
  }

  /** The renames that apply to a file. */
  function Active(file: string, all: seq<Pattern>, skips: seq<GenericSkip>): seq<Rule> {
    if all == [] then []
    else
      (if Skipped(file, all[0], skips) then [] else [Rule(all[0].from, all[0].to)]) + Active(file, all[1..], skips)
  }

  /** A rename's pattern: out of the upstream name, and in the reverse run back to it. */
  lemma OneOriented(rename: Rename, reverse: bool)
    ensures Orient([rename], false) == [Pattern(rename.upstream, rename.upstream, rename.scoped)]
    ensures Orient([rename], true) == [Pattern(rename.upstream, rename.scoped, rename.upstream)]
  {
    assert [rename][1..] == [];
  }

  lemma {:induction false} OrientJoins(a: seq<Rename>, b: seq<Rename>, reverse: bool)
    ensures Orient(a + b, reverse) == Orient(a, reverse) + Orient(b, reverse)
  {
    if a == [] {
      assert a + b == b;
    } else {
      assert (a + b)[1..] == a[1..] + b;
      OrientJoins(a[1..], b, reverse);
    }
  }

  /** The patterns are all of them, longer source names before shorter ones. */
  lemma LongestFirst(renames: seq<Rename>, reverse: bool)
    ensures multiset(Patterns(renames, reverse)) == multiset(Orient(renames, reverse))
    ensures var all := Patterns(renames, reverse);
            forall i, j | 0 <= i < j < |all| :: |all[i].from| >= |all[j].from|
  {
    Sequences.SortPermutes(Orient(renames, reverse), LongerName());
    Sequences.SortOrders(Orient(renames, reverse), LongerName());
    var all := Patterns(renames, reverse);
    forall i, j | 0 <= i < j < |all| ensures |all[i].from| >= |all[j].from| {
      Sequences.OrderedAt(all, LongerName(), i, j);
    }
  }

  /** A pattern applies to a file unless some skip of that very file lists its upstream name. */
  lemma OneActive(file: string, p: Pattern, skips: seq<GenericSkip>)
    ensures Active(file, [p], skips)
            == if exists i :: 0 <= i < |skips| && skips[i].file == file && p.upstream in skips[i].upstream then []
               else [Rule(p.from, p.to)]
  {
    assert [p][1..] == [];
    if i :| 0 <= i < |skips| && skips[i].file == file && p.upstream in skips[i].upstream {
      assert skips[i] in skips;
    }
  }

  lemma {:induction false} ActiveJoins(file: string, a: seq<Pattern>, b: seq<Pattern>, skips: seq<GenericSkip>)
    ensures Active(file, a + b, skips) == Active(file, a, skips) + Active(file, b, skips)
  {
    if a == [] {
      assert a + b == b;
    } else {
      assert (a + b)[1..] == a[1..] + b;
      ActiveJoins(file, a[1..], b, skips);
    }
  }

  method RewriteLine(line: string, file: string, all: seq<Pattern>, skips: seq<GenericSkip>) returns (out: string)
    requires AllValid(Active(file, all, skips))
    ensures out == LineRewritten(line, Active(file, all, skips))
  {
    out := line;
    for i := 0 to |all|
      invariant AllValid(Active(file, all[i..], skips))
      invariant LineRewritten(out, Active(file, all[i..], skips)) == LineRewritten(line, Active(file, all, skips))
    {
      var pattern := all[i];
      ActiveStep(file, all, i, skips);
      if !Skipped(file, pattern, skips) {
        out := ReplaceTokens(out, pattern.from, pattern.to);
        out := ReplaceYaml(out, pattern.from, pattern.to, true);
      }
    }
  }

  lemma ActiveStep(file: string, all: seq<Pattern>, i: nat, skips: seq<GenericSkip>)
    requires i < |all| && AllValid(Active(file, all[i..], skips))
    ensures var rules := Active(file, all[i..], skips);
      if Skipped(file, all[i], skips) then Active(file, all[i + 1..], skips) == rules
      else && rules != [] && rules[0] == Rule(all[i].from, all[i].to) && rules[0].Valid()
           && rules[1..] == Active(file, all[i + 1..], skips) && AllValid(rules[1..])
  {
    assert all[i..][1..] == all[i + 1..];
    var rest := Active(file, all[i + 1..], skips);
    assert [] + rest == rest;
    assert ([Rule(all[i].from, all[i].to)] + rest)[1..] == rest;
    var rules := Active(file, all[i..], skips);
    assert rules != [] ==> rules[0] in rules;
    assert rules != [] ==> forall rule | rule in rules[1..] :: rule in rules;
  }

  function Lines(text: string): seq<string> {
    Splitting.Split(text, '\n')
  }

  function Unlines(lines: seq<string>): string
    requires lines != []
  {
    Splitting.Join(lines, '\n')
  }

  predicate Backticks(s: string, n: nat) {
    n == 0 || (s != "" && s[0] == '`' && Backticks(s[1..], n - 1))
  }

  /** `^\s*` and three backticks. */
  predicate IsFence(line: string) {
    if line != "" && IsSpace(line[0]) then IsFence(line[1..]) else Backticks(line, 3)
  }

  /** A fence line is three backticks behind white space. */
  lemma {:induction false} FenceIsThreeBackticks(line: string)
    ensures IsFence(line) <==> exists i: nat :: IsFenceAt(line, i)
  {
    if line == "" {
      assert !Backticks(line, 3);
    } else if IsSpace(line[0]) {
      FenceIsThreeBackticks(line[1..]);
      if i: nat :| IsFenceAt(line[1..], i) {
        assert line[..i + 1] == [line[0]] + line[1..][..i] && line[i + 1..i + 4] == line[1..][i..i + 3];
        assert IsFenceAt(line, i + 1);
      }
      if i: nat :| IsFenceAt(line, i) { FenceBehindSpace(line, i); }
    } else {
      ThreeBackticks(line);
      if i: nat :| IsFenceAt(line, i) { FenceAtStart(line, i); }
      if IsFence(line) { assert IsFenceAt(line, 0); }
    }
  }

  lemma FenceBehindSpace(line: string, i: nat)
    requires IsFenceAt(line, i) && IsSpace(line[0])
    ensures i > 0 && IsFenceAt(line[1..], i - 1)
  {
    assert line[i..i + 3][0] == line[i] && i > 0;
    assert line[1..][..i - 1] == line[..i][1..] && line[1..][i - 1..i + 2] == line[i..i + 3];
  }

  lemma FenceAtStart(line: string, i: nat)
    requires IsFenceAt(line, i) && !IsSpace(line[0])
    ensures i == 0
  {
    if i > 0 { HeadInPrefix(line, i); }
  }

  lemma HeadInPrefix(line: string, i: nat)
    requires 0 < i <= |line|
    ensures line[0] in line[..i]
  {
    assert line[..i][0] == line[0];
  }

  ghost predicate IsFenceAt(line: string, i: nat) {
    i + 3 <= |line| && AllSpace(line[..i]) && line[i..i + 3] == "```"
  }

  lemma ThreeBackticks(s: string)
    ensures Backticks(s, 3) <==> |s| >= 3 && s[..3] == "```"
  {
    BackticksAre(s, 3);
    if |s| >= 3 { assert s[..3] == [s[0], s[1], s[2]]; }
  }

  lemma {:induction false} BackticksAre(s: string, n: nat)
    ensures Backticks(s, n) <==> n <= |s| && forall i | 0 <= i < n :: s[i] == '`'
  {
    if n > 0 && s != "" {
      BackticksAre(s[1..], n - 1);
      assert forall i | 0 <= i < n - 1 && i < |s[1..]| :: s[1..][i] == s[i + 1];
      assert forall i | 0 < i < n && i < |s| :: s[i] == s[1..][i - 1];
    }
  }

  /** After these lines a fence is open: an odd number of them are fence lines. */
  predicate InsideFence(lines: seq<string>) {
    lines != [] && InsideFence(lines[..|lines| - 1]) != IsFence(lines[|lines| - 1])
  }

  lemma OneMoreFence(lines: seq<string>, i: nat)
    requires i < |lines|
    ensures InsideFence(lines[..i + 1])
            == if IsFence(lines[i]) then !InsideFence(lines[..i]) else InsideFence(lines[..i])
  {
    assert lines[..i + 1][..i] == lines[..i];
  }

  function FencesAbove(lines: seq<string>, n: nat): set<nat>
    requires n <= |lines|
  {
    set i: nat | i < n && IsFence(lines[i])
  }

  lemma FencesGrow(lines: seq<string>, n: nat)
    requires n < |lines|
    ensures |FencesAbove(lines, n + 1)| == |FencesAbove(lines, n)| + if IsFence(lines[n]) then 1 else 0
  {
    var before := FencesAbove(lines, n);
    assert n !in before;
    assert FencesAbove(lines, n + 1) == if IsFence(lines[n]) then before + {n} else before;
  }

  predicate IsOdd(n: nat) {
    n % 2 == 1
  }

  lemma OddFlips(n: nat)
    ensures IsOdd(n + 1) <==> !IsOdd(n)
  {
  }

  /** The toggled flag is the parity of the fence lines above. */
  lemma {:induction false} InsideFenceIsOdd(lines: seq<string>, n: nat)
    requires n <= |lines|
    ensures InsideFence(lines[..n]) <==> IsOdd(|FencesAbove(lines, n)|)
  {
    if n == 0 {
      assert FencesAbove(lines, 0) == {};
    } else {
      InsideFenceIsOdd(lines, n - 1);
      OneMoreFence(lines, n - 1);
      FencesGrow(lines, n - 1);
      OddFlips(|FencesAbove(lines, n - 1)|);
    }
  }

  predicate EndsWith(s: string, suffix: string) {
    |suffix| <= |s| && s[|s| - |suffix|..] == suffix
  }

  /** Every line outside Markdown; in Markdown, lines inside a fence, and prose only under docs/. */
  predicate Eligible(lines: seq<string>, file: string, i: nat)
    requires i < |lines|
  {
    |file| >= 3 && file[|file| - 3..] == ".md" ==>
      !IsFence(lines[i]) && ((|file| >= 5 && file[..5] == "docs/") || InsideFence(lines[..i]))
  }

  function Edited(lines: seq<string>, file: string, rules: seq<Rule>, i: nat): string
    requires AllValid(rules) && i < |lines|
  {
    if Eligible(lines, file, i) then LineRewritten(lines[i], rules) else lines[i]
  }

  function Prefix(lines: seq<string>, file: string, rules: seq<Rule>, n: nat): (out: seq<string>)
    requires AllValid(rules) && n <= |lines|
    ensures |out| == n
  {
    if n == 0 then [] else Prefix(lines, file, rules, n - 1) + [Edited(lines, file, rules, n - 1)]
  }

  function LinesRewritten(lines: seq<string>, file: string, rules: seq<Rule>): (out: seq<string>)
    requires AllValid(rules)
  {
    Prefix(lines, file, rules, |lines|)
  }

  lemma {:induction false} LineAt(lines: seq<string>, file: string, rules: seq<Rule>, n: nat, i: nat)
    requires AllValid(rules) && i < n <= |lines|
    ensures Prefix(lines, file, rules, n)[i] == Edited(lines, file, rules, i)
  {
    if i == n - 1 {
    } else {
      LineAt(lines, file, rules, n - 1, i);
    }
  }

  function FileRewritten(text: string, file: string, rules: seq<Rule>): string
    requires AllValid(rules)
  {
    Unlines(LinesRewritten(Lines(text), file, rules))
  }

  /** How many of the first `n` lines differ. */
  function Differences(a: seq<string>, b: seq<string>, n: nat): nat
    requires n <= |a| && n <= |b|
  {
    if n == 0 then 0 else Differences(a, b, n - 1) + if a[n - 1] != b[n - 1] then 1 else 0
  }

  /** Positions below `n` where the two files' lines differ. */
  function Differing(a: seq<string>, b: seq<string>, n: nat): set<nat>
    requires n <= |a| && n <= |b|
  {
    set i: nat | i < n && a[i] != b[i]
  }

  lemma {:induction false} DifferencesCountPositions(a: seq<string>, b: seq<string>, n: nat)
    requires n <= |a| && n <= |b|
    ensures Differences(a, b, n) == |Differing(a, b, n)|
  {
    if n == 0 {
      assert Differing(a, b, 0) == {};
    } else {
      DifferencesCountPositions(a, b, n - 1);
      var before := Differing(a, b, n - 1);
      assert Differing(a, b, n) == if a[n - 1] != b[n - 1] then before + {n - 1} else before;
    }
  }

  /** What the loop does with one line, in terms of its flags. */
  predicate IsEdited(line: string, markdown: bool, prose: bool, inside: bool) {
    !(markdown && IsFence(line)) && (!markdown || inside || prose)
  }

  lemma LineDecided(lines: seq<string>, file: string, i: nat, markdown: bool, prose: bool, inside: bool)
    requires i < |lines| && markdown == EndsWith(file, ".md")
    requires prose == (markdown && StartsWith(file, "docs/")) && (markdown ==> inside == InsideFence(lines[..i]))
    ensures Eligible(lines, file, i) <==> IsEdited(lines[i], markdown, prose, inside)
  {
  }

  lemma LineDone(lines: seq<string>, file: string, rules: seq<Rule>, i: nat, next: string)
    requires AllValid(rules) && i < |lines|
    requires next == if Eligible(lines, file, i) then LineRewritten(lines[i], rules) else lines[i]
    ensures Prefix(lines, file, rules, i + 1) == Prefix(lines, file, rules, i) + [next]
    ensures var goal := LinesRewritten(lines, file, rules);
      Differences(lines, goal, i + 1) == Differences(lines, goal, i) + if next != lines[i] then 1 else 0
  {
    LineAt(lines, file, rules, |lines|, i);
  }

  method Rewrite(text: string, file: string, all: seq<Pattern>, skips: seq<GenericSkip>)
    returns (result: string, lines: nat)
    requires AllValid(Active(file, all, skips))
    ensures result == FileRewritten(text, file, Active(file, all, skips))
    ensures var source := Lines(text);
      lines == Differences(source, LinesRewritten(source, file, Active(file, all, skips)), |source|)
  {
    var markdown := EndsWith(file, ".md");
    var prose := markdown && StartsWith(file, "docs/");
    var insideFence := false;
    lines := 0;
    var source := Lines(text);
    ghost var rules := Active(file, all, skips);
    ghost var goal := LinesRewritten(source, file, rules);
    var out: seq<string> := [];
    for i := 0 to |source|
      invariant out == Prefix(source, file, rules, i)
      invariant markdown ==> insideFence == InsideFence(source[..i])
      invariant lines == Differences(source, goal, i)
    {
      var line := source[i];
      OneMoreFence(source, i);
      LineDecided(source, file, i, markdown, prose, insideFence);
      var next := line;
      if markdown && IsFence(line) {
        insideFence := !insideFence;
      } else if !markdown || insideFence || prose {
        next := RewriteLine(line, file, all, skips);
      }
      LineDone(source, file, rules, i, next);
      if next != line { lines := lines + 1; }
      out := out + [next];
    }
    result := Unlines(out);
  }

  // Fences survive rewriting.

  /** `n` empty cells, each ended by a backtick. */
  predicate Ticks(cells: Cells, n: nat) {
    n == 0 || (cells.Cell? && cells.text == "" && cells.delimiter == '`' && Ticks(cells.rest, n - 1))
  }

  predicate FenceCells(cells: Cells) {
    cells.Cell? && AllSpace(cells.text)
    && if IsTerminator(cells.delimiter) then FenceCells(cells.rest)
       else cells.delimiter == '`' && Ticks(cells.rest, 2)
  }

  lemma {:induction false} TicksInText(cells: Cells, n: nat)
    requires Clean(cells)
    ensures Backticks(Join(cells), n) <==> Ticks(cells, n)
  {
    if n == 0 {
    } else {
      if cells.text != "" {
        assert cells.text[0] in cells.text;
      } else if cells.Cell? {
        assert Join(cells) == [cells.delimiter] + Join(cells.rest);
        TicksInText(cells.rest, n - 1);
      }
    }
  }

  lemma {:induction false} FenceAfterText(text: string, tail: string)
    requires NoDelimiter(text)
    ensures IsFence(text + tail) <==> AllSpace(text) && IsFence(tail)
  {
    if text == "" {
      assert text + tail == tail;
    } else {
      assert (text + tail)[1..] == text[1..] + tail;
      assert text[0] in text;
      FenceAfterText(text[1..], tail);
      assert forall c | c in text :: c == text[0] || c in text[1..];
      assert forall c | c in text[1..] :: c in text;
    }
  }

  lemma {:induction false} FenceIsCells(cells: Cells)
    requires Clean(cells)
    ensures IsFence(Join(cells)) <==> FenceCells(cells)
  {
    var tail := if cells.Last? then "" else [cells.delimiter] + Join(cells.rest);
    assert cells.text + "" == cells.text;
    FenceAfterText(cells.text, tail);
    if cells.Last? {
    } else {
      assert tail[1..] == Join(cells.rest);
      FenceIsCells(cells.rest);
      TicksInText(cells.rest, 2);
    }
  }

  lemma {:induction false} PassKeepsTicks(op: Op, cells: Cells, n: nat, open: Option<char>, start: bool)
    requires IsOp(op) && Clean(cells)
    ensures Ticks(Pass(op, cells, open, start), n) <==> Ticks(cells, n)
  {
    if n == 0 || cells.Last? {
    } else {
      var d := cells.delimiter;
      if Matches(op, cells.text, IsTerminator(d)) { SwapKeepsText(op, cells.text, IsTerminator(d)); }
      PassKeepsTicks(op, cells.rest, n - 1, None, IsTerminator(d));
      PassKeepsTicks(op, cells.rest, n - 1, Opens(d), IsTerminator(d));
    }
  }

  lemma {:induction false} PassKeepsFence(op: Op, cells: Cells, open: Option<char>, start: bool)
    requires IsOp(op) && Clean(cells)
    ensures FenceCells(Pass(op, cells, open, start)) <==> FenceCells(cells)
  {
    if cells.Last? {
    } else {
      var d := cells.delimiter;
      if Matches(op, cells.text, IsTerminator(d)) { SwapKeepsText(op, cells.text, IsTerminator(d)); }
      PassKeepsFence(op, cells.rest, None, IsTerminator(d));
      PassKeepsFence(op, cells.rest, Opens(d), IsTerminator(d));
      PassKeepsTicks(op, cells.rest, 2, None, IsTerminator(d));
      PassKeepsTicks(op, cells.rest, 2, Opens(d), IsTerminator(d));
    }
  }

  lemma {:induction false} RulesKeepFence(rules: seq<Rule>, cells: Cells)
    requires AllValid(rules) && Clean(cells)
    ensures FenceCells(ApplyAll(rules, cells)) <==> FenceCells(cells)
  {
    if rules == [] {
    } else {
      var t, y := Token(rules[0].from, rules[0].to), Yaml(rules[0].from, rules[0].to);
      assert rules[0].Valid();
      PassKeepsFence(t, cells, None, true);
      PassKeepsClean(t, cells, None, true);
      PassKeepsFence(y, Apply(t, cells), None, true);
      PassKeepsClean(y, Apply(t, cells), None, true);
      RulesKeepFence(rules[1..], ApplyRule(rules[0], cells));
    }
  }

  /** Rewriting never creates or removes a fence line. */
  lemma LineKeepsFence(line: string, rules: seq<Rule>)
    requires AllValid(rules)
    ensures IsFence(LineRewritten(line, rules)) <==> IsFence(line)
  {
    var cells := Parse(line);
    JoinUndoesParse(line);
    LineIsCells(rules, cells);
    RulesKeepFence(rules, cells);
    FenceIsCells(cells);
    FenceIsCells(ApplyAll(rules, cells));
  }

  predicate NoBreak(cells: Cells) {
    cells.Cell? ==> cells.delimiter != '\n' && NoBreak(cells.rest)
  }

  lemma {:induction false} BreakIsDelimiter(cells: Cells)
    requires Clean(cells)
    ensures '\n' in Join(cells) <==> !NoBreak(cells)
  {
    if cells.Last? {
    } else {
      assert Join(cells) == cells.text + [cells.delimiter] + Join(cells.rest);
      BreakIsDelimiter(cells.rest);
    }
  }

  lemma {:induction false} PassKeepsBreaks(op: Op, cells: Cells, open: Option<char>, start: bool)
    ensures NoBreak(Pass(op, cells, open, start)) <==> NoBreak(cells)
  {
    if cells.Last? {
    } else {
      PassKeepsBreaks(op, cells.rest, None, IsTerminator(cells.delimiter));
      PassKeepsBreaks(op, cells.rest, Opens(cells.delimiter), IsTerminator(cells.delimiter));
    }
  }

  lemma {:induction false} RulesKeepBreaks(rules: seq<Rule>, cells: Cells)
    ensures NoBreak(ApplyAll(rules, cells)) <==> NoBreak(cells)
  {
    if rules == [] {
    } else {
      var t := Token(rules[0].from, rules[0].to);
      PassKeepsBreaks(t, cells, None, true);
      PassKeepsBreaks(Yaml(rules[0].from, rules[0].to), Apply(t, cells), None, true);
      RulesKeepBreaks(rules[1..], ApplyRule(rules[0], cells));
    }
  }

  lemma LineStaysLine(line: string, rules: seq<Rule>)
    requires AllValid(rules) && '\n' !in line
    ensures '\n' !in LineRewritten(line, rules)
  {
    var cells := Parse(line);
    JoinUndoesParse(line);
    LineIsCells(rules, cells);
    BreakIsDelimiter(cells);
    RulesKeepBreaks(rules, cells);
    BreakIsDelimiter(ApplyAll(rules, cells));
  }

  lemma {:induction false} FencesCarryOver(a: seq<string>, b: seq<string>)
    requires |a| == |b| && forall i | 0 <= i < |a| :: IsFence(b[i]) <==> IsFence(a[i])
    ensures InsideFence(a) == InsideFence(b)
  {
    if a == [] {
    } else {
      var n := |a| - 1;
      assert IsFence(b[n]) <==> IsFence(a[n]);
      FencesCarryOver(a[..n], b[..n]);
    }
  }

  /** A rewritten file's lines are the rewritten lines, and the same ones are eligible again. */
  lemma RewriteKeepsShape(lines: seq<string>, file: string, rules: seq<Rule>, i: nat)
    requires AllValid(rules) && i < |lines|
    ensures Eligible(LinesRewritten(lines, file, rules), file, i) <==> Eligible(lines, file, i)
    ensures LinesRewritten(lines, file, rules)[i] == Edited(lines, file, rules, i)
  {
    var out := LinesRewritten(lines, file, rules);
    forall k | 0 <= k < |lines|
      ensures (IsFence(out[k]) <==> IsFence(lines[k])) && out[k] == Edited(lines, file, rules, k)
    {
      LineAt(lines, file, rules, |lines|, k);
      LineKeepsFence(lines[k], rules);
    }
    FencesCarryOver(lines[..i], out[..i]);
  }

  lemma FileInLines(text: string, file: string, rules: seq<Rule>)
    requires AllValid(rules)
    ensures Lines(FileRewritten(text, file, rules)) == LinesRewritten(Lines(text), file, rules)
  {
    var lines := Lines(text);
    var out := LinesRewritten(lines, file, rules);
    Splitting.JoinOfSplit(text, '\n');
    forall line | line in out ensures '\n' !in line {
      var i :| 0 <= i < |out| && out[i] == line;
      LineAt(lines, file, rules, |lines|, i);
      assert lines[i] in lines;
      LineStaysLine(lines[i], rules);
    }
    Splitting.SplitOfJoin(out, '\n');
  }

  /** No line the codemod would edit holds one of the names. */
  ghost predicate HoldsNone(text: string, file: string, names: set<string>) {
    var lines := Lines(text);
    forall i, name | 0 <= i < |lines| && Eligible(lines, file, i) && name in names :: !Holds(lines[i], name)
  }

  function Targets(rules: seq<Rule>): set<string> {
    set rule | rule in rules :: rule.to
  }

  function Sources(rules: seq<Rule>): set<string> {
    set rule | rule in rules :: rule.from
  }

  lemma LineRestored(lines: seq<string>, file: string, rules: seq<Rule>, undo: seq<Rule>, i: nat)
    requires Compatible(rules) && multiset(undo) == multiset(Inverted(rules)) && AllValid(undo) && i < |lines|
    requires Eligible(lines, file, i) ==> forall name | name in Targets(rules) :: !Holds(lines[i], name)
    ensures Edited(LinesRewritten(lines, file, rules), file, undo, i) == lines[i]
  {
    RewriteKeepsShape(lines, file, rules, i);
    if Eligible(lines, file, i) {
      assert forall rule | rule in rules :: rule.to in Targets(rules);
      LineRoundTrip(lines[i], rules, undo);
    }
  }

  lemma RulesUndoneInFile(text: string, file: string, rules: seq<Rule>, undo: seq<Rule>)
    requires Compatible(rules) && multiset(undo) == multiset(Inverted(rules))
    requires HoldsNone(text, file, Targets(rules))
    ensures AllValid(undo) && FileRewritten(FileRewritten(text, file, rules), file, undo) == text
  {
    InvertedIsValid(rules, undo);
    var lines := Lines(text);
    var once := LinesRewritten(lines, file, rules);
    var back := LinesRewritten(once, file, undo);
    forall i | 0 <= i < |lines| ensures back[i] == lines[i] {
      LineRestored(lines, file, rules, undo, i);
      LineAt(once, file, undo, |once|, i);
    }
    assert back == lines;
    FileInLines(text, file, rules);
    Splitting.JoinOfSplit(text, '\n');
  }

  // The reverse run applies the inverse rules, in an order of its own.

  function Unit(p: Pattern, file: string, skips: seq<GenericSkip>, flip: bool): multiset<Rule> {
    if Skipped(file, p, skips) then multiset{}
    else multiset{if flip then Rule(p.to, p.from) else Rule(p.from, p.to)}
  }

  function Bag(all: seq<Pattern>, file: string, skips: seq<GenericSkip>, flip: bool): multiset<Rule> {
    if all == [] then multiset{} else Unit(all[0], file, skips, flip) + Bag(all[1..], file, skips, flip)
  }

  lemma {:induction false} BagOfActive(all: seq<Pattern>, file: string, skips: seq<GenericSkip>)
    ensures multiset(Active(file, all, skips)) == Bag(all, file, skips, false)
    ensures multiset(Inverted(Active(file, all, skips))) == Bag(all, file, skips, true)
  {
    if all == [] {
    } else {
      BagOfActive(all[1..], file, skips);
      var rest := Active(file, all[1..], skips);
      var rule := Rule(all[0].from, all[0].to);
      assert [] + rest == rest && ([rule] + rest)[1..] == rest;
    }
  }

  lemma {:induction false} BagOfInsert(p: Pattern, sorted: seq<Pattern>, file: string, skips: seq<GenericSkip>,
                                       flip: bool)
    ensures Bag(Sequences.Insert(p, sorted, LongerName()), file, skips, flip)
            == Unit(p, file, skips, flip) + Bag(sorted, file, skips, flip)
  {
    if sorted == [] || |sorted[0].from| <= |p.from| {
      assert ([p] + sorted)[1..] == sorted;
    } else {
      BagOfInsert(p, sorted[1..], file, skips, flip);
      var tail := Sequences.Insert(p, sorted[1..], LongerName());
      assert ([sorted[0]] + tail)[1..] == tail;
    }
  }

  lemma {:induction false} BagOfSorted(all: seq<Pattern>, file: string, skips: seq<GenericSkip>, flip: bool)
    ensures Bag(SortByLength(all), file, skips, flip) == Bag(all, file, skips, flip)
  {
    if all == [] {
    } else {
      BagOfInsert(all[0], SortByLength(all[1..]), file, skips, flip);
      BagOfSorted(all[1..], file, skips, flip);
    }
  }

  lemma {:induction false} BagReversed(renames: seq<Rename>, file: string, skips: seq<GenericSkip>)
    ensures Bag(Orient(renames, true), file, skips, false) == Bag(Orient(renames, false), file, skips, true)
  {
    if renames == [] {
    } else {
      BagReversed(renames[1..], file, skips);
      var (u, s) := (renames[0].upstream, renames[0].scoped);
      var (f, r) := (Orient(renames[1..], false), Orient(renames[1..], true));
      assert ([Pattern(u, u, s)] + f)[1..] == f && ([Pattern(u, s, u)] + r)[1..] == r;
    }
  }

  lemma ReverseInverts(renames: seq<Rename>, file: string, skips: seq<GenericSkip>)
    ensures multiset(Active(file, Patterns(renames, true), skips)) ==
            multiset(Inverted(Active(file, Patterns(renames, false), skips)))
  {
    BagOfActive(Patterns(renames, true), file, skips);
    BagOfActive(Patterns(renames, false), file, skips);
    BagOfSorted(Orient(renames, true), file, skips, false);
    BagOfSorted(Orient(renames, false), file, skips, true);
    BagReversed(renames, file, skips);
  }

  /** `--apply` and then `--apply --reverse` restore a file none of whose edited lines held a target name. */
  lemma FileRoundTrip(text: string, file: string, renames: seq<Rename>, skips: seq<GenericSkip>)
    requires Compatible(Active(file, Patterns(renames, false), skips))
    requires HoldsNone(text, file, Targets(Active(file, Patterns(renames, false), skips)))
    ensures AllValid(Active(file, Patterns(renames, true), skips))
    ensures var forward := FileRewritten(text, file, Active(file, Patterns(renames, false), skips));
      FileRewritten(forward, file, Active(file, Patterns(renames, true), skips)) == text
  {
    ReverseInverts(renames, file, skips);
    RulesUndoneInFile(text, file, Active(file, Patterns(renames, false), skips),
      Active(file, Patterns(renames, true), skips));
  }

  /** No line the codemod would edit has two tokens of one source name sharing a quote. */
  ghost predicate SharesNoQuote(text: string, file: string, names: set<string>) {
    var lines := Lines(text);
    forall i, name | 0 <= i < |lines| && Eligible(lines, file, i) && name in names :: !SharedQuote(lines[i], name)
  }

  lemma LineSettled(lines: seq<string>, file: string, rules: seq<Rule>, i: nat)
    requires Compatible(rules) && i < |lines|
    ensures Edited(LinesRewritten(lines, file, rules), file, rules, i) == Edited(lines, file, rules, i) <==>
            (Eligible(lines, file, i) ==> forall name | name in Sources(rules) :: !SharedQuote(lines[i], name))
  {
    RewriteKeepsShape(lines, file, rules, i);
    if Eligible(lines, file, i) {
      LineIdempotent(lines[i], rules);
      assert forall rule | rule in rules :: rule.from in Sources(rules);
    }
  }

  /** A second run in the same direction changes nothing exactly when no quote was shared. */
  lemma FileIdempotent(text: string, file: string, rules: seq<Rule>)
    requires Compatible(rules)
    ensures FileRewritten(FileRewritten(text, file, rules), file, rules) == FileRewritten(text, file, rules) <==>
            SharesNoQuote(text, file, Sources(rules))
  {
    var lines := Lines(text);
    var once := LinesRewritten(lines, file, rules);
    var twice := LinesRewritten(once, file, rules);
    forall i | 0 <= i < |lines|
      ensures twice[i] == once[i] <==>
              (Eligible(lines, file, i) ==> forall name | name in Sources(rules) :: !SharedQuote(lines[i], name))
    {
      LineSettled(lines, file, rules, i);
      LineAt(lines, file, rules, |lines|, i);
      LineAt(once, file, rules, |once|, i);
    }
    FileInLines(text, file, rules);
    FileInLines(FileRewritten(text, file, rules), file, rules);
    assert twice == once <==> forall i | 0 <= i < |lines| :: twice[i] == once[i];
  }

  // Which rename tables are compatible.

  predicate NamesApart(renames: seq<Rename>, i: nat, j: nat)
    requires i < |renames| && j < |renames|
  {
    && Apart(renames[i].upstream, renames[j].scoped)
    && (i != j ==> Apart(renames[i].upstream, renames[j].upstream) && Apart(renames[i].scoped, renames[j].scoped))
  }

  /** Every name is a package name, and none is another name of the table or a path prefix of it. */
  ghost predicate Separated(renames: seq<Rename>) {
    && (forall i | 0 <= i < |renames| :: IsName(renames[i].upstream) && IsName(renames[i].scoped))
    && forall i, j | 0 <= i < |renames| && 0 <= j < |renames| :: NamesApart(renames, i, j)
  }

  function ScopedNames(renames: seq<Rename>): set<string> {
    set rename | rename in renames :: rename.scoped
  }

  function RuleOf(rename: Rename, reverse: bool): Rule {
    if reverse then Rule(rename.scoped, rename.upstream) else Rule(rename.upstream, rename.scoped)
  }

  lemma SeparatedRules(renames: seq<Rename>, i: nat, j: nat, reverse: bool)
    requires Separated(renames) && i < |renames| && j < |renames|
    ensures var rule := RuleOf(renames[i], reverse); rule.Valid() && Apart(rule.from, rule.to)
    ensures i != j ==> FarApart(RuleOf(renames[i], reverse), RuleOf(renames[j], reverse))
  {
    assert NamesApart(renames, i, i) && NamesApart(renames, i, j) && NamesApart(renames, j, i);
  }

  lemma {:induction false} BagMember(renames: seq<Rename>, reverse: bool, file: string, skips: seq<GenericSkip>,
                                     rule: Rule)
    returns (i: nat)
    requires rule in Bag(Orient(renames, reverse), file, skips, false)
    ensures i < |renames| && rule == RuleOf(renames[i], reverse)
  {
    var all := Orient(renames, reverse);
    assert all[1..] == Orient(renames[1..], reverse);
    if rule in Unit(all[0], file, skips, false) {
      i := 0;
    } else {
      i := BagMember(renames[1..], reverse, file, skips, rule);
      i := i + 1;
    }
  }

  ghost predicate Distinct(renames: seq<Rename>, reverse: bool) {
    forall i, j | 0 <= i < j < |renames| :: RuleOf(renames[i], reverse) != RuleOf(renames[j], reverse)
  }

  lemma {:induction false} BagHasNoDuplicates(renames: seq<Rename>, reverse: bool, file: string,
                                              skips: seq<GenericSkip>, rule: Rule)
    requires Distinct(renames, reverse)
    ensures Bag(Orient(renames, reverse), file, skips, false)[rule] <= 1
  {
    if renames == [] {
    } else {
      var all, tail := Orient(renames, reverse), renames[1..];
      assert all[1..] == Orient(tail, reverse);
      assert forall i, j | 0 <= i < j < |tail| :: tail[i] == renames[i + 1] && tail[j] == renames[j + 1];
      BagHasNoDuplicates(tail, reverse, file, skips, rule);
      if rule in Bag(Orient(tail, reverse), file, skips, false) {
        var k := BagMember(tail, reverse, file, skips, rule);
        assert tail[k] == renames[k + 1] && rule != RuleOf(renames[0], reverse);
        assert rule !in Unit(all[0], file, skips, false);
      }
    }
  }

  lemma RepeatedTwice(rules: seq<Rule>, i: nat, j: nat)
    requires i < j < |rules| && rules[i] == rules[j]
    ensures multiset(rules)[rules[i]] >= 2
  {
    assert rules == rules[..j] + rules[j..];
    assert rules[i] in rules[..j] && rules[j] in rules[j..];
    assert multiset(rules) == multiset(rules[..j]) + multiset(rules[j..]);
  }

  lemma NoneRepeated(rules: seq<Rule>, i: nat, j: nat)
    requires i < |rules| && j < |rules| && i != j && multiset(rules)[rules[i]] <= 1
    ensures rules[i] != rules[j]
  {
    if rules[i] == rules[j] {
      if i < j { RepeatedTwice(rules, i, j); } else { RepeatedTwice(rules, j, i); }
    }
  }

  lemma ActiveMember(renames: seq<Rename>, file: string, skips: seq<GenericSkip>, reverse: bool, k: nat)
    returns (i: nat)
    requires k < |Active(file, Patterns(renames, reverse), skips)|
    ensures i < |renames| && Active(file, Patterns(renames, reverse), skips)[k] == RuleOf(renames[i], reverse)
  {
    var rules := Active(file, Patterns(renames, reverse), skips);
    BagOfActive(Patterns(renames, reverse), file, skips);
    BagOfSorted(Orient(renames, reverse), file, skips, false);
    assert rules[k] in multiset(rules);
    i := BagMember(renames, reverse, file, skips, rules[k]);
  }

  lemma ActivePairFarApart(renames: seq<Rename>, file: string, skips: seq<GenericSkip>, reverse: bool, i: nat, j: nat)
    requires Separated(renames)
    requires var n := |Active(file, Patterns(renames, reverse), skips)|; i < n && j < n && i != j
    ensures var rules := Active(file, Patterns(renames, reverse), skips); FarApart(rules[i], rules[j])
  {
    var rules := Active(file, Patterns(renames, reverse), skips);
    forall a, b | 0 <= a < b < |renames| ensures RuleOf(renames[a], reverse) != RuleOf(renames[b], reverse) {
      SeparatedRules(renames, a, b, reverse);
    }
    assert multiset(rules)[rules[i]] <= 1 by {
      BagOfActive(Patterns(renames, reverse), file, skips);
      BagOfSorted(Orient(renames, reverse), file, skips, false);
      BagHasNoDuplicates(renames, reverse, file, skips, rules[i]);
    }
    NoneRepeated(rules, i, j);
    var a := ActiveMember(renames, file, skips, reverse, i);
    var b := ActiveMember(renames, file, skips, reverse, j);
    SeparatedRules(renames, a, b, reverse);
  }

  /** A separated table's active rules are compatible in every file, for every skip list and direction. */
  lemma SeparatedIsCompatible(renames: seq<Rename>, file: string, skips: seq<GenericSkip>, reverse: bool)
    requires Separated(renames)
    ensures Compatible(Active(file, Patterns(renames, reverse), skips))
  {
    var rules := Active(file, Patterns(renames, reverse), skips);
    forall k | 0 <= k < |rules| ensures rules[k].Valid() && Apart(rules[k].from, rules[k].to) {
      var i := ActiveMember(renames, file, skips, reverse, k);
      SeparatedRules(renames, i, i, reverse);
    }
    forall i, j | 0 <= i < |rules| && 0 <= j < |rules| && i != j ensures FarApart(rules[i], rules[j]) {
      ActivePairFarApart(renames, file, skips, reverse, i, j);
    }
  }

  lemma SeparatedRoundTrip(text: string, file: string, renames: seq<Rename>, skips: seq<GenericSkip>)
    requires Separated(renames) && HoldsNone(text, file, ScopedNames(renames))
    ensures AllValid(Active(file, Patterns(renames, false), skips))
            && AllValid(Active(file, Patterns(renames, true), skips))
    ensures var forward := FileRewritten(text, file, Active(file, Patterns(renames, false), skips));
      FileRewritten(forward, file, Active(file, Patterns(renames, true), skips)) == text
  {
    var rules := Active(file, Patterns(renames, false), skips);
    SeparatedIsCompatible(renames, file, skips, false);
    forall name | name in Targets(rules) ensures name in ScopedNames(renames) {
      var k :| 0 <= k < |rules| && rules[k].to == name;
      var i := ActiveMember(renames, file, skips, false, k);
      assert renames[i] in renames;
    }
    FileRoundTrip(text, file, renames, skips);
  }
}
