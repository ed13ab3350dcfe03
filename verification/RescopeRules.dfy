/** Whole rename lists on cells: order independence, round trip and idempotence. */
module RescopeRules {
  import opened Options
  import opened RescopeCells
  import Sequences

  /** One rename, oriented for the running direction. */
  datatype Rule = Rule(from: string, to: string) {
    predicate Valid() { IsName(from) && IsName(to) }
    function Inverse(): Rule { Rule(to, from) }
  }

  /** The token form first, then the YAML form, as `rewriteLine` applies them. */
  function ApplyRule(rule: Rule, cells: Cells): Cells {
    Apply(Yaml(rule.from, rule.to), Apply(Token(rule.from, rule.to), cells))
  }

  function ApplyAll(rules: seq<Rule>, cells: Cells): Cells {
    if rules == [] then cells else ApplyAll(rules[1..], ApplyRule(rules[0], cells))
  }

  predicate RuleAbsent(rule: Rule, cells: Cells) {
    Absent(Token(rule.from, rule.to), cells) && Absent(Yaml(rule.from, rule.to), cells)
  }

  /** Neither name is the other, nor a path prefix of it. */
  predicate Apart(x: string, y: string) {
    x != y && !StartsWith(y, x + "/") && !StartsWith(x, y + "/")
  }

  predicate FarApart(a: Rule, b: Rule) {
    Apart(a.from, b.from) && Apart(a.from, b.to) && Apart(a.to, b.from) && Apart(a.to, b.to)
  }

  /** Valid rules whose names never overlap, within a rule or between two. */
  ghost predicate Compatible(rules: seq<Rule>) {
    && (forall rule | rule in rules :: rule.Valid() && Apart(rule.from, rule.to))
    && forall i, j | 0 <= i < |rules| && 0 <= j < |rules| && i != j :: FarApart(rules[i], rules[j])
  }

  function Inverted(rules: seq<Rule>): seq<Rule> {
    if rules == [] then [] else [rules[0].Inverse()] + Inverted(rules[1..])
  }

  lemma TokenNamesApart(x: string, y: string, text: string)
    requires IsName(x) && IsName(y) && Apart(x, y)
    ensures !(Matches(Token(x, ""), text, true) && Matches(Token(y, ""), text, true))
  {
    if Matches(Token(x, ""), text, true) && Matches(Token(y, ""), text, true) {
      if |x| == |y| {
        assert false;
      } else if |x| < |y| {
        PathPrefix(x, y, text);
      } else {
        PathPrefix(y, x, text);
      }
    }
  }

  lemma PathPrefix(x: string, y: string, text: string)
    requires StartsWith(text, x) && StartsWith(text, y) && |x| < |y| && text[|x|] == '/'
    ensures StartsWith(y, x + "/")
  {
    assert y[..|x| + 1] == text[..|x| + 1] == x + "/";
  }

  /** A name followed by a YAML suffix is the whole run up to a blank, `#` or the cell's end. */
  lemma ShorterNameGoesOn(x: string, y: string, tx: string, ty: string, ends: bool)
    requires IsName(y) && x + tx == y + ty && |x| < |y|
    ensures !YamlSuffix(tx, ends)
  {
    assert tx[0] == (x + tx)[|x|] == (y + ty)[|x|] == y[|x|];
    assert y[|x|] in y;
  }

  lemma NameIsUnique(x: string, y: string, tx: string, ty: string, ends: bool)
    requires IsName(x) && IsName(y) && x + tx == y + ty && YamlSuffix(tx, ends) && YamlSuffix(ty, ends)
    ensures x == y
  {
    if |x| != |y| {
      if |x| < |y| { ShorterNameGoesOn(x, y, tx, ty, ends); } else { ShorterNameGoesOn(y, x, ty, tx, ends); }
      assert false;
    }
    assert x == (x + tx)[..|x|] == (y + ty)[..|y|] == y;
  }

  lemma YamlNamesAgree(x: string, xo: string, y: string, yo: string, text: string, ends: bool)
    requires IsName(x) && IsName(y) && Matches(Yaml(x, xo), text, ends) && Matches(Yaml(y, yo), text, ends)
    ensures x == y
  {
    var px, tx := YamlTaken(x, xo, text, ends);
    var py, ty := YamlTaken(y, yo, text, ends);
    assert text[|px|..] == x + tx && text[|py|..] == y + ty;
    NameIsUnique(x, y, tx, ty, ends);
  }

  lemma YamlCellHasBlank(name: string, other: string, text: string, ends: bool)
    requires Matches(Yaml(name, other), text, ends)
    ensures !NoSpace(text)
  {
    var p := YamlPrefix(text).value;
    assert text[p - 1] in text;
  }

  lemma TokensDisjoint(a: Rule, b: Rule)
    requires a.Valid() && b.Valid() && FarApart(a, b)
    ensures Disjoint(Token(a.from, a.to), Token(b.from, b.to))
  {
    var p, q := Token(a.from, a.to), Token(b.from, b.to);
    forall text, ends | Matches(p, text, ends) ensures !Matches(q, text, ends) && !Matches(q, Swap(p, text), ends) {
      TokenSwapBack(a.from, a.to, text);
      TokenNamesApart(a.from, b.from, text);
      TokenNamesApart(a.to, b.from, Swap(p, text));
    }
    forall text, ends | Matches(q, text, ends) ensures !Matches(p, text, ends) && !Matches(p, Swap(q, text), ends) {
      TokenSwapBack(b.from, b.to, text);
      TokenNamesApart(a.from, b.from, text);
      TokenNamesApart(a.from, b.to, Swap(q, text));
    }
  }

  lemma YamlNotOther(a: Rule, b: Rule, text: string, swapped: string, ends: bool)
    requires a.Valid() && b.Valid() && FarApart(a, b)
    requires Matches(Yaml(a.from, a.to), text, ends) && Matches(Yaml(a.to, a.from), swapped, ends)
    ensures !Matches(Yaml(b.from, b.to), text, ends) && !Matches(Yaml(b.from, b.to), swapped, ends)
  {
    if Matches(Yaml(b.from, b.to), text, ends) {
      YamlNamesAgree(a.from, a.to, b.from, b.to, text, ends);
    }
    if Matches(Yaml(b.from, b.to), swapped, ends) {
      YamlNamesAgree(a.to, a.from, b.from, b.to, swapped, ends);
    }
  }

  lemma YamlsDisjoint(a: Rule, b: Rule)
    requires a.Valid() && b.Valid() && FarApart(a, b) && FarApart(b, a)
    ensures Disjoint(Yaml(a.from, a.to), Yaml(b.from, b.to))
  {
    forall text, ends | Matches(Yaml(a.from, a.to), text, ends)
      ensures !Matches(Yaml(b.from, b.to), text, ends)
              && !Matches(Yaml(b.from, b.to), Swap(Yaml(a.from, a.to), text), ends)
    {
      YamlSwapBack(a.from, a.to, text, ends);
      YamlNotOther(a, b, text, Swap(Yaml(a.from, a.to), text), ends);
    }
    forall text, ends | Matches(Yaml(b.from, b.to), text, ends)
      ensures !Matches(Yaml(a.from, a.to), text, ends)
              && !Matches(Yaml(a.from, a.to), Swap(Yaml(b.from, b.to), text), ends)
    {
      YamlSwapBack(b.from, b.to, text, ends);
      YamlNotOther(b, a, text, Swap(Yaml(b.from, b.to), text), ends);
    }
  }

  lemma SpacelessIsNotYaml(name: string, other: string, text: string, ends: bool)
    requires NoSpace(text)
    ensures !Matches(Yaml(name, other), text, ends)
  {
    if Matches(Yaml(name, other), text, ends) { YamlCellHasBlank(name, other, text, ends); }
  }

  /** A token cell holds no white space and a YAML cell always does, before and after either edit. */
  lemma FormsDisjoint(a: Rule, b: Rule)
    requires a.Valid() && b.Valid()
    ensures Disjoint(Token(a.from, a.to), Yaml(b.from, b.to))
  {
    forall text, ends | Matches(Token(a.from, a.to), text, ends)
      ensures !Matches(Yaml(b.from, b.to), text, ends)
              && !Matches(Yaml(b.from, b.to), Swap(Token(a.from, a.to), text), ends)
    {
      TokenSwapBack(a.from, a.to, text);
      SpacelessIsNotYaml(b.from, b.to, text, ends);
      SpacelessIsNotYaml(b.from, b.to, Swap(Token(a.from, a.to), text), ends);
    }
    forall text, ends | Matches(Yaml(b.from, b.to), text, ends)
      ensures !Matches(Token(a.from, a.to), text, ends)
              && !Matches(Token(a.from, a.to), Swap(Yaml(b.from, b.to), text), ends)
    {
      YamlSwapBack(b.from, b.to, text, ends);
      YamlCellHasBlank(b.from, b.to, text, ends);
      YamlCellHasBlank(b.to, b.from, Swap(Yaml(b.from, b.to), text), ends);
    }
  }

  lemma RulesCommute(a: Rule, b: Rule, cells: Cells)
    requires a.Valid() && b.Valid() && FarApart(a, b)
    ensures ApplyRule(a, ApplyRule(b, cells)) == ApplyRule(b, ApplyRule(a, cells))
  {
    var ta, ya, tb, yb := Token(a.from, a.to), Yaml(a.from, a.to), Token(b.from, b.to), Yaml(b.from, b.to);
    TokensDisjoint(a, b);
    YamlsDisjoint(a, b);
    FormsDisjoint(a, b);
    FormsDisjoint(b, a);
    var tbc := Apply(tb, cells);
    PassesCommute(ta, yb, tbc, None, None, true);
    PassesCommute(ta, tb, cells, None, None, true);
    var both := Apply(ta, tbc);
    PassesCommute(ya, yb, both, None, None, true);
    PassesCommute(tb, ya, Apply(ta, cells), None, None, true);
  }

  lemma RuleKeepsAbsence(a: Rule, b: Rule, cells: Cells)
    requires a.Valid() && b.Valid() && FarApart(a, b)
    ensures RuleAbsent(b, ApplyRule(a, cells)) <==> RuleAbsent(b, cells)
  {
    var ta, ya, tb, yb := Token(a.from, a.to), Yaml(a.from, a.to), Token(b.from, b.to), Yaml(b.from, b.to);
    TokensDisjoint(a, b);
    YamlsDisjoint(a, b);
    FormsDisjoint(a, b);
    FormsDisjoint(b, a);
    PassKeepsCount(ta, tb, cells, None, None, true);
    PassKeepsCount(ta, yb, cells, None, None, true);
    PassKeepsCount(ya, tb, Apply(ta, cells), None, None, true);
    PassKeepsCount(ya, yb, Apply(ta, cells), None, None, true);
  }

  lemma RuleUndone(rule: Rule, cells: Cells)
    requires rule.Valid() && RuleAbsent(rule.Inverse(), cells)
    ensures ApplyRule(rule.Inverse(), ApplyRule(rule, cells)) == cells
  {
    var t, y := Token(rule.from, rule.to), Yaml(rule.from, rule.to);
    var ti, yi := Token(rule.to, rule.from), Yaml(rule.to, rule.from);
    FormsDisjoint(rule.Inverse(), rule);
    PassesCommute(ti, y, Apply(t, cells), None, None, true);
    PassUndone(t, cells, None, None, true);
    PassUndone(y, cells, None, None, true);
  }

  lemma {:induction false} RulePushesThrough(a: Rule, rules: seq<Rule>, cells: Cells)
    requires a.Valid() && forall b | b in rules :: b.Valid() && FarApart(a, b)
    ensures ApplyAll(rules, ApplyRule(a, cells)) == ApplyRule(a, ApplyAll(rules, cells))
  {
    if rules == [] {
    } else {
      RulesCommute(a, rules[0], cells);
      RulePushesThrough(a, rules[1..], ApplyRule(rules[0], cells));
    }
  }

  lemma {:induction false} AllKeepAbsence(rules: seq<Rule>, b: Rule, cells: Cells)
    requires b.Valid() && forall a | a in rules :: a.Valid() && FarApart(a, b)
    ensures RuleAbsent(b, ApplyAll(rules, cells)) <==> RuleAbsent(b, cells)
  {
    if rules == [] {
    } else {
      RuleKeepsAbsence(rules[0], b, cells);
      AllKeepAbsence(rules[1..], b, ApplyRule(rules[0], cells));
    }
  }

  lemma {:induction false} ApplyAllSplits(a: seq<Rule>, b: seq<Rule>, cells: Cells)
    ensures ApplyAll(a + b, cells) == ApplyAll(b, ApplyAll(a, cells))
  {
    if a == [] {
      assert a + b == b;
    } else {
      assert (a + b)[1..] == a[1..] + b;
      ApplyAllSplits(a[1..], b, ApplyRule(a[0], cells));
    }
  }

  lemma {:induction false} InvertedMember(rules: seq<Rule>, rule: Rule)
    requires rule in Inverted(rules)
    ensures rule.Inverse() in rules
  {
    if rule == rules[0].Inverse() {
    } else {
      InvertedMember(rules[1..], rule);
    }
  }

  lemma Located(rule: Rule, undo: seq<Rule>) returns (a: seq<Rule>, b: seq<Rule>)
    requires rule in undo
    ensures undo == a + ([rule] + b)
  {
    var k :| 0 <= k < |undo| && undo[k] == rule;
    a, b := undo[..k], undo[k + 1..];
  }

  lemma InverseIsListed(rules: seq<Rule>, undo: seq<Rule>) returns (a: seq<Rule>, b: seq<Rule>)
    requires rules != [] && multiset(undo) == multiset(Inverted(rules))
    ensures undo == a + ([rules[0].Inverse()] + b)
    ensures multiset(a + b) == multiset(Inverted(rules[1..]))
  {
    var inverse, tail := rules[0].Inverse(), Inverted(rules[1..]);
    Sequences.InsertedOnce([], inverse, tail);
    assert inverse in undo by { assert inverse in multiset(undo); }
    a, b := Located(inverse, undo);
    Sequences.InsertedOnce(a, inverse, b);
    assert [] + tail == tail && [] + ([inverse] + tail) == Inverted(rules);
    Sequences.CancelOne(multiset(a + b), multiset(tail), inverse);
  }

  /** Undoing one rule in the middle of others cancels its application before them. */
  lemma RuleCancels(rule: Rule, a: seq<Rule>, b: seq<Rule>, x: Cells)
    requires rule.Valid() && RuleAbsent(rule.Inverse(), x)
    requires forall q | q in a :: q.Valid() && FarApart(rule, q) && FarApart(q, rule.Inverse())
    ensures ApplyAll(a + ([rule.Inverse()] + b), ApplyRule(rule, x)) == ApplyAll(a + b, x)
  {
    var inverse := rule.Inverse();
    RulePushesThrough(rule, a, x);
    AllKeepAbsence(a, inverse, x);
    RuleUndone(rule, ApplyAll(a, x));
    ApplyAllSplits(a, [inverse] + b, ApplyRule(rule, x));
    ApplyAllSplits(a, b, x);
    assert ([inverse] + b)[1..] == b;
  }

  lemma FirstRuleCancels(rules: seq<Rule>, a: seq<Rule>, b: seq<Rule>, cells: Cells)
    requires Compatible(rules) && rules != [] && multiset(a + b) == multiset(Inverted(rules[1..]))
    requires RuleAbsent(rules[0].Inverse(), cells)
    ensures ApplyAll(a + ([rules[0].Inverse()] + b), ApplyAll(rules, cells))
            == ApplyAll(a + b, ApplyAll(rules[1..], cells))
  {
    FarFromOthers(rules, a + b);
    assert forall q | q in a :: q in a + b;
    RulePushesThrough(rules[0], rules[1..], cells);
    AllKeepAbsence(rules[1..], rules[0].Inverse(), cells);
    RuleCancels(rules[0], a, b, ApplyAll(rules[1..], cells));
  }

  /** No rule's target name occurs. */
  ghost predicate NoTarget(rules: seq<Rule>, cells: Cells) {
    forall rule | rule in rules :: RuleAbsent(rule.Inverse(), cells)
  }

  /**
   * Round trip: if no target name occurs in the input, undoing the renames in any order restores it.
   */
  lemma {:induction false} RulesUndone(rules: seq<Rule>, undo: seq<Rule>, cells: Cells)
    requires Compatible(rules) && multiset(undo) == multiset(Inverted(rules))
    requires NoTarget(rules, cells)
    ensures ApplyAll(undo, ApplyAll(rules, cells)) == cells
    decreases |rules|
  {
    if rules == [] {
      assert |undo| == |multiset(undo)|;
    } else {
      var a, b := InverseIsListed(rules, undo);
      assert NoTarget(rules[1..], cells) && RuleAbsent(rules[0].Inverse(), cells);
      FirstRuleCancels(rules, a, b, cells);
      CompatibleTail(rules);
      RulesUndone(rules[1..], a + b, cells);
    }
  }

  lemma CompatibleTail(rules: seq<Rule>)
    requires Compatible(rules) && rules != []
    ensures Compatible(rules[1..])
    ensures forall b | b in rules[1..] :: b.Valid() && FarApart(rules[0], b) && FarApart(b, rules[0].Inverse())
  {
    var tail := rules[1..];
    forall i, j | 0 <= i < |tail| && 0 <= j < |tail| && i != j ensures FarApart(tail[i], tail[j]) {
      assert FarApart(rules[i + 1], rules[j + 1]);
    }
    forall b | b in tail ensures b.Valid() && FarApart(rules[0], b) && FarApart(b, rules[0].Inverse()) {
      var i :| 0 <= i < |tail| && tail[i] == b;
      assert FarApart(rules[0], rules[i + 1]);
    }
  }

  lemma FarFromOthers(rules: seq<Rule>, undo: seq<Rule>)
    requires Compatible(rules) && rules != [] && multiset(undo) == multiset(Inverted(rules[1..]))
    ensures rules[0].Valid()
    ensures forall b | b in rules[1..] :: b.Valid() && FarApart(rules[0], b) && FarApart(b, rules[0].Inverse())
    ensures forall q | q in undo :: q.Valid() && FarApart(rules[0], q) && FarApart(q, rules[0].Inverse())
  {
    CompatibleTail(rules);
    assert rules[0] in rules;
    forall q | q in undo ensures q.Valid() && FarApart(rules[0], q) && FarApart(q, rules[0].Inverse()) {
      assert q in multiset(Inverted(rules[1..]));
      InvertedMember(rules[1..], q);
      assert FarApart(rules[0], q.Inverse());
    }
  }

  lemma RuleMoves(rule: Rule)
    requires rule.Valid() && Apart(rule.from, rule.to)
    ensures Moves(Token(rule.from, rule.to)) && Moves(Yaml(rule.from, rule.to))
  {
    var t, y := Token(rule.from, rule.to), Yaml(rule.from, rule.to);
    forall text, ends | Matches(t, text, ends) ensures !Matches(t, Swap(t, text), ends) {
      TokenSwapBack(rule.from, rule.to, text);
      TokenNamesApart(rule.from, rule.to, Swap(t, text));
    }
    forall text, ends | Matches(y, text, ends) ensures !Matches(y, Swap(y, text), ends) {
      YamlSwapBack(rule.from, rule.to, text, ends);
      var swapped := Swap(y, text);
      if Matches(y, swapped, ends) { YamlNamesAgree(rule.from, rule.to, rule.to, rule.from, swapped, ends); }
    }
  }

  /** Two tokens of the rule's name share a quote character somewhere in the line. */
  predicate Shares(rule: Rule, cells: Cells) {
    SharesQuote(Token(rule.from, rule.to), cells, None, false)
  }

  /** One application leaves the rule's source name behind exactly when two tokens share a quote. */
  lemma RuleLeftover(rule: Rule, cells: Cells)
    requires rule.Valid() && Apart(rule.from, rule.to)
    ensures RuleAbsent(rule, ApplyRule(rule, cells)) <==> !Shares(rule, cells)
  {
    var t, y := Token(rule.from, rule.to), Yaml(rule.from, rule.to);
    RuleMoves(rule);
    FormsDisjoint(rule, rule);
    LeftoverIffShared(t, cells, None, false, true);
    LeftoverIffShared(y, Apply(t, cells), None, false, true);
    YamlSharesNothing(y, Apply(t, cells), None, false);
    PassKeepsCount(y, t, Apply(t, cells), None, None, true);
  }

  lemma {:induction false} YamlSharesNothing(op: Op, cells: Cells, before: Option<char>, taken: bool)
    requires op.Yaml?
    ensures !SharesQuote(op, cells, before, taken)
  {
    match cells
    case Last(_) =>
    case Cell(_, d, rest) => YamlSharesNothing(op, rest, Opens(d), false);
  }

  lemma RuleIdle(rule: Rule, cells: Cells)
    requires RuleAbsent(rule, cells)
    ensures ApplyRule(rule, cells) == cells
  {
    AbsentPassIsIdle(Token(rule.from, rule.to), cells, None, None, true);
    AbsentPassIsIdle(Yaml(rule.from, rule.to), cells, None, None, true);
  }

  lemma {:induction false} AllIdle(rules: seq<Rule>, cells: Cells)
    requires forall rule | rule in rules :: RuleAbsent(rule, cells)
    ensures ApplyAll(rules, cells) == cells
  {
    if rules == [] {
    } else {
      RuleIdle(rules[0], cells);
      AllIdle(rules[1..], cells);
    }
  }

  /** After all rules, a rule's source name is left exactly when its tokens shared a quote at the start. */
  lemma LeftoverAfterAll(rules: seq<Rule>, cells: Cells, i: nat)
    requires Compatible(rules) && i < |rules|
    ensures RuleAbsent(rules[i], ApplyAll(rules, cells)) <==> !Shares(rules[i], cells)
  {
    var rule, a, b := rules[i], rules[..i], rules[i + 1..];
    assert rules == a + ([rule] + b);
    assert forall q | q in a :: q.Valid() && FarApart(rule, q) && FarApart(q, rule);
    assert forall q | q in b :: q.Valid() && FarApart(rule, q) && FarApart(q, rule);
    ApplyAllSplits(a, [rule] + b, cells);
    assert ([rule] + b)[1..] == b;
    RulePushesThrough(rule, a, cells);
    AllKeepAbsence(b, rule, ApplyRule(rule, ApplyAll(a, cells)));
    AllKeepAbsence(a, rule, ApplyRule(rule, cells));
    RuleLeftover(rule, cells);
  }

  lemma {:induction false} ResidueIsConsumed(rules: seq<Rule>, cells: Cells, i: nat)
    requires Compatible(rules) && i < |rules| && !RuleAbsent(rules[i], cells)
    ensures ApplyAll(rules, cells) != cells
  {
    var rule := rules[i];
    var t, y := Token(rule.from, rule.to), Yaml(rule.from, rule.to);
    RuleMoves(rule);
    FormsDisjoint(rule, rule);
    PassRemoves(t, cells, None, None, true);
    PassRemoves(y, Apply(t, cells), None, None, true);
    PassKeepsCount(t, y, cells, None, None, true);
    PassKeepsCount(y, t, Apply(t, cells), None, None, true);
    OthersKeepCounts(rules, cells, i);
  }

  /** The occurrences of one rule's source name after all rules are those after that rule alone. */
  lemma OthersKeepCounts(rules: seq<Rule>, cells: Cells, i: nat)
    requires Compatible(rules) && i < |rules|
    ensures Occurrences(rules[i], ApplyAll(rules, cells)) == Occurrences(rules[i], ApplyRule(rules[i], cells))
  {
    var rule, a, b := rules[i], rules[..i], rules[i + 1..];
    assert rules == a + ([rule] + b);
    assert forall q | q in a :: q.Valid() && FarApart(rule, q) && FarApart(q, rule);
    assert forall q | q in b :: q.Valid() && FarApart(rule, q) && FarApart(q, rule);
    ApplyAllSplits(a, [rule] + b, cells);
    assert ([rule] + b)[1..] == b;
    RulePushesThrough(rule, a, cells);
    AllKeepOccurrences(b, rule, ApplyRule(rule, ApplyAll(a, cells)));
    AllKeepOccurrences(a, rule, ApplyRule(rule, cells));
  }

  function Occurrences(rule: Rule, cells: Cells): nat {
    Count(Token(rule.from, rule.to), cells, None, true) + Count(Yaml(rule.from, rule.to), cells, None, true)
  }

  lemma {:induction false} AllKeepOccurrences(rules: seq<Rule>, b: Rule, cells: Cells)
    requires b.Valid() && forall a | a in rules :: a.Valid() && FarApart(a, b) && FarApart(b, a)
    ensures Occurrences(b, ApplyAll(rules, cells)) == Occurrences(b, cells)
  {
    if rules == [] {
    } else {
      var a := rules[0];
      var ta, ya, tb, yb := Token(a.from, a.to), Yaml(a.from, a.to), Token(b.from, b.to), Yaml(b.from, b.to);
      TokensDisjoint(a, b);
      YamlsDisjoint(a, b);
      FormsDisjoint(a, b);
      FormsDisjoint(b, a);
      PassKeepsCount(ta, tb, cells, None, None, true);
      PassKeepsCount(ta, yb, cells, None, None, true);
      PassKeepsCount(ya, tb, Apply(ta, cells), None, None, true);
      PassKeepsCount(ya, yb, Apply(ta, cells), None, None, true);
      AllKeepOccurrences(rules[1..], b, ApplyRule(a, cells));
    }
  }

  /** A second application changes nothing exactly when no two tokens of one name share a quote. */
  lemma IdempotentIffUnshared(rules: seq<Rule>, cells: Cells)
    requires Compatible(rules)
    ensures ApplyAll(rules, ApplyAll(rules, cells)) == ApplyAll(rules, cells) <==>
            forall rule | rule in rules :: !Shares(rule, cells)
  {
    var once := ApplyAll(rules, cells);
    forall i | 0 <= i < |rules| ensures RuleAbsent(rules[i], once) <==> !Shares(rules[i], cells) {
      LeftoverAfterAll(rules, cells, i);
    }
    if forall rule | rule in rules :: !Shares(rule, cells) {
      AllIdle(rules, once);
    } else {
      var i :| 0 <= i < |rules| && Shares(rules[i], cells);
      ResidueIsConsumed(rules, once, i);
    }
  }
}
