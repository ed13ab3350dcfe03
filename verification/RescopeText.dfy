/** `rewriteLine` on raw text: its round trip and idempotence, lifted from cells. */
module RescopeText {
  import opened Options
  import opened JavaScript
  import opened RescopeCells
  import opened RescopeRules
  import opened RescopeLine

  predicate AllValid(rules: seq<Rule>) {
    forall rule | rule in rules :: rule.Valid()
  }

  /** The line after every rule, each rule's token form before its YAML form. */
  function LineRewritten(line: string, rules: seq<Rule>): string
    requires AllValid(rules)
    decreases |rules|
  {
    if rules == [] then line
    else
      var rule := rules[0];
      assert rule.Valid();
      LineRewritten(ReplaceYaml(ReplaceTokens(line, rule.from, rule.to), rule.from, rule.to, true), rules[1..])
  }

  /** The line holds a quoted token of the name: the pattern matches at some position. */
  predicate HoldsToken(line: string, name: string) {
    line != "" && (TokenMatch(line, name).Some? || HoldsToken(line[1..], name))
  }

  /** The text holds a YAML scalar of the name: the pattern matches at the start of some line of it. */
  predicate HoldsScalar(line: string, name: string, start: bool) {
    (start && YamlMatch(line, name).Some?) || (line != "" && HoldsScalar(line[1..], name, IsTerminator(line[0])))
  }

  predicate Holds(line: string, name: string) {
    HoldsToken(line, name) || HoldsScalar(line, name, true)
  }

  /** Two tokens of the name overlap in the quote that closes one and opens the other. */
  predicate SharedQuote(line: string, name: string) {
    line != ""
    && ((TokenMatch(line, name).Some? && TokenMatch(line[TokenMatch(line, name).value - 1..], name).Some?)
        || SharedQuote(line[1..], name))
  }

  lemma SwapKeepsText(op: Op, text: string, ends: bool)
    requires IsOp(op) && Matches(op, text, ends) && NoDelimiter(text)
    ensures NoDelimiter(Swap(op, text)) && !AllSpace(text) && !AllSpace(Swap(op, text))
  {
    var before, after := SplitAtName(op, text, ends);
    assert op.from[0] in text && op.to[0] in Swap(op, text);
    forall c | c in Swap(op, text) ensures !IsDelimiter(c) {
      assert c in op.to || c in text;
    }
  }

  lemma SplitAtName(op: Op, text: string, ends: bool) returns (before: string, after: string)
    requires Matches(op, text, ends)
    ensures text == before + (op.from + after) && Swap(op, text) == before + (op.to + after)
  {
    match op
    case Token(from, to) => before, after := "", text[|from|..];
    case Yaml(from, to) => before, after := SwapSplits(text, from, to, ends);
  }

  lemma {:induction false} PassKeepsClean(op: Op, cells: Cells, open: Option<char>, start: bool)
    requires IsOp(op) && Clean(cells)
    ensures Clean(Pass(op, cells, open, start))
  {
    var ends := cells.Last? || IsTerminator(cells.delimiter);
    if Matches(op, cells.text, ends) { SwapKeepsText(op, cells.text, ends); }
    if cells.Last? {
    } else {
      PassKeepsClean(op, cells.rest, None, ends);
      PassKeepsClean(op, cells.rest, Opens(cells.delimiter), ends);
    }
  }

  lemma RuleOnLine(rule: Rule, cells: Cells)
    requires rule.Valid() && Clean(cells)
    ensures Clean(ApplyRule(rule, cells))
    ensures ReplaceYaml(ReplaceTokens(Join(cells), rule.from, rule.to), rule.from, rule.to, true)
            == Join(ApplyRule(rule, cells))
  {
    var t := Token(rule.from, rule.to);
    PassKeepsClean(t, cells, None, true);
    PassKeepsClean(Yaml(rule.from, rule.to), Apply(t, cells), None, true);
    TokensArePass(cells, rule.from, rule.to, true);
    YamlIsPass(Apply(t, cells), rule.from, rule.to, None, true);
  }

  /** Rewriting a line edits its cells. */
  lemma {:induction false} LineIsCells(rules: seq<Rule>, cells: Cells)
    requires AllValid(rules) && Clean(cells)
    ensures LineRewritten(Join(cells), rules) == Join(ApplyAll(rules, cells)) && Clean(ApplyAll(rules, cells))
  {
    if rules == [] {
    } else {
      RuleOnLine(rules[0], cells);
      LineIsCells(rules[1..], ApplyRule(rules[0], cells));
    }
  }

  lemma {:induction false} TokensInText(text: string, tail: string, name: string)
    requires NoDelimiter(text)
    ensures HoldsToken(text + tail, name) <==> HoldsToken(tail, name)
    ensures SharedQuote(text + tail, name) <==> SharedQuote(tail, name)
  {
    if text == "" {
      assert text + tail == tail;
    } else {
      assert (text + tail)[1..] == text[1..] + tail;
      assert text[0] in text;
      TokensInText(text[1..], tail, name);
    }
  }

  /** Tokens seen from just after the quote before the cells, if there is one. */
  function Quoted(before: Option<char>, s: string): string {
    if before.Some? then [before.value] + s else s
  }

  lemma {:induction false} HeldTokens(cells: Cells, before: Option<char>, name: string, other: string, start: bool)
    requires Clean(cells) && IsName(name) && (before.Some? ==> IsQuote(before.value))
    ensures HoldsToken(Quoted(before, Join(cells)), name) <==> Count(Token(name, other), cells, before, start) > 0
  {
    var s, text := Join(cells), cells.text;
    var tail := if cells.Last? then "" else [cells.delimiter] + Join(cells.rest);
    assert text + "" == text;
    TokensInText(text, tail, name);
    if before.Some? {
      assert Quoted(before, s)[1..] == s;
      TokenAtCell(before.value, text, tail, name);
    }
    if cells.Last? {
    } else {
      var d := cells.delimiter;
      assert tail[1..] == Join(cells.rest);
      HeldTokens(cells.rest, Opens(d), name, other, IsTerminator(d));
    }
  }

  lemma {:induction false} ScalarsInText(text: string, tail: string, name: string)
    requires NoDelimiter(text)
    ensures HoldsScalar(text + tail, name, false) <==> HoldsScalar(tail, name, false)
  {
    if text == "" {
      assert text + tail == tail;
    } else {
      assert (text + tail)[1..] == text[1..] + tail;
      assert text[0] in text;
      ScalarsInText(text[1..], tail, name);
    }
  }

  /** A line's first cell holds the scalar, or the rest of the text does. */
  lemma ScalarAtCell(text: string, tail: string, name: string)
    requires NoDelimiter(text) && IsName(name) && (tail == "" || IsDelimiter(tail[0]))
    ensures HoldsScalar(text + tail, name, true) <==>
            (Matches(Yaml(name, ""), text, tail == "" || IsTerminator(tail[0])) || HoldsScalar(tail, name, false))
  {
    YamlAtCell(text, tail, name);
    ScalarsInText(text, tail, name);
    var here := YamlMatch(text + tail, name);
    assert HoldsScalar(text + tail, name, true) <==> (here.Some? || HoldsScalar(text + tail, name, false));
    if here.Some? && here.value.0 > |text| {
      var d, rest := tail[0], tail[1..];
      assert text + tail == (text + [d]) + rest by { assert tail == [d] + rest; }
      MatchOnNextLine(text, d, rest, name);
    }
  }

  lemma {:induction false} HeldScalars(cells: Cells, before: Option<char>, name: string, other: string, start: bool)
    requires Clean(cells) && IsName(name)
    ensures HoldsScalar(Join(cells), name, start) <==> Count(Yaml(name, other), cells, before, start) > 0
  {
    var text := cells.text;
    var tail := if cells.Last? then "" else [cells.delimiter] + Join(cells.rest);
    assert text + "" == text;
    if start { ScalarAtCell(text, tail, name); } else { ScalarsInText(text, tail, name); }
    if cells.Last? {
    } else {
      assert tail[1..] == Join(cells.rest);
      HeldScalars(cells.rest, Opens(cells.delimiter), name, other, IsTerminator(cells.delimiter));
    }
  }

  /** A line holds a name exactly when its cells do. */
  lemma HeldIsPresent(cells: Cells, name: string, other: string)
    requires Clean(cells) && IsName(name)
    ensures Holds(Join(cells), name) <==> !RuleAbsent(Rule(name, other), cells)
  {
    HeldTokens(cells, None, name, other, true);
    HeldScalars(cells, None, name, other, true);
  }

  /** A quote is shared here exactly when it closes a matched cell and opens another token. */
  lemma SharedAtCell(quote: char, text: string, tail: string, name: string)
    requires IsQuote(quote) && NoDelimiter(text) && IsName(name) && (tail == "" || IsDelimiter(tail[0]))
    ensures SharedQuote([quote] + (text + tail), name) <==>
            || (Matches(Token(name, ""), text, true) && tail != "" && tail[0] == quote && TokenMatch(tail, name).Some?)
            || SharedQuote(tail, name)
  {
    TokenAtCell(quote, text, tail, name);
    TokensInText(text, tail, name);
    var s := [quote] + (text + tail);
    assert s[1..] == text + tail && s[|text| + 1..] == tail;
  }

  lemma {:induction false} SharedQuotes(cells: Cells, before: Option<char>, name: string, other: string)
    requires Clean(cells) && IsName(name) && (before.Some? ==> IsQuote(before.value))
    ensures SharedQuote(Quoted(before, Join(cells)), name) <==> SharesQuote(Token(name, other), cells, before, false)
  {
    var text := cells.text;
    var tail := if cells.Last? then "" else [cells.delimiter] + Join(cells.rest);
    assert text + "" == text;
    TokensInText(text, tail, name);
    if before.Some? { SharedAtCell(before.value, text, tail, name); }
    if cells.Last? {
    } else {
      var d, rest := cells.delimiter, cells.rest;
      assert tail[1..] == Join(rest);
      SharedQuotes(rest, Opens(d), name, other);
      if IsQuote(d) { NextToken(d, rest, name, other); }
    }
  }

  lemma NextToken(quote: char, cells: Cells, name: string, other: string)
    requires Clean(cells) && IsName(name) && IsQuote(quote)
    ensures SharesQuote(Token(name, other), cells, Some(quote), true) <==>
            (TokenMatch([quote] + Join(cells), name).Some?
              || SharesQuote(Token(name, other), cells, Some(quote), false))
  {
    var tail := if cells.Last? then "" else [cells.delimiter] + Join(cells.rest);
    assert cells.text + "" == cells.text;
    TokenAtCell(quote, cells.text, tail, name);
  }

  lemma {:induction false} InvertedIsValid(rules: seq<Rule>, undo: seq<Rule>)
    requires AllValid(rules) && multiset(undo) == multiset(Inverted(rules))
    ensures AllValid(undo)
  {
    forall rule | rule in undo ensures rule.Valid() {
      assert rule in multiset(undo);
      InvertedMember(rules, rule);
      assert rule.Inverse().Valid();
    }
  }

  /** Reverse after forward restores a line that holds none of the target names. */
  lemma LineRoundTrip(line: string, rules: seq<Rule>, undo: seq<Rule>)
    requires Compatible(rules) && multiset(undo) == multiset(Inverted(rules))
    requires forall rule | rule in rules :: !Holds(line, rule.to)
    ensures AllValid(undo) && LineRewritten(LineRewritten(line, rules), undo) == line
  {
    var cells := Parse(line);
    JoinUndoesParse(line);
    InvertedIsValid(rules, undo);
    forall rule | rule in rules ensures RuleAbsent(rule.Inverse(), cells) {
      assert rule.Valid();
      HeldIsPresent(cells, rule.to, rule.from);
    }
    LineIsCells(rules, cells);
    LineIsCells(undo, ApplyAll(rules, cells));
    RulesUndone(rules, undo, cells);
  }

  /** Rewriting twice is rewriting once exactly when no two tokens of one source name share a quote. */
  lemma LineIdempotent(line: string, rules: seq<Rule>)
    requires Compatible(rules)
    ensures LineRewritten(LineRewritten(line, rules), rules) == LineRewritten(line, rules) <==>
            forall rule | rule in rules :: !SharedQuote(line, rule.from)
  {
    var cells := Parse(line);
    JoinUndoesParse(line);
    var once := ApplyAll(rules, cells);
    LineIsCells(rules, cells);
    LineIsCells(rules, once);
    ParseUndoesJoin(once);
    ParseUndoesJoin(ApplyAll(rules, once));
    IdempotentIffUnshared(rules, cells);
    forall rule | rule in rules ensures SharedQuote(line, rule.from) <==> Shares(rule, cells) {
      SharedQuotes(cells, None, rule.from, rule.to);
    }
  }
}
