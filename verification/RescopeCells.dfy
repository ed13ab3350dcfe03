/**
 * The rename codemod of scripts/rescope-vendor.ts on a line cut at its quote characters and line
 * terminators. Neither of its two patterns can match across such a cut, so each rewrite edits cells.
 */
module RescopeCells {
  import opened Options
  import opened JavaScript

  predicate IsQuote(c: char) {
    c == '\'' || c == '"' || c == '`'
  }

  predicate IsDelimiter(c: char) {
    IsQuote(c) || IsTerminator(c)
  }

  /** Text, the delimiter ending it, and what follows. */
  datatype Cells = Last(text: string) | Cell(text: string, delimiter: char, rest: Cells)

  predicate StartsWith(s: string, prefix: string) {
    |prefix| <= |s| && s[..|prefix|] == prefix
  }

  predicate NoSpace(s: string) {
    forall c | c in s :: !IsSpace(c)
  }

  predicate NoDelimiter(s: string) {
    forall c | c in s :: !IsDelimiter(c)
  }

  /** A package name: not empty, and free of white space, quotes and `#`. */
  predicate IsName(s: string) {
    s != "" && NoSpace(s) && NoDelimiter(s) && '#' !in s
  }

  /** One global replacement: the quoted token form or the YAML `name:` form of a rename. */
  datatype Op = Token(from: string, to: string) | Yaml(from: string, to: string)

  predicate IsOp(op: Op) {
    IsName(op.from) && IsName(op.to)
  }

  function Inverse(op: Op): Op {
    match op
    case Token(from, to) => Token(to, from)
    case Yaml(from, to) => Yaml(to, from)
  }

  function TabRun(s: string): (n: nat)
    ensures n <= |s|
  {
    if s != "" && IsTab(s[0]) then 1 + TabRun(s[1..]) else 0
  }

  predicate IsTab(c: char) {
    c == ' ' || c == '\t'
  }

  const NAME_KEY := "name:"

  /** Positions in `\s*(?:-\s*)?name:[ \t]+`. */
  datatype Stage = Indent | Dashed | Key(matched: nat) | Gap

  /** That pattern read one character at a time; each next character leaves at most one way on. */
  function Advance(c: char, stage: Stage): Option<Stage> {
    match stage
    case Indent =>
      if IsBlank(c) then Some(Indent) else if c == '-' then Some(Dashed)
      else if c == NAME_KEY[0] then Some(Key(1)) else None
    case Dashed => if IsBlank(c) then Some(Dashed) else if c == NAME_KEY[0] then Some(Key(1)) else None
    case Key(k) =>
      if k < |NAME_KEY| then (if c == NAME_KEY[k] then Some(Key(k + 1)) else None)
      else if IsTab(c) then Some(Gap) else None
    case Gap => if IsTab(c) then Some(Gap) else None
  }

  /** Length of the rest of that prefix, scanned from a position in it as far as it goes. */
  function PrefixFrom(s: string, stage: Stage): (r: Option<nat>)
    ensures r.Some? ==> r.value <= |s|
    ensures r.Some? && r.value > 0 ==> IsTab(s[r.value - 1])
    ensures r.Some? && r.value == 0 ==> stage == Gap
  {
    if s != "" && Advance(s[0], stage).Some? then
      var rest := PrefixFrom(s[1..], Advance(s[0], stage).value);
      if rest.Some? then Some(rest.value + 1) else None
    else if stage == Gap then Some(0)
    else None
  }

  function YamlPrefix(s: string): Option<nat> {
    PrefixFrom(s, Indent)
  }

  /** `[ \t]*(?:#.*)?$`, where the cell's end is the line's end iff `ends`. */
  predicate YamlSuffix(s: string, ends: bool) {
    var m := TabRun(s);
    if m == |s| then ends else s[m] == '#'
  }

  /** The name and a suffix running to the line's end. */
  predicate NameEnds(s: string, name: string, ends: bool) {
    StartsWith(s, name) && YamlSuffix(s[|name|..], ends)
  }

  /** A cell holds the operation's source form. */
  predicate Matches(op: Op, text: string, ends: bool) {
    match op
    case Token(from, _) =>
      StartsWith(text, from) && (|text| == |from| || text[|from|] == '/') && NoSpace(text)
    case Yaml(from, _) =>
      var p := YamlPrefix(text);
      p.Some? && NameEnds(text[p.value..], from, ends)
  }

  function Swap(op: Op, text: string): string
    requires Matches(op, text, true) || Matches(op, text, false)
  {
    match op
    case Token(from, to) => to + text[|from|..]
    case Yaml(from, to) =>
      var p := YamlPrefix(text).value;
      text[..p] + (to + text[p..][|from|..])
  }

  /** The place of a cell allows the operation: between two equal quotes, or at a line's start. */
  predicate Placed(op: Op, open: Option<char>, start: bool, delimiter: char) {
    match op
    case Token(_, _) => open == Some(delimiter) && IsQuote(delimiter)
    case Yaml(_, _) => start
  }

  /** The left-to-right scan: a matched token consumes its closing quote. */
  function Pass(op: Op, cells: Cells, open: Option<char>, start: bool): Cells {
    match cells
    case Last(text) =>
      if op.Yaml? && start && Matches(op, text, true) then Last(Swap(op, text)) else cells
    case Cell(text, d, rest) =>
      if Placed(op, open, start, d) && Matches(op, text, IsTerminator(d))
      then Cell(Swap(op, text), d, Pass(op, rest, if op.Token? then None else Opens(d), IsTerminator(d)))
      else Cell(text, d, Pass(op, rest, Opens(d), IsTerminator(d)))
  }

  function Opens(d: char): Option<char> {
    if IsQuote(d) then Some(d) else None
  }

  function Apply(op: Op, cells: Cells): Cells {
    Pass(op, cells, None, true)
  }

  /** Occurrences of the source form, whether or not they share a quote. */
  function Count(op: Op, cells: Cells, before: Option<char>, start: bool): nat {
    match cells
    case Last(text) => if op.Yaml? && start && Matches(op, text, true) then 1 else 0
    case Cell(text, d, rest) =>
      (if Placed(op, before, start, d) && Matches(op, text, IsTerminator(d)) then 1 else 0)
      + Count(op, rest, Opens(d), IsTerminator(d))
  }

  predicate Absent(op: Op, cells: Cells) {
    Count(op, cells, None, true) == 0
  }

  /** Two operations never look at each other's source or target form. */
  ghost predicate Disjoint(a: Op, b: Op) {
    && (forall text, ends | Matches(a, text, ends) :: !Matches(b, text, ends) && !Matches(b, Swap(a, text), ends))
    && (forall text, ends | Matches(b, text, ends) :: !Matches(a, text, ends) && !Matches(a, Swap(b, text), ends))
  }

  lemma {:induction false} PassesCommute(a: Op, b: Op, cells: Cells, oa: Option<char>, ob: Option<char>, start: bool)
    requires Disjoint(a, b)
    ensures Pass(a, Pass(b, cells, ob, start), oa, start) == Pass(b, Pass(a, cells, oa, start), ob, start)
  {
    match cells
    case Last(_) =>
    case Cell(text, d, rest) =>
      var ends := IsTerminator(d);
      var hitA := Placed(a, oa, start, d) && Matches(a, text, ends);
      var hitB := Placed(b, ob, start, d) && Matches(b, text, ends);
      PassesCommute(a, b, rest, if hitA && a.Token? then None else Opens(d),
                    if hitB && b.Token? then None else Opens(d), ends);
  }

  lemma {:induction false} PassKeepsCount(a: Op, b: Op, cells: Cells, open: Option<char>, before: Option<char>,
                                          start: bool)
    requires Disjoint(a, b)
    ensures Count(b, Pass(a, cells, open, start), before, start) == Count(b, cells, before, start)
  {
    hide Matches, Swap;
    match cells
    case Last(_) =>
    case Cell(text, d, rest) =>
      var hit := Placed(a, open, start, d) && Matches(a, text, IsTerminator(d));
      PassKeepsCount(a, b, rest, if hit && a.Token? then None else Opens(d), Opens(d), IsTerminator(d));
  }

  /** Swapping to the target form and back is the identity on a cell. */
  lemma SwapBack(op: Op, text: string, ends: bool)
    requires IsOp(op) && Matches(op, text, ends)
    ensures Matches(Inverse(op), Swap(op, text), ends) && Swap(Inverse(op), Swap(op, text)) == text
  {
    match op
    case Token(from, to) => TokenSwapBack(from, to, text);
    case Yaml(from, to) => YamlSwapBack(from, to, text, ends);
  }

  lemma TokenSwapBack(from: string, to: string, text: string)
    requires IsName(from) && IsName(to) && Matches(Token(from, to), text, true)
    ensures Matches(Token(to, from), Swap(Token(from, to), text), true)
    ensures Swap(Token(to, from), Swap(Token(from, to), text)) == text
  {
    var swapped := to + text[|from|..];
    assert swapped[..|to|] == to && swapped[|to|..] == text[|from|..];
    assert text == from + text[|from|..];
  }

  lemma YamlAssembled(prefix: string, name: string, other: string, tail: string, ends: bool)
    requires YamlPrefix(prefix + (name + tail)) == Some(|prefix|) && YamlSuffix(tail, ends)
    ensures Matches(Yaml(name, other), prefix + (name + tail), ends)
    ensures Swap(Yaml(name, other), prefix + (name + tail)) == prefix + (other + tail)
  {
    var text := prefix + (name + tail);
    assert text[|prefix|..] == name + tail;
    assert (name + tail)[..|name|] == name;
    assert (name + tail)[|name|..] == tail;
    assert text[..|prefix|] == prefix;
  }

  lemma YamlTaken(from: string, to: string, text: string, ends: bool) returns (prefix: string, tail: string)
    requires Matches(Yaml(from, to), text, ends)
    ensures text == prefix + (from + tail) && YamlPrefix(text) == Some(|prefix|) && YamlSuffix(tail, ends)
  {
    var p := YamlPrefix(text).value;
    prefix, tail := text[..p], text[p..][|from|..];
    assert text[p..] == from + tail;
  }

  lemma YamlSwapBack(from: string, to: string, text: string, ends: bool)
    requires IsName(from) && IsName(to) && Matches(Yaml(from, to), text, ends)
    ensures Matches(Yaml(to, from), Swap(Yaml(from, to), text), ends)
    ensures Swap(Yaml(to, from), Swap(Yaml(from, to), text)) == text
  {
    var prefix, tail := YamlTaken(from, to, text, ends);
    YamlAssembled(prefix, from, to, tail, ends);
    assert to[0] in to;
    PrefixIsLocal(prefix, from + tail, to + tail, Indent);
    YamlAssembled(prefix, to, from, tail, ends);
  }

  /** The prefix is decided before the name: any other name start leaves it as it is. */
  lemma {:induction false} PrefixIsLocal(prefix: string, a: string, b: string, stage: Stage)
    requires PrefixFrom(prefix + a, stage) == Some(|prefix|)
    requires b == "" || !IsTab(b[0])
    ensures PrefixFrom(prefix + b, stage) == Some(|prefix|)
  {
    if prefix == "" {
      assert prefix + a == a && prefix + b == b;
    } else {
      assert (prefix + a)[1..] == prefix[1..] + a && (prefix + b)[1..] == prefix[1..] + b;
      PrefixIsLocal(prefix[1..], a, b, Advance(prefix[0], stage).value);
    }
  }

  /** With no target form in the input, undoing an operation's pass restores it. */
  lemma {:induction false} PassUndone(op: Op, cells: Cells, open: Option<char>, before: Option<char>, start: bool)
    requires IsOp(op) && Count(Inverse(op), cells, before, start) == 0
    requires open.Some? ==> open == before
    ensures Pass(Inverse(op), Pass(op, cells, open, start), open, start) == cells
  {
    match cells
    case Last(text) =>
      if op.Yaml? && start && Matches(op, text, true) { SwapBack(op, text, true); }
    case Cell(text, d, rest) =>
      var ends := IsTerminator(d);
      assert Placed(Inverse(op), open, start, d) <==> Placed(op, open, start, d);
      if Placed(op, open, start, d) && Matches(op, text, ends) {
        SwapBack(op, text, ends);
        PassUndone(op, rest, if op.Token? then None else Opens(d), Opens(d), ends);
      } else {
        PassUndone(op, rest, Opens(d), Opens(d), ends);
      }
  }

  lemma {:induction false} AbsentPassIsIdle(op: Op, cells: Cells, open: Option<char>, before: Option<char>, start: bool)
    requires Count(op, cells, before, start) == 0 && (open.Some? ==> open == before)
    ensures Pass(op, cells, open, start) == cells
  {
    match cells
    case Last(_) =>
    case Cell(_, d, rest) => AbsentPassIsIdle(op, rest, Opens(d), Opens(d), IsTerminator(d));
  }

  /** Some two occurrences of a token share a quote character. */
  predicate SharesQuote(op: Op, cells: Cells, before: Option<char>, taken: bool) {
    match cells
    case Last(_) => false
    case Cell(text, d, rest) =>
      var here := op.Token? && Placed(op, before, false, d) && Matches(op, text, IsTerminator(d));
      (here && taken) || SharesQuote(op, rest, Opens(d), here)
  }

  /** The target form of an operation is not also its source form. */
  ghost predicate Moves(op: Op) {
    forall text, ends | Matches(op, text, ends) :: !Matches(op, Swap(op, text), ends)
  }

  /** One pass leaves occurrences behind exactly when two of them share a quote. */
  lemma {:induction false} LeftoverIffShared(op: Op, cells: Cells, before: Option<char>, taken: bool, start: bool)
    requires Moves(op) && (taken ==> op.Token?)
    ensures Count(op, Pass(op, cells, if taken then None else before, start), before, start) == 0 <==>
            !SharesQuote(op, cells, before, taken)
  {
    match cells
    case Last(_) =>
    case Cell(text, d, rest) =>
      var ends := IsTerminator(d);
      var hit := Placed(op, if taken then None else before, start, d) && Matches(op, text, ends);
      var here := op.Token? && Placed(op, before, false, d) && Matches(op, text, ends);
      LeftoverIffShared(op, rest, Opens(d), hit && op.Token?, ends);
      if here && !hit {
        assert taken;
      }
  }

  /** A pass over cells that still hold an occurrence removes at least one. */
  lemma {:induction false} PassRemoves(op: Op, cells: Cells, open: Option<char>, before: Option<char>, start: bool)
    requires Moves(op) && (open == before || (open == None && op.Token?))
    ensures Count(op, Pass(op, cells, open, start), before, start) <= Count(op, cells, before, start)
    ensures open == before && Count(op, cells, before, start) > 0 ==>
              Count(op, Pass(op, cells, open, start), before, start) < Count(op, cells, before, start)
  {
    match cells
    case Last(_) =>
    case Cell(text, d, rest) =>
      var hit := Placed(op, open, start, d) && Matches(op, text, IsTerminator(d));
      PassRemoves(op, rest, if hit && op.Token? then None else Opens(d), Opens(d), IsTerminator(d));
  }
}
