/** The destination scanner of scripts/markdown.ts against the link syntax it is meant to read. */
module MarkdownDestination {
  import opened Options
  import opened JavaScript

  // The scanner.

  function IndexFrom(s: string, c: char, i: nat): Option<nat>
    requires i <= |s|
    decreases |s| - i
  {
    if i == |s| then None else if s[i] == c then Some(i) else IndexFrom(s, c, i + 1)
  }

  /** The label's closing bracket, scanned from a position at some bracket depth. */
  function LabelFrom(s: string, i: nat, depth: int): Option<nat>
    decreases |s| - i
  {
    if i >= |s| then None
    else if s[i] == '\\' then LabelFrom(s, i + 2, depth)
    else if s[i] == '[' then LabelFrom(s, i + 1, depth + 1)
    else if s[i] == ']' then (if depth == 1 then Some(i) else LabelFrom(s, i + 1, depth - 1))
    else LabelFrom(s, i + 1, depth)
  }

  function LabelEndOf(s: string): Option<nat> {
    var first := IndexFrom(s, '[', 0);
    if first.None? then None else LabelFrom(s, first.value, 0)
  }

  method LabelEnd(source: string) returns (end: Option<nat>)
    ensures end == LabelEndOf(source)
  {
    var first := IndexFrom(source, '[', 0);
    if first.None? { return None; }
    var depth, index := 0, first.value;
    while index < |source|
      invariant LabelFrom(source, index, depth) == LabelEndOf(source)
      decreases |source| - index
    {
      var c := source[index];
      if c == '\\' {
        index := index + 1;
      } else if c == '[' {
        depth := depth + 1;
      } else if c == ']' {
        depth := depth - 1;
        if depth == 0 { return Some(index); }
      }
      index := index + 1;
    }
    return None;
  }

  function SkipSpace(s: string, i: nat): (r: nat)
    ensures i <= r && (i <= |s| ==> r <= |s|)
    decreases |s| - i
  {
    if i < |s| && IsSpace(s[i]) then SkipSpace(s, i + 1) else i
  }

  method SkipWhitespace(source: string, start: nat) returns (index: nat)
    ensures index == SkipSpace(source, start)
    ensures start <= index && forall k | start <= k < index :: k < |source| && IsSpace(source[k])
    ensures index < |source| ==> !IsSpace(source[index])
  {
    index := start;
    while index < |source| && IsSpace(source[index])
      invariant start <= index && forall k | start <= k < index :: k < |source| && IsSpace(source[k])
      invariant SkipSpace(source, index) == SkipSpace(source, start)
      decreases |source| - index
    {
      index := index + 1;
    }
  }

  /** The first unescaped `>`. */
  function AngleFrom(s: string, i: nat): Option<nat>
    decreases |s| - i
  {
    if i >= |s| then None
    else if s[i] == '\\' then AngleFrom(s, i + 2)
    else if s[i] == '>' then Some(i)
    else AngleFrom(s, i + 1)
  }

  /** The end of a bare destination, scanned from a position at some parenthesis depth. */
  function BareFrom(s: string, i: nat, depth: nat): nat
    decreases |s| - i
  {
    if i >= |s| then |s|
    else if s[i] == '\\' then BareFrom(s, i + 2, depth)
    else if s[i] == '(' then BareFrom(s, i + 1, depth + 1)
    else if s[i] == ')' then (if depth == 0 then i else BareFrom(s, i + 1, depth - 1))
    else if IsSpace(s[i]) && depth == 0 then i
    else BareFrom(s, i + 1, depth)
  }

  datatype Scan = Range(start: nat, end: nat) | NoLabelEnd | NoSeparator | NoAngleEnd

  function DestinationFrom(s: string, start: nat): Scan {
    if start < |s| && s[start] == '<' then
      var end := AngleFrom(s, start + 1);
      if end.Some? then Range(start + 1, end.value) else NoAngleEnd
    else Range(start, BareFrom(s, start, 0))
  }

  function Scanned(raw: string, definition: bool): Scan {
    var closing := LabelEndOf(raw);
    if closing.None? then NoLabelEnd
    else if definition then
      var colon := if closing.value + 1 <= |raw| then IndexFrom(raw, ':', closing.value + 1) else None;
      if colon.None? then NoSeparator else DestinationFrom(raw, SkipSpace(raw, colon.value + 1))
    else if closing.value + 1 < |raw| && raw[closing.value + 1] == '(' then
      DestinationFrom(raw, SkipSpace(raw, closing.value + 2))
    else NoSeparator
  }

  method DestinationRange(raw: string, definition: bool) returns (r: Scan)
    ensures r == Scanned(raw, definition)
  {
    var closing := LabelEnd(raw);
    if closing.None? { return NoLabelEnd; }
    var start: nat;
    if definition {
      var colon := if closing.value + 1 <= |raw| then IndexFrom(raw, ':', closing.value + 1) else None;
      if colon.None? { return NoSeparator; }
      start := SkipWhitespace(raw, colon.value + 1);
    } else {
      if closing.value + 1 >= |raw| || raw[closing.value + 1] != '(' { return NoSeparator; }
      start := SkipWhitespace(raw, closing.value + 2);
    }
    if start < |raw| && raw[start] == '<' {
      var i := start + 1;
      while i < |raw|
        invariant AngleFrom(raw, i) == AngleFrom(raw, start + 1)
        decreases |raw| - i
      {
        if raw[i] == '\\' {
          i := i + 1;
        } else if raw[i] == '>' {
          return Range(start + 1, i);
        }
        i := i + 1;
      }
      return NoAngleEnd;
    }
    var depth: nat, index := 0, start;
    while index < |raw|
      invariant BareFrom(raw, index, depth) == BareFrom(raw, start, 0)
      decreases |raw| - index
    {
      var c := raw[index];
      if c == '\\' {
        index := index + 1;
      } else if c == '(' {
        depth := depth + 1;
      } else if c == ')' {
        if depth == 0 { return Range(start, index); }
        depth := depth - 1;
      } else if IsSpace(c) && depth == 0 {
        return Range(start, index);
      }
      index := index + 1;
    }
    return Range(start, |raw|);
  }

  // The syntax: sections 6.3 and 4.7 of CommonMark 0.31.2.

  /** Text whose unescaped delimiters pair up. */
  datatype Pieces =
    | End
    | Plain(c: char, rest: Pieces)
    | Escaped(c: char, rest: Pieces)
    | Group(inner: Pieces, rest: Pieces)

  function Text(p: Pieces, open: char, close: char): string {
    match p
    case End => ""
    case Plain(c, rest) => [c] + Text(rest, open, close)
    case Escaped(c, rest) => ['\\', c] + Text(rest, open, close)
    case Group(inner, rest) => [open] + (Text(inner, open, close) + ([close] + Text(rest, open, close)))
  }

  /** A label: brackets are escaped or balanced. */
  predicate IsLabel(p: Pieces) {
    match p
    case End => true
    case Plain(c, rest) => c !in "[]\\" && IsLabel(rest)
    case Escaped(_, rest) => IsLabel(rest)
    case Group(inner, rest) => IsLabel(inner) && IsLabel(rest)
  }

  predicate IsControlOrSpace(c: char) {
    c <= ' ' || c == '\U{007F}'
  }

  /** A bare destination: no ASCII control character or space, and parentheses are escaped or balanced. */
  predicate IsBare(p: Pieces) {
    match p
    case End => true
    case Plain(c, rest) => !IsControlOrSpace(c) && c !in "()\\" && IsBare(rest)
    case Escaped(c, rest) => !IsControlOrSpace(c) && IsBare(rest)
    case Group(inner, rest) => IsBare(inner) && IsBare(rest)
  }

  /** An angle-bracket destination: no line ending and no unescaped angle bracket. */
  predicate IsAngle(p: Pieces) {
    match p
    case End => true
    case Plain(c, rest) => c !in "<>\\\n\r" && IsAngle(rest)
    case Escaped(c, rest) => c !in "\n\r" && IsAngle(rest)
    case Group(_, _) => false
  }

  /** A text without escapes and groups. */
  function Flat(s: string): Pieces {
    if s == "" then End else Plain(s[0], Flat(s[1..]))
  }

  lemma {:induction false} FlatReads(s: string, open: char, close: char)
    ensures Text(Flat(s), open, close) == s
  {
    if s != "" { FlatReads(s[1..], open, close); }
  }

  predicate NoneOf(s: string, first: char, second: char) {
    forall c | c in s :: c != first && c != second && c != '\\'
  }

  lemma NoneOfCons(c: char, rest: string, first: char, second: char)
    ensures NoneOf([c] + rest, first, second) <==>
              c != first && c != second && c != '\\' && NoneOf(rest, first, second)
  {
    assert c in [c] + rest && forall d | d in rest :: d in [c] + rest;
  }

  predicate Visible(s: string) {
    forall c | c in s :: 32 < c as int && c as int != 127
  }

  lemma VisibleCons(c: char, rest: string)
    ensures Visible([c] + rest) <==> 32 < c as int && c as int != 127 && Visible(rest)
  {
    assert c in [c] + rest && forall d | d in rest :: d in [c] + rest;
  }

  /** Without them, a label is any text without brackets. */
  lemma {:induction false} FlatLabel(s: string)
    ensures IsLabel(Flat(s)) <==> NoneOf(s, '[', ']')
  {
    if s != "" {
      FlatLabel(s[1..]);
      NoneOfCons(s[0], s[1..], '[', ']');
      assert s == [s[0]] + s[1..];
    }
  }

  /** A bare destination is any without parentheses, control characters and spaces. */
  lemma {:induction false} FlatBare(s: string)
    ensures IsBare(Flat(s)) <==> NoneOf(s, '(', ')') && Visible(s)
  {
    if s != "" {
      FlatBare(s[1..]);
      NoneOfCons(s[0], s[1..], '(', ')');
      VisibleCons(s[0], s[1..]);
      assert s == [s[0]] + s[1..];
    }
  }

  /** And one in angle brackets any without angle brackets and line endings. */
  lemma {:induction false} FlatAngle(s: string)
    ensures IsAngle(Flat(s)) <==> NoneOf(s, '<', '>') && NoneOf(s, '\n', '\r')
  {
    if s != "" {
      FlatAngle(s[1..]);
      NoneOfCons(s[0], s[1..], '<', '>');
      NoneOfCons(s[0], s[1..], '\n', '\r');
      assert s == [s[0]] + s[1..];
    }
  }

  /** A bare destination may also end in a backslash that escapes nothing. */
  datatype Destination = Angle(inner: Pieces) | Bare(pieces: Pieces, dangling: bool)

  function Url(d: Destination): string {
    match d
    case Angle(inner) => Text(inner, '<', '>')
    case Bare(pieces, dangling) => Text(pieces, '(', ')') + if dangling then "\\" else ""
  }

  function Written(d: Destination): string {
    if d.Angle? then "<" + (Url(d) + ">") else Url(d)
  }

  /** Spaces, tabs and line endings. */
  predicate IsSeparator(c: char) {
    c == ' ' || c == '\t' || c == '\n' || c == '\r'
  }

  predicate IsLineEnd(c: char) {
    c == '\n' || c == '\r'
  }

  /** Separators, and after a line ending the markers of the block quotes around the node. */
  predicate IsGap(gap: string, wrapped: bool) {
    gap == "" ||
    if gap[0] == '>' then wrapped && IsGap(gap[1..], true)
    else IsSeparator(gap[0]) && IsGap(gap[1..], wrapped || IsLineEnd(gap[0]))
  }

  /** A link, image or definition as its parts; `tail` is the title, if any, and the closing parenthesis. */
  datatype Node =
    | Inline(image: bool, caption: Pieces, gap: string, dest: Destination, tail: string)
    | Definition(caption: Pieces, gap: string, dest: Destination, tail: string)

  predicate IsDestination(d: Destination, definition: bool, tail: string) {
    match d
    case Angle(inner) => IsAngle(inner)
    case Bare(pieces, dangling) =>
      && IsBare(pieces) && !(pieces.Plain? && pieces.c == '<')
      && (dangling && tail != "" ==> IsSeparator(tail[0]))
      && (pieces == End && !dangling ==> !definition && tail != "" && tail[0] == ')')
  }

  predicate IsNode(n: Node) {
    && IsLabel(n.caption) && IsGap(n.gap, false) && IsDestination(n.dest, n.Definition?, n.tail)
    && (n.tail == "" ==> n.Definition?)
    && (n.tail != "" ==> IsSeparator(n.tail[0]) || (n.Inline? && n.tail[0] == ')'))
  }

  function Bang(n: Node): string {
    if n.Inline? && n.image then "!" else ""
  }

  /** Where the label's closing bracket stands. */
  function LabelEndAt(n: Node): nat {
    |Bang(n)| + 1 + |Text(n.caption, '[', ']')|
  }

  /** Where the written destination starts. */
  function WrittenAt(n: Node): nat {
    LabelEndAt(n) + 2 + |n.gap|
  }

  function UrlAt(n: Node): nat {
    WrittenAt(n) + if n.dest.Angle? then 1 else 0
  }

  /** A stretch of text stands at a position. */
  predicate At(s: string, i: nat, t: string)
    decreases |t|
  {
    if t == "" then i <= |s| else i < |s| && s[i] == t[0] && At(s, i + 1, t[1..])
  }

  lemma {:induction false} AtConcat(s: string, i: nat, a: string, b: string)
    ensures At(s, i, a + b) <==> At(s, i, a) && At(s, i + |a|, b)
    decreases |a|
  {
    if a == "" {
      assert a + b == b;
      if At(s, i, b) { AtFits(s, i, b); }
    } else {
      assert (a + b)[1..] == a[1..] + b;
      AtConcat(s, i + 1, a[1..], b);
    }
  }

  lemma {:induction false} AtFits(s: string, i: nat, t: string)
    requires At(s, i, t)
    ensures i + |t| <= |s| && s[i..i + |t|] == t
    decreases |t|
  {
    if t == "" {
    } else {
      AtFits(s, i + 1, t[1..]);
    }
  }

  lemma AtCons(s: string, i: nat, c: char, t: string)
    ensures At(s, i, [c] + t) <==> i < |s| && s[i] == c && At(s, i + 1, t)
  {
    assert ([c] + t)[1..] == t;
  }

  lemma AtEscape(s: string, i: nat, c: char, t: string)
    ensures At(s, i, ['\\', c] + t) <==> i + 1 < |s| && s[i] == '\\' && s[i + 1] == c && At(s, i + 2, t)
  {
    assert ['\\', c] + t == ['\\'] + ([c] + t);
    AtCons(s, i, '\\', [c] + t);
    AtCons(s, i + 1, c, t);
  }

  lemma AtGroup(s: string, i: nat, open: char, inner: string, close: char, rest: string)
    ensures At(s, i, [open] + (inner + ([close] + rest))) <==>
            && i < |s| && s[i] == open && At(s, i + 1, inner)
            && i + 1 + |inner| < |s| && s[i + 1 + |inner|] == close && At(s, i + 2 + |inner|, rest)
  {
    AtCons(s, i, open, inner + ([close] + rest));
    AtConcat(s, i + 1, inner, [close] + rest);
    AtCons(s, i + 1 + |inner|, close, rest);
  }

  /** Inside a label the scan passes over any balanced text. */
  lemma {:induction false} LabelPasses(s: string, i: nat, depth: int, p: Pieces)
    requires depth >= 1 && IsLabel(p) && At(s, i, Text(p, '[', ']'))
    ensures LabelFrom(s, i, depth) == LabelFrom(s, i + |Text(p, '[', ']')|, depth)
    decreases p
  {
    match p
    case End =>
    case Plain(c, rest) =>
      AtCons(s, i, c, Text(rest, '[', ']'));
      LabelPasses(s, i + 1, depth, rest);
    case Escaped(c, rest) =>
      AtEscape(s, i, c, Text(rest, '[', ']'));
      LabelPasses(s, i + 2, depth, rest);
    case Group(inner, rest) =>
      var n := |Text(inner, '[', ']')|;
      AtGroup(s, i, '[', Text(inner, '[', ']'), ']', Text(rest, '[', ']'));
      LabelPasses(s, i + 1, depth + 1, inner);
      LabelPasses(s, i + 2 + n, depth, rest);
  }

  /** Inside parentheses the scan of a bare destination passes over any balanced text, white space included. */
  lemma {:induction false} BarePassesInside(s: string, i: nat, depth: nat, p: Pieces)
    requires depth >= 1 && IsBare(p) && At(s, i, Text(p, '(', ')'))
    ensures BareFrom(s, i, depth) == BareFrom(s, i + |Text(p, '(', ')')|, depth)
    decreases p
  {
    match p
    case End =>
    case Plain(c, rest) =>
      AtCons(s, i, c, Text(rest, '(', ')'));
      BarePassesInside(s, i + 1, depth, rest);
    case Escaped(c, rest) =>
      AtEscape(s, i, c, Text(rest, '(', ')'));
      BarePassesInside(s, i + 2, depth, rest);
    case Group(inner, rest) =>
      var n := |Text(inner, '(', ')')|;
      AtGroup(s, i, '(', Text(inner, '(', ')'), ')', Text(rest, '(', ')'));
      BarePassesInside(s, i + 1, depth + 1, inner);
      BarePassesInside(s, i + 2 + n, depth, rest);
  }

  /** Outside parentheses some unescaped character is white space to the scanner. */
  predicate SpaceOutside(p: Pieces) {
    match p
    case End => false
    case Plain(c, rest) => IsSpace(c) || SpaceOutside(rest)
    case Escaped(_, rest) => SpaceOutside(rest)
    case Group(_, rest) => SpaceOutside(rest)
  }

  /** Outside parentheses the scan passes over exactly the text without such a character. */
  lemma {:induction false} BarePassesOutside(s: string, i: nat, p: Pieces)
    requires IsBare(p) && At(s, i, Text(p, '(', ')'))
    ensures !SpaceOutside(p) ==> BareFrom(s, i, 0) == BareFrom(s, i + |Text(p, '(', ')')|, 0)
    ensures SpaceOutside(p) ==> BareFrom(s, i, 0) < i + |Text(p, '(', ')')|
    decreases p
  {
    match p
    case End =>
    case Plain(c, rest) =>
      AtCons(s, i, c, Text(rest, '(', ')'));
      BarePassesOutside(s, i + 1, rest);
    case Escaped(c, rest) =>
      AtEscape(s, i, c, Text(rest, '(', ')'));
      BarePassesOutside(s, i + 2, rest);
    case Group(inner, rest) =>
      var n := |Text(inner, '(', ')')|;
      AtGroup(s, i, '(', Text(inner, '(', ')'), ')', Text(rest, '(', ')'));
      BarePassesInside(s, i + 1, 1, inner);
      BarePassesOutside(s, i + 2 + n, rest);
  }

  lemma {:induction false} AnglePasses(s: string, i: nat, p: Pieces)
    requires IsAngle(p) && At(s, i, Text(p, '<', '>'))
    ensures AngleFrom(s, i) == AngleFrom(s, i + |Text(p, '<', '>')|)
    decreases p
  {
    match p
    case End =>
    case Plain(c, rest) =>
      AtCons(s, i, c, Text(rest, '<', '>'));
      AnglePasses(s, i + 1, rest);
    case Escaped(c, rest) =>
      AtEscape(s, i, c, Text(rest, '<', '>'));
      AnglePasses(s, i + 2, rest);
  }

  lemma {:induction false} BareGoesForward(s: string, i: nat, depth: nat)
    ensures BareFrom(s, i, depth) >= i || BareFrom(s, i, depth) == |s|
    ensures BareFrom(s, i, depth) <= |s|
    decreases |s| - i
  {
    if i >= |s| {
    } else if s[i] == '\\' {
      BareGoesForward(s, i + 2, depth);
    } else if s[i] == '(' {
      BareGoesForward(s, i + 1, depth + 1);
    } else if s[i] == ')' {
      if depth > 0 { BareGoesForward(s, i + 1, depth - 1); }
    } else if !(IsSpace(s[i]) && depth == 0) {
      BareGoesForward(s, i + 1, depth);
    }
  }

  /** White space is skipped up to the first marker. */
  lemma {:induction false} GapIsSkipped(s: string, i: nat, gap: string, wrapped: bool)
    requires At(s, i, gap) && IsGap(gap, wrapped)
    ensures '>' !in gap ==> SkipSpace(s, i) == SkipSpace(s, i + |gap|)
    ensures '>' in gap ==> i <= SkipSpace(s, i) < i + |gap| && SkipSpace(s, i) < |s| && s[SkipSpace(s, i)] == '>'
    decreases |gap|
  {
    if gap == "" {
    } else {
      assert gap == [gap[0]] + gap[1..] && gap[0] in gap;
      AtCons(s, i, gap[0], gap[1..]);
      if gap[0] != '>' { GapIsSkipped(s, i + 1, gap[1..], wrapped || IsLineEnd(gap[0])); }
    }
  }

  /** The raw text is the label in brackets. */
  predicate LabelPrinted(n: Node, raw: string) {
    var k := |Bang(n)|;
    && At(raw, 0, Bang(n)) && k < |raw| && raw[k] == '[' && At(raw, k + 1, Text(n.caption, '[', ']'))
    && LabelEndAt(n) < |raw| && raw[LabelEndAt(n)] == ']'
  }

  /** Then the separator, the gap, the destination and the tail, to the end. */
  predicate DestinationPrinted(n: Node, raw: string) {
    && LabelEndAt(n) + 1 < |raw| && raw[LabelEndAt(n) + 1] == (if n.Inline? then '(' else ':')
    && At(raw, LabelEndAt(n) + 2, n.gap) && At(raw, WrittenAt(n), Written(n.dest))
    && At(raw, WrittenAt(n) + |Written(n.dest)|, n.tail) && |raw| == WrittenAt(n) + |Written(n.dest)| + |n.tail|
  }

  /** The raw text is the node as printed. */
  predicate Prints(n: Node, raw: string) {
    LabelPrinted(n, raw) && DestinationPrinted(n, raw)
  }

  /** The scan ends the label where the printer did. */
  lemma LabelIsFound(n: Node, raw: string)
    requires IsLabel(n.caption) && LabelPrinted(n, raw)
    ensures LabelEndOf(raw) == Some(LabelEndAt(n))
  {
    var k := |Bang(n)|;
    assert k == 1 ==> raw[0] == '!';
    assert IndexFrom(raw, '[', 0) == Some(k);
    LabelPasses(raw, k + 1, 1, n.caption);
  }

  /** The written destination's first character, if the scanner takes it for white space. */
  predicate StartsInSpace(d: Destination) {
    d.Bare? && d.pieces.Plain? && IsSpace(d.pieces.c)
  }

  lemma WrittenStarts(raw: string, at: nat, d: Destination, tail: string, definition: bool)
    requires IsDestination(d, definition, tail)
    requires At(raw, at, Written(d)) && At(raw, at + |Written(d)|, tail)
    ensures if StartsInSpace(d) then SkipSpace(raw, at) > at else SkipSpace(raw, at) == at
  {
    if Written(d) != "" {
      FirstCharacter(d);
    } else {
      EmptyText(d);
    }
  }

  lemma EmptyText(d: Destination)
    requires Written(d) == ""
    ensures d == Bare(End, false)
  {
    match d
    case Angle(_) =>
    case Bare(pieces, dangling) => assert Text(pieces, '(', ')') == "";
  }

  lemma FirstCharacter(d: Destination)
    requires Written(d) != ""
    ensures IsSpace(Written(d)[0]) <==> StartsInSpace(d)
    ensures Written(d)[0] == '<' <==> d.Angle? || (d.pieces.Plain? && d.pieces.c == '<')
  {
    match d
    case Angle(_) =>
    case Bare(pieces, _) =>
  }

  lemma GapLeadsTo(raw: string, i: nat, gap: string, d: Destination, tail: string, definition: bool)
    requires IsGap(gap, false) && '>' !in gap && IsDestination(d, definition, tail)
    requires At(raw, i, gap) && At(raw, i + |gap|, Written(d)) && At(raw, i + |gap| + |Written(d)|, tail)
    ensures if StartsInSpace(d) then SkipSpace(raw, i) > i + |gap| else SkipSpace(raw, i) == i + |gap|
  {
    GapIsSkipped(raw, i, gap, false);
    WrittenStarts(raw, i + |gap|, d, tail, definition);
  }

  lemma StartIsFound(n: Node, raw: string)
    requires IsNode(n) && DestinationPrinted(n, raw) && '>' !in n.gap
    ensures var start := SkipSpace(raw, LabelEndAt(n) + 2);
      if StartsInSpace(n.dest) then start > WrittenAt(n) else start == WrittenAt(n)
  {
    GapLeadsTo(raw, LabelEndAt(n) + 2, n.gap, n.dest, n.tail, n.Definition?);
  }

  /** The scanner reads a bare destination to its own end. */
  predicate EndsWhereWritten(n: Node) {
    n.dest.Bare? ==> !SpaceOutside(n.dest.pieces) && !(n.dest.dangling && n.tail != "")
  }

  /** What lies between the destination and the scanner's answer: nothing, exactly in this case. */
  predicate Survives(n: Node) {
    '>' !in n.gap && EndsWhereWritten(n)
  }

  /** After the text of a bare destination: its final backslash, if any, and the tail. */
  lemma BareStops(s: string, k: nat, last: string, tail: string)
    requires last == "" || last == "\\"
    requires At(s, k, last) && At(s, k + |last|, tail) && |s| == k + |last| + |tail|
    requires tail != "" ==> IsSeparator(tail[0]) || tail[0] == ')'
    ensures BareFrom(s, k, 0) == k + |last| <==> !(last != "" && tail != "")
  {
    if last != "" {
      assert s[k] == '\\';
      BareGoesForward(s, k + 2, 0);
    } else if tail != "" {
      assert s[k] == tail[0];
    }
  }

  lemma BareTextEnds(s: string, i: nat, k: nat, pieces: Pieces, last: string, tail: string)
    requires IsBare(pieces) && At(s, i, Text(pieces, '(', ')')) && k == i + |Text(pieces, '(', ')')|
    requires last == "" || last == "\\"
    requires At(s, k, last) && At(s, k + |last|, tail) && |s| == k + |last| + |tail|
    requires tail != "" ==> IsSeparator(tail[0]) || tail[0] == ')'
    ensures BareFrom(s, i, 0) == k + |last| <==> !SpaceOutside(pieces) && !(last != "" && tail != "")
  {
    BarePassesOutside(s, i, pieces);
    BareStops(s, k, last, tail);
  }

  lemma BareEnd(s: string, i: nat, d: Destination, tail: string)
    requires d.Bare? && IsBare(d.pieces) && At(s, i, Url(d)) && At(s, i + |Url(d)|, tail)
             && |s| == i + |Url(d)| + |tail|
    requires tail != "" ==> IsSeparator(tail[0]) || tail[0] == ')'
    ensures BareFrom(s, i, 0) == i + |Url(d)| <==> !SpaceOutside(d.pieces) && !(d.dangling && tail != "")
  {
    var text, last := Text(d.pieces, '(', ')'), if d.dangling then "\\" else "";
    AtConcat(s, i, text, last);
    BareTextEnds(s, i, i + |text|, d.pieces, last, tail);
  }

  lemma AngleEnd(s: string, w: nat, inner: Pieces)
    requires IsAngle(inner) && At(s, w, "<" + (Text(inner, '<', '>') + ">"))
    ensures DestinationFrom(s, w) == Range(w + 1, w + 1 + |Text(inner, '<', '>')|)
    ensures At(s, w + 1, Text(inner, '<', '>'))
  {
    var url := Text(inner, '<', '>');
    AtCons(s, w, '<', url + ">");
    AtConcat(s, w + 1, url, ">");
    AnglePasses(s, w + 1, inner);
  }

  lemma StartsNoEarlier(s: string, start: nat)
    ensures DestinationFrom(s, start).Range? ==> DestinationFrom(s, start).start >= start
  {
  }

  lemma NoAngle(n: Node, raw: string)
    requires IsNode(n) && n.dest.Bare? && DestinationPrinted(n, raw)
    ensures WrittenAt(n) < |raw| ==> raw[WrittenAt(n)] != '<'
  {
    if Written(n.dest) == "" {
      EmptyText(n.dest);
    } else {
      FirstCharacter(n.dest);
    }
  }

  lemma BareIsNotAngle(n: Node, raw: string)
    requires IsNode(n) && n.dest.Bare? && DestinationPrinted(n, raw)
    ensures DestinationFrom(raw, WrittenAt(n)) == Range(WrittenAt(n), BareFrom(raw, WrittenAt(n), 0))
  {
    NoAngle(n, raw);
  }

  lemma AngleIsFound(n: Node, raw: string)
    requires IsNode(n) && DestinationPrinted(n, raw) && n.dest.Angle?
    ensures At(raw, UrlAt(n), Url(n.dest))
    ensures DestinationFrom(raw, WrittenAt(n)) == Range(UrlAt(n), UrlAt(n) + |Url(n.dest)|)
  {
    AngleEnd(raw, WrittenAt(n), n.dest.inner);
  }

  lemma BareIsFound(n: Node, raw: string)
    requires IsNode(n) && DestinationPrinted(n, raw) && n.dest.Bare?
    ensures DestinationFrom(raw, WrittenAt(n)) == Range(UrlAt(n), UrlAt(n) + |Url(n.dest)|) <==> EndsWhereWritten(n)
  {
    BareIsNotAngle(n, raw);
    BareEnd(raw, WrittenAt(n), n.dest, n.tail);
  }

  /** At a block quote's marker the scanner takes the marker for the destination. */
  lemma MarkerIsTaken(n: Node, raw: string)
    requires IsNode(n) && DestinationPrinted(n, raw) && '>' in n.gap
    ensures DestinationFrom(raw, SkipSpace(raw, LabelEndAt(n) + 2)).Range?
    ensures DestinationFrom(raw, SkipSpace(raw, LabelEndAt(n) + 2)).start < WrittenAt(n)
  {
    GapIsSkipped(raw, LabelEndAt(n) + 2, n.gap, false);
  }

  lemma DestinationIsFound(n: Node, raw: string)
    requires IsNode(n) && DestinationPrinted(n, raw)
    ensures At(raw, UrlAt(n), Url(n.dest))
    ensures DestinationFrom(raw, SkipSpace(raw, LabelEndAt(n) + 2)) == Range(UrlAt(n), UrlAt(n) + |Url(n.dest)|) <==>
            Survives(n)
  {
    assert At(raw, UrlAt(n), Url(n.dest)) by { if n.dest.Angle? { AngleIsFound(n, raw); } }
    if '>' in n.gap {
      MarkerIsTaken(n, raw);
    } else {
      StartIsFound(n, raw);
      if n.dest.Angle? {
        AngleIsFound(n, raw);
      } else if StartsInSpace(n.dest) {
        StartsNoEarlier(raw, SkipSpace(raw, LabelEndAt(n) + 2));
      } else {
        BareIsFound(n, raw);
      }
    }
  }

  lemma SeparatorIsFound(n: Node, raw: string)
    requires LabelEndOf(raw) == Some(LabelEndAt(n)) && LabelEndAt(n) + 1 < |raw|
    requires raw[LabelEndAt(n) + 1] == if n.Inline? then '(' else ':'
    ensures Scanned(raw, n.Definition?) == DestinationFrom(raw, SkipSpace(raw, LabelEndAt(n) + 2))
  {
    assert n.Definition? ==> IndexFrom(raw, ':', LabelEndAt(n) + 1) == Some(LabelEndAt(n) + 1);
  }

  /**
   * For every link, image or definition the scanner returns exactly the destination's slice, unless a block
   * quote's marker stands before the destination, or a bare destination has white space beyond ASCII outside its
   * parentheses, or ends in a backslash before more text.
   */
  lemma DestinationRecovered(n: Node, raw: string)
    requires IsNode(n) && Prints(n, raw)
    ensures UrlAt(n) + |Url(n.dest)| <= |raw| && raw[UrlAt(n)..UrlAt(n) + |Url(n.dest)|] == Url(n.dest)
    ensures Scanned(raw, n.Definition?) == Range(UrlAt(n), UrlAt(n) + |Url(n.dest)|) <==> Survives(n)
  {
    LabelIsFound(n, raw);
    SeparatorIsFound(n, raw);
    DestinationIsFound(n, raw);
    AtFits(raw, UrlAt(n), Url(n.dest));
  }

  const NO_BREAK := '\U{00A0}'

  /** `[a](b c)` with a no-break space. */
  function NoBreakExample(): Node {
    Inline(false, Plain('a', End), "", Bare(Plain('b', Plain(NO_BREAK, Plain('c', End))), false), ")")
  }

  lemma ExampleUrl()
    ensures Url(NoBreakExample().dest) == ['b', NO_BREAK, 'c'] && Text(NoBreakExample().caption, '[', ']') == "a"
  {
    assert Text(Plain('c', End), '(', ')') == "c";
    assert Text(Plain(NO_BREAK, Plain('c', End)), '(', ')') == [NO_BREAK, 'c'];
  }

  lemma ExampleIsPrinted()
    ensures Prints(NoBreakExample(), ['[', 'a', ']', '(', 'b', NO_BREAK, 'c', ')'])
  {
    var n, raw := NoBreakExample(), ['[', 'a', ']', '(', 'b', NO_BREAK, 'c', ')'];
    ExampleUrl();
    assert At(raw, 7, ")") && At(raw, 1, "a");
    AtCons(raw, 6, 'c', "");
    AtCons(raw, 5, NO_BREAK, "c");
    AtCons(raw, 4, 'b', [NO_BREAK, 'c']);
    assert ['b'] + [NO_BREAK, 'c'] == ['b', NO_BREAK, 'c'] && [NO_BREAK] + "c" == [NO_BREAK, 'c'];
  }

  /** A no-break space belongs to a CommonMark destination, and the scanner stops at it. */
  lemma NoBreakSpaceCutsDestination()
    ensures var n := NoBreakExample();
      IsNode(n) && exists raw :: Prints(n, raw) && Scanned(raw, false) != Range(UrlAt(n), UrlAt(n) + |Url(n.dest)|)
  {
    var n, raw := NoBreakExample(), ['[', 'a', ']', '(', 'b', NO_BREAK, 'c', ')'];
    ExampleIsPrinted();
    assert SpaceOutside(Plain(NO_BREAK, Plain('c', End)));
    assert IsBare(Plain(NO_BREAK, Plain('c', End))) && IsBare(Plain('c', End));
    DestinationRecovered(n, raw);
  }

  /** `[a](b\ )`: the backslash escapes nothing, since a space cannot be escaped. */
  function BackslashExample(): Node {
    Inline(false, Plain('a', End), "", Bare(Plain('b', End), true), " )")
  }

  lemma BackslashIsPrinted()
    ensures Prints(BackslashExample(), "[a](b\\ )") && Url(BackslashExample().dest) == "b\\"
  {
    var raw := "[a](b\\ )";
    assert Text(Plain('b', End), '(', ')') == "b" && Text(Plain('a', End), '[', ']') == "a";
    assert At(raw, 6, " )") && At(raw, 1, "a") && At(raw, 4, "b\\");
  }

  /** The scanner reads the blank after a final backslash as escaped and goes past the destination. */
  lemma FinalBackslashOverrunsDestination()
    ensures var n := BackslashExample();
      IsNode(n) && Prints(n, "[a](b\\ )")
      && Scanned("[a](b\\ )", false) != Range(UrlAt(n), UrlAt(n) + |Url(n.dest)|)
  {
    BackslashIsPrinted();
    assert IsBare(Plain('b', End)) && IsBare(End);
    DestinationRecovered(BackslashExample(), "[a](b\\ )");
  }

  /** The definition `[foo]:` with its destination on the next line of a block quote. */
  function QuotedExample(): Node {
    Definition(Plain('f', Plain('o', Plain('o', End))), "\n> ",
               Bare(Plain('/', Plain('u', Plain('r', Plain('l', End)))), false), "")
  }

  const QUOTED := "[foo]:\n> /url"

  lemma QuotedTexts()
    ensures Text(QuotedExample().caption, '[', ']') == "foo" && Url(QuotedExample().dest) == "/url"
    ensures IsNode(QuotedExample())
  {
    assert Text(Plain('o', End), '[', ']') == "o" && Text(Plain('o', Plain('o', End)), '[', ']') == "oo";
    assert Text(Plain('l', End), '(', ')') == "l" && Text(Plain('r', Plain('l', End)), '(', ')') == "rl";
    assert Text(Plain('u', Plain('r', Plain('l', End))), '(', ')') == "url";
    assert IsLabel(Plain('o', End)) && IsLabel(Plain('o', Plain('o', End)));
    assert IsBare(Plain('l', End)) && IsBare(Plain('r', Plain('l', End)));
    assert IsGap(" ", true) && "\n> "[1..] == "> " && "> "[1..] == " ";
  }

  lemma QuotedIsPrinted()
    ensures Prints(QuotedExample(), QUOTED)
  {
    QuotedTexts();
    assert At(QUOTED, 3, "o") && At(QUOTED, 2, "oo") && At(QUOTED, 1, "foo") by {
      AtCons(QUOTED, 2, 'o', "o");
      AtCons(QUOTED, 1, 'f', "oo");
    }
    assert At(QUOTED, 8, " ") && At(QUOTED, 7, "> ") && At(QUOTED, 6, "\n> ") by {
      AtCons(QUOTED, 7, '>', " ");
      AtCons(QUOTED, 6, '\n', "> ");
    }
    assert At(QUOTED, 12, "l") && At(QUOTED, 11, "rl") && At(QUOTED, 10, "url") && At(QUOTED, 9, "/url") by {
      AtCons(QUOTED, 11, 'r', "l");
      AtCons(QUOTED, 10, 'u', "rl");
      AtCons(QUOTED, 9, '/', "url");
    }
  }

  lemma QuotedPlaces()
    ensures LabelEndAt(QuotedExample()) == 4 && UrlAt(QuotedExample()) == 9
  {
    QuotedTexts();
  }

  lemma QuotedScan()
    requires LabelEndOf(QUOTED) == Some(4)
    ensures Scanned(QUOTED, true) == Range(7, 8)
  {
    assert IndexFrom(QUOTED, ':', 5) == Some(5) && SkipSpace(QUOTED, 6) == 7;
    assert BareFrom(QUOTED, 8, 0) == 8 && BareFrom(QUOTED, 7, 0) == 8;
  }

  /** In a block quote the scanner returns the continuation marker instead of the destination. */
  lemma QuoteMarkerIsReturned()
    ensures IsNode(QuotedExample()) && Prints(QuotedExample(), QUOTED) && EndsWhereWritten(QuotedExample())
    ensures UrlAt(QuotedExample()) == 9 && Scanned(QUOTED, true) == Range(7, 8)
  {
    QuotedTexts();
    QuotedIsPrinted();
    QuotedPlaces();
    LabelIsFound(QuotedExample(), QUOTED);
    QuotedScan();
  }
}
