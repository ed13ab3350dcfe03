/** Which lines keep text outside HTML comments: the interval projection and sweep of scripts/markdown.ts. */
module CommentCoverage {
  import opened Options
  import opened JavaScript
  import Sequences
  import Splitting

  /** A half-open range of source offsets, or of a line's columns. */
  datatype Span = Span(start: nat, end: nat)

  function Max(a: int, b: int): int {
    if a < b then b else a
  }

  function Min(a: int, b: int): int {
    if a < b then a else b
  }

  // Projection onto one line.

  /** The comment takes part of the line, or stands around it when it is empty. */
  predicate Touches(c: Span, lo: nat, size: nat) {
    Max(c.start, lo) < Min(c.end, lo + size) || (size == 0 && c.start <= lo < c.end)
  }

  function Column(c: Span, lo: nat, size: nat): Span
    requires Touches(c, lo, size)
  {
    Span(Max(c.start, lo) - lo, Min(c.end, lo + size) - lo)
  }

  function Columns(comments: seq<Span>, lo: nat, size: nat): seq<Span> {
    if comments == [] then []
    else
      var last := comments[|comments| - 1];
      Columns(comments[..|comments| - 1], lo, size) + if Touches(last, lo, size) then [Column(last, lo, size)] else []
  }

  /** Offset of a line's first character: the lengths and line breaks before it. */
  function LineOffset(lines: seq<string>, i: nat): nat
    requires i <= |lines|
  {
    if i == 0 then 0 else LineOffset(lines, i - 1) + |lines[i - 1]| + 1
  }

  lemma OneMoreComment(comments: seq<Span>, k: nat, lo: nat, size: nat)
    requires k < |comments|
    ensures Columns(comments[..k + 1], lo, size) == Columns(comments[..k], lo, size)
              + if Touches(comments[k], lo, size) then [Column(comments[k], lo, size)] else []
  {
    assert comments[..k + 1][..k] == comments[..k];
  }

  /** The inner loop: the comments that touch one line. */
  method LineRanges(comments: seq<Span>, lineOffset: nat, size: nat) returns (lineRanges: seq<Span>)
    ensures lineRanges == Columns(comments, lineOffset, size)
  {
    lineRanges := [];
    var lineEnd := lineOffset + size;
    for k := 0 to |comments|
      invariant lineRanges == Columns(comments[..k], lineOffset, size)
    {
      var from, to := Max(comments[k].start, lineOffset), Min(comments[k].end, lineEnd);
      var coversEmptyLine := size == 0 && comments[k].start <= lineOffset && comments[k].end > lineOffset;
      OneMoreComment(comments, k, lineOffset, size);
      if from < to || coversEmptyLine { lineRanges := lineRanges + [Span(from - lineOffset, to - lineOffset)]; }
    }
    assert comments[..|comments|] == comments;
  }

  /** The column ranges of the first `n` lines; an empty list stands for a missing map entry. */
  function AllColumns(comments: seq<Span>, lines: seq<string>, n: nat): seq<seq<Span>>
    requires n <= |lines|
  {
    if n == 0 then []
    else AllColumns(comments, lines, n - 1) + [Columns(comments, LineOffset(lines, n - 1), |lines[n - 1]|)]
  }

  method CommentRanges(comments: seq<Span>, lines: seq<string>) returns (ranges: seq<seq<Span>>)
    ensures ranges == AllColumns(comments, lines, |lines|)
  {
    ranges := [];
    var lineOffset := 0;
    for i := 0 to |lines|
      invariant lineOffset == LineOffset(lines, i) && ranges == AllColumns(comments, lines, i)
    {
      var lineRanges := LineRanges(comments, lineOffset, |lines[i]|);
      ranges := ranges + [lineRanges];
      lineOffset := lineOffset + |lines[i]| + 1;
    }
  }

  lemma {:induction false} RangesOfLine(comments: seq<Span>, lines: seq<string>, n: nat, i: nat)
    requires i < n <= |lines|
    ensures |AllColumns(comments, lines, n)| == n
    ensures AllColumns(comments, lines, n)[i] == Columns(comments, LineOffset(lines, i), |lines[i]|)
  {
    if n == 1 {
    } else {
      RangesOfLine(comments, lines, n - 1, if i < n - 1 then i else 0);
    }
  }

  // The sweep over one line.

  function StartsFirst(): (Span, Span) -> bool {
    (s: Span, t: Span) => s.start <= t.start
  }

  function SortByStart(spans: seq<Span>): seq<Span> {
    Sequences.Sort(spans, StartsFirst())
  }

  /** `slice`, empty when the bounds cross. */
  function Slice(s: string, from: nat, to: nat): string {
    var end := if to <= |s| then to else |s|;
    if from < end then s[from..end] else ""
  }

  /** The text the sweep keeps, from a cursor on. */
  function Visible(raw: string, sorted: seq<Span>, cursor: nat): string {
    if sorted == [] then Slice(raw, cursor, |raw|)
    else Slice(raw, cursor, sorted[0].start) + Visible(raw, sorted[1..], Max(cursor, sorted[0].end))
  }

  method HasTextOutsideComments(raw: string, ranges: Option<seq<Span>>) returns (kept: bool)
    ensures kept <==> ranges.None? || !AllSpace(Visible(raw, SortByStart(ranges.value), 0))
  {
    if ranges.None? { return true; }
    var sorted := SortByStart(ranges.value);
    var cursor: nat, visible := 0, "";
    for i := 0 to |sorted|
      invariant visible + Visible(raw, sorted[i..], cursor) == Visible(raw, sorted, 0)
    {
      assert sorted[i..][1..] == sorted[i + 1..];
      visible := visible + Slice(raw, cursor, sorted[i].start);
      cursor := Max(cursor, sorted[i].end);
    }
    visible := visible + Slice(raw, cursor, |raw|);
    // `trim().length > 0`.
    return exists c | c in visible :: !IsSpace(c);
  }

  predicate Covered(spans: seq<Span>, k: nat) {
    exists s | s in spans :: s.start <= k < s.end
  }

  ghost predicate InOrder(spans: seq<Span>) {
    Sequences.Ordered(spans, StartsFirst())
  }

  /** A visible character of the line from a column on, outside every range. */
  ghost predicate SeenAt(raw: string, spans: seq<Span>, cursor: nat, k: nat) {
    cursor <= k < |raw| && !Covered(spans, k) && !IsSpace(raw[k])
  }

  ghost predicate SomeSeen(raw: string, spans: seq<Span>, cursor: nat) {
    exists k :: SeenAt(raw, spans, cursor, k)
  }

  lemma SliceShows(raw: string, from: nat, to: nat)
    ensures AllSpace(Slice(raw, from, to)) <==> forall k | from <= k < to && k < |raw| :: IsSpace(raw[k])
  {
    var s := Slice(raw, from, to);
    if !AllSpace(s) {
      var j :| 0 <= j < |s| && !IsSpace(s[j]);
      assert s[j] == raw[from + j];
    }
    forall k | from <= k < to && k < |raw| ensures raw[k] in s {
      assert raw[k] == s[k - from];
    }
  }

  /** The sweep keeps exactly the columns at or after the cursor that no range covers. */
  lemma {:induction false} SweepIsPointwise(raw: string, sorted: seq<Span>, cursor: nat)
    requires InOrder(sorted)
    ensures !AllSpace(Visible(raw, sorted, cursor)) <==> SomeSeen(raw, sorted, cursor)
    decreases |sorted|
  {
    if sorted == [] {
      SliceShows(raw, cursor, |raw|);
      assert forall k :: !Covered(sorted, k);
      if k: nat :| cursor <= k < |raw| && !IsSpace(raw[k]) { assert SeenAt(raw, sorted, cursor, k); }
    } else {
      var first, rest := sorted[0], sorted[1..];
      var next: nat := Max(cursor, first.end);
      SliceShows(raw, cursor, first.start);
      SweepIsPointwise(raw, rest, next);
      SeenStep(raw, sorted, cursor);
      var head, tail := Slice(raw, cursor, first.start), Visible(raw, rest, next);
      assert AllSpace(head + tail) <==> AllSpace(head) && AllSpace(tail) by { AllSpaceConcat(head, tail); }
    }
  }

  lemma AllSpaceConcat(a: string, b: string)
    ensures AllSpace(a + b) <==> AllSpace(a) && AllSpace(b)
  {
    assert forall c :: c in a + b <==> c in a || c in b;
  }

  lemma SeenStep(raw: string, sorted: seq<Span>, cursor: nat)
    requires InOrder(sorted) && sorted != []
    ensures var first := sorted[0];
      SomeSeen(raw, sorted, cursor) <==>
      || (exists k | cursor <= k < first.start && k < |raw| :: !IsSpace(raw[k]))
      || SomeSeen(raw, sorted[1..], Max(cursor, first.end))
  {
    var first, rest := sorted[0], sorted[1..];
    var next: nat := Max(cursor, first.end);
    assert sorted == [first] + rest;
    if k: nat :| SeenAt(raw, sorted, cursor, k) {
      SeenSplits(raw, sorted, cursor, k);
      if k >= first.start { assert SeenAt(raw, rest, next, k); }
    }
    if k: nat :| cursor <= k < first.start && k < |raw| && !IsSpace(raw[k]) {
      assert forall s | s in sorted :: first.start <= s.start;
      assert SeenAt(raw, sorted, cursor, k);
    }
    if k: nat :| SeenAt(raw, rest, next, k) {
      assert SeenAt(raw, sorted, cursor, k);
    }
  }

  lemma SeenSplits(raw: string, sorted: seq<Span>, cursor: nat, k: nat)
    requires sorted != [] && SeenAt(raw, sorted, cursor, k)
    ensures k < sorted[0].start || SeenAt(raw, sorted[1..], Max(cursor, sorted[0].end), k)
  {
    assert sorted[0] in sorted;
    assert forall s | s in sorted[1..] :: s in sorted;
  }

  // In terms of the source.

  predicate Touched(comments: seq<Span>, lo: nat, size: nat) {
    exists c | c in comments :: Touches(c, lo, size)
  }

  lemma {:induction false} ColumnsCover(comments: seq<Span>, lo: nat, size: nat, k: nat)
    requires k < size
    ensures Covered(Columns(comments, lo, size), k) <==> Covered(comments, lo + k)
    ensures Columns(comments, lo, size) == [] <==> !Touched(comments, lo, size)
  {
    if comments == [] {
    } else {
      var before, last := comments[..|comments| - 1], comments[|comments| - 1];
      ColumnsCover(before, lo, size, k);
      assert comments == before + [last];
      CoveredConcat(before, [last], lo + k);
      var columns := if Touches(last, lo, size) then [Column(last, lo, size)] else [];
      CoveredConcat(Columns(before, lo, size), columns, k);
      assert Covered([last], lo + k) <==> last.start <= lo + k < last.end;
      assert Touches(last, lo, size) ==>
             (Covered(columns, k) <==> Column(last, lo, size).start <= k < Column(last, lo, size).end);
    }
  }

  lemma CoveredConcat(a: seq<Span>, b: seq<Span>, k: nat)
    ensures Covered(a + b, k) <==> Covered(a, k) || Covered(b, k)
  {
    assert forall s :: s in a + b <==> s in a || s in b;
  }

  lemma {:induction false} ColumnsEmptyIffUntouched(comments: seq<Span>, lo: nat, size: nat)
    ensures Columns(comments, lo, size) == [] <==> !Touched(comments, lo, size)
  {
    if comments == [] {
    } else {
      var before, last := comments[..|comments| - 1], comments[|comments| - 1];
      ColumnsEmptyIffUntouched(before, lo, size);
      assert comments == before + [last];
    }
  }

  /** A line's characters stand in the source from its offset on. */
  lemma {:induction false} LineInSource(lines: seq<string>, i: nat, k: nat)
    requires lines != [] && i < |lines| && k < |lines[i]|
    ensures var source := Splitting.Join(lines, '\n'); var p := LineOffset(lines, i) + k;
      p < |source| && source[p] == lines[i][k]
    decreases |lines|
  {
    if i == 0 {
    } else {
      LineInSource(lines[1..], i - 1, k);
      OffsetOfTail(lines, i);
    }
  }

  lemma {:induction false} OffsetOfTail(lines: seq<string>, i: nat)
    requires 0 < i <= |lines|
    ensures LineOffset(lines, i) == |lines[0]| + 1 + LineOffset(lines[1..], i - 1)
  {
    if i == 1 {
    } else {
      OffsetOfTail(lines, i - 1);
    }
  }

  /** The second pass on a line, given its ranges; an empty list is a missing entry. */
  predicate Keeps(raw: string, ranges: seq<Span>) {
    ranges == [] || !AllSpace(Visible(raw, SortByStart(ranges), 0))
  }

  /** A source offset on a line, not white space and in no comment. */
  ghost predicate Shows(source: string, comments: seq<Span>, lo: nat, size: nat, p: nat) {
    lo <= p < lo + size && p < |source| && !IsSpace(source[p]) && !Covered(comments, p)
  }

  lemma ShownWhereSeen(lines: seq<string>, comments: seq<Span>, i: nat, k: nat)
    requires lines != [] && i < |lines| && k < |lines[i]|
    ensures var lo, size := LineOffset(lines, i), |lines[i]|;
      Shows(Splitting.Join(lines, '\n'), comments, lo, size, lo + k) <==>
      SeenAt(lines[i], SortByStart(Columns(comments, lo, size)), 0, k)
  {
    var lo, size := LineOffset(lines, i), |lines[i]|;
    LineInSource(lines, i, k);
    ColumnsCover(comments, lo, size, k);
    var columns := Columns(comments, lo, size);
    assert forall span :: span in SortByStart(columns) <==> span in columns by {
      Sequences.SortOrders(columns, StartsFirst());
    }
  }

  /** Some visible character of the line is in no comment. */
  ghost predicate SomeShows(source: string, comments: seq<Span>, lo: nat, size: nat) {
    exists p :: Shows(source, comments, lo, size, p)
  }

  lemma SomeShowsIffSeen(lines: seq<string>, comments: seq<Span>, i: nat)
    requires lines != [] && i < |lines|
    ensures var lo, size := LineOffset(lines, i), |lines[i]|;
      SomeShows(Splitting.Join(lines, '\n'), comments, lo, size) <==>
      SomeSeen(lines[i], SortByStart(Columns(comments, lo, size)), 0)
  {
    var lo, raw, source := LineOffset(lines, i), lines[i], Splitting.Join(lines, '\n');
    var sorted := SortByStart(Columns(comments, lo, |raw|));
    if SomeSeen(raw, sorted, 0) {
      var k: nat :| SeenAt(raw, sorted, 0, k);
      ShownWhereSeen(lines, comments, i, k);
    }
    if SomeShows(source, comments, lo, |raw|) {
      var p: nat :| Shows(source, comments, lo, |raw|, p);
      ShownWhereSeen(lines, comments, i, p - lo);
    }
  }

  /** A comment holds a character of the line or, if it is empty, the line break at its place. */
  ghost predicate HoldsPart(comments: seq<Span>, lo: nat, size: nat) {
    exists p: nat :: (lo <= p < lo + size || (size == 0 && p == lo)) && Covered(comments, p)
  }

  lemma TouchedIsHeld(comments: seq<Span>, lo: nat, size: nat)
    ensures Touched(comments, lo, size) <==> HoldsPart(comments, lo, size)
  {
    if Touched(comments, lo, size) {
      var c :| c in comments && Touches(c, lo, size);
      assert Covered(comments, if c.start < lo then lo else c.start);
    }
    if HoldsPart(comments, lo, size) {
      var p: nat :| (lo <= p < lo + size || (size == 0 && p == lo)) && Covered(comments, p);
      var c :| c in comments && c.start <= p < c.end;
      assert Touches(c, lo, size);
    }
  }

  /** No comment holds a part of the line, or one of its visible characters is in none. */
  ghost predicate LineShown(source: string, comments: seq<Span>, i: nat)
    requires i < |Splitting.Split(source, '\n')|
  {
    var lines := Splitting.Split(source, '\n');
    var lo, size := LineOffset(lines, i), |lines[i]|;
    !HoldsPart(comments, lo, size) || SomeShows(source, comments, lo, size)
  }

  /** The second pass keeps a line, on the ranges the first pass gives it, exactly when it is shown. */
  lemma KeptIffShown(source: string, comments: seq<Span>, i: nat)
    requires i < |Splitting.Split(source, '\n')|
    ensures var lines := Splitting.Split(source, '\n');
            && |AllColumns(comments, lines, |lines|)| == |lines|
            && (Keeps(lines[i], AllColumns(comments, lines, |lines|)[i]) <==> LineShown(source, comments, i))
  {
    var lines := Splitting.Split(source, '\n');
    var columns := Columns(comments, LineOffset(lines, i), |lines[i]|);
    RangesOfLine(comments, lines, |lines|, i);
    Splitting.JoinOfSplit(source, '\n');
    ColumnsEmptyIffUntouched(comments, LineOffset(lines, i), |lines[i]|);
    TouchedIsHeld(comments, LineOffset(lines, i), |lines[i]|);
    assert InOrder(SortByStart(columns)) by { Sequences.SortOrders(columns, StartsFirst()); }
    SweepIsPointwise(lines[i], SortByStart(columns), 0);
    SomeShowsIffSeen(lines, comments, i);
  }

  /** A retained line with its number, counted from one. */
  datatype ProseLine = ProseLine(index: nat, raw: string)

  /** The line belongs in the result: it is in no code block and it is shown. */
  ghost predicate IsProse(source: string, comments: seq<Span>, fenced: set<nat>, line: ProseLine) {
    var lines := Splitting.Split(source, '\n');
    && 1 <= line.index <= |lines| && line.raw == lines[line.index - 1] && line.index !in fenced
    && LineShown(source, comments, line.index - 1)
  }

  predicate Ascending(kept: seq<ProseLine>) {
    forall j, k | 0 <= j < k < |kept| :: kept[j].index < kept[k].index
  }

  /** The line of that number, if it is a prose line. */
  ghost function ProseAt(source: string, comments: seq<Span>, fenced: set<nat>, n: nat): seq<ProseLine>
    requires 1 <= n <= |Splitting.Split(source, '\n')|
  {
    if n !in fenced && LineShown(source, comments, n - 1) then [ProseLine(n, Splitting.Split(source, '\n')[n - 1])]
    else []
  }

  /** The prose lines among the first ones. */
  ghost function ProseUpTo(source: string, comments: seq<Span>, fenced: set<nat>, n: nat): seq<ProseLine>
    requires n <= |Splitting.Split(source, '\n')|
  {
    if n == 0 then [] else ProseUpTo(source, comments, fenced, n - 1) + ProseAt(source, comments, fenced, n)
  }

  lemma {:induction false} ProseMember(source: string, comments: seq<Span>, fenced: set<nat>, n: nat,
                                       line: ProseLine)
    requires n <= |Splitting.Split(source, '\n')|
    ensures line in ProseUpTo(source, comments, fenced, n)
            <==> line.index <= n && IsProse(source, comments, fenced, line)
  {
    if n == 0 {
    } else {
      ProseMember(source, comments, fenced, n - 1, line);
      assert line in ProseAt(source, comments, fenced, n)
             <==> line.index == n && IsProse(source, comments, fenced, line);
    }
  }

  lemma AscendingSnoc(kept: seq<ProseLine>, more: seq<ProseLine>, n: nat)
    requires Ascending(kept) && (forall k | 0 <= k < |kept| :: kept[k].index < n)
    requires more == [] || (|more| == 1 && more[0].index == n)
    ensures Ascending(kept + more) && forall k | 0 <= k < |kept + more| :: (kept + more)[k].index <= n
  {
  }

  lemma {:induction false} ProseAscends(source: string, comments: seq<Span>, fenced: set<nat>, n: nat)
    requires n <= |Splitting.Split(source, '\n')|
    ensures var kept := ProseUpTo(source, comments, fenced, n);
            Ascending(kept) && forall k | 0 <= k < |kept| :: kept[k].index <= n
  {
    if n == 0 {
    } else {
      ProseAscends(source, comments, fenced, n - 1);
      AscendingSnoc(ProseUpTo(source, comments, fenced, n - 1), ProseAt(source, comments, fenced, n), n);
    }
  }

  /** Both passes together, over the comments and the lines of code blocks: exactly the prose lines, in order. */
  method ProseLines(source: string, comments: seq<Span>, fenced: set<nat>) returns (kept: seq<ProseLine>)
    ensures forall line :: line in kept <==> IsProse(source, comments, fenced, line)
    ensures Ascending(kept)
  {
    var rawLines := Splitting.Split(source, '\n');
    var ranges := CommentRanges(comments, rawLines);
    kept := [];
    for i := 0 to |rawLines|
      invariant kept == ProseUpTo(source, comments, fenced, i)
    {
      KeptIffShown(source, comments, i);
      if i + 1 !in fenced {
        var shown := HasTextOutsideComments(rawLines[i], if ranges[i] == [] then None else Some(ranges[i]));
        if shown { kept := kept + [ProseLine(i + 1, rawLines[i])]; }
      }
    }
    forall line ensures line in kept <==> IsProse(source, comments, fenced, line) {
      ProseMember(source, comments, fenced, |rawLines|, line);
    }
    ProseAscends(source, comments, fenced, |rawLines|);
  }
}
