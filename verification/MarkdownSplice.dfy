/** The back-to-front replacement loop of `rewriteMarkdown`: scripts/project-doc-site.ts. */
module MarkdownSplice {
  import opened Sequences

  datatype Replacement = Replacement(start: nat, end: nat, value: string)

  /** `slice`, which stops at the end of the text. */
  function Before(s: string, end: nat): string {
    if end <= |s| then s[..end] else s
  }

  function After(s: string, start: nat): string {
    if start <= |s| then s[start..] else ""
  }

  function Replace(s: string, r: Replacement): string {
    Before(s, r.start) + r.value + After(s, r.end)
  }

  function ReplaceAll(s: string, all: seq<Replacement>): string
    decreases |all|
  {
    if all == [] then s else ReplaceAll(Replace(s, all[0]), all[1..])
  }

  /** Last start first, ties in the order found. */
  function StartsLater(): (Replacement, Replacement) -> bool {
    (r: Replacement, q: Replacement) => q.start <= r.start
  }

  function BackToFront(all: seq<Replacement>): seq<Replacement> {
    Sort(all, StartsLater())
  }

  method Project(source: string, replacements: seq<Replacement>) returns (projected: string)
    ensures projected == ReplaceAll(source, BackToFront(replacements))
  {
    var sorted := BackToFront(replacements);
    projected := source;
    for i := 0 to |sorted|
      invariant ReplaceAll(projected, sorted[i..]) == ReplaceAll(source, sorted)
    {
      assert sorted[i..][1..] == sorted[i + 1..];
      projected := Before(projected, sorted[i].start) + sorted[i].value + After(projected, sorted[i].end);
    }
  }

  /** A text with marked stretches, each with what should take its place. */
  datatype Marked = Rest(text: string) | Slot(text: string, span: string, value: string, rest: Marked)

  function Original(m: Marked): string {
    match m
    case Rest(text) => text
    case Slot(text, span, _, rest) => text + (span + Original(rest))
  }

  /** All stretches replaced at once; the text between them as it was. */
  function Substituted(m: Marked): string {
    match m
    case Rest(text) => text
    case Slot(text, _, value, rest) => text + (value + Substituted(rest))
  }

  /** The marked ranges, first to last. */
  function Ranges(m: Marked, at: nat): seq<Replacement> {
    match m
    case Rest(_) => []
    case Slot(text, span, value, rest) =>
      [Replacement(at + |text|, at + |text| + |span|, value)] + Ranges(rest, at + |text| + |span|)
  }

  /** No two stretches start at the same place. */
  predicate Apart(m: Marked) {
    m.Slot? ==> Apart(m.rest) && (m.rest.Slot? ==> m.span != "" || m.rest.text != "")
  }

  function Reversed(all: seq<Replacement>): seq<Replacement> {
    if all == [] then [] else Reversed(all[1..]) + [all[0]]
  }

  function StartsStrictlyLater(): (Replacement, Replacement) -> bool {
    (r: Replacement, q: Replacement) => q.start < r.start
  }

  ghost predicate Descending(all: seq<Replacement>) {
    Ordered(all, StartsStrictlyLater())
  }

  lemma {:induction false} ReplaceAllSplits(s: string, a: seq<Replacement>, b: seq<Replacement>)
    ensures ReplaceAll(s, a + b) == ReplaceAll(ReplaceAll(s, a), b)
    decreases |a|
  {
    if a == [] {
      assert a + b == b;
    } else {
      assert (a + b)[1..] == a[1..] + b;
      ReplaceAllSplits(Replace(s, a[0]), a[1..], b);
    }
  }

  lemma ReplaceMiddle(a: string, span: string, b: string, value: string)
    ensures Replace((a + span) + b, Replacement(|a|, |a| + |span|, value)) == (a + value) + b
  {
    var s := (a + span) + b;
    assert s[..|a|] == a && s[|a| + |span|..] == b;
  }

  lemma LastReplacement(head: string, span: string, value: string, before: string, after: string,
                        later: seq<Replacement>)
    requires ReplaceAll((head + span) + before, later) == (head + span) + after
    ensures ReplaceAll((head + span) + before, later + [Replacement(|head|, |head| + |span|, value)])
            == (head + value) + after
  {
    var first := Replacement(|head|, |head| + |span|, value);
    ReplaceAllSplits((head + span) + before, later, [first]);
    ReplaceMiddle(head, span, after, value);
    assert ReplaceAll((head + span) + after, [first]) == Replace((head + span) + after, first);
  }

  lemma ReversedCons(first: Replacement, later: seq<Replacement>)
    ensures Reversed([first] + later) == Reversed(later) + [first]
  {
    assert ([first] + later)[1..] == later;
  }

  lemma SlotTexts(before: string, m: Marked)
    requires m.Slot?
    ensures before + Original(m) == ((before + m.text) + m.span) + Original(m.rest)
    ensures before + Substituted(m) == ((before + m.text) + m.value) + Substituted(m.rest)
  {
    Regroup(before, m.text, m.span, Original(m.rest));
    Regroup(before, m.text, m.value, Substituted(m.rest));
  }

  lemma SlotRanges(m: Marked, at: nat)
    requires m.Slot?
    ensures var start, next := at + |m.text|, at + |m.text| + |m.span|;
      Reversed(Ranges(m, at)) == Reversed(Ranges(m.rest, next)) + [Replacement(start, next, m.value)]
  {
    ReversedCons(Replacement(at + |m.text|, at + |m.text| + |m.span|, m.value),
      Ranges(m.rest, at + |m.text| + |m.span|));
  }

  /** Back to front, each replacement leaves the ranges before it where they were. */
  lemma {:induction false} BackwardIsSubstitution(before: string, m: Marked, at: nat)
    requires at == |before|
    ensures ReplaceAll(before + Original(m), Reversed(Ranges(m, at))) == before + Substituted(m)
    decreases m
  {
    if m.Rest? {
    } else {
      var head, next := before + m.text, at + |m.text| + |m.span|;
      var later, first := Reversed(Ranges(m.rest, next)), Replacement(|head|, next, m.value);
      assert ReplaceAll(before + Original(m), later + [first]) == before + Substituted(m) by {
        BackwardIsSubstitution(head + m.span, m.rest, next);
        LastReplacement(head, m.span, m.value, Original(m.rest), Substituted(m.rest), later);
        SlotTexts(before, m);
      }
      assert Reversed(Ranges(m, at)) == later + [first] by { SlotRanges(m, at); }
    }
  }

  lemma {:induction false} RangesStartAfter(m: Marked, at: nat)
    ensures forall r | r in Ranges(m, at) :: r.start >= at && (m.Slot? && m.text != "" ==> r.start > at)
  {
    if m.Rest? {
    } else {
      RangesStartAfter(m.rest, at + |m.text| + |m.span|);
      var first := Replacement(at + |m.text|, at + |m.text| + |m.span|, m.value);
      assert forall r | r in Ranges(m, at) :: r == first || r in Ranges(m.rest, at + |m.text| + |m.span|);
    }
  }

  lemma {:induction false} DescendingSnoc(all: seq<Replacement>, last: Replacement)
    requires Descending(all) && forall r | r in all :: last.start < r.start
    ensures Descending(all + [last])
  {
    if all == [] {
    } else {
      assert (all + [last])[1..] == all[1..] + [last];
      DescendingSnoc(all[1..], last);
    }
  }

  lemma {:induction false} ReversedIsPermutation(all: seq<Replacement>)
    ensures multiset(Reversed(all)) == multiset(all)
  {
    if all == [] {
    } else {
      ReversedIsPermutation(all[1..]);
      assert all == [all[0]] + all[1..];
    }
  }

  lemma LaterStarts(m: Marked, at: nat, start: nat)
    requires start <= at && (start == at ==> m.Slot? ==> m.text != "")
    ensures forall r | r in Reversed(Ranges(m, at)) :: start < r.start
  {
    RangesStartAfter(m, at);
    ReversedIsPermutation(Ranges(m, at));
    SameMembers(Reversed(Ranges(m, at)), Ranges(m, at));
  }

  lemma {:induction false} RangesDescend(m: Marked, at: nat)
    requires Apart(m)
    ensures Descending(Reversed(Ranges(m, at)))
    decreases m
  {
    if m.Rest? {
    } else {
      var start, next := at + |m.text|, at + |m.text| + |m.span|;
      RangesDescend(m.rest, next);
      LaterStarts(m.rest, next, start);
      ReversedCons(Replacement(start, next, m.value), Ranges(m.rest, next));
      DescendingSnoc(Reversed(Ranges(m.rest, next)), Replacement(start, next, m.value));
    }
  }

  /** In whatever order the replacements were found, the loop substitutes them all at once. */
  lemma ProjectIsSubstitution(m: Marked, found: seq<Replacement>)
    requires Apart(m) && multiset(found) == multiset(Ranges(m, 0))
    ensures ReplaceAll(Original(m), BackToFront(found)) == Substituted(m)
  {
    SortPermutes(found, StartsLater());
    SortOrders(found, StartsLater());
    ReversedIsPermutation(Ranges(m, 0));
    RangesDescend(m, 0);
    StrictOrderIsUnique(BackToFront(found), Reversed(Ranges(m, 0)), StartsLater(), StartsStrictlyLater());
    BackwardIsSubstitution("", m, 0);
    assert "" + Original(m) == Original(m) && "" + Substituted(m) == Substituted(m);
  }

  /** Ranges in order, inside the text and disjoint. */
  predicate Disjoint(all: seq<Replacement>, from: nat, size: nat) {
    if all == [] then from <= size
    else from <= all[0].start <= all[0].end && Disjoint(all[1..], all[0].end, size)
  }

  lemma {:induction false} DisjointFits(all: seq<Replacement>, from: nat, size: nat)
    requires Disjoint(all, from, size)
    ensures from <= size && (all != [] ==> all[0].end <= size)
  {
    if all == [] {
    } else {
      DisjointFits(all[1..], all[0].end, size);
    }
  }

  predicate DistinctStarts(all: seq<Replacement>) {
    forall i, j | 0 <= i < j < |all| :: all[i].start != all[j].start
  }

  /** Disjoint ranges mark a text, and with distinct starts their stretches are apart. */
  lemma {:induction false} DisjointRangesMark(source: string, all: seq<Replacement>, from: nat) returns (m: Marked)
    requires Disjoint(all, from, |source|)
    ensures from <= |source| && Original(m) == source[from..] && Ranges(m, from) == all
    ensures DistinctStarts(all) ==> Apart(m)
    decreases |all|
  {
    DisjointFits(all, from, |source|);
    if all == [] {
      m := Rest(source[from..]);
    } else {
      var r := all[0];
      DisjointFits(all[1..], r.end, |source|);
      var rest := DisjointRangesMark(source, all[1..], r.end);
      m := Slot(source[from..r.start], source[r.start..r.end], r.value, rest);
      assert source[from..] == source[from..r.start] + (source[r.start..r.end] + source[r.end..]);
      if rest.Slot? { assert all[1] == Ranges(rest, r.end)[0]; }
    }
  }

  /** Two ranges that start apart and do not overlap. */
  predicate Clear(r: Replacement, q: Replacement) {
    r.start != q.start && (r.end <= q.start || q.end <= r.start)
  }

  ghost predicate AllClear(all: seq<Replacement>) {
    all == [] || ((forall q | q in all[1..] :: Clear(all[0], q)) && AllClear(all[1..]))
  }

  predicate Inside(all: seq<Replacement>, size: nat) {
    forall r | r in all :: r.start <= r.end <= size
  }

  lemma {:induction false} InsertKeepsClear(x: Replacement, sorted: seq<Replacement>)
    requires AllClear(sorted) && forall q | q in sorted :: Clear(x, q)
    ensures AllClear(Insert(x, sorted, StartsLater()))
  {
    var inserted := Insert(x, sorted, StartsLater());
    if sorted == [] || StartsLater()(x, sorted[0]) {
      assert inserted[1..] == sorted;
    } else {
      InsertKeepsClear(x, sorted[1..]);
      InsertPermutes(x, sorted[1..], StartsLater());
      assert inserted[1..] == Insert(x, sorted[1..], StartsLater());
      assert Clear(x, sorted[0]);
      forall q | q in inserted[1..] ensures Clear(sorted[0], q) {
        assert q in multiset(inserted[1..]) && (q == x || q in multiset(sorted[1..]));
      }
    }
  }

  lemma {:induction false} SortKeepsClear(found: seq<Replacement>)
    requires AllClear(found)
    ensures AllClear(BackToFront(found))
  {
    if found == [] {
    } else {
      SortKeepsClear(found[1..]);
      SortPermutes(found[1..], StartsLater());
      SameMembers(BackToFront(found[1..]), found[1..]);
      InsertKeepsClear(found[0], BackToFront(found[1..]));
    }
  }

  lemma {:induction false} DisjointSnoc(all: seq<Replacement>, last: Replacement, from: nat, size: nat)
    requires Disjoint(all, from, last.start) && last.start <= last.end <= size
    ensures Disjoint(all + [last], from, size)
  {
    if all == [] {
      assert (all + [last])[1..] == [];
    } else {
      assert (all + [last])[1..] == all[1..] + [last];
      DisjointSnoc(all[1..], last, all[0].end, size);
    }
  }

  /** Clear ranges sorted back to front are, read forwards, disjoint. */
  lemma {:induction false} SortedAreDisjoint(sorted: seq<Replacement>, size: nat)
    requires Ordered(sorted, StartsLater()) && AllClear(sorted) && Inside(sorted, size)
    ensures Disjoint(Reversed(sorted), 0, size)
    decreases |sorted|
  {
    if sorted == [] {
    } else {
      var last, earlier := sorted[0], sorted[1..];
      assert last in sorted && forall q | q in earlier :: q in sorted;
      forall q | q in earlier ensures q.end <= last.start {
        assert StartsLater()(last, q) && Clear(last, q);
      }
      SortedAreDisjoint(earlier, last.start);
      DisjointSnoc(Reversed(earlier), last, 0, size);
    }
  }

  lemma {:induction false} ClearStarts(sorted: seq<Replacement>)
    requires AllClear(sorted)
    ensures DistinctStarts(Reversed(sorted))
  {
    if sorted == [] {
    } else {
      var last, earlier := sorted[0], Reversed(sorted[1..]);
      ClearStarts(sorted[1..]);
      ReversedIsPermutation(sorted[1..]);
      SameMembers(earlier, sorted[1..]);
      assert Reversed(sorted) == earlier + [last];
      forall i | 0 <= i < |earlier| ensures earlier[i].start != last.start { assert Clear(last, earlier[i]); }
    }
  }

  /**
   * The whole of it, over a text and the replacements as found: if they lie inside the text, start apart and
   * do not overlap, then whatever their order the loop's result is their simultaneous substitution.
   */
  lemma ProjectSubstitutes(source: string, found: seq<Replacement>) returns (m: Marked)
    requires Inside(found, |source|) && AllClear(found)
    ensures Original(m) == source && multiset(Ranges(m, 0)) == multiset(found)
    ensures ReplaceAll(source, BackToFront(found)) == Substituted(m)
  {
    var sorted := BackToFront(found);
    SortPermutes(found, StartsLater());
    SortOrders(found, StartsLater());
    SameMembers(sorted, found);
    SortKeepsClear(found);
    SortedAreDisjoint(sorted, |source|);
    ClearStarts(sorted);
    m := DisjointRangesMark(source, Reversed(sorted), 0);
    ReversedIsPermutation(sorted);
    assert source[0..] == source;
    ProjectIsSubstitution(m, found);
  }
}
