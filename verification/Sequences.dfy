/** Facts about sequences and their bags, and the stable `sort` of the source language. */
module Sequences {

  lemma Associate<T>(a: seq<T>, b: seq<T>, c: seq<T>)
    ensures (a + b) + c == a + (b + c)
  {
  }

  lemma Regroup<T>(a: seq<T>, b: seq<T>, c: seq<T>, d: seq<T>)
    ensures ((a + b) + c) + d == a + (b + (c + d))
    ensures (a + (b + c)) + d == a + (b + (c + d))
  {
  }

  lemma Rewrap<T>(a: seq<T>, b: seq<T>, c: seq<T>, d: seq<T>, e: seq<T>)
    ensures a + b + (c + d) + e == a + ((b + c) + (d + e))
  {
  }

  lemma AppendNext<T>(before: seq<T>, s: seq<T>, i: nat)
    requires i < |s|
    ensures (before + s[..i]) + [s[i]] == before + s[..i + 1]
  {
  }

  lemma InsertedOnce<T>(a: seq<T>, x: T, b: seq<T>)
    ensures multiset(a + ([x] + b)) == multiset(a + b) + multiset{x}
  {
  }

  lemma SameMembers<T(!new)>(a: seq<T>, b: seq<T>)
    requires multiset(a) == multiset(b)
    ensures forall x :: x in a <==> x in b
  {
    assert forall x :: x in a <==> x in multiset(a);
    assert forall x :: x in b <==> x in multiset(b);
  }

  lemma TailBags<T>(head: T, a: seq<T>, b: seq<T>)
    requires multiset([head] + a) == multiset([head] + b)
    ensures multiset(a) == multiset(b)
  {
    assert multiset(a) == multiset([head] + a) - multiset{head};
    assert multiset(b) == multiset([head] + b) - multiset{head};
  }

  lemma BagWithout<T>(s: seq<T>, k: nat)
    requires k < |s|
    ensures multiset(s) == multiset(s[..k] + s[k + 1..]) + multiset{s[k]}
  {
    assert s == s[..k] + ([s[k]] + s[k + 1..]);
    InsertedOnce(s[..k], s[k], s[k + 1..]);
  }

  lemma CancelOne<T>(a: multiset<T>, b: multiset<T>, x: T)
    requires a + multiset{x} == b + multiset{x}
    ensures a == b
  {
    assert a == (a + multiset{x}) - multiset{x};
    assert b == (b + multiset{x}) - multiset{x};
  }

  /** Removing the same element from equal bags. */
  lemma RemovedBags<T>(a: seq<T>, b: seq<T>, k: nat)
    requires a != [] && k < |b| && b[k] == a[0] && multiset(a) == multiset(b)
    ensures multiset(a[1..]) == multiset(b[..k] + b[k + 1..])
  {
    BagWithout(a, 0);
    BagWithout(b, k);
    CancelOne(multiset(a[..0] + a[1..]), multiset(b[..k] + b[k + 1..]), a[0]);
    assert a[..0] + a[1..] == a[1..];
  }

  // Sorting: `first(x, y)` says that x, found before y, goes before it.

  function Insert<T>(x: T, sorted: seq<T>, first: (T, T) -> bool): seq<T> {
    if sorted == [] || first(x, sorted[0]) then [x] + sorted else [sorted[0]] + Insert(x, sorted[1..], first)
  }

  function Sort<T>(all: seq<T>, first: (T, T) -> bool): seq<T> {
    if all == [] then [] else Insert(all[0], Sort(all[1..], first), first)
  }

  ghost predicate Ordered<T>(s: seq<T>, first: (T, T) -> bool) {
    s == [] || ((forall y | y in s[1..] :: first(s[0], y)) && Ordered(s[1..], first))
  }

  lemma {:induction false} OrderedAt<T>(s: seq<T>, first: (T, T) -> bool, i: nat, j: nat)
    requires Ordered(s, first) && i < j < |s|
    ensures first(s[i], s[j])
  {
    if i == 0 {
      assert s[1..][j - 1] == s[j];
    } else {
      OrderedAt(s[1..], first, i - 1, j - 1);
    }
  }

  ghost predicate IsPreorder<T(!new)>(first: (T, T) -> bool) {
    && (forall x, y :: first(x, y) || first(y, x))
    && forall x, y, z :: first(x, y) && first(y, z) ==> first(x, z)
  }

  lemma {:induction false} InsertPermutes<T>(x: T, sorted: seq<T>, first: (T, T) -> bool)
    ensures multiset(Insert(x, sorted, first)) == multiset(sorted) + multiset{x}
  {
    if sorted == [] || first(x, sorted[0]) {
    } else {
      InsertPermutes(x, sorted[1..], first);
      assert sorted == [sorted[0]] + sorted[1..];
    }
  }

  lemma {:induction false} SortPermutes<T>(all: seq<T>, first: (T, T) -> bool)
    ensures multiset(Sort(all, first)) == multiset(all)
  {
    if all == [] {
    } else {
      SortPermutes(all[1..], first);
      InsertPermutes(all[0], Sort(all[1..], first), first);
      assert all == [all[0]] + all[1..];
    }
  }

  lemma {:induction false} InsertOrders<T(!new)>(x: T, sorted: seq<T>, first: (T, T) -> bool)
    requires IsPreorder(first) && Ordered(sorted, first)
    ensures Ordered(Insert(x, sorted, first), first)
  {
    if sorted == [] {
    } else {
      var head, rest := sorted[0], sorted[1..];
      assert sorted == [head] + rest;
      if first(x, head) {
        assert ([x] + sorted)[1..] == sorted;
      } else {
        var tail := Insert(x, rest, first);
        InsertOrders(x, rest, first);
        InsertPermutes(x, rest, first);
        forall y | y in tail ensures first(head, y) { assert y in multiset(tail); }
        assert ([head] + tail)[1..] == tail;
      }
    }
  }

  /** The sort arranges its input in order. */
  lemma {:induction false} SortOrders<T(!new)>(all: seq<T>, first: (T, T) -> bool)
    requires IsPreorder(first)
    ensures Ordered(Sort(all, first), first) && multiset(Sort(all, first)) == multiset(all)
    ensures forall x :: x in Sort(all, first) <==> x in all
  {
    if all == [] {
    } else {
      SortOrders(all[1..], first);
      InsertOrders(all[0], Sort(all[1..], first), first);
    }
    SortPermutes(all, first);
    SameMembers(Sort(all, first), all);
  }

  function Kept<T>(x: T, keep: T -> bool): seq<T> {
    if keep(x) then [x] else []
  }

  function Filter<T>(all: seq<T>, keep: T -> bool): seq<T> {
    if all == [] then [] else Kept(all[0], keep) + Filter(all[1..], keep)
  }

  lemma FilterCons<T>(x: T, all: seq<T>, keep: T -> bool)
    ensures Filter([x] + all, keep) == Kept(x, keep) + Filter(all, keep)
  {
    assert ([x] + all)[1..] == all;
  }

  ghost predicate Ties<T(!new)>(first: (T, T) -> bool, tied: T -> bool) {
    forall y, z :: tied(y) && tied(z) ==> first(y, z)
  }

  lemma {:induction false} InsertIsStable<T(!new)>(x: T, sorted: seq<T>, first: (T, T) -> bool, tied: T -> bool)
    requires Ties(first, tied)
    ensures Filter(Insert(x, sorted, first), tied) == Kept(x, tied) + Filter(sorted, tied)
  {
    if sorted == [] || first(x, sorted[0]) {
      FilterCons(x, sorted, tied);
    } else {
      var head, tail := sorted[0], sorted[1..];
      assert !(tied(x) && tied(head));
      InsertIsStable(x, tail, first, tied);
      FilterCons(head, Insert(x, tail, first), tied);
      assert sorted == [head] + tail;
      FilterCons(head, tail, tied);
    }
  }

  /** The sort is stable: elements that tie with each other keep the order they came in. */
  lemma {:induction false} SortIsStable<T(!new)>(all: seq<T>, first: (T, T) -> bool, tied: T -> bool)
    requires Ties(first, tied)
    ensures Filter(Sort(all, first), tied) == Filter(all, tied)
  {
    if all == [] {
    } else {
      SortIsStable(all[1..], first, tied);
      InsertIsStable(all[0], Sort(all[1..], first), first, tied);
      assert all == [all[0]] + all[1..];
      FilterCons(all[0], all[1..], tied);
    }
  }

  /** A list in order equals any strictly ordered list of the same elements. */
  lemma {:induction false} StrictOrderIsUnique<T(!new)>(a: seq<T>, b: seq<T>, first: (T, T) -> bool,
                                                        strict: (T, T) -> bool)
    requires Ordered(a, first) && Ordered(b, strict) && multiset(a) == multiset(b)
    requires forall x, y :: strict(x, y) ==> !first(y, x)
    ensures a == b
  {
    SameMembers(a, b);
    if a == [] || b == [] {
      assert |a| == |multiset(a)| && |b| == |multiset(b)|;
    } else {
      assert a == [a[0]] + a[1..] && b == [b[0]] + b[1..];
      assert a[0] in b && b[0] in a;
      assert a[0] == b[0];
      TailBags(a[0], a[1..], b[1..]);
      StrictOrderIsUnique(a[1..], b[1..], first, strict);
    }
  }

  /** With an order that ties only equal elements, a bag has one ordered list. */
  lemma {:induction false} OrderIsUnique<T(!new)>(a: seq<T>, b: seq<T>, first: (T, T) -> bool)
    requires Ordered(a, first) && Ordered(b, first) && multiset(a) == multiset(b)
    requires forall x, y :: first(x, y) && first(y, x) ==> x == y
    ensures a == b
  {
    SameMembers(a, b);
    if a == [] || b == [] {
      assert |a| == |multiset(a)| && |b| == |multiset(b)|;
    } else {
      assert a == [a[0]] + a[1..] && b == [b[0]] + b[1..];
      assert a[0] in b && b[0] in a;
      assert a[0] == b[0];
      TailBags(a[0], a[1..], b[1..]);
      OrderIsUnique(a[1..], b[1..], first);
    }
  }
}
