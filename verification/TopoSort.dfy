/** The layered package order of scripts/package-graph.ts: `comparePackages` and `topoSort`. */
module TopoSort {
  import opened JavaScript
  import opened Sequences

  datatype Package = Package(short: string, group: string, deps: seq<string>)

  /** The caller's group order and the locale's string comparison. */
  datatype Order = Order(groups: seq<string>, locale: (string, string) -> int) {

    /** The comparison is a total order. */
    ghost predicate Valid() {
      && (forall x, y :: locale(x, y) == 0 <==> x == y)
      && (forall x, y :: locale(x, y) < 0 ==> locale(y, x) > 0)
      && (forall x, y :: locale(x, y) > 0 ==> locale(y, x) < 0)
      && forall x, y, z :: locale(x, y) < 0 && locale(y, z) < 0 ==> locale(x, z) < 0
    }

    function GroupRank(group: string): int {
      var i := IndexOf(groups, group);
      if i == -1 then MAX_SAFE_INTEGER else i
    }

    function Compare(a: Package, b: Package): int {
      var byRank := GroupRank(a.group) - GroupRank(b.group);
      if byRank != 0 then byRank
      else if locale(a.group, b.group) != 0 then locale(a.group, b.group)
      else locale(a.short, b.short)
    }
  }

  function IndexOf(all: seq<string>, x: string): int {
    if all == [] then -1
    else if all[0] == x then 0
    else
      var i := IndexOf(all[1..], x);
      if i == -1 then -1 else i + 1
  }

  lemma {:induction false} IndexOfIsFirst(all: seq<string>, x: string)
    ensures var i := IndexOf(all, x);
            if x in all then 0 <= i < |all| && all[i] == x && forall j | 0 <= j < i :: all[j] != x else i == -1
  {
    if all == [] {
    } else {
      IndexOfIsFirst(all[1..], x);
      assert all == [all[0]] + all[1..];
      assert forall j | 0 < j < |all| :: all[j] == all[1..][j - 1];
    }
  }

  /** In the list the first group comes before any occurrence of the second. */
  predicate ListedFirst(groups: seq<string>, a: string, b: string) {
    exists i | 0 <= i < |groups| :: groups[i] == a && forall j | 0 <= j <= i :: groups[j] != b
  }

  /** By the place of their groups in the list, unlisted groups last; then by the groups' names; then by their own. */
  predicate ComesFirst(order: Order, a: Package, b: Package) {
    || ListedFirst(order.groups, a.group, b.group)
    || (&& !ListedFirst(order.groups, b.group, a.group)
        && (order.locale(a.group, b.group) < 0
            || (a.group == b.group && order.locale(a.short, b.short) < 0)))
  }

  lemma RankIsListing(order: Order, a: string, b: string)
    requires |order.groups| <= MAX_SAFE_INTEGER
    ensures ListedFirst(order.groups, a, b) <==> order.GroupRank(a) < order.GroupRank(b)
  {
    IndexOfIsFirst(order.groups, a);
    IndexOfIsFirst(order.groups, b);
    if order.GroupRank(a) < order.GroupRank(b) { assert order.groups[IndexOf(order.groups, a)] == a; }
  }

  /** What the comparison orders by. */
  lemma CompareIsByGroupThenName(order: Order, a: Package, b: Package)
    requires order.Valid() && |order.groups| <= MAX_SAFE_INTEGER
    ensures order.Compare(a, b) < 0 <==> ComesFirst(order, a, b)
  {
    RankIsListing(order, a.group, b.group);
    RankIsListing(order, b.group, a.group);
  }

  lemma CompareIsTotal(order: Order, a: Package, b: Package)
    requires order.Valid() && a.short != b.short
    ensures order.Compare(a, b) < 0 || order.Compare(b, a) < 0
  {
    assert order.locale(a.short, b.short) != 0;
  }

  lemma CompareIsAsymmetric(order: Order, a: Package, b: Package)
    requires order.Valid() && order.Compare(a, b) < 0
    ensures order.Compare(b, a) > 0
  {
  }

  lemma CompareIsTransitive(order: Order, a: Package, b: Package, c: Package)
    requires order.Valid() && order.Compare(a, b) < 0 && order.Compare(b, c) < 0
    ensures order.Compare(a, c) < 0
  {
  }

  /** `Map` construction: a repeated name keeps its first place and its last package. */
  function Put(entries: seq<Package>, p: Package): seq<Package> {
    if entries == [] then [p]
    else if entries[0].short == p.short then [p] + entries[1..]
    else [entries[0]] + Put(entries[1..], p)
  }

  function Entries(packages: seq<Package>): seq<Package> {
    if packages == [] then []
    else Put(Entries(packages[..|packages| - 1]), packages[|packages| - 1])
  }

  function Shorts(packages: seq<Package>): set<string> {
    if packages == [] then {} else {packages[0].short} + Shorts(packages[1..])
  }

  /** The short names are those of the packages. */
  lemma {:induction false} AllInShorts(packages: seq<Package>)
    ensures forall p | p in packages :: p.short in Shorts(packages)
  {
    if packages == [] {
    } else {
      AllInShorts(packages[1..]);
      assert forall p | p in packages :: p == packages[0] || p in packages[1..];
    }
  }

  lemma InShorts(packages: seq<Package>, p: Package)
    requires p in packages
    ensures p.short in Shorts(packages)
  {
    AllInShorts(packages);
  }

  lemma {:induction false} Named(packages: seq<Package>, short: string) returns (p: Package)
    requires short in Shorts(packages)
    ensures p in packages && p.short == short
  {
    if packages[0].short == short {
      p := packages[0];
    } else {
      p := Named(packages[1..], short);
    }
  }

  lemma SameShorts(a: seq<Package>, b: seq<Package>)
    requires forall p :: p in a <==> p in b
    ensures Shorts(a) == Shorts(b)
  {
    ShortsInclude(a, b);
    ShortsInclude(b, a);
  }

  lemma ShortsInclude(a: seq<Package>, b: seq<Package>)
    requires forall p | p in a :: p in b
    ensures Shorts(a) <= Shorts(b)
  {
    AllInShorts(b);
    forall x | x in Shorts(a) ensures x in Shorts(b) {
      var p := Named(a, x);
    }
  }

  predicate Distinct(packages: seq<Package>) {
    packages == [] || (packages[0].short !in Shorts(packages[1..]) && Distinct(packages[1..]))
  }

  function Ready(remaining: seq<Package>, placed: set<string>): seq<Package> {
    if remaining == [] then []
    else
      var rest := Ready(remaining[1..], placed);
      if IsReady(remaining[0], placed) then [remaining[0]] + rest else rest
  }

  predicate IsReady(p: Package, placed: set<string>) {
    forall d | d in p.deps :: d in placed
  }

  function NotAfter(order: Order): (Package, Package) -> bool {
    (p: Package, q: Package) => order.Compare(p, q) <= 0
  }

  function Before(order: Order): (Package, Package) -> bool {
    (p: Package, q: Package) => order.Compare(p, q) < 0
  }

  /** One turn's sorted ready packages. */
  function Layer(remaining: seq<Package>, placed: set<string>, order: Order): seq<Package> {
    Sort(Ready(remaining, placed), NotAfter(order))
  }

  function Delete(remaining: seq<Package>, short: string): seq<Package> {
    if remaining == [] then []
    else if remaining[0].short == short then remaining[1..]
    else [remaining[0]] + Delete(remaining[1..], short)
  }

  function Names(packages: seq<Package>): seq<string> {
    if packages == [] then [] else [packages[0].short] + Names(packages[1..])
  }

  function ToSet(names: seq<string>): set<string> {
    if names == [] then {} else {names[0]} + ToSet(names[1..])
  }

  datatype Outcome = Sorted(out: seq<Package>) | DependencyCycle(names: seq<string>)

  /** One more than the deepest dependency, and zero without dependencies. */
  predicate DepthHere(p: Package, depth: map<string, nat>) {
    && p.short in depth
    && (forall d | d in p.deps :: d in depth && depth[d] < depth[p.short])
    && (depth[p.short] > 0 ==> exists d | d in p.deps :: d in depth && depth[d] == depth[p.short] - 1)
  }

  ghost predicate IsDepth(depth: map<string, nat>, packages: seq<Package>) {
    depth.Keys == Shorts(packages) && forall p | p in packages :: DepthHere(p, depth)
  }

  /** By depth, and `comparePackages` within one depth. */
  predicate Comes(p: Package, q: Package, depth: map<string, nat>, order: Order) {
    && p.short in depth && q.short in depth
    && (depth[p.short] < depth[q.short] || (depth[p.short] == depth[q.short] && order.Compare(p, q) < 0))
  }

  function ComesBy(depth: map<string, nat>, order: Order): (Package, Package) -> bool {
    (p: Package, q: Package) => Comes(p, q, depth, order)
  }

  ghost predicate InOrder(out: seq<Package>, depth: map<string, nat>, order: Order) {
    Ordered(out, ComesBy(depth, order))
  }

  /** A package with one of these names needs another of them, or a name outside the set. */
  ghost predicate Stuck(packages: seq<Package>, names: set<string>) {
    forall p | p in packages && p.short in names :: NeedsOneOf(p, names, Shorts(packages))
  }

  predicate NeedsOneOf(p: Package, names: set<string>, all: set<string>) {
    exists d | d in p.deps :: d in names || d !in all
  }

  // Sorting and the map's operations.

  ghost predicate Increasing(s: seq<Package>, order: Order) {
    Ordered(s, Before(order))
  }

  /** Names repeat exactly when there are fewer of them than packages. */
  lemma {:induction false} DistinctBySize(packages: seq<Package>)
    ensures |Shorts(packages)| <= |packages|
    ensures Distinct(packages) <==> |Shorts(packages)| == |packages|
  {
    if packages == [] {
    } else {
      DistinctBySize(packages[1..]);
    }
  }

  lemma DistinctPermutes(a: seq<Package>, b: seq<Package>)
    requires multiset(a) == multiset(b) && Distinct(a)
    ensures Distinct(b) && Shorts(a) == Shorts(b)
  {
    assert |a| == |multiset(a)| && |b| == |multiset(b)|;
    SameMembers(a, b);
    SameShorts(a, b);
    DistinctBySize(a);
    DistinctBySize(b);
  }

  lemma CompareIsPreorder(order: Order)
    requires order.Valid()
    ensures IsPreorder(NotAfter(order))
  {
    forall p, q ensures NotAfter(order)(p, q) || NotAfter(order)(q, p) {
      assert order.locale(p.short, q.short) > 0 ==> order.locale(q.short, p.short) < 0;
    }
    forall p, q, r | NotAfter(order)(p, q) && NotAfter(order)(q, r) ensures NotAfter(order)(p, r) {
      if order.Compare(p, q) < 0 && order.Compare(q, r) < 0 { CompareIsTransitive(order, p, q, r); }
    }
  }

  /** Distinct packages in order are strictly in order. */
  lemma {:induction false} DistinctIncreases(s: seq<Package>, order: Order)
    requires order.Valid() && Ordered(s, NotAfter(order)) && Distinct(s)
    ensures Increasing(s, order)
  {
    if s == [] {
    } else {
      AllInShorts(s[1..]);
      forall q | q in s[1..] ensures Before(order)(s[0], q) {
        assert NotAfter(order)(s[0], q);
        CompareIsTotal(order, s[0], q);
        if order.Compare(q, s[0]) < 0 { CompareIsAsymmetric(order, q, s[0]); }
      }
      DistinctIncreases(s[1..], order);
    }
  }

  lemma {:induction false} ReadyIsFilter(remaining: seq<Package>, placed: set<string>)
    requires Distinct(remaining)
    ensures forall p :: p in Ready(remaining, placed) <==> p in remaining && IsReady(p, placed)
    ensures Distinct(Ready(remaining, placed))
  {
    if remaining == [] {
    } else {
      ReadyIsFilter(remaining[1..], placed);
      var rest := Ready(remaining[1..], placed);
      ShortsInclude(rest, remaining[1..]);
      assert forall p :: p in remaining <==> p == remaining[0] || p in remaining[1..];
      assert ([remaining[0]] + rest)[1..] == rest;
    }
  }

  lemma Contained(a: seq<Package>, more: multiset<Package>, b: seq<Package>)
    requires multiset(a) + more == multiset(b)
    ensures (forall p | p in a :: p in b) && Shorts(a) <= Shorts(b)
  {
    forall p | p in a ensures p in b {
      assert p in multiset(a);
      assert p in multiset(b);
    }
    ShortsInclude(a, b);
  }

  lemma {:induction false} DeleteRemovesOne(remaining: seq<Package>, p: Package)
    requires Distinct(remaining) && p in remaining
    ensures multiset(Delete(remaining, p.short)) + multiset{p} == multiset(remaining)
    ensures Distinct(Delete(remaining, p.short)) && p.short !in Shorts(Delete(remaining, p.short))
  {
    var first, rest := remaining[0], remaining[1..];
    assert remaining == [first] + rest;
    if first.short == p.short {
      if p in rest { InShorts(rest, p); }
    } else {
      DeleteRemovesOne(rest, p);
      var left := Delete(rest, p.short);
      Contained(left, multiset{p}, rest);
      ShortsCons(first, left);
    }
  }

  lemma ShortsCons(first: Package, rest: seq<Package>)
    ensures Shorts([first] + rest) == {first.short} + Shorts(rest)
    ensures Distinct([first] + rest) <==> first.short !in Shorts(rest) && Distinct(rest)
  {
    assert ([first] + rest)[1..] == rest;
  }

  lemma {:induction false} ShortsConcat(a: seq<Package>, b: seq<Package>)
    ensures Shorts(a + b) == Shorts(a) + Shorts(b)
  {
    if a == [] {
      assert a + b == b;
    } else {
      assert (a + b)[1..] == a[1..] + b;
      ShortsConcat(a[1..], b);
    }
  }

  lemma ShortsSnoc(before: seq<Package>, last: Package)
    ensures Shorts(before + [last]) == Shorts(before) + {last.short}
  {
    ShortsConcat(before, [last]);
  }

  lemma {:induction false} PutKeepsDistinct(entries: seq<Package>, p: Package)
    requires Distinct(entries)
    ensures Distinct(Put(entries, p)) && Shorts(Put(entries, p)) == Shorts(entries) + {p.short}
  {
    if entries == [] {
      assert Shorts([p]) == {p.short};
    } else {
      var first, rest := entries[0], entries[1..];
      assert entries == [first] + rest;
      ShortsCons(first, rest);
      if first.short == p.short {
        ShortsCons(p, rest);
      } else {
        PutKeepsDistinct(rest, p);
        ShortsCons(first, Put(rest, p));
      }
    }
  }

  lemma {:induction false} NewNameIsAppended(entries: seq<Package>, p: Package)
    requires p.short !in Shorts(entries)
    ensures Put(entries, p) == entries + [p]
  {
    if entries == [] {
    } else {
      assert entries[0] in entries;
      assert entries == [entries[0]] + entries[1..];
      ShortsCons(entries[0], entries[1..]);
      NewNameIsAppended(entries[1..], p);
    }
  }

  lemma {:induction false} EntriesAreDistinct(packages: seq<Package>)
    ensures Distinct(Entries(packages)) && Shorts(Entries(packages)) == Shorts(packages)
  {
    if packages == [] {
    } else {
      var before, last := packages[..|packages| - 1], packages[|packages| - 1];
      EntriesAreDistinct(before);
      PutKeepsDistinct(Entries(before), last);
      assert packages == before + [last];
      ShortsSnoc(before, last);
    }
  }

  /** With distinct names the map's values are the packages themselves. */
  lemma {:induction false} DistinctEntries(packages: seq<Package>)
    requires forall i, j | 0 <= i < j < |packages| :: packages[i].short != packages[j].short
    ensures Entries(packages) == packages
  {
    if packages == [] {
    } else {
      var before, last := packages[..|packages| - 1], packages[|packages| - 1];
      DistinctEntries(before);
      if last.short in Shorts(before) {
        var p := Named(before, last.short);
      }
      NewNameIsAppended(before, last);
    }
  }

  // The run.

  /** What holds at the start of every turn of the outer loop, `n` layers in. */
  ghost predicate RunOk(entries: seq<Package>, remaining: seq<Package>, out: seq<Package>, depth: map<string, nat>,
                        n: nat, order: Order)
  {
    && multiset(out) + multiset(remaining) == multiset(entries)
    && Distinct(remaining) && Shorts(remaining) !! depth.Keys
    && depth.Keys == Shorts(out)
    && (forall p | p in out :: DepthHere(p, depth) && depth[p.short] < n)
    && InOrder(out, depth, order)
    && (n > 0 ==> forall p | p in remaining :: WaitsFor(p, depth, n - 1))
  }

  /** Some dependency was not placed before layer `n`. */
  predicate WaitsFor(p: Package, depth: map<string, nat>, n: nat) {
    exists d | d in p.deps :: d !in depth || depth[d] == n
  }

  function Placed(depth: map<string, nat>, layer: seq<Package>, n: nat): map<string, nat> {
    depth + map x | x in Shorts(layer) :: n
  }

  lemma {:induction false} InOrderGrows(out: seq<Package>, depth: map<string, nat>, layer: seq<Package>, n: nat,
                                        order: Order)
    requires InOrder(out, depth, order) && Increasing(layer, order) && Shorts(layer) !! depth.Keys
    requires forall p | p in out :: p.short in depth && depth[p.short] < n
    ensures InOrder(out + layer, Placed(depth, layer, n), order)
  {
    var grown := Placed(depth, layer, n);
    AllInShorts(layer);
    if out == [] {
      assert out + layer == layer;
      LayerInOrder(layer, grown, order);
    } else {
      InOrderGrows(out[1..], depth, layer, n, order);
      assert (out + layer)[1..] == out[1..] + layer;
      forall q | q in out[1..] + layer ensures Comes(out[0], q, grown, order) {
        if q in layer {
        } else {
          assert Comes(out[0], q, depth, order);
        }
      }
    }
  }

  lemma {:induction false} LayerInOrder(layer: seq<Package>, depth: map<string, nat>, order: Order)
    requires Increasing(layer, order)
    requires forall p | p in layer :: p.short in depth
    requires forall p, q | p in layer && q in layer :: depth[p.short] == depth[q.short]
    ensures InOrder(layer, depth, order)
  {
    if layer == [] {
    } else {
      LayerInOrder(layer[1..], depth, order);
    }
  }

  /** A placed package keeps its depth, and a ready one gets depth `n`. */
  lemma DepthGrows(p: Package, depth: map<string, nat>, layer: seq<Package>, n: nat)
    requires Shorts(layer) !! depth.Keys && (forall x | x in depth :: depth[x] < n)
    requires DepthHere(p, depth) || (p in layer && IsReady(p, depth.Keys) && (n > 0 ==> WaitsFor(p, depth, n - 1)))
    ensures DepthHere(p, Placed(depth, layer, n)) && Placed(depth, layer, n)[p.short] <= n
  {
    var grown := Placed(depth, layer, n);
    assert forall x | x in depth :: x in grown && grown[x] == depth[x];
    if DepthHere(p, depth) {
    } else {
      InShorts(layer, p);
      assert grown[p.short] == n;
    }
  }

  lemma BagsMove(out: seq<Package>, layer: seq<Package>, left: seq<Package>, remaining: multiset<Package>,
                 all: multiset<Package>)
    requires multiset(out) + remaining == all && multiset(left) + multiset(layer) == remaining
    ensures multiset(out + layer) + multiset(left) == all
  {
  }

  lemma LayerKeepsRun(entries: seq<Package>, remaining: seq<Package>, out: seq<Package>, depth: map<string, nat>,
                      n: nat, order: Order, layer: seq<Package>, left: seq<Package>)
    requires order.Valid() && RunOk(entries, remaining, out, depth, n, order)
    requires layer == Layer(remaining, depth.Keys, order)
    requires multiset(left) + multiset(layer) == multiset(remaining) && Distinct(left) && Shorts(left) !! Shorts(layer)
    ensures RunOk(entries, left, out + layer, Placed(depth, layer, n), n + 1, order)
  {
    LayerFacts(remaining, depth.Keys, order);
    ShortsInclude(layer, remaining);
    Contained(left, multiset(layer), remaining);
    BagsMove(out, layer, left, multiset(remaining), multiset(entries));
    assert InOrder(out + layer, Placed(depth, layer, n), order) by { InOrderGrows(out, depth, layer, n, order); }
    DepthsAfterLayer(remaining, out, depth, n, layer, left);
  }

  lemma LayerFacts(remaining: seq<Package>, placed: set<string>, order: Order)
    requires order.Valid() && Distinct(remaining)
    ensures var layer := Layer(remaining, placed, order);
      && (forall p :: p in layer <==> p in Ready(remaining, placed)) && Increasing(layer, order)
      && forall p | p in layer :: p in remaining && IsReady(p, placed)
  {
    var ready := Ready(remaining, placed);
    ReadyIsFilter(remaining, placed);
    CompareIsPreorder(order);
    SortOrders(ready, NotAfter(order));
    SortPermutes(ready, NotAfter(order));
    DistinctPermutes(ready, Layer(remaining, placed, order));
    DistinctIncreases(Layer(remaining, placed, order), order);
  }

  lemma DepthsAfterLayer(remaining: seq<Package>, out: seq<Package>, depth: map<string, nat>, n: nat,
                         layer: seq<Package>, left: seq<Package>)
    requires Distinct(remaining) && multiset(left) + multiset(layer) == multiset(remaining)
             && Shorts(left) !! Shorts(layer)
    requires (forall q :: q in layer <==> q in Ready(remaining, depth.Keys)) && Shorts(layer) !! depth.Keys
    requires forall p | p in layer :: p in remaining && IsReady(p, depth.Keys)
    requires depth.Keys == Shorts(out) && (forall p | p in out :: DepthHere(p, depth) && depth[p.short] < n)
    requires n > 0 ==> forall p | p in remaining :: WaitsFor(p, depth, n - 1)
    ensures Placed(depth, layer, n).Keys == Shorts(out + layer)
    ensures forall p | p in out + layer ::
              DepthHere(p, Placed(depth, layer, n)) && Placed(depth, layer, n)[p.short] < n + 1
    ensures forall p | p in left :: WaitsFor(p, Placed(depth, layer, n), n)
  {
    PlacedIsBelow(out, depth, n);
    LayerDepths(remaining, out, depth, n, layer);
    AllLeftWait(remaining, layer, left, depth, n);
    ShortsConcat(out, layer);
  }

  lemma LayerDepths(remaining: seq<Package>, out: seq<Package>, depth: map<string, nat>, n: nat, layer: seq<Package>)
    requires Shorts(layer) !! depth.Keys && (forall x | x in depth :: depth[x] < n)
    requires forall p | p in out :: DepthHere(p, depth)
    requires n > 0 ==> forall p | p in remaining :: WaitsFor(p, depth, n - 1)
    requires forall p | p in layer :: p in remaining && IsReady(p, depth.Keys)
    ensures forall p | p in out + layer ::
              DepthHere(p, Placed(depth, layer, n)) && Placed(depth, layer, n)[p.short] < n + 1
  {
    forall p | p in out + layer
      ensures DepthHere(p, Placed(depth, layer, n)) && Placed(depth, layer, n)[p.short] < n + 1
    {
      DepthGrows(p, depth, layer, n);
    }
  }

  lemma PlacedIsBelow(out: seq<Package>, depth: map<string, nat>, n: nat)
    requires depth.Keys == Shorts(out) && forall p | p in out :: DepthHere(p, depth) && depth[p.short] < n
    ensures forall x | x in depth :: depth[x] < n
  {
    forall x | x in depth ensures depth[x] < n {
      var p := Named(out, x);
    }
  }

  lemma LeftWaits(remaining: seq<Package>, layer: seq<Package>, left: seq<Package>, depth: map<string, nat>, n: nat,
                  p: Package)
    requires Distinct(remaining) && multiset(left) + multiset(layer) == multiset(remaining)
             && Shorts(left) !! Shorts(layer)
    requires forall q :: q in layer <==> q in Ready(remaining, depth.Keys)
    requires p in left && Shorts(layer) !! depth.Keys
    ensures p in remaining && WaitsFor(p, Placed(depth, layer, n), n)
  {
    assert p in multiset(left) && p in multiset(remaining);
    ReadyIsFilter(remaining, depth.Keys);
    InShorts(left, p);
    if p in layer { InShorts(layer, p); }
    assert !IsReady(p, depth.Keys);
    var d :| d in p.deps && d !in depth.Keys;
    assert d !in Placed(depth, layer, n) || Placed(depth, layer, n)[d] == n;
  }

  lemma AllLeftWait(remaining: seq<Package>, layer: seq<Package>, left: seq<Package>, depth: map<string, nat>, n: nat)
    requires Distinct(remaining) && multiset(left) + multiset(layer) == multiset(remaining)
             && Shorts(left) !! Shorts(layer)
    requires (forall q :: q in layer <==> q in Ready(remaining, depth.Keys)) && Shorts(layer) !! depth.Keys
    ensures forall p | p in left :: WaitsFor(p, Placed(depth, layer, n), n)
  {
    forall p | p in left ensures WaitsFor(p, Placed(depth, layer, n), n) {
      LeftWaits(remaining, layer, left, depth, n, p);
    }
  }

  /** What the outcome says about the map's packages. */
  ghost predicate Explains(entries: seq<Package>, order: Order, r: Outcome, depth: map<string, nat>) {
    match r
    case Sorted(out) => multiset(out) == multiset(entries) && IsDepth(depth, entries) && InOrder(out, depth, order)
    case DependencyCycle(names) =>
      var stuck := ToSet(names);
      && names != [] && stuck <= Shorts(entries) && depth.Keys == Shorts(entries) - stuck
      && (forall p | p in entries && p.short !in stuck :: DepthHere(p, depth)) && Stuck(entries, stuck)
  }

  /** Halfway through placing one layer. */
  ghost predicate PlacingOk(before: seq<Package>, remaining: seq<Package>, done: seq<Package>) {
    multiset(remaining) + multiset(done) == multiset(before) && Distinct(remaining) && Shorts(remaining) !! Shorts(done)
  }

  lemma PlacingGoesOn(before: seq<Package>, remaining: seq<Package>, done: seq<Package>, p: Package)
    requires PlacingOk(before, remaining, done) && p in before && p.short !in Shorts(done)
    ensures p in remaining && PlacingOk(before, Delete(remaining, p.short), done + [p])
  {
    assert p in remaining by {
      assert p in multiset(before);
      if p in done { InShorts(done, p); }
    }
    DeleteRemovesOne(remaining, p);
    ShortsSnoc(done, p);
    Contained(Delete(remaining, p.short), multiset{p}, remaining);
    BagsMove(done, [p], Delete(remaining, p.short), multiset(remaining), multiset(before));
  }

  lemma {:induction false} DistinctPrefix(packages: seq<Package>, i: nat)
    requires Distinct(packages) && i < |packages|
    ensures packages[i].short !in Shorts(packages[..i])
  {
    if i == 0 {
    } else {
      DistinctPrefix(packages[1..], i - 1);
      InShorts(packages[1..], packages[i]);
      assert packages[..i] == [packages[0]] + packages[1..][..i - 1];
      ShortsCons(packages[0], packages[1..][..i - 1]);
    }
  }

  /** The inner loop of `topoSort`: place one sorted layer. */
  method PlaceLayer(ready: seq<Package>, remaining0: seq<Package>, placed0: set<string>, out0: seq<Package>)
    returns (remaining: seq<Package>, placed: set<string>, out: seq<Package>)
    requires NoRepeats(ready) && Distinct(remaining0) && forall p | p in ready :: p in remaining0
    ensures PlacingOk(remaining0, remaining, ready) && |remaining| + |ready| == |remaining0|
    ensures placed == placed0 + Shorts(ready) && out == out0 + ready
  {
    remaining, placed, out := remaining0, placed0, out0;
    for i := 0 to |ready|
      invariant PlacingOk(remaining0, remaining, ready[..i]) && |remaining| + i == |remaining0|
      invariant out == out0 + ready[..i]
      invariant placed == placed0 + Shorts(ready[..i])
    {
      var pkg := ready[i];
      PlaceNext(remaining0, remaining, ready, i);
      AppendNext(out0, ready, i);
      out := out + [pkg];
      placed := placed + {pkg.short};
      remaining := Delete(remaining, pkg.short);
    }
    assert ready[..|ready|] == ready;
  }

  /** `topoSort`; `depth` is the layer each placed package got. */
  method TopoSort(packages: seq<Package>, order: Order) returns (r: Outcome, ghost depth: map<string, nat>)
    requires order.Valid()
    ensures Explains(Entries(packages), order, r, depth)
    ensures r.Sorted? ==> multiset(r.out) == multiset(Entries(packages)) && DepsFirst(r.out)
    ensures r.DependencyCycle? ==> r.names != [] && Stuck(Entries(packages), ToSet(r.names))
  {
    ghost var entries := Entries(packages);
    var remaining := Entries(packages);
    var placed: set<string> := {};
    var out: seq<Package> := [];
    depth := map[];
    ghost var n: nat := 0;
    RunStarts(packages, order);
    while remaining != []
      invariant RunOk(entries, remaining, out, depth, n, order) && placed == depth.Keys
      decreases |remaining|
    {
      var ready := Layer(remaining, placed, order);
      if ready == [] {
        AllStuck(entries, remaining, out, depth, n, order);
        r := DependencyCycle(Names(remaining));
        return;
      }
      ReadyLayer(remaining, placed, order);
      ghost var before, outBefore := remaining, out;
      remaining, placed, out := PlaceLayer(ready, remaining, placed, out);
      LayerPlaced(entries, before, outBefore, depth, n, order, ready, remaining);
      depth, n := Placed(depth, ready, n), n + 1;
    }
    AllPlaced(entries, out, depth, n, order);
    AllDepsFirst(entries, order, out, depth);
    r := Sorted(out);
  }

  /** Every dependency of a package stands before it. */
  ghost predicate DepsFirst(out: seq<Package>) {
    forall i, d | 0 <= i < |out| && d in out[i].deps :: StandsBefore(out, i, d)
  }

  ghost predicate StandsBefore(out: seq<Package>, i: nat, d: string)
    requires i <= |out|
  {
    exists j | 0 <= j < i :: out[j].short == d
  }

  lemma AllDepsFirst(entries: seq<Package>, order: Order, out: seq<Package>, depth: map<string, nat>)
    requires Explains(entries, order, Sorted(out), depth)
    ensures DepsFirst(out)
  {
    forall i, d | 0 <= i < |out| && d in out[i].deps ensures StandsBefore(out, i, d) {
      DepsComeFirst(entries, order, out, depth, i, d);
    }
  }

  lemma RunStarts(packages: seq<Package>, order: Order)
    ensures RunOk(Entries(packages), Entries(packages), [], map[], 0, order)
  {
    EntriesAreDistinct(packages);
  }

  lemma LayerPlaced(entries: seq<Package>, before: seq<Package>, out: seq<Package>, depth: map<string, nat>, n: nat,
                    order: Order, layer: seq<Package>, left: seq<Package>)
    requires order.Valid() && RunOk(entries, before, out, depth, n, order)
    requires layer == Layer(before, depth.Keys, order) && PlacingOk(before, left, layer)
    ensures RunOk(entries, left, out + layer, Placed(depth, layer, n), n + 1, order)
    ensures Placed(depth, layer, n).Keys == depth.Keys + Shorts(layer)
  {
    LayerKeepsRun(entries, before, out, depth, n, order, layer, left);
  }

  lemma ReadyLayer(remaining: seq<Package>, placed: set<string>, order: Order)
    requires Distinct(remaining)
    ensures var layer := Layer(remaining, placed, order); NoRepeats(layer) && forall p | p in layer :: p in remaining
  {
    var ready := Ready(remaining, placed);
    ReadyIsFilter(remaining, placed);
    SortPermutes(ready, NotAfter(order));
    SameMembers(Layer(remaining, placed, order), ready);
    DistinctPermutes(ready, Layer(remaining, placed, order));
  }

  predicate NoRepeats(layer: seq<Package>) {
    Distinct(layer)
  }

  lemma PlaceNext(before: seq<Package>, remaining: seq<Package>, ready: seq<Package>, i: nat)
    requires NoRepeats(ready) && i < |ready| && forall p | p in ready :: p in before
    requires PlacingOk(before, remaining, ready[..i])
    ensures Shorts(ready[..i + 1]) == Shorts(ready[..i]) + {ready[i].short}
    ensures PlacingOk(before, Delete(remaining, ready[i].short), ready[..i + 1])
    ensures |Delete(remaining, ready[i].short)| == |remaining| - 1
  {
    assert ready[..i + 1] == ready[..i] + [ready[i]];
    DistinctPrefix(ready, i);
    ShortsSnoc(ready[..i], ready[i]);
    PlacingGoesOn(before, remaining, ready[..i], ready[i]);
    DeleteShrinks(remaining, ready[i]);
  }

  lemma {:induction false} DeleteShrinks(remaining: seq<Package>, p: Package)
    requires p in remaining
    ensures |Delete(remaining, p.short)| == |remaining| - 1
  {
    if remaining[0].short == p.short {
    } else {
      DeleteShrinks(remaining[1..], p);
    }
  }

  lemma {:induction false} NamesAreShorts(packages: seq<Package>)
    ensures ToSet(Names(packages)) == Shorts(packages) && |Names(packages)| == |packages|
  {
    if packages == [] {
    } else {
      NamesAreShorts(packages[1..]);
    }
  }

  lemma BagsSplit(out: seq<Package>, remaining: seq<Package>, entries: seq<Package>)
    requires multiset(out) + multiset(remaining) == multiset(entries)
    ensures forall p :: p in entries <==> p in out + remaining
  {
    forall p ensures p in entries <==> p in out + remaining {
      assert p in entries <==> p in multiset(entries);
      assert p in out <==> p in multiset(out);
      assert p in remaining <==> p in multiset(remaining);
    }
  }

  lemma BagsSplitNames(out: seq<Package>, remaining: seq<Package>, entries: seq<Package>)
    requires multiset(out) + multiset(remaining) == multiset(entries)
    ensures Shorts(out) + Shorts(remaining) == Shorts(entries)
    ensures forall p | p in entries :: p in out || p in remaining
  {
    BagsSplit(out, remaining, entries);
    SameShorts(out + remaining, entries);
    ShortsConcat(out, remaining);
  }

  /** With nothing ready, every remaining package needs a remaining or missing one. */
  lemma AllStuck(entries: seq<Package>, remaining: seq<Package>, out: seq<Package>, depth: map<string, nat>, n: nat,
                 order: Order)
    requires RunOk(entries, remaining, out, depth, n, order)
    requires remaining != [] && Layer(remaining, depth.Keys, order) == []
    ensures Explains(entries, order, DependencyCycle(Names(remaining)), depth)
  {
    var stuck, all := Shorts(remaining), Shorts(entries);
    BagsSplitNames(out, remaining, entries);
    NamesAreShorts(remaining);
    var ready := Ready(remaining, depth.Keys);
    SortPermutes(ready, NotAfter(order));
    SameMembers(Layer(remaining, depth.Keys, order), ready);
    ReadyIsFilter(remaining, depth.Keys);
    forall p | p in entries && p.short in stuck ensures NeedsOneOf(p, stuck, all) {
      if p in out { InShorts(out, p); }
      assert !IsReady(p, depth.Keys);
      var d :| d in p.deps && d !in depth.Keys;
      assert d in stuck || d !in all;
    }
    forall p | p in entries && p.short !in stuck ensures DepthHere(p, depth) {
      if p in remaining { InShorts(remaining, p); }
    }
  }

  lemma AllPlaced(entries: seq<Package>, out: seq<Package>, depth: map<string, nat>, n: nat, order: Order)
    requires RunOk(entries, [], out, depth, n, order)
    ensures Explains(entries, order, Sorted(out), depth)
  {
    BagsSplitNames(out, [], entries);
    assert multiset(out) == multiset(entries);
    assert forall p | p in entries :: DepthHere(p, depth);
  }

  // What the outcome means.

  /** Every dependency is a package of the set and ranks below its dependent. */
  ghost predicate Ranked(packages: seq<Package>, rank: map<string, nat>) {
    forall p | p in packages :: p.short in rank && DepsBelow(p, Shorts(packages), rank)
  }

  predicate DepsBelow(p: Package, all: set<string>, rank: map<string, nat>)
    requires p.short in rank
  {
    forall d | d in p.deps :: d in all && d in rank && rank[d] < rank[p.short]
  }

  lemma StuckGoesDown(packages: seq<Package>, names: set<string>, rank: map<string, nat>, p: Package)
    returns (q: Package)
    requires Stuck(packages, names) && Ranked(packages, rank) && p in packages && p.short in names
    ensures q in packages && q.short in names && p.short in rank && q.short in rank && rank[q.short] < rank[p.short]
  {
    assert NeedsOneOf(p, names, Shorts(packages));
    assert p.short in rank && DepsBelow(p, Shorts(packages), rank);
    var d :| d in p.deps && (d in names || d !in Shorts(packages));
    q := Named(packages, d);
  }

  lemma {:induction false} StuckHasNoRank(packages: seq<Package>, names: set<string>, rank: map<string, nat>,
                                          p: Package)
    requires Stuck(packages, names) && Ranked(packages, rank) && p in packages && p.short in names
    ensures false
    decreases if p.short in rank then rank[p.short] else 0
  {
    var q := StuckGoesDown(packages, names, rank, p);
    StuckHasNoRank(packages, names, rank, q);
  }

  /** The sort succeeds exactly when no dependency chain cycles or leaves the set. */
  lemma SortedIffRanked(entries: seq<Package>, order: Order, r: Outcome, depth: map<string, nat>)
    requires Explains(entries, order, r, depth)
    ensures r.Sorted? <==> exists rank :: Ranked(entries, rank)
  {
    match r
    case Sorted(_) =>
      forall p | p in entries ensures p.short in depth && DepsBelow(p, Shorts(entries), depth) {
        assert DepthHere(p, depth);
      }
      assert Ranked(entries, depth);
    case DependencyCycle(names) =>
      if rank :| Ranked(entries, rank) {
        assert names[0] in Shorts(entries);
        var p := Named(entries, names[0]);
        StuckHasNoRank(entries, ToSet(names), rank, p);
      }
  }

  /** In a sorted output every dependency stands before its dependent. */
  lemma DepsComeFirst(entries: seq<Package>, order: Order, out: seq<Package>, depth: map<string, nat>, i: nat,
                      d: string)
    requires Explains(entries, order, Sorted(out), depth) && i < |out| && d in out[i].deps
    ensures StandsBefore(out, i, d)
  {
    SameMembers(out, entries);
    assert out[i] in entries && DepthHere(out[i], depth);
    assert d in Shorts(entries);
    var q := Named(entries, d);
    assert q in out;
    var j :| 0 <= j < |out| && out[j] == q;
    if j >= i {
      if j > i { OrderAt(out, depth, order, i, j); }
      assert false;
    }
  }

  lemma {:induction false} OrderAt(out: seq<Package>, depth: map<string, nat>, order: Order, i: nat, j: nat)
    requires InOrder(out, depth, order) && i < j < |out|
    ensures Comes(out[i], out[j], depth, order)
  {
    if i == 0 {
      assert out[1..][j - 1] in out[1..];
      assert ComesBy(depth, order)(out[0], out[j]);
    } else {
      OrderAt(out[1..], depth, order, i - 1, j - 1);
    }
  }

  lemma DepthFromDeps(p: Package, a: map<string, nat>, b: map<string, nat>)
    requires DepthHere(p, a) && DepthHere(p, b) && forall d | d in p.deps :: a[d] == b[d]
    ensures a[p.short] == b[p.short]
  {
    if a[p.short] > 0 {
      var d :| d in p.deps && d in a && a[d] == a[p.short] - 1;
      assert b[d] < b[p.short];
    }
    if b[p.short] > 0 {
      var d :| d in p.deps && d in b && b[d] == b[p.short] - 1;
      assert a[d] < a[p.short];
    }
  }

  /** Depths are determined by the dependencies alone. */
  lemma {:induction false} DepthIsUnique(packages: seq<Package>, a: map<string, nat>, b: map<string, nat>, p: Package)
    requires IsDepth(a, packages) && IsDepth(b, packages) && p in packages
    ensures DepthHere(p, a) && DepthHere(p, b) && a[p.short] == b[p.short]
    decreases a[p.short]
  {
    forall d | d in p.deps ensures d in a && d in b && a[d] == b[d] {
      var q := Named(packages, d);
      DepthIsUnique(packages, a, b, q);
    }
    DepthFromDeps(p, a, b);
  }

  lemma ComesIsAsymmetric(p: Package, q: Package, depth: map<string, nat>, order: Order)
    requires order.Valid() && Comes(p, q, depth, order)
    ensures !Comes(q, p, depth, order)
  {
    if order.Compare(p, q) < 0 { CompareIsAsymmetric(order, p, q); }
  }

  /** A set of packages has one ordered arrangement. */
  lemma SortedIsUnique(a: seq<Package>, b: seq<Package>, depth: map<string, nat>, order: Order)
    requires order.Valid() && InOrder(a, depth, order) && InOrder(b, depth, order) && multiset(a) == multiset(b)
    ensures a == b
  {
    var comes := ComesBy(depth, order);
    forall p, q | comes(p, q) ensures !comes(q, p) { ComesIsAsymmetric(p, q, depth, order); }
    StrictOrderIsUnique(a, b, comes, comes);
  }

  /** Each package after the first is a dependency of the one before it. */
  predicate IsChain(chain: seq<Package>, packages: seq<Package>) {
    && chain != [] && chain[0] in packages
    && (|chain| > 1 ==> chain[1].short in chain[0].deps && IsChain(chain[1..], packages))
  }

  lemma {:induction false} ChainsFitDepth(packages: seq<Package>, depth: map<string, nat>, chain: seq<Package>)
    requires IsDepth(depth, packages) && IsChain(chain, packages)
    ensures chain[0].short in depth && |chain| <= depth[chain[0].short] + 1
  {
    assert DepthHere(chain[0], depth);
    if |chain| == 1 {
    } else {
      ChainsFitDepth(packages, depth, chain[1..]);
    }
  }

  /** The layer number is the length of the longest dependency chain: none is longer, and one is as long. */
  lemma {:induction false} DepthIsLongestChain(packages: seq<Package>, depth: map<string, nat>, p: Package)
    returns (chain: seq<Package>)
    requires IsDepth(depth, packages) && p in packages
    ensures DepthHere(p, depth) && IsChain(chain, packages) && chain[0] == p && |chain| == depth[p.short] + 1
    ensures forall other | IsChain(other, packages) && other[0] == p :: |other| <= |chain|
    decreases depth[p.short]
  {
    chain := [p];
    if depth[p.short] > 0 {
      var d :| d in p.deps && d in depth && depth[d] == depth[p.short] - 1;
      var q := Named(packages, d);
      var rest := DepthIsLongestChain(packages, depth, q);
      chain := [p] + rest;
      assert chain[1..] == rest;
    }
    forall other | IsChain(other, packages) && other[0] == p ensures |other| <= |chain| {
      ChainsFitDepth(packages, depth, other);
    }
  }

  // Independence of the input order.

  lemma DepthsAgree(a: seq<Package>, b: seq<Package>, da: map<string, nat>, db: map<string, nat>)
    requires (forall p :: p in a <==> p in b) && IsDepth(da, a) && IsDepth(db, b)
    ensures da == db
  {
    SameShorts(a, b);
    forall x | x in da ensures da[x] == db[x] {
      var p := Named(a, x);
      DepthIsUnique(a, da, db, p);
    }
  }

  lemma RanksAgree(a: seq<Package>, b: seq<Package>, rank: map<string, nat>)
    requires (forall p :: p in a <==> p in b) && Ranked(a, rank)
    ensures Ranked(b, rank)
  {
    SameShorts(a, b);
    forall p | p in b ensures p.short in rank && DepsBelow(p, Shorts(b), rank) {
      assert p in a;
    }
  }

  /** A stuck package of one outcome has no depth in another. */
  lemma {:induction false} StuckHasNoDepth(packages: seq<Package>, stuck: set<string>, depth: map<string, nat>,
                                           p: Package)
    requires Stuck(packages, stuck) && p in packages && p.short in stuck && p.short in depth
    requires depth.Keys <= Shorts(packages) && forall q | q in packages && q.short in depth :: DepthHere(q, depth)
    ensures false
    decreases depth[p.short]
  {
    assert DepthHere(p, depth);
    assert NeedsOneOf(p, stuck, Shorts(packages));
    var d :| d in p.deps && (d in stuck || d !in Shorts(packages));
    var q := Named(packages, d);
    StuckHasNoDepth(packages, stuck, depth, q);
  }

  lemma StuckNamesInclude(a: seq<Package>, b: seq<Package>, order: Order, na: seq<string>, nb: seq<string>,
                          da: map<string, nat>, db: map<string, nat>, x: string)
    requires (forall p :: p in a <==> p in b)
    requires Explains(a, order, DependencyCycle(na), da) && Explains(b, order, DependencyCycle(nb), db)
    requires x in ToSet(na)
    ensures x in ToSet(nb)
  {
    SameShorts(a, b);
    assert x in Shorts(a);
    var p := Named(a, x);
    if x !in ToSet(nb) {
      assert x in db.Keys;
      StuckHasNoDepth(a, ToSet(na), db, p);
    }
  }

  /** The outcome depends only on which packages there are: the same output, or the same names in a cycle error. */
  lemma InputOrderIsIrrelevant(a: seq<Package>, b: seq<Package>, order: Order, ra: Outcome, rb: Outcome,
                               da: map<string, nat>, db: map<string, nat>)
    requires order.Valid() && multiset(Entries(a)) == multiset(Entries(b))
    requires Explains(Entries(a), order, ra, da) && Explains(Entries(b), order, rb, db)
    ensures ra.Sorted? ==> ra == rb
    ensures ra.DependencyCycle? ==> rb.DependencyCycle? && ToSet(ra.names) == ToSet(rb.names)
  {
    var ea, eb := Entries(a), Entries(b);
    SameMembers(ea, eb);
    SortedIffRanked(ea, order, ra, da);
    SortedIffRanked(eb, order, rb, db);
    assert ra.Sorted? <==> rb.Sorted? by {
      if rank :| Ranked(ea, rank) { RanksAgree(ea, eb, rank); }
      if rank :| Ranked(eb, rank) { RanksAgree(eb, ea, rank); }
    }
    if ra.Sorted? {
      DepthsAgree(ea, eb, da, db);
      SortedIsUnique(ra.out, rb.out, da, order);
    } else {
      forall x ensures x in ToSet(ra.names) <==> x in ToSet(rb.names) {
        if x in ToSet(ra.names) { StuckNamesInclude(ea, eb, order, ra.names, rb.names, da, db, x); }
        if x in ToSet(rb.names) { StuckNamesInclude(eb, ea, order, rb.names, ra.names, db, da, x); }
      }
    }
  }
}
