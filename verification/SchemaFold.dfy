/** The folding of composed schemas in scripts/gen-config-catalog.ts: a depth-first walk over packages. */
module SchemaFold {
  import Sequences

  /** A package's own key paths and the packages its schema composes. */
  datatype Entry = Entry(keys: seq<string>, composes: seq<string>)

  type Catalog = map<string, Entry>

  function OwnKeys(catalog: Catalog, name: string): seq<string> {
    if name in catalog then catalog[name].keys else []
  }

  function KeysUpTo(catalog: Catalog, order: seq<string>, n: nat): seq<string>
    requires n <= |order|
  {
    if n == 0 then [] else KeysUpTo(catalog, order, n - 1) + OwnKeys(catalog, order[n - 1])
  }

  function FoldedKeys(catalog: Catalog, order: seq<string>): seq<string> {
    KeysUpTo(catalog, order, |order|)
  }

  /** The composed packages the catalog lacks. */
  function Absent(catalog: Catalog, composes: seq<string>): seq<string> {
    if composes == [] then []
    else
      var n := |composes| - 1;
      Absent(catalog, composes[..n]) + if composes[n] in catalog then [] else [composes[n]]
  }

  function OwnAbsent(catalog: Catalog, name: string): seq<string> {
    if name in catalog then Absent(catalog, catalog[name].composes) else []
  }

  function AbsentUpTo(catalog: Catalog, order: seq<string>, n: nat): seq<string>
    requires n <= |order|
  {
    if n == 0 then [] else AbsentUpTo(catalog, order, n - 1) + OwnAbsent(catalog, order[n - 1])
  }

  function AllAbsent(catalog: Catalog, order: seq<string>): seq<string> {
    AbsentUpTo(catalog, order, |order|)
  }

  lemma {:induction false} UpToPrefix(catalog: Catalog, a: seq<string>, b: seq<string>, n: nat)
    requires n <= |a|
    ensures KeysUpTo(catalog, a + b, n) == KeysUpTo(catalog, a, n)
    ensures AbsentUpTo(catalog, a + b, n) == AbsentUpTo(catalog, a, n)
  {
    if n == 0 {
    } else {
      UpToPrefix(catalog, a, b, n - 1);
    }
  }

  lemma {:induction false} UpToJoin(catalog: Catalog, a: seq<string>, b: seq<string>, n: nat)
    requires n <= |b|
    ensures KeysUpTo(catalog, a + b, |a| + n) == KeysUpTo(catalog, a, |a|) + KeysUpTo(catalog, b, n)
    ensures AbsentUpTo(catalog, a + b, |a| + n) == AbsentUpTo(catalog, a, |a|) + AbsentUpTo(catalog, b, n)
  {
    if n == 0 {
      UpToPrefix(catalog, a, b, |a|);
    } else {
      UpToJoin(catalog, a, b, n - 1);
      var name := b[n - 1];
      assert (a + b)[|a| + n - 1] == name;
      Sequences.Associate(KeysUpTo(catalog, a, |a|), KeysUpTo(catalog, b, n - 1), OwnKeys(catalog, name));
      Sequences.Associate(AbsentUpTo(catalog, a, |a|), AbsentUpTo(catalog, b, n - 1), OwnAbsent(catalog, name));
    }
  }

  lemma OrderJoin(catalog: Catalog, a: seq<string>, b: seq<string>)
    ensures FoldedKeys(catalog, a + b) == FoldedKeys(catalog, a) + FoldedKeys(catalog, b)
    ensures AllAbsent(catalog, a + b) == AllAbsent(catalog, a) + AllAbsent(catalog, b)
  {
    UpToJoin(catalog, a, b, |b|);
  }

  lemma OrderOfOne(catalog: Catalog, name: string)
    ensures FoldedKeys(catalog, [name]) == OwnKeys(catalog, name)
    ensures AllAbsent(catalog, [name]) == OwnAbsent(catalog, name)
  {
    assert KeysUpTo(catalog, [name], 0) == [] && AbsentUpTo(catalog, [name], 0) == [];
    assert [] + OwnKeys(catalog, name) == OwnKeys(catalog, name);
    assert [] + OwnAbsent(catalog, name) == OwnAbsent(catalog, name);
  }

  ghost predicate Links(catalog: Catalog, a: string, b: string) {
    a in catalog && b in catalog && b in catalog[a].composes
  }

  ghost predicate IsWalk(catalog: Catalog, walk: seq<string>, a: string, b: string) {
    && walk != [] && walk[0] == a && walk[|walk| - 1] == b && a in catalog
    && forall i | 0 <= i < |walk| - 1 :: Links(catalog, walk[i], walk[i + 1])
  }

  /** A chain of composed packages leads from one to the other. */
  ghost predicate LeadsTo(catalog: Catalog, a: string, b: string) {
    b in catalog && exists walk :: IsWalk(catalog, walk, a, b)
  }

  lemma ReachesItself(catalog: Catalog, a: string)
    requires a in catalog
    ensures LeadsTo(catalog, a, a)
  {
    assert IsWalk(catalog, [a], a, a);
  }

  lemma ReachesThrough(catalog: Catalog, a: string, b: string, c: string)
    requires Links(catalog, a, b) && LeadsTo(catalog, b, c)
    ensures LeadsTo(catalog, a, c)
  {
    var walk :| IsWalk(catalog, walk, b, c);
    var longer := [a] + walk;
    forall i | 0 <= i < |longer| - 1 ensures Links(catalog, longer[i], longer[i + 1]) {
      if i > 0 { assert Links(catalog, walk[i - 1], walk[i]); }
    }
    assert IsWalk(catalog, longer, a, c);
  }

  /** Whatever a package composes has been seen. */
  ghost predicate Closed(catalog: Catalog, name: string, seen: set<string>) {
    forall other | Links(catalog, name, other) :: other in seen
  }

  lemma {:induction false} ClosedHoldsWalk(catalog: Catalog, seen: set<string>, walk: seq<string>, i: nat)
    requires walk != [] && walk[0] in seen && i < |walk|
    requires forall k | 0 <= k < |walk| - 1 :: Links(catalog, walk[k], walk[k + 1])
    requires forall name | name in seen :: Closed(catalog, name, seen)
    ensures walk[i] in seen
  {
    if i == 0 {
    } else {
      ClosedHoldsWalk(catalog, seen, walk, i - 1);
      assert Links(catalog, walk[i - 1], walk[i]);
    }
  }

  ghost predicate Distinct(order: seq<string>) {
    forall i, j | 0 <= i < j < |order| :: order[i] != order[j]
  }

  /** What a fold from `name` has newly seen, in that order. */
  ghost predicate Folded(catalog: Catalog, name: string, before: set<string>, after: set<string>,
                         order: seq<string>)
  {
    && Distinct(order)
    && (forall x | x in order :: x in catalog && x !in before && LeadsTo(catalog, name, x))
    && forall x :: x in after <==> x in before || x in order
  }

  ghost predicate AllClosed(catalog: Catalog, order: seq<string>, seen: set<string>) {
    forall name | name in order :: Closed(catalog, name, seen)
  }

  lemma FoldedStarts(catalog: Catalog, name: string, before: set<string>)
    requires name in catalog && name !in before
    ensures Folded(catalog, name, before, before + {name}, [name])
  {
    ReachesItself(catalog, name);
  }

  lemma FoldedJoins(catalog: Catalog, name: string, other: string, before: set<string>, middle: set<string>,
                    after: set<string>, a: seq<string>, b: seq<string>)
    requires Folded(catalog, name, before, middle, a) && Folded(catalog, other, middle, after, b)
    requires Links(catalog, name, other)
    ensures Folded(catalog, name, before, after, a + b)
  {
    forall x | x in a + b ensures x in catalog && x !in before && LeadsTo(catalog, name, x) {
      if x in b {
        assert x !in middle;
        ReachesThrough(catalog, name, other, x);
      }
    }
    forall i, j | 0 <= i < j < |a + b| ensures (a + b)[i] != (a + b)[j] {
      if i < |a| <= j {
        assert a[i] in a && b[j - |a|] in b && a[i] in middle && b[j - |a|] !in middle;
      }
    }
  }

  ghost predicate DoneLists(catalog: Catalog, order: seq<string>, keys: seq<string>, prior: seq<string>,
                            violations: seq<string>)
  {
    && keys == FoldedKeys(catalog, order)
    && multiset(violations) == multiset(prior) + multiset(AllAbsent(catalog, order))
  }

  /** What a finished fold has found: every package once, its keys and what it composes in vain. */
  ghost predicate FoldDone(catalog: Catalog, name: string, before: set<string>, after: set<string>,
                           order: seq<string>, keys: seq<string>, prior: seq<string>, violations: seq<string>)
  {
    && Folded(catalog, name, before, after, order) && name in after && AllClosed(catalog, order, after)
    && DoneLists(catalog, order, keys, prior, violations)
  }

  /** The composed packages that were collected have been seen. */
  ghost predicate AllSeen(catalog: Catalog, composes: seq<string>, seen: set<string>) {
    forall other | other in composes && other in catalog :: other in seen
  }

  ghost predicate OpenLists(catalog: Catalog, name: string, some: seq<string>, rest: seq<string>,
                            keys: seq<string>, prior: seq<string>, violations: seq<string>)
  {
    && keys == FoldedKeys(catalog, [name] + rest)
    && multiset(violations)
       == multiset(prior) + multiset(Absent(catalog, some)) + multiset(AllAbsent(catalog, rest))
  }

  /** The same with only some of the packages composed by `name` folded, and `name` itself still open. */
  ghost predicate FoldOpen(catalog: Catalog, name: string, some: seq<string>, before: set<string>,
                           after: set<string>, rest: seq<string>, keys: seq<string>, prior: seq<string>,
                           violations: seq<string>)
  {
    && Folded(catalog, name, before, after, [name] + rest) && AllClosed(catalog, rest, after)
    && AllSeen(catalog, some, after) && OpenLists(catalog, name, some, rest, keys, prior, violations)
  }

  lemma OpenStarts(catalog: Catalog, name: string, before: set<string>, violations: seq<string>)
    requires name in catalog && name !in before
    ensures FoldOpen(catalog, name, [], before, before + {name}, [], catalog[name].keys, violations, violations)
  {
    FoldedStarts(catalog, name, before);
    assert [name] + [] == [name];
    OrderOfOne(catalog, name);
  }

  lemma PrefixNext(some: seq<string>, i: nat)
    requires i < |some|
    ensures some[..i + 1] == some[..i] + [some[i]]
  {
  }

  lemma NameIsSeen(catalog: Catalog, name: string, before: set<string>, after: set<string>, rest: seq<string>)
    requires Folded(catalog, name, before, after, [name] + rest)
    ensures name in after
  {
    assert name in [name] + rest;
  }

  lemma AbsentSnoc(catalog: Catalog, some: seq<string>, other: string)
    ensures Absent(catalog, some + [other]) == Absent(catalog, some) + if other in catalog then [] else [other]
  {
    assert (some + [other])[..|some|] == some;
  }

  lemma OpenMeetsAbsent(catalog: Catalog, name: string, some: seq<string>, other: string, before: set<string>,
                        after: set<string>, rest: seq<string>, keys: seq<string>, prior: seq<string>,
                        violations: seq<string>)
    requires FoldOpen(catalog, name, some, before, after, rest, keys, prior, violations) && other !in catalog
    ensures FoldOpen(catalog, name, some + [other], before, after, rest, keys, prior, violations + [other])
  {
    AbsentSnoc(catalog, some, other);
    assert AllSeen(catalog, some + [other], after);
  }

  lemma ClosedJoins(catalog: Catalog, a: seq<string>, b: seq<string>, seen: set<string>, more: set<string>)
    requires AllClosed(catalog, a, seen) && seen <= more && AllClosed(catalog, b, more)
    ensures AllClosed(catalog, a + b, more)
  {
    forall name | name in a + b ensures Closed(catalog, name, more) {
      assert name in a ==> Closed(catalog, name, seen);
    }
  }

  lemma KeysJoin(catalog: Catalog, name: string, rest: seq<string>, next: seq<string>, keys: seq<string>,
                 more: seq<string>)
    requires keys == FoldedKeys(catalog, [name] + rest) && more == FoldedKeys(catalog, next)
    ensures keys + more == FoldedKeys(catalog, [name] + (rest + next))
  {
    OrderJoin(catalog, [name] + rest, next);
    Sequences.Associate([name], rest, next);
  }

  lemma AbsentJoin(catalog: Catalog, some: seq<string>, other: string, rest: seq<string>, next: seq<string>,
                   prior: seq<string>, middle: seq<string>, violations: seq<string>)
    requires other in catalog
    requires multiset(middle)
             == multiset(prior) + multiset(Absent(catalog, some)) + multiset(AllAbsent(catalog, rest))
    requires multiset(violations) == multiset(middle) + multiset(AllAbsent(catalog, next))
    ensures multiset(violations)
            == multiset(prior) + multiset(Absent(catalog, some + [other])) + multiset(AllAbsent(catalog, rest + next))
  {
    AbsentSnoc(catalog, some, other);
    OrderJoin(catalog, rest, next);
  }

  lemma ListsJoin(catalog: Catalog, name: string, some: seq<string>, other: string, rest: seq<string>,
                  next: seq<string>, keys: seq<string>, more: seq<string>, prior: seq<string>,
                  middle: seq<string>, violations: seq<string>)
    requires other in catalog && OpenLists(catalog, name, some, rest, keys, prior, middle)
    requires DoneLists(catalog, next, more, middle, violations)
    ensures OpenLists(catalog, name, some + [other], rest + next, keys + more, prior, violations)
  {
    KeysJoin(catalog, name, rest, next, keys, more);
    AbsentJoin(catalog, some, other, rest, next, prior, middle, violations);
  }

  lemma OpenMeetsFold(catalog: Catalog, name: string, some: seq<string>, other: string, before: set<string>,
                      within: set<string>, after: set<string>, rest: seq<string>, next: seq<string>,
                      keys: seq<string>, more: seq<string>, prior: seq<string>, middle: seq<string>,
                      violations: seq<string>)
    requires FoldOpen(catalog, name, some, before, within, rest, keys, prior, middle)
    requires FoldDone(catalog, other, within, after, next, more, middle, violations) && Links(catalog, name, other)
    ensures FoldOpen(catalog, name, some + [other], before, after, rest + next, keys + more, prior, violations)
  {
    FoldedJoins(catalog, name, other, before, within, after, [name] + rest, next);
    Sequences.Associate([name], rest, next);
    ClosedJoins(catalog, rest, next, within, after);
    ListsJoin(catalog, name, some, other, rest, next, keys, more, prior, middle, violations);
    assert AllSeen(catalog, some + [other], after);
  }

  lemma OpenEnds(catalog: Catalog, name: string, before: set<string>, after: set<string>, rest: seq<string>,
                 keys: seq<string>, prior: seq<string>, violations: seq<string>)
    requires name in catalog
    requires FoldOpen(catalog, name, catalog[name].composes, before, after, rest, keys, prior, violations)
    ensures FoldDone(catalog, name, before, after, [name] + rest, keys, prior, violations)
  {
    OrderOfOne(catalog, name);
    OrderJoin(catalog, [name], rest);
    assert Closed(catalog, name, after);
    assert name in [name] + rest;
  }

  lemma SeenIsDone(catalog: Catalog, name: string, seen: set<string>, violations: seq<string>)
    requires name in seen
    ensures FoldDone(catalog, name, seen, seen, [], [], violations, violations)
  {
  }

  /** The closure with its two mutable captures. */
  class Folder {
    const catalog: Catalog
    var seen: set<string>
    var violations: seq<string>

    constructor (catalog: Catalog)
      ensures this.catalog == catalog && seen == {} && violations == []
    {
      this.catalog := catalog;
      seen, violations := {}, [];
    }

    method FoldComposed(name: string) returns (keys: seq<string>, ghost order: seq<string>)
      requires name in catalog
      modifies this
      ensures FoldDone(catalog, name, old(seen), seen, order, keys, old(violations), violations)
      decreases catalog.Keys - seen
    {
      if name in seen {
        SeenIsDone(catalog, name, seen, violations);
        return [], [];
      }
      ghost var before, prior := seen, violations;
      OpenStarts(catalog, name, seen, violations);
      seen := seen + {name};
      keys := catalog[name].keys;
      var composes := catalog[name].composes;
      ghost var rest := [];
      for i := 0 to |composes|
        invariant FoldOpen(catalog, name, composes[..i], before, seen, rest, keys, prior, violations)
      {
        var other := composes[i];
        PrefixNext(composes, i);
        if other !in catalog {
          OpenMeetsAbsent(catalog, name, composes[..i], other, before, seen, rest, keys, prior,
                          violations);
          violations := violations + [other];
        } else {
          ghost var within, middle := seen, violations;
          NameIsSeen(catalog, name, before, within, rest);
          var more;
          ghost var next;
          more, next := FoldComposed(other);
          OpenMeetsFold(catalog, name, composes[..i], other, before, within, seen, rest, next, keys, more,
                        prior, middle, violations);
          keys := keys + more;
          rest := rest + next;
        }
      }
      assert composes[..|composes|] == composes;
      OpenEnds(catalog, name, before, seen, rest, keys, prior, violations);
      order := [name] + rest;
    }
  }

  /** A fold from scratch reaches every package there is a chain to, once. */
  lemma FoldIsReach(catalog: Catalog, name: string, after: set<string>, order: seq<string>, keys: seq<string>,
                    violations: seq<string>)
    requires FoldDone(catalog, name, {}, after, order, keys, [], violations)
    ensures forall x :: x in order <==> LeadsTo(catalog, name, x)
  {
    forall x | LeadsTo(catalog, name, x) ensures x in order {
      var walk :| IsWalk(catalog, walk, name, x);
      forall y | y in after ensures Closed(catalog, y, after) { assert y in order; }
      ClosedHoldsWalk(catalog, after, walk, |walk| - 1);
    }
  }

  lemma {:induction false} KeyIsSomeones(catalog: Catalog, order: seq<string>, n: nat, key: string)
    requires n <= |order|
    ensures key in KeysUpTo(catalog, order, n) <==> exists k | 0 <= k < n :: key in OwnKeys(catalog, order[k])
  {
    if n == 0 {
    } else {
      KeyIsSomeones(catalog, order, n - 1, key);
    }
  }

  lemma {:induction false} AbsentAre(catalog: Catalog, composes: seq<string>)
    ensures forall other :: other in Absent(catalog, composes) <==> other in composes && other !in catalog
  {
    if composes == [] {
    } else {
      var n := |composes| - 1;
      assert composes == composes[..n] + [composes[n]];
      AbsentAre(catalog, composes[..n]);
    }
  }

  lemma {:induction false} AbsentIsSomeones(catalog: Catalog, order: seq<string>, n: nat, other: string)
    requires n <= |order|
    ensures other in AbsentUpTo(catalog, order, n)
            <==> exists k | 0 <= k < n :: other in OwnAbsent(catalog, order[k])
  {
    if n == 0 {
    } else {
      AbsentIsSomeones(catalog, order, n - 1, other);
    }
  }

  /** The key is one of the package itself or of one its schema composes, directly or through others. */
  ghost predicate FoldsKey(catalog: Catalog, name: string, key: string) {
    exists other :: LeadsTo(catalog, name, other) && key in catalog[other].keys
  }

  ghost predicate ComposesInVain(catalog: Catalog, name: string, composed: string) {
    composed !in catalog && exists other :: LeadsTo(catalog, name, other) && composed in catalog[other].composes
  }

  lemma KeysFolded(catalog: Catalog, name: string, order: seq<string>, key: string)
    requires forall x :: x in order <==> LeadsTo(catalog, name, x)
    ensures key in FoldedKeys(catalog, order) <==> FoldsKey(catalog, name, key)
  {
    KeyIsSomeones(catalog, order, |order|, key);
    if other :| LeadsTo(catalog, name, other) && key in catalog[other].keys {
      assert other in order;
      var k :| 0 <= k < |order| && order[k] == other;
      assert key in OwnKeys(catalog, order[k]);
    }
    if k :| 0 <= k < |order| && key in OwnKeys(catalog, order[k]) {
      assert order[k] in order;
    }
  }

  lemma FoldedInVain(catalog: Catalog, name: string, order: seq<string>, found: seq<string>, composed: string)
    requires forall x :: x in order <==> LeadsTo(catalog, name, x)
    requires multiset(found) == multiset(AllAbsent(catalog, order))
    ensures composed in found <==> ComposesInVain(catalog, name, composed)
  {
    assert composed in multiset(found) <==> composed in multiset(AllAbsent(catalog, order));
    AbsentIsSomeones(catalog, order, |order|, composed);
    if other :| LeadsTo(catalog, name, other) && composed in catalog[other].composes && composed !in catalog {
      assert other in order;
      var k :| 0 <= k < |order| && order[k] == other;
      AbsentAre(catalog, catalog[other].composes);
      assert composed in OwnAbsent(catalog, order[k]);
    }
    if k :| 0 <= k < |order| && composed in OwnAbsent(catalog, order[k]) {
      assert order[k] in order;
      AbsentAre(catalog, catalog[order[k]].composes);
    }
  }

  /**
   * One entry's fold: the keys of exactly the packages its chains of composition lead to, each package's once and in
   * its order, and a violation for exactly the packages those compose that were not collected.
   */
  method FoldEntry(catalog: Catalog, name: string)
    returns (keys: seq<string>, violations: seq<string>, ghost order: seq<string>)
    requires name in catalog
    ensures forall key :: key in keys <==> FoldsKey(catalog, name, key)
    ensures forall composed :: composed in violations <==> ComposesInVain(catalog, name, composed)
    ensures Distinct(order) && forall x :: x in order <==> LeadsTo(catalog, name, x)
    ensures keys == FoldedKeys(catalog, order) && multiset(violations) == multiset(AllAbsent(catalog, order))
  {
    var folder := new Folder(catalog);
    keys, order := folder.FoldComposed(name);
    violations := folder.violations;
    FoldIsReach(catalog, name, folder.seen, order, keys, violations);
    forall key ensures key in keys <==> FoldsKey(catalog, name, key) { KeysFolded(catalog, name, order, key); }
    forall composed ensures composed in violations <==> ComposesInVain(catalog, name, composed) {
      FoldedInVain(catalog, name, order, violations, composed);
    }
  }
}
