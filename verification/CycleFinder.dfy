/** The depth-first cycle search and graph validation of scripts/run-gates.ts. */
module CycleFinder {
  import opened Options
  import opened GateGraph

  datatype GraphError =
    | NoGates
    | DuplicateId(id: string)
    | UnknownNeed(gate: string, dependency: string)
    | UnknownAfter(gate: string, predecessor: string)
    | DependencyCycle(walk: seq<string>)

  /** Completed gates are ranked by completion time: every known predecessor finished earlier. */
  ghost predicate RankOk(byId: map<string, Gate>, rank: map<string, nat>, next: nat) {
    && rank.Keys <= byId.Keys
    && (forall id | id in rank :: rank[id] < next)
    && (forall id, p | id in rank && Edge(byId, id, p) && p in byId :: p in rank && rank[p] < rank[id])
  }

  /** `path` is the walk from the root to the current node and `active` indexes it. */
  ghost predicate PathOk(byId: map<string, Gate>, path: seq<string>, active: map<string, nat>) {
    && (forall i | 0 <= i < |path| :: path[i] in active && active[path[i]] == i && path[i] in byId)
    && (forall id | id in active :: active[id] < |path| && path[active[id]] == id)
    && IsWalk(byId, path)
  }

  lemma PathPushed(byId: map<string, Gate>, path: seq<string>, active: map<string, nat>, id: string)
    requires PathOk(byId, path, active) && id in byId && id !in active
    requires path == [] || Edge(byId, path[|path| - 1], id)
    ensures PathOk(byId, path + [id], active[id := |path|])
  {
  }

  lemma PathPopped(byId: map<string, Gate>, path: seq<string>, active: map<string, nat>)
    requires PathOk(byId, path, active) && path != []
    ensures PathOk(byId, path[..|path| - 1], active - {path[|path| - 1]})
  {
  }

  lemma RankExtended(byId: map<string, Gate>, rank: map<string, nat>, next: nat, id: string)
    requires RankOk(byId, rank, next) && id in byId && id !in rank
    requires forall p | Edge(byId, id, p) && p in byId :: p in rank
    ensures RankOk(byId, rank[id := next], next + 1)
  {
  }

  lemma PathTailIsCycle(byId: map<string, Gate>, path: seq<string>, active: map<string, nat>, id: string)
    requires PathOk(byId, path, active) && id in active && path != []
    requires Edge(byId, path[|path| - 1], id)
    ensures IsClosedWalk(byId, path[active[id]..] + [id])
  {
    var walk := path[active[id]..] + [id];
    forall i | 0 <= i < |walk| - 1 ensures Edge(byId, walk[i], walk[i + 1]) {
      if i < |walk| - 2 { assert Edge(byId, path[active[id] + i], path[active[id] + i + 1]); }
    }
  }

  /** The state the recursive `visit` closure shares across its calls. */
  class Finder {
    const byId: map<string, Gate>
    var complete: set<string>
    var active: map<string, nat>
    var path: seq<string>
    /** Completion times: the certificate that no edge among completed gates leads back. */
    ghost var rank: map<string, nat>
    ghost var next: nat

    ghost predicate Valid()
      reads this
    {
      && RankOk(byId, rank, next) && complete == rank.Keys
      && PathOk(byId, path, active) && active.Keys !! complete
    }

    constructor (gates: seq<Gate>)
      ensures byId == ById(gates)
      ensures Valid() && path == []
    {
      byId := ById(gates);
      complete, active, path, rank, next := {}, map[], [], map[], 0;
    }

    method Visit(id: string) returns (cycle: Option<seq<string>>)
      requires Valid()
      requires path == [] || Edge(byId, path[|path| - 1], id)
      modifies this
      ensures cycle.None? ==> Valid() && path == old(path) && active == old(active) && old(complete) <= complete
      ensures cycle.None? ==> id in complete || id !in byId
      ensures cycle.Some? ==> IsClosedWalk(byId, cycle.value)
      decreases byId.Keys - active.Keys, 0
    {
      if id in complete { return None; }
      if id in active {
        PathTailIsCycle(byId, path, active, id);
        return Some(path[active[id]..] + [id]);
      }
      if id !in byId { return None; }
      PathPushed(byId, path, active, id);
      assert id in byId.Keys - active.Keys;
      active := active[id := |path|];
      path := path + [id];
      cycle := VisitAll(Predecessors(byId[id]));
      if cycle.Some? { return; }
      Finish(id);
      assert path == old(path) && active == old(active);
    }

    /** The loop over one gate's combined predecessors. */
    method VisitAll(predecessors: seq<string>) returns (cycle: Option<seq<string>>)
      requires Valid() && path != []
      requires forall p | p in predecessors :: Edge(byId, path[|path| - 1], p)
      modifies this
      ensures cycle.None? ==> Valid() && path == old(path) && active == old(active) && old(complete) <= complete
      ensures cycle.None? ==> forall p | p in predecessors && p in byId :: p in complete
      ensures cycle.Some? ==> IsClosedWalk(byId, cycle.value)
      decreases byId.Keys - active.Keys, 1
    {
      cycle := None;
      for i := 0 to |predecessors|
        invariant cycle.None? && Valid() && path == old(path) && active == old(active) && old(complete) <= complete
        invariant forall p | p in predecessors[..i] && p in byId :: p in complete
      {
        assert predecessors[i] in predecessors;
        cycle := Visit(predecessors[i]);
        if cycle.Some? { return; }
        assert predecessors[..i + 1] == predecessors[..i] + [predecessors[i]];
      }
      assert predecessors[..|predecessors|] == predecessors;
    }

    /** Pop the node and record it as complete. */
    method Finish(id: string)
      requires Valid() && path != [] && path[|path| - 1] == id
      requires forall p | Edge(byId, id, p) && p in byId :: p in complete
      modifies this
      ensures Valid() && complete == old(complete) + {id}
      ensures path == old(path)[..|old(path)| - 1] && active == old(active) - {id}
    {
      PathPopped(byId, path, active);
      RankExtended(byId, rank, next, id);
      path := path[..|path| - 1];
      active := active - {id};
      complete := complete + {id};
      rank, next := rank[id := next], next + 1;
    }
  }

  /** The cycle finder is complete (None only when a rank exists) and sound (a genuine closed walk). */
  method FindDependencyCycle(gates: seq<Gate>) returns (cycle: Option<seq<string>>)
    ensures cycle.None? <==> Acyclic(ById(gates))
    ensures cycle.Some? ==> IsClosedWalk(ById(gates), cycle.value)
  {
    var finder := new Finder(gates);
    ByIdKeys(gates);
    for i := 0 to |gates|
      invariant finder.Valid() && finder.path == [] && fresh(finder)
      invariant forall k | 0 <= k < i :: gates[k].id in finder.complete
    {
      cycle := finder.Visit(gates[i].id);
      if cycle.Some? {
        CycleRefutesRank(finder.byId, cycle.value);
        return;
      }
    }
    assert IsRank(finder.byId, finder.rank);
    cycle := None;
  }

  /** The id of the first gate whose id an earlier one has. */
  ghost predicate IsFirstDuplicate(gates: seq<Gate>, id: string) {
    exists i, j | 0 <= i < j < |gates| :: gates[i].id == gates[j].id == id && DistinctIds(gates[..j])
  }

  /** First repeated id, if any. */
  method FindDuplicate(gates: seq<Gate>) returns (duplicate: Option<string>)
    ensures duplicate.None? <==> DistinctIds(gates)
    ensures duplicate.Some? ==> IsFirstDuplicate(gates, duplicate.value)
  {
    var ids: set<string> := {};
    for j := 0 to |gates|
      invariant DistinctIds(gates[..j])
      invariant forall id :: id in ids <==> exists k | 0 <= k < j :: gates[k].id == id
    {
      if gates[j].id in ids { return Some(gates[j].id); }
      ids := ids + {gates[j].id};
    }
    assert gates[..|gates|] == gates;
    duplicate := None;
  }

  ghost predicate IsFirstOutside(all: seq<string>, ids: set<string>, x: string) {
    exists n | 0 <= n < |all| :: all[n] == x && x !in ids && forall m | 0 <= m < n :: all[m] in ids
  }

  ghost predicate AllKnown(gates: seq<Gate>, ids: set<string>) {
    forall k, p | 0 <= k < |gates| && p in Predecessors(gates[k]) :: p in ids
  }

  /** The first unknown reference, gate by gate, each gate's needs before its `after` gates. */
  ghost predicate IsFirstUnknown(gates: seq<Gate>, i: nat, error: GraphError) {
    && i < |gates| && AllKnown(gates[..i], Ids(gates))
    && match error
       case UnknownNeed(id, d) => id == gates[i].id && IsFirstOutside(gates[i].needs, Ids(gates), d)
       case UnknownAfter(id, p) =>
         && id == gates[i].id && (forall d | d in gates[i].needs :: d in Ids(gates))
         && IsFirstOutside(gates[i].after, Ids(gates), p)
       case _ => false
  }

  ghost predicate ExplainsUnknown(gates: seq<Gate>, error: GraphError) {
    exists i: nat :: IsFirstUnknown(gates, i, error)
  }

  /** First reference to an id the aggregate does not hold, if any. */
  method FindUnknown(gates: seq<Gate>) returns (unknown: Option<GraphError>)
    ensures unknown.None? <==> Closed(gates)
    ensures unknown.Some? ==> ExplainsUnknown(gates, unknown.value)
  {
    var ids := Ids(gates);
    for i := 0 to |gates|
      invariant AllKnown(gates[..i], ids)
    {
      var gate := gates[i];
      assert gates[..i + 1] == gates[..i] + [gate];
      for n := 0 to |gate.needs|
        invariant forall k | 0 <= k < n :: gate.needs[k] in ids
      {
        if gate.needs[n] !in ids {
          assert gate.needs[n] in Predecessors(gate);
          assert IsFirstUnknown(gates, i, UnknownNeed(gate.id, gate.needs[n]));
          return Some(UnknownNeed(gate.id, gate.needs[n]));
        }
      }
      for n := 0 to |gate.after|
        invariant forall k | 0 <= k < n :: gate.after[k] in ids
      {
        if gate.after[n] !in ids {
          assert gate.after[n] in Predecessors(gate);
          assert IsFirstUnknown(gates, i, UnknownAfter(gate.id, gate.after[n]));
          return Some(UnknownAfter(gate.id, gate.after[n]));
        }
      }
    }
    assert gates[..|gates|] == gates;
    unknown := None;
  }

  ghost predicate Explains(gates: seq<Gate>, error: GraphError) {
    match error
    case NoGates => gates == []
    case DuplicateId(id) => IsFirstDuplicate(gates, id)
    case DependencyCycle(walk) => DistinctIds(gates) && Closed(gates) && IsClosedWalk(ById(gates), walk)
    case _ => DistinctIds(gates) && ExplainsUnknown(gates, error)
  }

  /** Validation accepts exactly the executable graphs and otherwise names the first defect, kind by kind. */
  method ValidateGateGraph(gates: seq<Gate>) returns (error: Option<GraphError>)
    ensures error.None? <==> WellFormed(gates)
    ensures error.Some? ==> Explains(gates, error.value)
  {
    if gates == [] { return Some(NoGates); }
    var duplicate := FindDuplicate(gates);
    if duplicate.Some? { return Some(DuplicateId(duplicate.value)); }
    error := FindUnknown(gates);
    if error.Some? { return; }
    var cycle := FindDependencyCycle(gates);
    if cycle.Some? { return Some(DependencyCycle(cycle.value)); }
    error := None;
  }
}
