/** The two-kind dependency graph of one gate aggregate (scripts/run-gates.ts). */
module GateGraph {

  /** `needs`: the predecessor must pass. `after`: it must only settle. */
  datatype Gate = Gate(id: string, needs: seq<string>, after: seq<string>)

  function Predecessors(gate: Gate): seq<string> {
    gate.needs + gate.after
  }

  function Ids(gates: seq<Gate>): set<string> {
    set gate | gate in gates :: gate.id
  }

  /** The `Map` built from a gate list: a repeated id keeps its last gate. */
  function ById(gates: seq<Gate>): map<string, Gate> {
    if gates == [] then map[] else ById(gates[..|gates| - 1])[gates[|gates| - 1].id := gates[|gates| - 1]]
  }

  ghost predicate DistinctIds(gates: seq<Gate>) {
    forall i, j | 0 <= i < j < |gates| :: gates[i].id != gates[j].id
  }

  ghost predicate Closed(gates: seq<Gate>) {
    forall gate, p | gate in gates && p in Predecessors(gate) :: p in Ids(gates)
  }

  ghost predicate Edge(byId: map<string, Gate>, from: string, to: string) {
    from in byId && to in Predecessors(byId[from])
  }

  /** A rank drops along every edge, so it certifies that the graph has no cycle. */
  ghost predicate IsRank(byId: map<string, Gate>, rank: map<string, nat>) {
    && byId.Keys <= rank.Keys
    && forall id, p | Edge(byId, id, p) && p in byId :: rank[p] < rank[id]
  }

  ghost predicate Acyclic(byId: map<string, Gate>) {
    exists rank :: IsRank(byId, rank)
  }

  ghost predicate IsWalk(byId: map<string, Gate>, walk: seq<string>) {
    forall i | 0 <= i < |walk| - 1 :: Edge(byId, walk[i], walk[i + 1])
  }

  /** A genuine cycle: at least one edge, first and last entries equal. */
  ghost predicate IsClosedWalk(byId: map<string, Gate>, walk: seq<string>) {
    |walk| >= 2 && walk[0] == walk[|walk| - 1] && IsWalk(byId, walk)
  }

  /** What `validateGateGraph` demands of an aggregate. */
  ghost predicate WellFormed(gates: seq<Gate>) {
    gates != [] && DistinctIds(gates) && Closed(gates) && Acyclic(ById(gates))
  }

  lemma {:induction false} ByIdKeys(gates: seq<Gate>)
    ensures ById(gates).Keys == Ids(gates)
    ensures forall id | id in ById(gates) :: ById(gates)[id] in gates && ById(gates)[id].id == id
  {
    if gates == [] {
    } else {
      ByIdKeys(gates[..|gates| - 1]);
      assert gates == gates[..|gates| - 1] + [gates[|gates| - 1]];
    }
  }

  lemma {:induction false} ByIdFinds(gates: seq<Gate>, gate: Gate)
    requires DistinctIds(gates) && gate in gates
    ensures gate.id in ById(gates) && ById(gates)[gate.id] == gate
  {
    var last := |gates| - 1;
    if gates[last] == gate {
    } else {
      assert gates == gates[..last] + [gates[last]];
      ByIdFinds(gates[..last], gate);
    }
  }

  /** Along a walk through known ids every rank strictly drops. */
  lemma {:induction false} WalkDrops(byId: map<string, Gate>, rank: map<string, nat>, walk: seq<string>)
    requires IsRank(byId, rank) && IsWalk(byId, walk) && |walk| >= 2
    requires walk[|walk| - 1] in byId
    ensures walk[0] in byId && rank[walk[|walk| - 1]] < rank[walk[0]]
  {
    assert Edge(byId, walk[0], walk[1]);
    if |walk| == 2 {
    } else {
      var rest := walk[1..];
      forall i | 0 <= i < |rest| - 1 ensures Edge(byId, rest[i], rest[i + 1]) {
        assert Edge(byId, walk[i + 1], walk[i + 2]);
      }
      WalkDrops(byId, rank, rest);
    }
  }

  /** A reported cycle refutes every rank function. */
  lemma CycleRefutesRank(byId: map<string, Gate>, walk: seq<string>)
    requires IsClosedWalk(byId, walk)
    ensures !Acyclic(byId)
  {
    if Acyclic(byId) {
      var rank :| IsRank(byId, rank);
      assert Edge(byId, walk[0], walk[1]);
      WalkDrops(byId, rank, walk);
      assert false;
    }
  }
}
