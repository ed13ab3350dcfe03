/** What one aggregate run must decide, stated without any scheduling. */
module Outcome {
  import opened GateGraph

  datatype Status = Passed | Failed | Skipped

  /**
   * The defining equation of a run: a gate whose needs all passed has its executor's status and
   * every other gate is skipped. `after` edges do not occur in it.
   */
  ghost predicate Solves(gates: seq<Gate>, execute: string -> Status, status: map<string, Status>) {
    && status.Keys == Ids(gates)
    && forall gate | gate in gates ::
         status[gate.id] == if NeedsPassed(gate, status) then execute(gate.id) else Skipped
  }

  ghost predicate NeedsPassed(gate: Gate, status: map<string, Status>) {
    forall d | d in gate.needs :: d in status && status[d] == Passed
  }

  lemma {:induction false} SolutionsAgree(gates: seq<Gate>, execute: string -> Status, rank: map<string, nat>,
                                          a: map<string, Status>, b: map<string, Status>, gate: Gate)
    requires WellFormed(gates) && IsRank(ById(gates), rank) && gate in gates && gate.id in rank
    requires Solves(gates, execute, a) && Solves(gates, execute, b)
    ensures gate.id in a && gate.id in b && a[gate.id] == b[gate.id]
    decreases rank[gate.id]
  {
    ByIdKeys(gates);
    ByIdFinds(gates, gate);
    forall d | d in gate.needs ensures d in a && d in b && a[d] == b[d] {
      assert d in Predecessors(gate);
      assert Edge(ById(gates), gate.id, d);
      SolutionsAgree(gates, execute, rank, a, b, ById(gates)[d]);
    }
  }

  /** Acyclicity makes the equation have at most one solution. */
  lemma SolutionIsUnique(gates: seq<Gate>, execute: string -> Status, a: map<string, Status>, b: map<string, Status>)
    requires WellFormed(gates) && Solves(gates, execute, a) && Solves(gates, execute, b)
    ensures a == b
  {
    var rank :| IsRank(ById(gates), rank);
    ByIdKeys(gates);
    forall id | id in a.Keys ensures a[id] == b[id] {
      SolutionsAgree(gates, execute, rank, a, b, ById(gates)[id]);
    }
  }

  /** The status the equation gives a gate, its needs first. */
  ghost function StatusOf(gates: seq<Gate>, execute: string -> Status, rank: map<string, nat>, id: string): Status
    requires WellFormed(gates) && IsRank(ById(gates), rank) && id in ById(gates)
    decreases rank[id]
  {
    ByIdKeys(gates);
    var gate := ById(gates)[id];
    NeedsAreLower(gates, rank, id);
    if forall d | d in gate.needs :: StatusOf(gates, execute, rank, d) == Passed then execute(id) else Skipped
  }

  lemma NeedsAreLower(gates: seq<Gate>, rank: map<string, nat>, id: string)
    requires WellFormed(gates) && IsRank(ById(gates), rank) && id in ById(gates)
    ensures forall d | d in ById(gates)[id].needs :: d in ById(gates) && rank[d] < rank[id]
  {
    ByIdKeys(gates);
    forall d | d in ById(gates)[id].needs ensures d in ById(gates) && rank[d] < rank[id] {
      assert d in Predecessors(ById(gates)[id]) && Edge(ById(gates), id, d);
    }
  }

  /** And at least one. */
  lemma SolutionExists(gates: seq<Gate>, execute: string -> Status) returns (status: map<string, Status>)
    requires WellFormed(gates)
    ensures Solves(gates, execute, status)
  {
    var rank :| IsRank(ById(gates), rank);
    ByIdKeys(gates);
    status := map id | id in ById(gates) :: StatusOf(gates, execute, rank, id);
    forall gate | gate in gates
      ensures status[gate.id] == if NeedsPassed(gate, status) then execute(gate.id) else Skipped
    {
      ByIdFinds(gates, gate);
      NeedsAreLower(gates, rank, gate.id);
    }
  }

  ghost predicate SameNeeds(gates: seq<Gate>, other: seq<Gate>) {
    |gates| == |other| && forall i | 0 <= i < |gates| :: other[i].id == gates[i].id && other[i].needs == gates[i].needs
  }

  lemma {:induction false} SameIds(gates: seq<Gate>, other: seq<Gate>)
    requires SameNeeds(gates, other)
    ensures Ids(gates) == Ids(other)
  {
    if gates == [] {
    } else {
      var n := |gates| - 1;
      SameIds(gates[..n], other[..n]);
      assert gates == gates[..n] + [gates[n]] && other == other[..n] + [other[n]];
      assert Ids(gates) == Ids(gates[..n]) + {gates[n].id};
      assert Ids(other) == Ids(other[..n]) + {other[n].id};
    }
  }

  /** `after` edges never change a status: only ids and `needs` decide the solution. */
  lemma AfterEdgesAreIrrelevant(gates: seq<Gate>, other: seq<Gate>, execute: string -> Status,
                                a: map<string, Status>, b: map<string, Status>)
    requires WellFormed(gates) && SameNeeds(gates, other)
    requires Solves(gates, execute, a) && Solves(other, execute, b)
    ensures a == b
  {
    SameIds(gates, other);
    forall i | 0 <= i < |gates|
      ensures b[gates[i].id] == if NeedsPassed(gates[i], b) then execute(gates[i].id) else Skipped
    {
      assert other[i] in other;
    }
    assert Solves(gates, execute, b);
    SolutionIsUnique(gates, execute, a, b);
  }
}
