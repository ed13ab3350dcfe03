/** Which aggregates of scripts/run-gates.ts never have an executed gate wait for a skipped one. */
module AfterEdges {
  import opened GateGraph
  import opened Outcome
  import opened Makespan

  /** Each gate of the chain needs the next. */
  ghost predicate IsNeedChain(byId: map<string, Gate>, chain: seq<string>) {
    |chain| >= 2 && forall i | 0 <= i < |chain| - 1 :: chain[i] in byId && chain[i + 1] in byId[chain[i]].needs
  }

  ghost predicate ChainBetween(byId: map<string, Gate>, chain: seq<string>, x: string, d: string) {
    IsNeedChain(byId, chain) && chain[0] == x && chain[|chain| - 1] == d
  }

  ghost predicate NeedsAtLast(byId: map<string, Gate>, x: string, d: string) {
    exists chain :: ChainBetween(byId, chain, x, d)
  }

  ghost predicate Covers(byId: map<string, Gate>, x: string, p: string) {
    forall d {:trigger NeedsAtLast(byId, p, d)} | NeedsAtLast(byId, p, d) :: NeedsAtLast(byId, x, d)
  }

  /** What a caller can check: a gate needs, directly or not, whatever the gates it is `after` need. */
  ghost predicate NeedsCovered(gates: seq<Gate>) {
    forall x, p | x in gates && p in x.after :: Covers(ById(gates), x.id, p)
  }

  lemma NeedRuns(plan: Plan, id: string, d: string)
    requires plan.Valid() && Runs(plan, id) && d in ById(plan.gates)[id].needs
    ensures Runs(plan, d) && plan.execute(d) == Passed
  {
    ByIdKeys(plan.gates);
    GraphFacts(plan, id);
    assert d in Predecessors(ById(plan.gates)[id]);
    ExecutedStatus(plan, d);
  }

  lemma {:induction false} ExecutedChainPasses(plan: Plan, chain: seq<string>)
    requires plan.Valid() && IsNeedChain(ById(plan.gates), chain) && Runs(plan, chain[0])
    ensures plan.execute(chain[|chain| - 1]) == Passed
    decreases |chain|
  {
    NeedRuns(plan, chain[0], chain[1]);
    if |chain| == 2 {
    } else {
      var rest := chain[1..];
      forall i | 0 <= i < |rest| - 1
        ensures rest[i] in ById(plan.gates) && rest[i + 1] in ById(plan.gates)[rest[i]].needs
      {
        assert rest[i] == chain[i + 1] && rest[i + 1] == chain[i + 2];
      }
      ExecutedChainPasses(plan, rest);
    }
  }

  lemma LongerChain(byId: map<string, Gate>, x: string, y: string, chain: seq<string>)
    requires x in byId && y in byId[x].needs && IsNeedChain(byId, chain) && chain[0] == y
    ensures IsNeedChain(byId, [x] + chain)
  {
    var longer := [x] + chain;
    forall i | 0 <= i < |longer| - 1 ensures longer[i] in byId && longer[i + 1] in byId[longer[i]].needs {
      if i > 0 { assert longer[i] == chain[i - 1] && longer[i + 1] == chain[i]; }
    }
  }

  /** A gate that is not executed has a need that failed, directly or not. */
  lemma {:induction false} SkippedHasFailedNeed(plan: Plan, id: string) returns (chain: seq<string>)
    requires plan.Valid() && id in plan.duration && !Runs(plan, id)
    ensures IsNeedChain(ById(plan.gates), chain) && chain[0] == id
    ensures plan.execute(chain[|chain| - 1]) != Passed
    decreases Height(plan, id)
  {
    GraphFacts(plan, id);
    var gate := ById(plan.gates)[id];
    var d :| d in gate.needs && !(d in plan.status && plan.status[d] == Passed);
    assert d in Predecessors(gate);
    ExecutedStatus(plan, d);
    if Runs(plan, d) {
      chain := [id, d];
    } else {
      var rest := SkippedHasFailedNeed(plan, d);
      LongerChain(ById(plan.gates), id, d, rest);
      chain := [id] + rest;
    }
  }

  /** A gate is executed exactly when everything it needs, directly or not, passes. */
  lemma RunsIffNeedsPass(plan: Plan, id: string)
    requires plan.Valid() && id in plan.duration
    ensures Runs(plan, id) <==>
              forall d | NeedsAtLast(ById(plan.gates), id, d) :: plan.execute(d) == Passed
  {
    if Runs(plan, id) {
      forall d | NeedsAtLast(ById(plan.gates), id, d) ensures plan.execute(d) == Passed {
        var chain :| ChainBetween(ById(plan.gates), chain, id, d);
        ExecutedChainPasses(plan, chain);
      }
    } else {
      var chain := SkippedHasFailedNeed(plan, id);
      assert ChainBetween(ById(plan.gates), chain, id, chain[|chain| - 1]);
    }
  }

  lemma CoveredAwaitsNoSkip(plan: Plan)
    requires plan.Valid() && NeedsCovered(plan.gates)
    ensures AwaitsNoSkip(plan)
  {
    forall x, p | x in plan.gates && Runs(plan, x.id) && p in x.after ensures Runs(plan, p) {
      ByIdKeys(plan.gates);
      ByIdFinds(plan.gates, x);
      assert p in Predecessors(x) && p in Ids(plan.gates);
      assert Covers(ById(plan.gates), x.id, p);
      RunsIffNeedsPass(plan, x.id);
      RunsIffNeedsPass(plan, p);
    }
  }

  /** All gates pass but one. */
  function AllBut(d: string): string -> Status {
    (id: string) => if id == d then Failed else Passed
  }

  /** A plan for an executor, every duration being zero. */
  lemma PlanFor(gates: seq<Gate>, execute: string -> Status) returns (plan: Plan)
    requires WellFormed(gates)
    ensures plan.Valid() && plan.gates == gates && plan.execute == execute
  {
    var status := SolutionExists(gates, execute);
    var rank :| IsRank(ById(gates), rank);
    plan := Plan(gates, 1, execute, map id | id in Ids(gates) :: 0, status, rank);
  }

  /** A need of p that x lacks, failing alone, skips p and not x. */
  lemma UncoveredAwaitsSkip(gates: seq<Gate>, x: Gate, p: string, d: string) returns (plan: Plan)
    requires WellFormed(gates) && x in gates && p in x.after
    requires NeedsAtLast(ById(gates), p, d) && !NeedsAtLast(ById(gates), x.id, d)
    ensures plan.Valid() && plan.gates == gates && !AwaitsNoSkip(plan)
  {
    plan := PlanFor(gates, AllBut(d));
    ByIdKeys(gates);
    ByIdFinds(gates, x);
    assert p in Predecessors(x) && p in Ids(gates);
    RunsIffNeedsPass(plan, x.id);
    RunsIffNeedsPass(plan, p);
    assert plan.execute(d) == Failed;
  }

  /**
   * The caller's version of the condition: whatever the executor, no executed gate waits for a skipped one,
   * exactly when every gate needs what the gates it is `after` need.
   */
  lemma AwaitsNoSkipIffCovered(gates: seq<Gate>)
    requires WellFormed(gates)
    ensures NeedsCovered(gates) <==>
              forall plan: Plan | plan.Valid() && plan.gates == gates :: AwaitsNoSkip(plan)
  {
    if NeedsCovered(gates) {
      forall plan: Plan | plan.Valid() && plan.gates == gates ensures AwaitsNoSkip(plan) {
        CoveredAwaitsNoSkip(plan);
      }
    } else {
      var x, p :| x in gates && p in x.after && !Covers(ById(gates), x.id, p);
      var d :| NeedsAtLast(ById(gates), p, d) && !NeedsAtLast(ById(gates), x.id, d);
      var plan := UncoveredAwaitsSkip(gates, x, p, d);
    }
  }

  /** On such an aggregate Graham's bound survives every failure. */
  lemma CoveredKeepsBound(plan: Plan, run: seq<Clocked>, k: nat)
    requires plan.Valid() && NeedsCovered(plan.gates) && IsRun(plan, run) && k < |run|
    ensures WithinBound(plan, run[k].now)
  {
    CoveredAwaitsNoSkip(plan);
    MakespanBound(plan, run, k);
  }

  // The condition is not necessary for the bound: x waits for the skip of p, and for d, whose failure skips p.

  const D := Gate("d", [], [])
  const P := Gate("p", ["d"], [])
  const X := Gate("x", [], ["p", "d"])
  const IN_LINE := [D, P, X]

  lemma InLineGraph()
    ensures ById(IN_LINE) == map["d" := D, "p" := P, "x" := X] && Ids(IN_LINE) == {"d", "p", "x"}
  {
    assert IN_LINE[..2] == [D, P] && [D, P][..1] == [D];
    assert ById([D]) == map["d" := D];
    assert ById([D, P]) == map["d" := D, "p" := P];
    assert D in IN_LINE && P in IN_LINE && X in IN_LINE;
  }

  lemma InLineRuns(plan: Plan)
    requires plan.Valid() && plan.gates == IN_LINE && plan.execute("d") != Passed
    ensures Runs(plan, "d") && !Runs(plan, "p") && Runs(plan, "x") && !AwaitsNoSkip(plan)
  {
    InLineGraph();
    ExecutedStatus(plan, "d");
    assert "d" in P.needs;
    assert X in plan.gates && "p" in X.after;
  }

  lemma InLineWork(plan: Plan)
    requires plan.Valid() && plan.gates == IN_LINE && plan.execute("d") != Passed
    ensures TotalWork(plan, IN_LINE) == Cost(plan, "d") + Cost(plan, "x")
  {
    InLineRuns(plan);
    assert IN_LINE[..2] == [D, P] && [D, P][..1] == [D];
    assert TotalWork(plan, [D]) == Cost(plan, "d");
    assert TotalWork(plan, [D, P]) == Cost(plan, "d");
  }

  lemma InLineChain(plan: Plan)
    requires plan.Valid() && plan.gates == IN_LINE && plan.execute("d") != Passed
    ensures IsChain(plan, ["x", "d"]) && ChainTime(plan, ["x", "d"]) == Cost(plan, "x") + Cost(plan, "d")
  {
    var walk, tail := ["x", "d"], ["d"];
    InLineGraph();
    InLineRuns(plan);
    assert Edge(ById(IN_LINE), "x", "d") by { assert Predecessors(X) == ["p", "d"]; }
    assert IsWalk(ById(IN_LINE), walk);
    assert walk[1..] == tail && tail[1..] == [];
    assert ChainTime(plan, []) == 0;
    assert ChainTime(plan, tail) == Cost(plan, "d");
  }

  /** With any durations and workers, an executed gate waits for a skipped one and the bound holds all the same. */
  lemma HarmlessWait(plan: Plan, run: seq<Clocked>, k: nat)
    requires plan.Valid() && plan.gates == IN_LINE && plan.execute("d") != Passed
    requires IsRun(plan, run) && k < |run|
    ensures !AwaitsNoSkip(plan) && WithinBound(plan, run[k].now)
  {
    InLineRuns(plan);
    InLineWork(plan);
    InLineChain(plan);
    var longest := LongestChainIsLongest(plan);
    SerialBound(plan, run, k);
  }
}
