/**
 * The order of an aggregate's list decides whether the list-scheduling bound of scripts/run-gates.ts survives its
 * failures: no condition on the graph alone can.
 */
module ListOrder {
  import opened GateGraph
  import opened Outcome
  import opened Scheduler
  import opened Makespan
  import opened AfterEdges
  import opened SkipPhases
  import opened BoundExactness
  import opened EveryExecutor

  /** The ids of five gates: q and p need d, x waits for p and b for both, and both wait for d. */
  datatype Names = Names(d: string, q: string, p: string, x: string, b: string) {
    predicate Distinct() {
      && d != q && d != p && d != x && d != b && q != p && q != x && q != b && p != x && p != b && x != b
    }

    function All(): set<string> {
      {d, q, p, x, b}
    }

    function D(): Gate {
      Gate(d, [], [])
    }

    function Q(): Gate {
      Gate(q, [d], [])
    }

    function P(): Gate {
      Gate(p, [d], [])
    }

    function X(): Gate {
      Gate(x, [], [p, d])
    }

    function B(): Gate {
      Gate(b, [], [q, p, d])
    }

    function List(qFirst: bool): seq<Gate> {
      if qFirst then [D(), Q(), P(), X(), B()] else [D(), P(), Q(), X(), B()]
    }

    function Graph(): map<string, Gate> {
      map id | id in All() :: if id == d then D() else if id == q then Q() else if id == p then P()
                              else if id == x then X() else B()
    }

    function Rank(): map<string, nat> {
      map id | id in All() :: if id == d then 0 else if id == q || id == p then 1 else 2
    }

    function Five(sd: GateState, sq: GateState, sp: GateState, sx: GateState, sb: GateState): States {
      map id | id in All() :: if id == d then sd else if id == q then sq else if id == p then sp
                              else if id == x then sx else sb
    }
  }

  lemma GatesSnoc(gates: seq<Gate>, gate: Gate)
    ensures ById(gates + [gate]) == ById(gates)[gate.id := gate]
  {
    assert (gates + [gate])[..|gates|] == gates;
  }

  lemma GraphInSteps(n: Names, qFirst: bool)
    requires n.Distinct()
    ensures var first, second := if qFirst then n.Q() else n.P(), if qFirst then n.P() else n.Q();
            map[n.d := n.D()][first.id := first][second.id := second][n.x := n.X()][n.b := n.B()] == n.Graph()
  {
  }

  lemma ListIsGraph(n: Names, qFirst: bool)
    requires n.Distinct()
    ensures ById(n.List(qFirst)) == n.Graph() && Ids(n.List(qFirst)) == n.Graph().Keys
  {
    var first, second := if qFirst then n.Q() else n.P(), if qFirst then n.P() else n.Q();
    var two := [n.D()] + [first];
    var four := (two + [second]) + [n.X()];
    assert ById([n.D()]) == map[n.d := n.D()] by { GatesSnoc([], n.D()); }
    GatesSnoc([n.D()], first);
    GatesSnoc(two, second);
    GatesSnoc(two + [second], n.X());
    GatesSnoc(four, n.B());
    GraphInSteps(n, qFirst);
    assert n.List(qFirst) == four + [n.B()];
    ByIdKeys(n.List(qFirst));
  }

  lemma PredecessorsOf(n: Names)
    ensures Predecessors(n.D()) == [] && Predecessors(n.Q()) == [n.d] && Predecessors(n.P()) == [n.d]
    ensures Predecessors(n.X()) == [n.p, n.d] && Predecessors(n.B()) == [n.q, n.p, n.d]
  {
  }

  lemma EdgesOf(n: Names, id: string, p: string)
    requires n.Distinct() && Edge(n.Graph(), id, p)
    ensures (p == n.d && id != n.d) || ((p == n.q || p == n.p) && (id == n.x || id == n.b))
  {
    PredecessorsOf(n);
  }

  lemma GraphIsRanked(n: Names)
    requires n.Distinct()
    ensures IsRank(n.Graph(), n.Rank())
  {
    forall id, p | Edge(n.Graph(), id, p) && p in n.Graph() ensures n.Rank()[p] < n.Rank()[id] {
      EdgesOf(n, id, p);
    }
  }

  lemma ListIsClosed(n: Names, qFirst: bool)
    requires n.Distinct()
    ensures Closed(n.List(qFirst))
  {
    ListIsGraph(n, qFirst);
    forall gate, p | gate in n.List(qFirst) && p in Predecessors(gate) ensures p in Ids(n.List(qFirst)) {
      PredecessorsOf(n);
      assert gate in {n.D(), n.Q(), n.P(), n.X(), n.B()};
      assert p in n.All();
    }
  }

  lemma ListIsDistinct(n: Names, qFirst: bool)
    requires n.Distinct()
    ensures DistinctIds(n.List(qFirst))
  {
  }

  lemma ListIsWellFormed(n: Names, qFirst: bool)
    requires n.Distinct()
    ensures WellFormed(n.List(qFirst))
  {
    ListIsDistinct(n, qFirst);
    ListIsClosed(n, qFirst);
    ListIsGraph(n, qFirst);
    GraphIsRanked(n);
  }

  lemma SetD(n: Names, d: GateState, q: GateState, p: GateState, x: GateState, b: GateState, v: GateState)
    requires n.Distinct()
    ensures n.Five(d, q, p, x, b)[n.d := v] == n.Five(v, q, p, x, b)
  {
  }

  lemma SetQ(n: Names, d: GateState, q: GateState, p: GateState, x: GateState, b: GateState, v: GateState)
    requires n.Distinct()
    ensures n.Five(d, q, p, x, b)[n.q := v] == n.Five(d, v, p, x, b)
  {
  }

  lemma SetP(n: Names, d: GateState, q: GateState, p: GateState, x: GateState, b: GateState, v: GateState)
    requires n.Distinct()
    ensures n.Five(d, q, p, x, b)[n.p := v] == n.Five(d, q, v, x, b)
  {
  }

  lemma SetX(n: Names, d: GateState, q: GateState, p: GateState, x: GateState, b: GateState, v: GateState)
    requires n.Distinct()
    ensures n.Five(d, q, p, x, b)[n.x := v] == n.Five(d, q, p, v, b)
  {
  }

  predicate Lost(state: GateState) {
    state.Settled? && state.status != Passed
  }

  /** What may start or must be skipped once d has failed. */
  lemma AfterFailure(n: Names, d: GateState, q: GateState, p: GateState, x: GateState, b: GateState)
    requires n.Distinct() && Lost(d)
    ensures var s := n.Five(d, q, p, x, b);
            && !Startable(n.D(), s) && !Startable(n.Q(), s) && !Startable(n.P(), s)
            && !Doomed(n.D(), s) && !Doomed(n.X(), s) && !Doomed(n.B(), s)
            && (Startable(n.X(), s) <==> x == Pending && p.Settled?)
            && (Startable(n.B(), s) <==> b == Pending && q.Settled? && p.Settled?)
            && (Doomed(n.Q(), s) <==> q == Pending) && (Doomed(n.P(), s) <==> p == Pending)
  {
    var s := n.Five(d, q, p, x, b);
    assert n.d in n.Q().needs && n.d in n.P().needs;
    assert n.p in n.X().after && n.q in n.B().after && n.p in n.B().after;
    assert GateFailed(s, n.d);
  }

  lemma NextDoomed(n: Names, qFirst: bool, d: GateState, q: GateState, p: GateState, x: GateState, b: GateState,
                   i: nat)
    requires n.Distinct() && Lost(d) && (x == Pending ==> p == Pending) && b == Pending
    requires (q == Pending || p == Pending) && 1 <= i <= 2
    requires i == 1 ==> (if qFirst then q else p) == Pending
    requires i == 2 ==> (if qFirst then q else p) != Pending
    ensures var s := n.Five(d, q, p, x, b); NoneStartable(n.List(qFirst), s) && FirstDoomed(n.List(qFirst), s, i)
    ensures n.List(qFirst)[i].id == if qFirst == (i == 1) then n.q else n.p
  {
    AfterFailure(n, d, q, p, x, b);
    var gates := n.List(qFirst);
    assert gates[0] == n.D();
    forall gate | gate in gates ensures !Startable(gate, n.Five(d, q, p, x, b)) {
      assert gate in {n.D(), n.Q(), n.P(), n.X(), n.B()};
    }
  }

  lemma NextStartable(n: Names, qFirst: bool, d: GateState, q: GateState, p: GateState, x: GateState, b: GateState)
    requires n.Distinct() && Lost(d) && p.Settled? && b == Pending && (x == Pending || q.Settled?)
    ensures FirstStartable(n.List(qFirst), n.Five(d, q, p, x, b), if x == Pending then 3 else 4)
  {
    AfterFailure(n, d, q, p, x, b);
    var gates := n.List(qFirst);
    assert gates[0] == n.D() && gates[3] == n.X() && gates[4] == n.B();
  }

  // The phases after a failure of d.

  ghost predicate Failing(n: Names, qFirst: bool, plan: Plan) {
    n.Distinct() && plan.Valid() && plan.gates == n.List(qFirst) && plan.execute(n.d) != Passed
  }

  const SKIP := Settled(Skipped)

  ghost function PhasesNow(n: Names, plan: Plan, q: GateState, p: GateState, x: GateState, k: nat): map<string, nat>
    requires plan.Valid()
  {
    Phases(plan.gates, plan.execute, n.Five(Settled(plan.execute(n.d)), q, p, x, Pending), k)
  }

  lemma ExecuteStep(plan: Plan, states: States, after: States, k: nat, i: nat, id: string)
    requires plan.Valid() && FirstStartable(plan.gates, states, i) && plan.gates[i].id == id
    requires after == states[id := Settled(plan.execute(id))]
    ensures Phases(plan.gates, plan.execute, states, k) == Phases(plan.gates, plan.execute, after, k)[id := k]
  {
    PhasesExecuteFirst(plan.gates, plan.execute, states, k, i);
  }

  lemma DMayStart(n: Names, qFirst: bool)
    requires n.Distinct()
    ensures var states := n.Five(Pending, Pending, Pending, Pending, Pending);
            Initial(n.List(qFirst)) == states && FirstStartable(n.List(qFirst), states, 0)
  {
    ListIsGraph(n, qFirst);
    assert n.List(qFirst)[0] == n.D();
  }

  lemma DFirst(n: Names, qFirst: bool, plan: Plan)
    requires Failing(n, qFirst, plan)
    ensures FullPhases(plan) == PhasesNow(n, plan, Pending, Pending, Pending, 0)[n.d := 0]
  {
    var d := Settled(plan.execute(n.d));
    DMayStart(n, qFirst);
    SetD(n, Pending, Pending, Pending, Pending, Pending, d);
    ExecuteStep(plan, Initial(plan.gates), n.Five(d, Pending, Pending, Pending, Pending), 0, 0, n.d);
  }

  lemma SkipStep(plan: Plan, states: States, after: States, k: nat, i: nat, id: string)
    requires plan.Valid() && NoneStartable(plan.gates, states) && FirstDoomed(plan.gates, states, i)
    requires plan.gates[i].id == id && after == states[id := SKIP]
    ensures Phases(plan.gates, plan.execute, states, k)
            == Phases(plan.gates, plan.execute, after, k + 1)[id := k]
  {
    PhasesSkipFirst(plan.gates, plan.execute, states, k, i);
  }

  lemma SkipsQ(n: Names, qFirst: bool, plan: Plan, p: GateState, x: GateState, k: nat)
    requires Failing(n, qFirst, plan) && (x == Pending ==> p == Pending) && (qFirst || p != Pending)
    ensures PhasesNow(n, plan, Pending, p, x, k) == PhasesNow(n, plan, SKIP, p, x, k + 1)[n.q := k]
  {
    var d, i: nat := Settled(plan.execute(n.d)), if qFirst then 1 else 2;
    NextDoomed(n, qFirst, d, Pending, p, x, Pending, i);
    SetQ(n, d, Pending, p, x, Pending, SKIP);
    SkipStep(plan, n.Five(d, Pending, p, x, Pending), n.Five(d, SKIP, p, x, Pending), k, i, n.q);
  }

  lemma SkipsP(n: Names, qFirst: bool, plan: Plan, q: GateState, k: nat)
    requires Failing(n, qFirst, plan) && (!qFirst || q != Pending)
    ensures PhasesNow(n, plan, q, Pending, Pending, k) == PhasesNow(n, plan, q, SKIP, Pending, k + 1)[n.p := k]
  {
    var d, i: nat := Settled(plan.execute(n.d)), if qFirst then 2 else 1;
    NextDoomed(n, qFirst, d, q, Pending, Pending, Pending, i);
    SetP(n, d, q, Pending, Pending, Pending, SKIP);
    SkipStep(plan, n.Five(d, q, Pending, Pending, Pending), n.Five(d, q, SKIP, Pending, Pending), k, i, n.p);
  }

  lemma StartsX(n: Names, qFirst: bool, plan: Plan, q: GateState, k: nat)
    requires Failing(n, qFirst, plan)
    ensures var x := Settled(plan.execute(n.x));
            PhasesNow(n, plan, q, SKIP, Pending, k) == PhasesNow(n, plan, q, SKIP, x, k)[n.x := k]
  {
    var d := Settled(plan.execute(n.d));
    var x := Settled(plan.execute(n.x));
    NextStartable(n, qFirst, d, q, SKIP, Pending, Pending);
    SetX(n, d, q, SKIP, Pending, Pending, x);
    ExecuteStep(plan, n.Five(d, q, SKIP, Pending, Pending), n.Five(d, q, SKIP, x, Pending), k, 3, n.x);
  }

  lemma StartsB(n: Names, qFirst: bool, plan: Plan, k: nat)
    requires Failing(n, qFirst, plan)
    ensures var phases := PhasesNow(n, plan, SKIP, SKIP, Settled(plan.execute(n.x)), k);
            n.b in phases && phases[n.b] == k
  {
    var d, x := Settled(plan.execute(n.d)), Settled(plan.execute(n.x));
    NextStartable(n, qFirst, d, SKIP, SKIP, x, Pending);
    PhasesExecuteFirst(plan.gates, plan.execute, n.Five(d, SKIP, SKIP, x, Pending), k, 4);
  }

  ghost predicate PhasesAre(n: Names, phases: map<string, nat>, x: nat, b: nat) {
    n.x in phases && n.b in phases && phases[n.x] == x && phases[n.b] == b
  }

  /** Once q and p are skipped, x and b start together. */
  lemma BothStart(n: Names, qFirst: bool, plan: Plan, k: nat)
    requires Failing(n, qFirst, plan)
    ensures PhasesAre(n, PhasesNow(n, plan, SKIP, SKIP, Pending, k), k, k)
  {
    StartsX(n, qFirst, plan, SKIP, k);
    StartsB(n, qFirst, plan, k);
  }

  /** With p skipped and q not, x starts one phase before b. */
  lemma XStarts(n: Names, qFirst: bool, plan: Plan, k: nat)
    requires Failing(n, qFirst, plan)
    ensures PhasesAre(n, PhasesNow(n, plan, Pending, SKIP, Pending, k), k, k + 1)
  {
    StartsX(n, qFirst, plan, Pending, k);
    BWaits(n, qFirst, plan, k);
  }

  lemma BWaits(n: Names, qFirst: bool, plan: Plan, k: nat)
    requires Failing(n, qFirst, plan)
    ensures var phases := PhasesNow(n, plan, Pending, SKIP, Settled(plan.execute(n.x)), k);
            n.b in phases && phases[n.b] == k + 1
  {
    SkipsQ(n, qFirst, plan, SKIP, Settled(plan.execute(n.x)), k);
    StartsB(n, qFirst, plan, k + 1);
  }

  lemma Lifted(n: Names, before: map<string, nat>, after: map<string, nat>, id: string, k: nat, x: nat, b: nat)
    requires n.Distinct() && PhasesAre(n, after, x, b) && id != n.x && id != n.b && before == after[id := k]
    ensures PhasesAre(n, before, x, b)
  {
  }

  lemma QThenP(n: Names, plan: Plan, k: nat)
    requires Failing(n, true, plan)
    ensures PhasesAre(n, PhasesNow(n, plan, SKIP, Pending, Pending, k), k + 1, k + 1)
  {
    SkipsP(n, true, plan, SKIP, k);
    BothStart(n, true, plan, k + 1);
    Lifted(n, PhasesNow(n, plan, SKIP, Pending, Pending, k), PhasesNow(n, plan, SKIP, SKIP, Pending, k + 1), n.p, k,
           k + 1, k + 1);
  }

  lemma AllOfD(n: Names, qFirst: bool, plan: Plan, x: nat, b: nat)
    requires Failing(n, qFirst, plan)
    requires PhasesAre(n, PhasesNow(n, plan, Pending, Pending, Pending, 0), x, b)
    ensures PhasesAre(n, FullPhases(plan), x, b) && n.d in FullPhases(plan) && FullPhases(plan)[n.d] == 0
  {
    DFirst(n, qFirst, plan);
    Lifted(n, FullPhases(plan), PhasesNow(n, plan, Pending, Pending, Pending, 0), n.d, 0, x, b);
  }

  lemma BothAfterQ(n: Names, plan: Plan, k: nat)
    requires Failing(n, true, plan)
    ensures PhasesAre(n, PhasesNow(n, plan, Pending, Pending, Pending, k), k + 2, k + 2)
  {
    SkipsQ(n, true, plan, Pending, Pending, k);
    QThenP(n, plan, k + 1);
    Lifted(n, PhasesNow(n, plan, Pending, Pending, Pending, k), PhasesNow(n, plan, SKIP, Pending, Pending, k + 1),
           n.q, k, k + 2, k + 2);
  }

  lemma XAfterP(n: Names, plan: Plan, k: nat)
    requires Failing(n, false, plan)
    ensures PhasesAre(n, PhasesNow(n, plan, Pending, Pending, Pending, k), k + 1, k + 2)
  {
    SkipsP(n, false, plan, Pending, k);
    XStarts(n, false, plan, k + 1);
    Lifted(n, PhasesNow(n, plan, Pending, Pending, Pending, k), PhasesNow(n, plan, Pending, SKIP, Pending, k + 1),
           n.p, k, k + 1, k + 2);
  }

  /** With q first, both skips come before x and b; with p first, x runs between them. */
  lemma PhasesOfFive(n: Names, qFirst: bool, plan: Plan)
    requires Failing(n, qFirst, plan)
    ensures PhasesAre(n, FullPhases(plan), if qFirst then 2 else 1, 2)
    ensures n.d in FullPhases(plan) && FullPhases(plan)[n.d] == 0
  {
    if qFirst { BothAfterQ(n, plan, 0); } else { XAfterP(n, plan, 0); }
    AllOfD(n, qFirst, plan, if qFirst then 2 else 1, 2);
  }

  lemma DRuns(n: Names, qFirst: bool, plan: Plan)
    requires Failing(n, qFirst, plan)
    ensures Runs(plan, n.d) && plan.status[n.d] != Passed
  {
    ListIsGraph(n, qFirst);
    ExecutedStatus(plan, n.d);
  }

  lemma NeedlessRun(n: Names, qFirst: bool, plan: Plan)
    requires Failing(n, qFirst, plan)
    ensures Runs(plan, n.x) && Runs(plan, n.b)
  {
    ListIsGraph(n, qFirst);
  }

  lemma NeedersAreSkipped(n: Names, qFirst: bool, plan: Plan)
    requires Failing(n, qFirst, plan)
    ensures !Runs(plan, n.q) && !Runs(plan, n.p)
  {
    ListIsGraph(n, qFirst);
    DRuns(n, qFirst, plan);
    assert n.d in n.Q().needs && n.d in n.P().needs;
  }

  lemma IsListed(n: Names, qFirst: bool, plan: Plan, id: string)
    requires n.Distinct() && plan.gates == n.List(qFirst) && id in ById(plan.gates)
    ensures id == n.d || id == n.q || id == n.p || id == n.x || id == n.b
  {
    ListIsGraph(n, qFirst);
    assert id in n.Graph();
  }

  lemma WhoRuns(n: Names, qFirst: bool, plan: Plan, id: string)
    requires Failing(n, qFirst, plan) && Runs(plan, id)
    ensures id == n.d || id == n.x || id == n.b
  {
    NeedersAreSkipped(n, qFirst, plan);
    IsListed(n, qFirst, plan, id);
  }

  lemma EdgeToD(n: Names, plan: Plan, x: string)
    requires n.Distinct() && plan.gates == n.List(true) && (x == n.x || x == n.b)
    ensures Edge(ById(plan.gates), x, n.d)
  {
    ListIsGraph(n, true);
    PredecessorsOf(n);
  }

  lemma EdgeIsChain(plan: Plan, x: string, p: string)
    requires plan.Valid() && Runs(plan, x) && Runs(plan, p) && Edge(ById(plan.gates), x, p)
    ensures ChainedFrom(plan, x, p)
  {
    ByIdKeys(plan.gates);
    assert ChainWalk(plan, [x, p], x, p);
  }

  lemma RestsOnD(n: Names, plan: Plan, x: string)
    requires Failing(n, true, plan) && (x == n.x || x == n.b)
    ensures ChainedFrom(plan, x, n.d)
  {
    DRuns(n, true, plan);
    NeedlessRun(n, true, plan);
    EdgeToD(n, plan, x);
    EdgeIsChain(plan, x, n.d);
  }

  lemma QFirstIsChained(n: Names, plan: Plan)
    requires Failing(n, true, plan)
    ensures PhasesChained(plan)
  {
    PhasesOfFive(n, true, plan);
    forall b, x | Runs(plan, b) && Runs(plan, x) && Earlier(plan, b, x) ensures ChainedFrom(plan, x, b) {
      WhoRuns(n, true, plan, b);
      WhoRuns(n, true, plan, x);
      RestsOnD(n, plan, x);
    }
  }

  lemma PassingAwaitsNoSkip(n: Names, plan: Plan)
    requires n.Distinct() && plan.Valid() && plan.gates == n.List(true) && plan.execute(n.d) == Passed
    ensures AwaitsNoSkip(plan)
  {
    ListIsGraph(n, true);
    ByIdKeys(plan.gates);
    assert Runs(plan, n.d);
    ExecutedStatus(plan, n.d);
    assert Runs(plan, n.q) && Runs(plan, n.p);
    forall gate, p | gate in plan.gates && p in gate.after ensures Runs(plan, p) {
      assert gate in {n.D(), n.Q(), n.P(), n.X(), n.B()};
    }
  }

  lemma QFirstKeepsBound(n: Names)
    requires n.Distinct()
    ensures BoundAlways(n.List(true))
  {
    var gates := n.List(true);
    forall execute ensures BoundHolds(gates, execute) {
      forall plan: Plan, run: seq<Clocked>, k: nat | Timed(plan, gates, execute) && IsRun(plan, run) && k < |run|
        ensures WithinBound(plan, run[k].now)
      {
        if plan.execute(n.d) == Passed {
          PassingAwaitsNoSkip(n, plan);
          MakespanBound(plan, run, k);
        } else {
          QFirstIsChained(n, plan);
          ChainedKeepsBound(plan, run, k);
        }
      }
    }
  }

  lemma SameGates(n: Names)
    ensures multiset(n.List(true)) == multiset(n.List(false))
  {
  }

  lemma OnlyD(n: Names, plan: Plan, p: string)
    requires Failing(n, false, plan) && Edge(ById(plan.gates), n.b, p) && Runs(plan, p)
    ensures p == n.d
  {
    ListIsGraph(n, false);
    PredecessorsOf(n);
    NeedersAreSkipped(n, false, plan);
  }

  lemma NothingBelowD(n: Names, plan: Plan, p: string)
    requires Failing(n, false, plan)
    ensures !Edge(ById(plan.gates), n.d, p)
  {
    ListIsGraph(n, false);
    PredecessorsOf(n);
  }

  lemma NoChainToX(n: Names, plan: Plan, walk: seq<string>)
    requires Failing(n, false, plan)
    ensures !ChainWalk(plan, walk, n.b, n.x)
  {
    if ChainWalk(plan, walk, n.b, n.x) {
      assert Edge(ById(plan.gates), walk[0], walk[1]) && walk[1] in walk;
      OnlyD(n, plan, walk[1]);
      if |walk| > 2 { NothingBelowD(n, plan, walk[2]); }
    }
  }

  lemma PFirstBreaksBound(n: Names)
    requires n.Distinct()
    ensures !BoundAlways(n.List(false))
  {
    ListIsWellFormed(n, false);
    var plan := PlanFor(n.List(false), AllBut(n.d));
    PhasesOfFive(n, false, plan);
    NeedlessRun(n, false, plan);
    assert Earlier(plan, n.x, n.b);
    forall walk ensures !ChainWalk(plan, walk, n.b, n.x) { NoChainToX(n, plan, walk); }
    BoundIffPhasesChained(plan);
    assert !BoundHolds(n.List(false), plan.execute);
  }

  /** Two lists of the same gates: one keeps the bound under every executor, the other does not. */
  lemma OrderDecides(n: Names)
    requires n.Distinct()
    ensures multiset(n.List(true)) == multiset(n.List(false))
    ensures WellFormed(n.List(true)) && BoundAlways(n.List(true))
    ensures WellFormed(n.List(false)) && !BoundAlways(n.List(false))
  {
    SameGates(n);
    ListIsWellFormed(n, true);
    ListIsWellFormed(n, false);
    QFirstKeepsBound(n);
    PFirstBreaksBound(n);
  }
}
