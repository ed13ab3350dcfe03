/** When the list-scheduling bound of scripts/run-gates.ts holds of an aggregate whatever its gates do. */
module EveryExecutor {
  import opened GateGraph
  import opened Outcome
  import opened Scheduler
  import opened Makespan
  import opened AfterEdges
  import opened SkipPhases
  import opened BoundExactness

  // The first phase.

  /** Whatever precedes the gate and still waits is executed, in phase j at the latest. */
  ghost predicate HeldUntil(plan: Plan, states: States, k: nat, j: nat, y: string)
    requires plan.Valid() && y in ById(plan.gates)
  {
    forall p | p in Predecessors(ById(plan.gates)[y]) && p in states && states[p] == Pending ::
      Runs(plan, p) && PhaseBy(plan, states, k, p, j)
  }

  ghost predicate PhaseBy(plan: Plan, states: States, k: nat, id: string, j: nat)
    requires plan.Valid()
  {
    var phases := Phases(plan.gates, plan.execute, states, k);
    id in phases && phases[id] <= j
  }

  lemma {:induction false} StartsByPredecessors(plan: Plan, states: States, k: nat, j: nat, y: string)
    requires plan.Valid() && Still(plan, states) && Runs(plan, y) && y in states && states[y] == Pending
    requires k <= j && HeldUntil(plan, states, k, j, y)
    ensures PhaseBy(plan, states, k, y, j)
    decreases Work(plan.gates, states), 1
  {
    if i: nat :| FirstStartable(plan.gates, states, i) {
      StartsThroughExecution(plan, states, k, j, y, i);
    } else {
      NoFirstNoneStartable(plan.gates, states);
      StartsThroughSkip(plan, states, k, j, y);
    }
  }

  /** What is held still is after a step that sets one phase. */
  lemma StillHeld(plan: Plan, states: States, result: GateResult, k: nat, next: nat, j: nat, y: string)
    requires plan.Valid() && y in ById(plan.gates) && HeldUntil(plan, states, k, j, y)
    requires Still(plan, After(states, result)) && result.gate.id in states
    requires Phases(plan.gates, plan.execute, states, k)
             == Phases(plan.gates, plan.execute, After(states, result), next)[result.gate.id := k]
    ensures HeldUntil(plan, After(states, result), next, j, y)
  {
    var after := After(states, result);
    forall p | p in Predecessors(ById(plan.gates)[y]) && p in after && after[p] == Pending
      ensures Runs(plan, p) && PhaseBy(plan, after, next, p, j)
    {
      assert p != result.gate.id && states[p] == Pending;
      assert Runs(plan, p) && PhaseBy(plan, states, k, p, j);
      PendingHasPhase(plan, after, next, p);
    }
  }

  lemma {:induction false} StartsThroughExecution(plan: Plan, states: States, k: nat, j: nat, y: string, i: nat)
    requires plan.Valid() && Still(plan, states) && Runs(plan, y) && y in states && states[y] == Pending
    requires k <= j && HeldUntil(plan, states, k, j, y) && FirstStartable(plan.gates, states, i)
    ensures PhaseBy(plan, states, k, y, j)
    decreases Work(plan.gates, states), 0
  {
    var result := NextExecution(plan, states, i);
    PhasesExecuteFirst(plan.gates, plan.execute, states, k, i);
    if plan.gates[i].id == y {
    } else {
      StillHeld(plan, states, result, k, k, j, y);
      StartsByPredecessors(plan, After(states, result), k, j, y);
    }
  }

  /** When nothing may start, what an executed gate waits for is pending. */
  lemma AwaitsPending(plan: Plan, states: States, y: string) returns (p: string)
    requires plan.Valid() && Still(plan, states) && Runs(plan, y) && y in states && states[y] == Pending
    requires NoneStartable(plan.gates, states)
    ensures p in Predecessors(ById(plan.gates)[y]) && p in states && states[p] == Pending
  {
    StillIsState(plan, states);
    p := UnmetPredecessor(plan, Clocked(0, states, map[]), y);
    assert StillAt(plan, states[p], p);
  }

  lemma {:induction false} StartsThroughSkip(plan: Plan, states: States, k: nat, j: nat, y: string)
    requires plan.Valid() && Still(plan, states) && Runs(plan, y) && y in states && states[y] == Pending
    requires k <= j && HeldUntil(plan, states, k, j, y) && NoneStartable(plan.gates, states)
    ensures PhaseBy(plan, states, k, y, j)
    decreases Work(plan.gates, states), 0
  {
    var p := AwaitsPending(plan, states, y);
    var i, result := NextSkip(plan, states, y);
    PhasesSkipFirst(plan.gates, plan.execute, states, k, i);
    assert Runs(plan, p) && PhaseBy(plan, states, k, p, j);
    PhasesArePending(plan.gates, plan.execute, After(states, result), k + 1);
    PendingHasPhase(plan, After(states, result), k + 1, p);
    StillHeld(plan, states, result, k, k + 1, j, y);
    StartsByPredecessors(plan, After(states, result), k + 1, j, y);
  }

  /** An executed gate starts in the last phase of its predecessors, if these are all executed. */
  lemma StartsWithPredecessors(plan: Plan, y: string, j: nat)
    requires plan.Valid() && Runs(plan, y)
    requires forall p | p in Predecessors(ById(plan.gates)[y]) ::
               Runs(plan, p) && p in FullPhases(plan) && FullPhases(plan)[p] <= j
    ensures y in FullPhases(plan) && FullPhases(plan)[y] <= j
  {
    ByIdKeys(plan.gates);
    InitialIsStill(plan);
    var states := Initial(plan.gates);
    forall p | p in Predecessors(ById(plan.gates)[y]) && p in states && states[p] == Pending
      ensures Runs(plan, p) && PhaseBy(plan, states, 0, p, j)
    {
      assert p in FullPhases(plan);
    }
    StartsByPredecessors(plan, states, 0, j, y);
  }

  /** There is a walk from one gate down to the other. */
  ghost predicate Rests(byId: map<string, Gate>, x: string, g: string) {
    exists walk :: WalkBetween(byId, walk, x, g)
  }

  ghost predicate WalkBetween(byId: map<string, Gate>, walk: seq<string>, x: string, g: string) {
    walk != [] && walk[0] == x && walk[|walk| - 1] == g && IsWalk(byId, walk) && x in byId
  }

  lemma RestsOnItself(byId: map<string, Gate>, x: string)
    requires x in byId
    ensures Rests(byId, x, x)
  {
    assert WalkBetween(byId, [x], x, x);
  }

  lemma RestsFurther(byId: map<string, Gate>, x: string, p: string, g: string)
    requires Edge(byId, x, p) && Rests(byId, p, g)
    ensures Rests(byId, x, g)
  {
    var walk :| WalkBetween(byId, walk, p, g);
    var longer := [x] + walk;
    forall i | 0 <= i < |longer| - 1 ensures Edge(byId, longer[i], longer[i + 1]) {
      if i > 0 { assert Edge(byId, walk[i - 1], walk[i]); }
    }
    assert WalkBetween(byId, longer, x, g);
  }

  /** Everything the gate rests on is executed. */
  ghost predicate Sheltered(plan: Plan, x: string) {
    forall g | Rests(ById(plan.gates), x, g) :: Runs(plan, g)
  }

  lemma {:induction false} ShelteredIsFirst(plan: Plan, x: string)
    requires plan.Valid() && x in plan.duration && Sheltered(plan, x)
    ensures x in FullPhases(plan) && FullPhases(plan)[x] == 0
    decreases Height(plan, x)
  {
    GraphFacts(plan, x);
    RestsOnItself(ById(plan.gates), x);
    forall p | p in Predecessors(ById(plan.gates)[x])
      ensures Runs(plan, p) && p in FullPhases(plan) && FullPhases(plan)[p] <= 0
    {
      assert Edge(ById(plan.gates), x, p);
      RestsOnItself(ById(plan.gates), p);
      forall g | Rests(ById(plan.gates), p, g) ensures Rests(ById(plan.gates), x, g) {
        RestsFurther(ById(plan.gates), x, p, g);
      }
      ShelteredIsFirst(plan, p);
    }
    StartsWithPredecessors(plan, x, 0);
  }

  lemma FirstHasFirstPredecessors(plan: Plan, x: string, p: string)
    requires plan.Valid() && Runs(plan, x) && x in FullPhases(plan) && FullPhases(plan)[x] == 0
    requires Edge(ById(plan.gates), x, p)
    ensures Runs(plan, p) && p in FullPhases(plan) && FullPhases(plan)[p] == 0
  {
    ByIdKeys(plan.gates);
    GraphFacts(plan, x);
    InitialIsStill(plan);
    PredecessorPhase(plan, Initial(plan.gates), 0, x, p);
  }

  lemma {:induction false} FirstRestsOnExecuted(plan: Plan, walk: seq<string>)
    requires plan.Valid() && walk != [] && IsWalk(ById(plan.gates), walk)
    requires Runs(plan, walk[0]) && walk[0] in FullPhases(plan) && FullPhases(plan)[walk[0]] == 0
    ensures Runs(plan, walk[|walk| - 1])
    decreases |walk|
  {
    if |walk| == 1 {
    } else {
      var rest := walk[1..];
      assert Edge(ById(plan.gates), walk[0], walk[1]);
      FirstHasFirstPredecessors(plan, walk[0], walk[1]);
      forall i | 0 <= i < |rest| - 1 ensures Edge(ById(plan.gates), rest[i], rest[i + 1]) {
        assert Edge(ById(plan.gates), walk[i + 1], walk[i + 2]);
      }
      FirstRestsOnExecuted(plan, rest);
    }
  }

  /** An executed gate waits for no skip exactly when all it rests on is executed. */
  lemma FirstIffSheltered(plan: Plan, x: string)
    requires plan.Valid() && Runs(plan, x)
    ensures x in FullPhases(plan) && (FullPhases(plan)[x] == 0 <==> Sheltered(plan, x))
  {
    ByIdKeys(plan.gates);
    HasPhase(plan, x);
    if Sheltered(plan, x) { ShelteredIsFirst(plan, x); }
    if FullPhases(plan)[x] == 0 {
      forall g | Rests(ById(plan.gates), x, g) ensures Runs(plan, g) {
        var walk :| WalkBetween(ById(plan.gates), walk, x, g);
        FirstRestsOnExecuted(plan, walk);
      }
    }
  }

  // The condition on the graph.

  /** What must pass for x to be executed and for b to wait for no skip. */
  ghost predicate Spared(byId: map<string, Gate>, x: string, b: string, d: string) {
    NeedsAtLast(byId, x, d) || exists g :: Rests(byId, b, g) && NeedsAtLast(byId, g, d)
  }

  /** The gate is executed if only what is spared passes. */
  ghost predicate Clear(byId: map<string, Gate>, x: string, b: string, g: string) {
    forall d | NeedsAtLast(byId, g, d) :: Spared(byId, x, b, d)
  }

  ghost predicate ClearWalk(byId: map<string, Gate>, walk: seq<string>, x: string, b: string) {
    WalkBetween(byId, walk, x, b) && forall g | g in walk :: Clear(byId, x, b, g)
  }

  /** If x rests on a gate that can be skipped while x and b are not, it rests on b along gates that cannot. */
  ghost predicate FollowsEarly(byId: map<string, Gate>, x: string, b: string) {
    (exists g :: Rests(byId, x, g) && !Clear(byId, x, b, g)) ==> exists walk :: ClearWalk(byId, walk, x, b)
  }

  ghost predicate EarlyFollowed(gates: seq<Gate>) {
    forall x, b | x in Ids(gates) && b in Ids(gates) :: FollowsEarly(ById(gates), x, b)
  }

  /** What waits for a skip follows every executed gate that waits for none. */
  ghost predicate EarlyChained(plan: Plan)
    requires plan.Valid()
  {
    forall b, x | Runs(plan, b) && Runs(plan, x) && Earlier(plan, b, x) && FullPhases(plan)[b] == 0 ::
      ChainedFrom(plan, x, b)
  }

  /** Nothing passes but what is spared. */
  ghost function Blame(byId: map<string, Gate>, x: string, b: string): string -> Status {
    (id: string) => if Spared(byId, x, b, id) then Passed else Failed
  }

  lemma BlameRuns(plan: Plan, x: string, b: string, g: string)
    requires plan.Valid() && plan.execute == Blame(ById(plan.gates), x, b) && g in plan.duration
    ensures Runs(plan, g) <==> Clear(ById(plan.gates), x, b, g)
  {
    RunsIffNeedsPass(plan, g);
  }

  lemma {:induction false} RestsInside(plan: Plan, walk: seq<string>)
    requires plan.Valid() && walk != [] && IsWalk(ById(plan.gates), walk) && walk[0] in plan.duration
    ensures forall g | g in walk :: g in plan.duration
    decreases |walk|
  {
    if |walk| == 1 {
    } else {
      var rest := walk[1..];
      assert Edge(ById(plan.gates), walk[0], walk[1]);
      GraphFacts(plan, walk[0]);
      forall i | 0 <= i < |rest| - 1 ensures Edge(ById(plan.gates), rest[i], rest[i + 1]) {
        assert Edge(ById(plan.gates), walk[i + 1], walk[i + 2]);
      }
      RestsInside(plan, rest);
      assert walk == [walk[0]] + rest;
    }
  }

  lemma RestsIsKnown(plan: Plan, x: string, g: string)
    requires plan.Valid() && x in plan.duration && Rests(ById(plan.gates), x, g)
    ensures g in plan.duration
  {
    var walk :| WalkBetween(ById(plan.gates), walk, x, g);
    RestsInside(plan, walk);
    assert walk[|walk| - 1] in walk;
  }

  /** Whatever is spared passes wherever x is executed and b waits for no skip. */
  lemma SparedPasses(plan: Plan, x: string, b: string, d: string)
    requires plan.Valid() && Runs(plan, x) && b in plan.duration && Sheltered(plan, b)
    requires Spared(ById(plan.gates), x, b, d)
    ensures plan.execute(d) == Passed
  {
    ByIdKeys(plan.gates);
    if NeedsAtLast(ById(plan.gates), x, d) {
      RunsIffNeedsPass(plan, x);
    } else {
      var g :| Rests(ById(plan.gates), b, g) && NeedsAtLast(ById(plan.gates), g, d);
      RestsIsKnown(plan, b, g);
      RunsIffNeedsPass(plan, g);
    }
  }

  /** So what is clear is executed. */
  lemma ClearRuns(plan: Plan, x: string, b: string, g: string)
    requires plan.Valid() && Runs(plan, x) && b in plan.duration && Sheltered(plan, b)
    requires g in plan.duration && Clear(ById(plan.gates), x, b, g)
    ensures Runs(plan, g)
  {
    forall d | NeedsAtLast(ById(plan.gates), g, d) ensures plan.execute(d) == Passed {
      SparedPasses(plan, x, b, d);
    }
    RunsIffNeedsPass(plan, g);
  }

  lemma FollowedIsChained(plan: Plan, b: string, x: string)
    requires plan.Valid() && EarlyFollowed(plan.gates) && Runs(plan, b) && Runs(plan, x)
    requires Earlier(plan, b, x) && FullPhases(plan)[b] == 0
    ensures ChainedFrom(plan, x, b)
  {
    ByIdKeys(plan.gates);
    FirstIffSheltered(plan, b);
    FirstIffSheltered(plan, x);
    var byId := ById(plan.gates);
    var g :| Rests(byId, x, g) && !Runs(plan, g);
    RestsIsKnown(plan, x, g);
    if Clear(byId, x, b, g) { ClearRuns(plan, x, b, g); }
    assert FollowsEarly(byId, x, b);
    var walk :| ClearWalk(byId, walk, x, b);
    RestsInside(plan, walk);
    forall id | id in walk ensures id in Ids(plan.gates) && Runs(plan, id) { ClearRuns(plan, x, b, id); }
    assert ChainWalk(plan, walk, x, b);
  }

  lemma SparedIsClear(byId: map<string, Gate>, x: string, b: string)
    ensures Clear(byId, x, b, x) && forall g | Rests(byId, b, g) :: Clear(byId, x, b, g)
  {
  }

  lemma ChainedIsFollowed(plan: Plan, x: string, b: string)
    requires plan.Valid() && plan.execute == Blame(ById(plan.gates), x, b) && EarlyChained(plan)
    requires x in plan.duration && b in plan.duration
    ensures FollowsEarly(ById(plan.gates), x, b)
  {
    var byId := ById(plan.gates);
    ByIdKeys(plan.gates);
    SparedIsClear(byId, x, b);
    BlameRuns(plan, x, b, x);
    RestsOnItself(byId, b);
    forall g | Rests(byId, b, g) ensures Runs(plan, g) {
      RestsIsKnown(plan, b, g);
      BlameRuns(plan, x, b, g);
    }
    FirstIffSheltered(plan, b);
    FirstIffSheltered(plan, x);
    if g :| Rests(byId, x, g) && !Clear(byId, x, b, g) {
      RestsIsKnown(plan, x, g);
      BlameRuns(plan, x, b, g);
      assert Earlier(plan, b, x);
      var walk :| ChainWalk(plan, walk, x, b);
      forall id | id in walk ensures Clear(byId, x, b, id) { BlameRuns(plan, x, b, id); }
      assert ClearWalk(byId, walk, x, b);
    }
  }

  /**
   * Under every executor, what waits for a skip follows all that waits for none, exactly when the graph says so:
   * no executor and no order of the gates enters the condition.
   */
  lemma EarlyChainedIffFollowed(gates: seq<Gate>)
    requires WellFormed(gates)
    ensures EarlyFollowed(gates) <==>
              forall plan: Plan | plan.Valid() && plan.gates == gates :: EarlyChained(plan)
  {
    if EarlyFollowed(gates) {
      forall plan: Plan | plan.Valid() && plan.gates == gates ensures EarlyChained(plan) {
        forall b, x | Runs(plan, b) && Runs(plan, x) && Earlier(plan, b, x) && FullPhases(plan)[b] == 0
          ensures ChainedFrom(plan, x, b)
        {
          FollowedIsChained(plan, b, x);
        }
      }
    }
    if forall plan: Plan | plan.Valid() && plan.gates == gates :: EarlyChained(plan) {
      forall x, b | x in Ids(gates) && b in Ids(gates) ensures FollowsEarly(ById(gates), x, b) {
        var plan := PlanFor(gates, Blame(ById(gates), x, b));
        ChainedIsFollowed(plan, x, b);
      }
    }
  }

  // The bound under every executor.

  ghost predicate BoundAlways(gates: seq<Gate>) {
    forall execute :: BoundHolds(gates, execute)
  }

  /** What waits for a later skip follows what waits for an earlier one. */
  ghost predicate LateChained(plan: Plan)
    requires plan.Valid()
  {
    forall b, x | Runs(plan, b) && Runs(plan, x) && Earlier(plan, b, x) && FullPhases(plan)[b] > 0 ::
      ChainedFrom(plan, x, b)
  }

  lemma ChainedInTwo(plan: Plan)
    requires plan.Valid()
    ensures PhasesChained(plan) <==> EarlyChained(plan) && LateChained(plan)
  {
  }

  /** Exactly: what waits for no skip is followed, which the graph says, and under no executor do skips part a pair. */
  lemma BoundAlwaysIff(gates: seq<Gate>)
    requires WellFormed(gates)
    ensures BoundAlways(gates) <==>
              EarlyFollowed(gates) && forall plan: Plan | plan.Valid() && plan.gates == gates :: LateChained(plan)
  {
    EarlyChainedIffFollowed(gates);
    if BoundAlways(gates) {
      forall plan: Plan | plan.Valid() && plan.gates == gates ensures EarlyChained(plan) && LateChained(plan) {
        assert BoundHolds(gates, plan.execute);
        BoundIffPhasesChained(plan);
        ChainedInTwo(plan);
      }
    }
    if EarlyFollowed(gates) && forall plan: Plan | plan.Valid() && plan.gates == gates :: LateChained(plan) {
      forall execute ensures BoundHolds(gates, execute) {
        var plan := PlanFor(gates, execute);
        ChainedInTwo(plan);
        BoundIffPhasesChained(plan);
      }
    }
  }

  /** Only one gate is `after` something that needs more than it does. */
  ghost predicate OneWaits(gates: seq<Gate>, waiter: string) {
    forall gate, p | gate in gates && p in gate.after && gate.id != waiter :: Covers(ById(gates), gate.id, p)
  }

  lemma OthersRestOnExecuted(plan: Plan, waiter: string, y: string, p: string)
    requires plan.Valid() && OneWaits(plan.gates, waiter) && Runs(plan, y) && y != waiter
    requires p in Predecessors(ById(plan.gates)[y])
    ensures Runs(plan, p)
  {
    ByIdKeys(plan.gates);
    GraphFacts(plan, y);
    var gate := ById(plan.gates)[y];
    if p in gate.needs {
      NeedRuns(plan, y, p);
    } else {
      assert Covers(ById(plan.gates), gate.id, p);
      RunsIffNeedsPass(plan, y);
      RunsIffNeedsPass(plan, p);
    }
  }

  /** In the first phase, or in that of the waiting gate. */
  ghost predicate EarlyOrWith(full: map<string, nat>, waiter: string, y: string) {
    y in full && (full[y] == 0 || (waiter in full && full[y] == full[waiter]))
  }

  /** Then everything executed starts so. */
  lemma {:induction false} WaiterPhases(plan: Plan, waiter: string, y: string)
    requires plan.Valid() && OneWaits(plan.gates, waiter) && y in plan.duration && Runs(plan, y)
    ensures EarlyOrWith(FullPhases(plan), waiter, y)
    decreases Height(plan, y)
  {
    if y == waiter {
      ByIdKeys(plan.gates);
      HasPhase(plan, y);
    } else {
      GraphFacts(plan, y);
      forall p | p in Predecessors(ById(plan.gates)[y])
        ensures Runs(plan, p) && EarlyOrWith(FullPhases(plan), waiter, p)
      {
        OthersRestOnExecuted(plan, waiter, y, p);
        WaiterPhases(plan, waiter, p);
      }
      StartsLikePredecessors(plan, waiter, y);
    }
  }

  lemma StartsLikePredecessors(plan: Plan, waiter: string, y: string)
    requires plan.Valid() && Runs(plan, y)
    requires forall p | p in Predecessors(ById(plan.gates)[y]) ::
               Runs(plan, p) && EarlyOrWith(FullPhases(plan), waiter, p)
    ensures EarlyOrWith(FullPhases(plan), waiter, y)
  {
    var full := FullPhases(plan);
    if p :| p in Predecessors(ById(plan.gates)[y]) && full[p] > 0 {
      StartsWithPredecessors(plan, y, full[waiter]);
      assert Edge(ById(plan.gates), y, p);
      EdgeGoesBack(plan, y, p);
    } else {
      StartsWithPredecessors(plan, y, 0);
    }
  }

  /** On such an aggregate the graph decides. */
  lemma OneWaiterBoundIff(gates: seq<Gate>, waiter: string)
    requires WellFormed(gates) && OneWaits(gates, waiter)
    ensures BoundAlways(gates) <==> EarlyFollowed(gates)
  {
    BoundAlwaysIff(gates);
    forall plan: Plan | plan.Valid() && plan.gates == gates ensures LateChained(plan) {
      ByIdKeys(plan.gates);
      forall b, x | Runs(plan, b) && Runs(plan, x) && Earlier(plan, b, x) ensures FullPhases(plan)[b] == 0 {
        WaiterPhases(plan, waiter, b);
        WaiterPhases(plan, waiter, x);
      }
    }
  }
}
