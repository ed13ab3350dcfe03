/** The list-scheduling bound of scripts/run-gates.ts holds of an outcome exactly when its phases are chained. */
module BoundExactness {
  import opened GateGraph
  import opened Outcome
  import opened Scheduler
  import opened Makespan
  import opened SkipPhases

  // Every run can be run to its end.

  lemma {:induction false} Shortest(s: Clocked, ids: seq<string>, id: string) returns (least: string)
    requires id in ids && id in s.left && forall other | other in ids :: other in s.left
    ensures least in ids && forall other | other in ids :: s.left[least] <= s.left[other]
    decreases |ids|
  {
    var n := |ids| - 1;
    assert ids == ids[..n] + [ids[n]];
    if n == 0 {
      least := ids[0];
    } else {
      least := Shortest(s, ids[..n], ids[0]);
      if s.left[ids[n]] < s.left[least] { least := ids[n]; }
    }
  }

  function RunningIds(gates: seq<Gate>, states: States): seq<string> {
    if gates == [] then []
    else
      RunningIds(gates[..|gates| - 1], states)
      + (var id := gates[|gates| - 1].id; if id in states && states[id] == Running then [id] else [])
  }

  lemma {:induction false} RunningIdsList(gates: seq<Gate>, states: States)
    ensures forall id :: id in RunningIds(gates, states) <==>
              id in Ids(gates) && id in states && states[id] == Running
    ensures |RunningIds(gates, states)| == RunningCount(gates, states)
  {
    if gates == [] {
    } else {
      var init, last := gates[..|gates| - 1], gates[|gates| - 1];
      assert gates == init + [last];
      assert Ids(gates) == Ids(init) + {last.id};
      RunningIdsList(init, states);
    }
  }

  /** A wait is possible whenever something runs and nothing may be started. */
  lemma WaitExists(plan: Plan, s: Clocked) returns (t: Clocked, waited: string)
    requires plan.Valid() && IsState(plan, s) && RunningCount(plan.gates, s.states) > 0
    requires RunningCount(plan.gates, s.states) == plan.workers || NoneStartable(plan.gates, s.states)
    ensures WaitStep(plan, s, t, waited)
  {
    var ids := RunningIds(plan.gates, s.states);
    RunningIdsList(plan.gates, s.states);
    forall id | id in ids ensures id in s.left { assert StateOk(plan, s, id); }
    waited := Shortest(s, ids, ids[0]);
    t := Clocked(s.now + s.left[waited], s.states[waited := Settled(plan.execute(waited))],
                 Elapse(s.left, s.left[waited]));
  }

  ghost predicate AllSettled(s: Clocked) {
    forall id | id in s.states :: s.states[id].Settled?
  }

  /** Within its limit, a state that is not settled has a next one. */
  lemma StepExists(plan: Plan, s: Clocked) returns (t: Clocked)
    requires plan.Valid() && IsState(plan, s) && RunningCount(plan.gates, s.states) <= plan.workers
    requires !AllSettled(s)
    ensures Step(plan, s, t) && Work(plan.gates, t.states) < Work(plan.gates, s.states)
  {
    var gates := plan.gates;
    if i: nat :| FirstStartable(gates, s.states, i) && RunningCount(gates, s.states) < plan.workers {
      var id := gates[i].id;
      t := Clocked(s.now, s.states[id := Running], s.left[id := plan.duration[id]]);
      assert Makespan.StartStep(plan, s, t, i);
      WorkUpdate(gates, s.states, id, Running);
    } else if RunningCount(gates, s.states) > 0 {
      if RunningCount(gates, s.states) < plan.workers { NoFirstNoneStartable(gates, s.states); }
      var waited;
      t, waited := WaitExists(plan, s);
      WorkUpdate(gates, s.states, waited, Settled(plan.execute(waited)));
    } else {
      NoFirstNoneStartable(gates, s.states);
      t := SkipExists(plan, s);
    }
  }

  lemma IdleDooms(plan: Plan, s: Clocked) returns (i: nat)
    requires plan.Valid() && IsState(plan, s) && RunningCount(plan.gates, s.states) == 0
    requires NoneStartable(plan.gates, s.states) && !AllSettled(s)
    ensures FirstDoomed(plan.gates, s.states, i)
  {
    forall id | id in s.states ensures s.states[id] != Running { NothingRuns(plan, s, id); }
    WaitingIsStill(plan, s);
    WaitingWhenIdle(s.states);
    var id :| id in s.states && !s.states[id].Settled?;
    SomethingNext(plan, s.states, id);
    i :| FirstDoomed(plan.gates, s.states, i);
  }

  lemma SkipExists(plan: Plan, s: Clocked) returns (t: Clocked)
    requires plan.Valid() && IsState(plan, s) && RunningCount(plan.gates, s.states) == 0
    requires NoneStartable(plan.gates, s.states) && !AllSettled(s)
    ensures Step(plan, s, t) && Work(plan.gates, t.states) < Work(plan.gates, s.states)
  {
    var i := IdleDooms(plan, s);
    t := s.(states := s.states[plan.gates[i].id := Settled(Skipped)]);
    assert Makespan.SkipStep(plan, s, t, i);
    WorkUpdate(plan.gates, s.states, plan.gates[i].id, Settled(Skipped));
  }

  lemma StepKeepsLimit(plan: Plan, s: Clocked, t: Clocked)
    requires plan.Valid() && IsState(plan, s) && RunningCount(plan.gates, s.states) <= plan.workers
    requires Step(plan, s, t)
    ensures RunningCount(plan.gates, t.states) <= plan.workers
  {
    if i: nat :| Makespan.StartStep(plan, s, t, i) {
      CountAfterUpdate(plan.gates, s.states, plan.gates[i].id, Running);
    } else if i: nat :| Makespan.SkipStep(plan, s, t, i) {
      CountAfterUpdate(plan.gates, s.states, plan.gates[i].id, Settled(Skipped));
    } else {
      var waited :| WaitStep(plan, s, t, waited);
      CountAfterUpdate(plan.gates, s.states, waited, Settled(plan.execute(waited)));
    }
  }

  lemma {:induction false} RunOn(plan: Plan, run: seq<Clocked>) returns (whole: seq<Clocked>)
    requires plan.Valid() && IsRun(plan, run) && IsState(plan, run[|run| - 1])
    requires RunningCount(plan.gates, run[|run| - 1].states) <= plan.workers
    ensures IsRun(plan, whole) && AllSettled(whole[|whole| - 1])
    decreases Work(plan.gates, run[|run| - 1].states)
  {
    var s := run[|run| - 1];
    if AllSettled(s) {
      whole := run;
    } else {
      var t := StepExists(plan, s);
      var longer := run + [t];
      forall k | 0 <= k < |longer| - 1 ensures Step(plan, longer[k], longer[k + 1]) {
        if k < |run| - 1 { assert Step(plan, run[k], run[k + 1]); }
      }
      StepKeepsState(plan, s, t);
      StepKeepsLimit(plan, s, t);
      whole := RunOn(plan, longer);
    }
  }

  lemma WholeRun(plan: Plan) returns (run: seq<Clocked>)
    requires plan.Valid()
    ensures IsRun(plan, run) && AllSettled(run[|run| - 1])
  {
    NothingDoneInitially(plan, plan.gates);
    StartsInPhase(plan);
    run := RunOn(plan, [Begin(plan)]);
  }

  // A gate of a later phase starts only after every executed gate of an earlier one.

  ghost predicate HasTaken(plan: Plan, s: Clocked, id: string, since: nat)
    requires plan.Valid() && IsState(plan, s) && id in s.states
  {
    match s.states[id]
    case Pending => true
    case Running => since + plan.duration[id] <= s.now + s.left[id]
    case Settled(_) => since + plan.duration[id] <= s.now
  }

  ghost predicate InSeries(plan: Plan, s: Clocked, b: string, x: string)
    requires plan.Valid() && IsState(plan, s) && b in s.states && x in s.states
  {
    && HasTaken(plan, s, b, 0) && HasTaken(plan, s, x, plan.duration[b])
    && (s.states[x] != Pending ==> s.states[b].Settled?)
  }

  lemma StartKeepsSeries(plan: Plan, s: Clocked, t: Clocked, k: nat, i: nat, b: string, x: string)
    requires plan.Valid() && InPhase(plan, s, k) && Makespan.StartStep(plan, s, t, i) && IsState(plan, t)
    requires b in s.states && x in s.states && Earlier(plan, b, x) && InSeries(plan, s, b, x)
    ensures InSeries(plan, t, b, x)
  {
    if plan.gates[i].id == x {
      StartablePhase(plan, s, k, plan.gates[i]);
      EarlierIsSettled(plan, s, k, b);
    }
  }

  lemma WaitKeepsTaken(plan: Plan, s: Clocked, t: Clocked, waited: string, id: string, since: nat)
    requires plan.Valid() && IsState(plan, s) && IsState(plan, t) && WaitStep(plan, s, t, waited)
    requires id in s.states && HasTaken(plan, s, id, since)
    ensures HasTaken(plan, t, id, since)
  {
    assert StateOk(plan, s, id);
  }

  lemma WaitKeepsSeries(plan: Plan, s: Clocked, t: Clocked, waited: string, b: string, x: string)
    requires plan.Valid() && IsState(plan, s) && WaitStep(plan, s, t, waited) && IsState(plan, t)
    requires b in s.states && x in s.states && InSeries(plan, s, b, x)
    ensures InSeries(plan, t, b, x)
  {
    WaitKeepsTaken(plan, s, t, waited, b, 0);
    WaitKeepsTaken(plan, s, t, waited, x, plan.duration[b]);
  }

  lemma SkipKeepsSeries(plan: Plan, s: Clocked, t: Clocked, i: nat, b: string, x: string)
    requires plan.Valid() && IsState(plan, s) && Makespan.SkipStep(plan, s, t, i) && IsState(plan, t)
    requires b in s.states && x in s.states && Runs(plan, b) && Runs(plan, x) && InSeries(plan, s, b, x)
    ensures InSeries(plan, t, b, x)
  {
    SkippedWhenDoomed(plan, s, plan.gates[i]);
    assert t.states[b] == s.states[b] && t.states[x] == s.states[x];
  }

  lemma StepKeepsSeries(plan: Plan, s: Clocked, t: Clocked, k: nat, b: string, x: string)
    requires plan.Valid() && InPhase(plan, s, k) && Step(plan, s, t) && IsState(plan, t)
    requires b in s.states && x in s.states && Runs(plan, b) && Runs(plan, x) && Earlier(plan, b, x)
    requires InSeries(plan, s, b, x)
    ensures InSeries(plan, t, b, x)
  {
    if i: nat :| Makespan.StartStep(plan, s, t, i) {
      StartKeepsSeries(plan, s, t, k, i, b, x);
    } else if i: nat :| Makespan.SkipStep(plan, s, t, i) {
      SkipKeepsSeries(plan, s, t, i, b, x);
    } else {
      var waited :| WaitStep(plan, s, t, waited);
      WaitKeepsSeries(plan, s, t, waited, b, x);
    }
  }

  lemma NothingTakenYet(plan: Plan, b: string, x: string)
    requires plan.Valid() && b in plan.duration && x in plan.duration
    ensures IsState(plan, Begin(plan)) && InSeries(plan, Begin(plan), b, x)
  {
  }

  ghost predicate SeriesInPhase(plan: Plan, s: Clocked, k: nat, b: string, x: string)
    requires plan.Valid()
  {
    InPhase(plan, s, k) && b in s.states && x in s.states && InSeries(plan, s, b, x)
  }

  lemma StepKeepsBoth(plan: Plan, s: Clocked, t: Clocked, k: nat, b: string, x: string) returns (next: nat)
    requires plan.Valid() && SeriesInPhase(plan, s, k, b, x) && Step(plan, s, t)
    requires Runs(plan, b) && Runs(plan, x) && Earlier(plan, b, x)
    ensures SeriesInPhase(plan, t, next, b, x)
  {
    next := StepKeepsPhase(plan, s, t, k);
    StepKeepsSeries(plan, s, t, k, b, x);
  }

  lemma {:induction false} RunIsInSeries(plan: Plan, run: seq<Clocked>, j: nat, b: string, x: string)
    returns (k: nat)
    requires plan.Valid() && IsRun(plan, run) && j < |run|
    requires b in plan.duration && x in plan.duration && Runs(plan, b) && Runs(plan, x) && Earlier(plan, b, x)
    ensures SeriesInPhase(plan, run[j], k, b, x)
  {
    if j == 0 {
      StartsInPhase(plan);
      NothingTakenYet(plan, b, x);
      k := 0;
    } else {
      k := RunIsInSeries(plan, run, j - 1, b, x);
      k := StepKeepsBoth(plan, run[j - 1], run[j], k, b, x);
    }
  }

  lemma SettledTookBoth(plan: Plan, s: Clocked, b: string, x: string)
    requires plan.Valid() && IsState(plan, s) && b in s.states && x in s.states
    requires AllSettled(s) && InSeries(plan, s, b, x)
    ensures plan.duration[b] + plan.duration[x] <= s.now
  {
  }

  /** A complete run takes the durations of both, one after the other. */
  lemma WholeRunTakesBoth(plan: Plan, run: seq<Clocked>, b: string, x: string)
    requires plan.Valid() && IsRun(plan, run) && AllSettled(run[|run| - 1])
    requires b in plan.duration && x in plan.duration && Runs(plan, b) && Runs(plan, x) && Earlier(plan, b, x)
    ensures plan.duration[b] + plan.duration[x] <= run[|run| - 1].now
  {
    var k := RunIsInSeries(plan, run, |run| - 1, b, x);
    SettledTookBoth(plan, run[|run| - 1], b, x);
  }

  // A plan in which only the two take time.

  function UnitFor(ids: set<string>, b: string, x: string): map<string, nat> {
    map id | id in ids :: if id == b || id == x then 1 else 0
  }

  ghost function TwoGatePlan(plan: Plan, b: string, x: string): Plan {
    plan.(workers := 2, duration := UnitFor(Ids(plan.gates), b, x))
  }

  function One(yes: bool): nat {
    if yes then 1 else 0
  }

  lemma {:induction false} WorkOfTwo(plan: Plan, gates: seq<Gate>, b: string, x: string)
    requires plan.duration == UnitFor(Ids(plan.gates), b, x) && DistinctIds(gates) && b != x
    ensures TotalWork(plan, gates) <= One(b in Ids(gates)) + One(x in Ids(gates))
  {
    if gates == [] {
    } else {
      var init, last := gates[..|gates| - 1], gates[|gates| - 1];
      WorkOfTwo(plan, init, b, x);
      assert gates == init + [last];
      assert Ids(gates) == Ids(init) + {last.id};
      forall gate | gate in init ensures gate.id != last.id {
        var j :| 0 <= j < |init| && init[j] == gate;
        assert gates[j].id != gates[|gates| - 1].id;
      }
    }
  }

  lemma {:induction false} PartIsChain(plan: Plan, walk: seq<string>, i: nat, j: nat)
    requires IsChain(plan, walk) && i <= j < |walk|
    ensures IsChain(plan, walk[i..j + 1]) && walk[i..j + 1][0] == walk[i]
    ensures walk[i..j + 1][|walk[i..j + 1]| - 1] == walk[j]
  {
    var part := walk[i..j + 1];
    forall k | 0 <= k < |part| - 1 ensures Edge(ById(plan.gates), part[k], part[k + 1]) {
      assert Edge(ById(plan.gates), walk[i + k], walk[i + k + 1]);
    }
  }

  /** Phases never rise towards a predecessor. */
  lemma EdgeGoesBack(plan: Plan, id: string, p: string)
    requires plan.Valid() && Runs(plan, id) && Edge(ById(plan.gates), id, p)
    ensures var full := FullPhases(plan); id in full && p in full && full[p] <= full[id]
  {
    ByIdKeys(plan.gates);
    GraphFacts(plan, id);
    InitialIsStill(plan);
    PredecessorPhase(plan, Initial(plan.gates), 0, id, p);
  }

  lemma HasPhase(plan: Plan, id: string)
    requires plan.Valid() && id in Ids(plan.gates)
    ensures id in FullPhases(plan)
  {
    InitialIsStill(plan);
    PendingHasPhase(plan, Initial(plan.gates), 0, id);
  }

  lemma {:induction false} ChainGoesBack(plan: Plan, walk: seq<string>)
    requires plan.Valid() && IsChain(plan, walk)
    ensures var full := FullPhases(plan);
            walk[0] in full && walk[|walk| - 1] in full && full[walk[|walk| - 1]] <= full[walk[0]]
    decreases |walk|
  {
    if |walk| == 1 {
      HasPhase(plan, walk[0]);
    } else {
      TailIsChain(plan, walk);
      ChainGoesBack(plan, walk[1..]);
      FirstEdgeGoesBack(plan, walk);
    }
  }

  lemma FirstEdgeGoesBack(plan: Plan, walk: seq<string>)
    requires plan.Valid() && IsChain(plan, walk) && |walk| >= 2
    ensures var full := FullPhases(plan);
            walk[0] in full && walk[1] in full && full[walk[1]] <= full[walk[0]]
  {
    assert walk[0] in walk && Edge(ById(plan.gates), walk[0], walk[1]);
    EdgeGoesBack(plan, walk[0], walk[1]);
  }

  lemma ChainNeverRepeats(plan: Plan, walk: seq<string>)
    requires plan.Valid() && IsChain(plan, walk) && |walk| >= 2
    ensures walk[0] != walk[|walk| - 1]
  {
    ByIdKeys(plan.gates);
    WalkDrops(ById(plan.gates), plan.rank, walk);
  }

  predicate Hits(id: string, b: string, x: string) {
    id == b || id == x
  }

  /** No chain holds two of the gates that take time. */
  lemma TwoHitsExcluded(plan: Plan, walk: seq<string>, b: string, x: string, i: nat, j: nat)
    requires plan.Valid() && IsChain(plan, walk) && Earlier(plan, b, x) && !ChainedFrom(plan, x, b)
    requires i < j < |walk|
    ensures !(Hits(walk[i], b, x) && Hits(walk[j], b, x))
  {
    hide Runs, IsChain;
    var part := walk[i..j + 1];
    PartIsChain(plan, walk, i, j);
    ChainNeverRepeats(plan, part);
    ChainGoesBack(plan, part);
    assert walk[i] == x && walk[j] == b ==> ChainWalk(plan, part, x, b);
  }

  lemma {:induction false} FreeChain(plan: Plan, walk: seq<string>, b: string, x: string)
    requires plan.duration == UnitFor(Ids(plan.gates), b, x)
    requires forall i | 0 <= i < |walk| :: !Hits(walk[i], b, x)
    ensures ChainTime(plan, walk) == 0
  {
    if walk == [] {
    } else {
      FreeChain(plan, walk[1..], b, x);
    }
  }

  lemma {:induction false} ChainTakesOne(plan: Plan, walk: seq<string>, b: string, x: string)
    requires plan.duration == UnitFor(Ids(plan.gates), b, x)
    requires forall i, j | 0 <= i < j < |walk| :: !(Hits(walk[i], b, x) && Hits(walk[j], b, x))
    ensures ChainTime(plan, walk) <= 1
  {
    if walk == [] {
    } else if Hits(walk[0], b, x) {
      FreeChain(plan, walk[1..], b, x);
    } else {
      ChainTakesOne(plan, walk[1..], b, x);
    }
  }

  lemma ChainsTakeOne(plan: Plan, b: string, x: string)
    requires plan.Valid() && plan.duration == UnitFor(Ids(plan.gates), b, x)
    requires Earlier(plan, b, x) && !ChainedFrom(plan, x, b)
    ensures LongestChain(plan) <= 1
  {
    var walk := LongestChainIsLongest(plan);
    if walk != [] {
      forall i, j | 0 <= i < j < |walk| ensures !(Hits(walk[i], b, x) && Hits(walk[j], b, x)) {
        TwoHitsExcluded(plan, walk, b, x, i, j);
      }
    }
    ChainTakesOne(plan, walk, b, x);
  }

  /** The same outcome with other durations. */
  lemma SameOutcome(plan: Plan, two: Plan, b: string, x: string)
    requires plan.Valid() && two == TwoGatePlan(plan, b, x)
    ensures two.Valid() && two.gates == plan.gates && FullPhases(two) == FullPhases(plan)
    ensures forall id :: Runs(two, id) <==> Runs(plan, id)
    ensures ChainedFrom(two, x, b) ==> ChainedFrom(plan, x, b)
  {
    if walk :| ChainWalk(two, walk, x, b) {
      assert forall id | id in walk :: Runs(two, id) && Runs(plan, id);
      assert ChainWalk(plan, walk, x, b);
    }
  }

  /** An unchained pair, given one unit of time each, takes two units on two workers. */
  lemma UnchainedBreaksBound(plan: Plan, b: string, x: string) returns (two: Plan, run: seq<Clocked>)
    requires plan.Valid() && Runs(plan, b) && Runs(plan, x) && Earlier(plan, b, x) && !ChainedFrom(plan, x, b)
    ensures two.Valid() && two.gates == plan.gates && two.execute == plan.execute
    ensures IsRun(two, run) && !WithinBound(two, run[|run| - 1].now)
  {
    two := TwoGatePlan(plan, b, x);
    SameOutcome(plan, two, b, x);
    ByIdKeys(plan.gates);
    run := WholeRun(two);
    WholeRunTakesBoth(two, run, b, x);
    WorkOfTwo(two, two.gates, b, x);
    ChainsTakeOne(two, b, x);
  }

  /** The bound holds of every run with these gates and this executor, for all durations and workers. */
  ghost predicate BoundHolds(gates: seq<Gate>, execute: string -> Status) {
    forall plan: Plan, run: seq<Clocked>, k: nat | Timed(plan, gates, execute) && IsRun(plan, run) && k < |run| ::
      WithinBound(plan, run[k].now)
  }

  ghost predicate Timed(plan: Plan, gates: seq<Gate>, execute: string -> Status) {
    plan.Valid() && plan.gates == gates && plan.execute == execute
  }

  lemma ChainedWhateverTheTimes(plan: Plan, other: Plan)
    requires plan.Valid() && PhasesChained(plan) && Timed(other, plan.gates, plan.execute)
    ensures PhasesChained(other)
  {
    SolutionIsUnique(plan.gates, plan.execute, plan.status, other.status);
    assert FullPhases(other) == FullPhases(plan);
    assert forall id :: Runs(other, id) <==> Runs(plan, id);
    forall b, x | Runs(other, b) && Runs(other, x) && Earlier(other, b, x) ensures ChainedFrom(other, x, b) {
      assert Earlier(plan, b, x) && ChainedFrom(plan, x, b);
      var walk :| ChainWalk(plan, walk, x, b);
      assert ChainWalk(other, walk, x, b);
    }
  }

  /**
   * Exactness. Graham's bound holds for all durations and workers, given which gates fail, exactly when along
   * executed gates every executed gate of a later phase follows every executed gate of an earlier one.
   */
  lemma BoundIffPhasesChained(plan: Plan)
    requires plan.Valid()
    ensures BoundHolds(plan.gates, plan.execute) <==> PhasesChained(plan)
  {
    if PhasesChained(plan) {
      forall other: Plan, run: seq<Clocked>, k: nat
        | Timed(other, plan.gates, plan.execute) && IsRun(other, run) && k < |run|
        ensures WithinBound(other, run[k].now)
      {
        ChainedWhateverTheTimes(plan, other);
        ChainedKeepsBound(other, run, k);
      }
    } else {
      var b, x :| Runs(plan, b) && Runs(plan, x) && Earlier(plan, b, x) && !ChainedFrom(plan, x, b);
      var two, run := UnchainedBreaksBound(plan, b, x);
      assert Timed(two, plan.gates, plan.execute);
    }
  }
}
