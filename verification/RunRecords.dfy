/**
 * The record that a run of scripts/run-gates.ts leaves behind: it keeps the concurrency limit, it is a run against
 * the clock whatever time its waits take, and with one worker it is the aggregate in its own order.
 */
module RunRecords {
  import opened GateGraph
  import opened Outcome
  import opened Scheduler
  import opened Makespan

  function InFlight(states: States): set<string> {
    set id | id in states && states[id] == Running
  }

  lemma {:induction false} ReplayKeys(gates: seq<Gate>, execute: string -> Status, moves: seq<Move>, n: nat)
    requires n <= |moves|
    ensures Replay(gates, execute, moves, n).Keys == Ids(gates)
  {
    if n > 0 {
      ReplayKeys(gates, execute, moves, n - 1);
      assert moves[n - 1].i < |gates| ==> gates[moves[n - 1].i] in gates;
    }
  }

  lemma CountIsInFlight(gates: seq<Gate>, states: States)
    requires DistinctIds(gates) && states.Keys == Ids(gates)
    ensures RunningCount(gates, states) == |InFlight(states)|
  {
    RunningCounted(gates, states, InFlight(states));
  }

  lemma NoneInFlight(gates: seq<Gate>)
    ensures InFlight(Initial(gates)) == {}
  {
  }

  /** What one allowed move does to the gates in flight. */
  lemma InFlightAfter(gates: seq<Gate>, maxActive: nat, execute: string -> Status, states: States, move: Move)
    requires DistinctIds(gates) && states.Keys == Ids(gates) && Allowed(gates, maxActive, states, move)
    ensures var after := InFlight(AfterMove(gates, execute, states, move));
            match move
            case Starts(i) => after == InFlight(states) + {gates[i].id} && gates[i].id !in InFlight(states)
            case Skips(i) => after == {} == InFlight(states)
            case Settles(i) => after == InFlight(states) - {gates[i].id} && gates[i].id in InFlight(states)
  {
    CountIsInFlight(gates, states);
  }

  lemma LimitAfter(gates: seq<Gate>, maxActive: nat, execute: string -> Status, states: States, move: Move)
    requires DistinctIds(gates) && states.Keys == Ids(gates) && Allowed(gates, maxActive, states, move)
    requires |InFlight(states)| <= maxActive
    ensures |InFlight(AfterMove(gates, execute, states, move))| <= maxActive
  {
    CountIsInFlight(gates, states);
    InFlightAfter(gates, maxActive, execute, states, move);
  }

  /** At every moment of a run at most `maxActive` gates are in flight. */
  lemma {:induction false} LimitKept(gates: seq<Gate>, maxActive: nat, execute: string -> Status, moves: seq<Move>,
                                     n: nat)
    requires DistinctIds(gates) && Legal(gates, maxActive, execute, moves) && n <= |moves|
    ensures |InFlight(Replay(gates, execute, moves, n))| <= maxActive
  {
    hide Allowed, AfterMove;
    if n == 0 {
      NoneInFlight(gates);
    } else {
      LimitKept(gates, maxActive, execute, moves, n - 1);
      assert AllowedAt(gates, maxActive, execute, moves, n - 1);
      ReplayKeys(gates, execute, moves, n - 1);
      LimitAfter(gates, maxActive, execute, Replay(gates, execute, moves, n - 1), moves[n - 1]);
    }
  }

  /** A wait is for one of the gates in flight, and is made with `maxActive` of them or with nothing to start. */
  lemma WaitsWhenFull(gates: seq<Gate>, maxActive: nat, execute: string -> Status, moves: seq<Move>, n: nat)
    requires DistinctIds(gates) && Legal(gates, maxActive, execute, moves)
    requires n < |moves| && moves[n].Settles?
    ensures var states := Replay(gates, execute, moves, n);
            && moves[n].i < |gates| && gates[moves[n].i].id in InFlight(states)
            && (|InFlight(states)| == maxActive || forall gate | gate in gates :: !Startable(gate, states))
  {
    assert AllowedAt(gates, maxActive, execute, moves, n);
    ReplayKeys(gates, execute, moves, n);
    CountIsInFlight(gates, Replay(gates, execute, moves, n));
  }

  // Every timed run leaves a record.

  lemma {:induction false} RunLeavesRecord(plan: Plan, run: seq<Clocked>, k: nat) returns (moves: seq<Move>)
    requires plan.Valid() && IsRun(plan, run) && k < |run|
    ensures |moves| == k && Legal(plan.gates, plan.workers, plan.execute, moves)
    ensures Replay(plan.gates, plan.execute, moves, k) == run[k].states
  {
    if k == 0 {
      moves := [];
    } else {
      var before := RunLeavesRecord(plan, run, k - 1);
      RunKeepsStates(plan, run, k - 1);
      assert Step(plan, run[k - 1], run[k - 1 + 1]);
      var move := MoveOf(plan, run[k - 1], run[k]);
      moves := before + [move];
      LegalSnoc(plan.gates, plan.workers, plan.execute, before, move);
      ReplaySnoc(plan.gates, plan.execute, before, move);
    }
  }

  lemma ReplaySnoc(gates: seq<Gate>, execute: string -> Status, moves: seq<Move>, move: Move)
    ensures Replay(gates, execute, moves + [move], |moves| + 1)
            == AfterMove(gates, execute, Replay(gates, execute, moves, |moves|), move)
  {
    PrefixReplays(gates, execute, moves, move, |moves|);
  }

  lemma MoveOf(plan: Plan, s: Clocked, t: Clocked) returns (move: Move)
    requires plan.Valid() && IsState(plan, s) && Step(plan, s, t)
    ensures Allowed(plan.gates, plan.workers, s.states, move)
    ensures t.states == AfterMove(plan.gates, plan.execute, s.states, move)
  {
    hide Startable, Doomed, NoneStartable, RunningCount, StateOk, Solves, WellFormed, IsRank;
    if i: nat :| StartStep(plan, s, t, i) {
      move := Starts(i);
    } else if i: nat :| SkipStep(plan, s, t, i) {
      move := Skips(i);
    } else {
      var id :| WaitStep(plan, s, t, id);
      var i: nat :| i < |plan.gates| && plan.gates[i].id == id;
      move := Settles(i);
    }
  }

  lemma LegalSnoc(gates: seq<Gate>, maxActive: nat, execute: string -> Status, moves: seq<Move>, move: Move)
    requires Legal(gates, maxActive, execute, moves)
    requires Allowed(gates, maxActive, Replay(gates, execute, moves, |moves|), move)
    ensures Legal(gates, maxActive, execute, moves + [move])
  {
    RecordMove(gates, maxActive, execute, Replay(gates, execute, moves, |moves|),
               Seen(gates, execute, moves, |moves|), moves, move);
  }

  // And every record is that of a timed run, whatever time each of its waits took.

  /** The time gone by after the first `n` moves, if each wait took as long as `elapsed` says. */
  ghost function Time(moves: seq<Move>, elapsed: seq<nat>, n: nat): nat
    requires n <= |moves| == |elapsed|
  {
    if n == 0 then 0
    else Time(moves, elapsed, n - 1) + if moves[n - 1].Settles? then elapsed[n - 1] else 0
  }

  lemma {:induction false} TimeGrows(moves: seq<Move>, elapsed: seq<nat>, n: nat, m: nat)
    requires n <= m <= |moves| == |elapsed|
    ensures Time(moves, elapsed, n) <= Time(moves, elapsed, m)
  {
    if n < m { TimeGrows(moves, elapsed, n, m - 1); }
  }

  ghost predicate MovesGate(gates: seq<Gate>, move: Move, id: string) {
    move.i < |gates| && gates[move.i].id == id
  }

  ghost predicate StartsAt(gates: seq<Gate>, moves: seq<Move>, n: nat, id: string) {
    n < |moves| && moves[n].Starts? && MovesGate(gates, moves[n], id)
  }

  ghost predicate SettlesAt(gates: seq<Gate>, moves: seq<Move>, n: nat, id: string) {
    n < |moves| && moves[n].Settles? && MovesGate(gates, moves[n], id)
  }

  /** When a gate settles; if it never does, the end of the record. */
  ghost function Due(gates: seq<Gate>, moves: seq<Move>, elapsed: seq<nat>, id: string): nat
    requires |moves| == |elapsed|
  {
    if n: nat :| SettlesAt(gates, moves, n, id) then Time(moves, elapsed, n + 1) else Time(moves, elapsed, |moves|)
  }

  /** How long a gate takes: from its start until it is due. */
  ghost function Takes(gates: seq<Gate>, moves: seq<Move>, elapsed: seq<nat>, id: string): nat
    requires |moves| == |elapsed|
  {
    if n: nat :| StartsAt(gates, moves, n, id) then
      var due := Due(gates, moves, elapsed, id);
      if Time(moves, elapsed, n) <= due then due - Time(moves, elapsed, n) else 0
    else 0
  }

  /** The aggregate with the durations of a record. */
  ghost function PlanOf(gates: seq<Gate>, workers: nat, execute: string -> Status, moves: seq<Move>,
                        elapsed: seq<nat>, status: map<string, Status>, rank: map<string, nat>): Plan
    requires |moves| == |elapsed|
  {
    Plan(gates, workers, execute, map id | id in Ids(gates) :: Takes(gates, moves, elapsed, id), status, rank)
  }

  ghost predicate Forward(before: GateState, after: GateState) {
    (before.Settled? ==> after == before) && (before == Running ==> after != Pending)
  }

  lemma MoveIsForward(gates: seq<Gate>, maxActive: nat, execute: string -> Status, states: States, move: Move,
                      id: string)
    requires DistinctIds(gates) && Allowed(gates, maxActive, states, move) && id in states
    ensures var after := AfterMove(gates, execute, states, move); id in after && Forward(states[id], after[id])
  {
  }

  /** A gate's state only goes forward. */
  lemma {:induction false} OnlyForward(gates: seq<Gate>, maxActive: nat, execute: string -> Status, moves: seq<Move>,
                                       n: nat, m: nat, id: string)
    requires DistinctIds(gates) && Legal(gates, maxActive, execute, moves) && n <= m <= |moves| && id in Ids(gates)
    ensures var s, t := Replay(gates, execute, moves, n), Replay(gates, execute, moves, m);
            id in s && id in t && Forward(s[id], t[id])
  {
    hide Allowed, AfterMove;
    ReplayKeys(gates, execute, moves, n);
    ReplayKeys(gates, execute, moves, m);
    if n < m {
      OnlyForward(gates, maxActive, execute, moves, n, m - 1, id);
      assert AllowedAt(gates, maxActive, execute, moves, m - 1);
      MoveIsForward(gates, maxActive, execute, Replay(gates, execute, moves, m - 1), moves[m - 1], id);
    }
  }

  lemma StartMoves(gates: seq<Gate>, maxActive: nat, execute: string -> Status, moves: seq<Move>, n: nat, id: string)
    requires DistinctIds(gates) && Legal(gates, maxActive, execute, moves) && StartsAt(gates, moves, n, id)
    ensures id in Ids(gates) && Replay(gates, execute, moves, n).Keys == Ids(gates)
    ensures Replay(gates, execute, moves, n + 1).Keys == Ids(gates)
    ensures Replay(gates, execute, moves, n)[id] == Pending && Replay(gates, execute, moves, n + 1)[id] == Running
  {
    assert AllowedAt(gates, maxActive, execute, moves, n);
    ReplayKeys(gates, execute, moves, n);
    ReplayKeys(gates, execute, moves, n + 1);
  }

  lemma SettleMoves(gates: seq<Gate>, maxActive: nat, execute: string -> Status, moves: seq<Move>, n: nat, id: string)
    requires DistinctIds(gates) && Legal(gates, maxActive, execute, moves) && SettlesAt(gates, moves, n, id)
    ensures id in Ids(gates) && Replay(gates, execute, moves, n).Keys == Ids(gates)
    ensures Replay(gates, execute, moves, n + 1).Keys == Ids(gates)
    ensures Replay(gates, execute, moves, n)[id] == Running && Replay(gates, execute, moves, n + 1)[id].Settled?
  {
    assert AllowedAt(gates, maxActive, execute, moves, n);
    ReplayKeys(gates, execute, moves, n);
    ReplayKeys(gates, execute, moves, n + 1);
  }

  lemma StartsOnce(gates: seq<Gate>, maxActive: nat, execute: string -> Status, moves: seq<Move>, n: nat, m: nat,
                   id: string)
    requires DistinctIds(gates) && Legal(gates, maxActive, execute, moves)
    requires StartsAt(gates, moves, n, id) && StartsAt(gates, moves, m, id)
    ensures n == m
  {
    hide Legal, Replay;
    StartMoves(gates, maxActive, execute, moves, n, id);
    StartMoves(gates, maxActive, execute, moves, m, id);
    if n < m {
      OnlyForward(gates, maxActive, execute, moves, n + 1, m, id);
    } else if m < n {
      OnlyForward(gates, maxActive, execute, moves, m + 1, n, id);
    }
  }

  lemma SettlesOnce(gates: seq<Gate>, maxActive: nat, execute: string -> Status, moves: seq<Move>, n: nat, m: nat,
                    id: string)
    requires DistinctIds(gates) && Legal(gates, maxActive, execute, moves)
    requires SettlesAt(gates, moves, n, id) && SettlesAt(gates, moves, m, id)
    ensures n == m
  {
    hide Legal, Replay;
    SettleMoves(gates, maxActive, execute, moves, n, id);
    SettleMoves(gates, maxActive, execute, moves, m, id);
    if n < m {
      OnlyForward(gates, maxActive, execute, moves, n + 1, m, id);
    } else if m < n {
      OnlyForward(gates, maxActive, execute, moves, m + 1, n, id);
    }
  }

  lemma DueWhenSettling(gates: seq<Gate>, maxActive: nat, execute: string -> Status, moves: seq<Move>,
                        elapsed: seq<nat>, n: nat, id: string)
    requires DistinctIds(gates) && Legal(gates, maxActive, execute, moves) && |moves| == |elapsed|
    requires SettlesAt(gates, moves, n, id)
    ensures Due(gates, moves, elapsed, id) == Time(moves, elapsed, n + 1)
  {
    forall m: nat | SettlesAt(gates, moves, m, id) ensures m == n {
      SettlesOnce(gates, maxActive, execute, moves, n, m, id);
    }
  }

  /** A gate in flight after `n` moves is not due before then. */
  lemma DueLater(gates: seq<Gate>, maxActive: nat, execute: string -> Status, moves: seq<Move>, elapsed: seq<nat>,
                 n: nat, id: string)
    requires DistinctIds(gates) && Legal(gates, maxActive, execute, moves) && n <= |moves| == |elapsed|
    requires id in InFlight(Replay(gates, execute, moves, n))
    ensures Time(moves, elapsed, n) <= Due(gates, moves, elapsed, id)
  {
    hide Legal, Replay, Time;
    ReplayKeys(gates, execute, moves, n);
    if m: nat :| SettlesAt(gates, moves, m, id) {
      DueWhenSettling(gates, maxActive, execute, moves, elapsed, m, id);
      SettleMoves(gates, maxActive, execute, moves, m, id);
      if m < n { OnlyForward(gates, maxActive, execute, moves, m + 1, n, id); }
      TimeGrows(moves, elapsed, n, m + 1);
    } else {
      TimeGrows(moves, elapsed, n, |moves|);
    }
  }

  lemma TakesUntilDue(gates: seq<Gate>, maxActive: nat, execute: string -> Status, moves: seq<Move>,
                      elapsed: seq<nat>, n: nat, id: string)
    requires DistinctIds(gates) && Legal(gates, maxActive, execute, moves) && |moves| == |elapsed|
    requires StartsAt(gates, moves, n, id)
    ensures Time(moves, elapsed, n) + Takes(gates, moves, elapsed, id) == Due(gates, moves, elapsed, id)
  {
    forall m: nat | StartsAt(gates, moves, m, id) ensures m == n {
      StartsOnce(gates, maxActive, execute, moves, n, m, id);
    }
    StartMoves(gates, maxActive, execute, moves, n, id);
    DueLater(gates, maxActive, execute, moves, elapsed, n + 1, id);
  }

  /** After `n` moves the clock shows their time, and every gate in flight has left what is missing until it is due. */
  ghost predicate OnTime(gates: seq<Gate>, execute: string -> Status, moves: seq<Move>, elapsed: seq<nat>, n: nat,
                         s: Clocked)
    requires n <= |moves| == |elapsed|
  {
    && s.now == Time(moves, elapsed, n) && s.states == Replay(gates, execute, moves, n)
    && forall id | id in InFlight(s.states) :: id in s.left && s.now + s.left[id] == Due(gates, moves, elapsed, id)
  }

  lemma StartOnTime(plan: Plan, moves: seq<Move>, elapsed: seq<nat>, n: nat, s: Clocked) returns (t: Clocked)
    requires WellFormed(plan.gates) && |moves| == |elapsed| && n < |moves| && moves[n].Starts?
    requires plan == PlanOf(plan.gates, plan.workers, plan.execute, moves, elapsed, plan.status, plan.rank)
    requires Legal(plan.gates, plan.workers, plan.execute, moves)
    requires OnTime(plan.gates, plan.execute, moves, elapsed, n, s)
    ensures StartStep(plan, s, t, moves[n].i) && OnTime(plan.gates, plan.execute, moves, elapsed, n + 1, t)
  {
    assert AllowedAt(plan.gates, plan.workers, plan.execute, moves, n);
    var id := plan.gates[moves[n].i].id;
    assert id in Ids(plan.gates);
    TakesUntilDue(plan.gates, plan.workers, plan.execute, moves, elapsed, n, id);
    t := Clocked(s.now, s.states[id := Running], s.left[id := plan.duration[id]]);
  }

  lemma SkipOnTime(plan: Plan, moves: seq<Move>, elapsed: seq<nat>, n: nat, s: Clocked) returns (t: Clocked)
    requires WellFormed(plan.gates) && |moves| == |elapsed| && n < |moves| && moves[n].Skips?
    requires Legal(plan.gates, plan.workers, plan.execute, moves)
    requires OnTime(plan.gates, plan.execute, moves, elapsed, n, s)
    ensures SkipStep(plan, s, t, moves[n].i) && OnTime(plan.gates, plan.execute, moves, elapsed, n + 1, t)
  {
    assert AllowedAt(plan.gates, plan.workers, plan.execute, moves, n);
    t := s.(states := s.states[plan.gates[moves[n].i].id := Settled(Skipped)]);
  }

  lemma WaitOnTime(plan: Plan, moves: seq<Move>, elapsed: seq<nat>, n: nat, s: Clocked) returns (t: Clocked)
    requires WellFormed(plan.gates) && |moves| == |elapsed| && n < |moves| && moves[n].Settles?
    requires Legal(plan.gates, plan.workers, plan.execute, moves)
    requires OnTime(plan.gates, plan.execute, moves, elapsed, n, s)
    ensures moves[n].i < |plan.gates| && WaitStep(plan, s, t, plan.gates[moves[n].i].id)
    ensures OnTime(plan.gates, plan.execute, moves, elapsed, n + 1, t)
  {
    assert AllowedAt(plan.gates, plan.workers, plan.execute, moves, n);
    var id := plan.gates[moves[n].i].id;
    DueWhenSettling(plan.gates, plan.workers, plan.execute, moves, elapsed, n, id);
    assert id in InFlight(s.states) && s.left[id] == elapsed[n];
    t := Clocked(s.now + s.left[id], s.states[id := Settled(plan.execute(id))], Elapse(s.left, s.left[id]));
    forall other | other in InFlight(s.states)
      ensures s.left[id] <= s.left[other]
      ensures other in InFlight(t.states) ==>
                other in t.left && t.now + t.left[other] == Due(plan.gates, moves, elapsed, other)
    {
      if other != id { DueLater(plan.gates, plan.workers, plan.execute, moves, elapsed, n + 1, other); }
    }
  }

  /**
   * Whatever time the waits of a record took, it is a run against the clock of the aggregate in which each gate
   * takes from its start until it settles.
   */
  lemma {:induction false} RecordIsTimedRun(plan: Plan, moves: seq<Move>, elapsed: seq<nat>, n: nat)
    returns (run: seq<Clocked>)
    requires WellFormed(plan.gates) && n <= |moves| == |elapsed|
    requires plan == PlanOf(plan.gates, plan.workers, plan.execute, moves, elapsed, plan.status, plan.rank)
    requires Legal(plan.gates, plan.workers, plan.execute, moves)
    ensures IsRun(plan, run) && |run| == n + 1
    ensures forall k | 0 <= k <= n :: OnTime(plan.gates, plan.execute, moves, elapsed, k, run[k])
  {
    if n == 0 {
      run := [Begin(plan)];
    } else {
      var before := RecordIsTimedRun(plan, moves, elapsed, n - 1);
      var next := MoveOnTime(plan, moves, elapsed, n - 1, before[n - 1]);
      run := before + [next];
      forall k | 0 <= k < |run| - 1 ensures Step(plan, run[k], run[k + 1]) {
        if k < n - 1 { assert Step(plan, before[k], before[k + 1]); }
      }
    }
  }

  lemma MoveOnTime(plan: Plan, moves: seq<Move>, elapsed: seq<nat>, n: nat, s: Clocked) returns (t: Clocked)
    requires WellFormed(plan.gates) && |moves| == |elapsed| && n < |moves|
    requires plan == PlanOf(plan.gates, plan.workers, plan.execute, moves, elapsed, plan.status, plan.rank)
    requires Legal(plan.gates, plan.workers, plan.execute, moves)
    requires OnTime(plan.gates, plan.execute, moves, elapsed, n, s)
    ensures Step(plan, s, t) && OnTime(plan.gates, plan.execute, moves, elapsed, n + 1, t)
  {
    match moves[n]
    case Starts(_) => t := StartOnTime(plan, moves, elapsed, n, s);
    case Skips(_) => t := SkipOnTime(plan, moves, elapsed, n, s);
    case Settles(_) => t := WaitOnTime(plan, moves, elapsed, n, s);
  }

  /** A gate's duration in that aggregate is the time from its start until it settled. */
  lemma TakesUntilSettled(gates: seq<Gate>, maxActive: nat, execute: string -> Status, moves: seq<Move>,
                          elapsed: seq<nat>, n: nat, m: nat, id: string)
    requires DistinctIds(gates) && Legal(gates, maxActive, execute, moves) && |moves| == |elapsed|
    requires StartsAt(gates, moves, n, id) && SettlesAt(gates, moves, m, id)
    ensures Time(moves, elapsed, n) + Takes(gates, moves, elapsed, id) == Time(moves, elapsed, m + 1)
  {
    TakesUntilDue(gates, maxActive, execute, moves, elapsed, n, id);
    DueWhenSettling(gates, maxActive, execute, moves, elapsed, m, id);
  }

  /** So every moment of every run is bounded by the work and the longest chain of what was executed. */
  lemma RecordKeepsBound(plan: Plan, moves: seq<Move>, elapsed: seq<nat>, n: nat)
    requires plan.Valid() && n <= |moves| == |elapsed| && Legal(plan.gates, plan.workers, plan.execute, moves)
    requires plan == PlanOf(plan.gates, plan.workers, plan.execute, moves, elapsed, plan.status, plan.rank)
    ensures AwaitsNoSkip(plan) || plan.workers == 1 ==> WithinBound(plan, Time(moves, elapsed, n))
    ensures Time(moves, elapsed, n) <= TotalWork(plan, plan.gates)
  {
    var run := RecordIsTimedRun(plan, moves, elapsed, n);
    assert OnTime(plan.gates, plan.execute, moves, elapsed, n, run[n]);
    if AwaitsNoSkip(plan) {
      MakespanBound(plan, run, n);
    } else if plan.workers == 1 {
      SerialBound(plan, run, n);
    }
    NoLongerThanWork(plan, run, n);
  }

  // With one worker the observer sees the aggregate in its own order.

  /** What one worker reports: the first startable gate, or with none the first doomed one, and then the rest. */
  ghost function SequentialLog(gates: seq<Gate>, execute: string -> Status, states: States): seq<GateResult>
    requires DistinctIds(gates)
    decreases Work(gates, states)
  {
    if i: nat :| FirstStartable(gates, states, i) then
      var result := Executed(gates[i], execute);
      AfterLowersWork(gates, states, result);
      [result] + SequentialLog(gates, execute, After(states, result))
    else if i: nat :| FirstDoomed(gates, states, i) then
      var result := SkippedAt(gates[i], states);
      AfterLowersWork(gates, states, result);
      [result] + SequentialLog(gates, execute, After(states, result))
    else []
  }

  lemma LogExecutesFirst(gates: seq<Gate>, execute: string -> Status, states: States, i: nat)
    requires DistinctIds(gates) && FirstStartable(gates, states, i)
    ensures var result := Executed(gates[i], execute);
            SequentialLog(gates, execute, states) == [result] + SequentialLog(gates, execute, After(states, result))
  {
    assert forall k: nat | FirstStartable(gates, states, k) :: k == i;
  }

  lemma LogSkipsFirst(gates: seq<Gate>, execute: string -> Status, states: States, i: nat)
    requires DistinctIds(gates) && NoneStartable(gates, states) && FirstDoomed(gates, states, i)
    ensures var result := SkippedAt(gates[i], states);
            SequentialLog(gates, execute, states) == [result] + SequentialLog(gates, execute, After(states, result))
  {
    assert forall k: nat | FirstDoomed(gates, states, k) :: k == i;
    assert !exists k: nat :: FirstStartable(gates, states, k);
  }

  lemma LogEnds(gates: seq<Gate>, execute: string -> Status, states: States)
    requires DistinctIds(gates) && NothingLeft(states)
    ensures SequentialLog(gates, execute, states) == []
  {
    assert !exists k: nat :: FirstStartable(gates, states, k);
    assert !exists k: nat :: FirstDoomed(gates, states, k);
  }

  /** The one gate in flight is the first startable one of the states with it put back. */
  ghost predicate AtMostFirst(gates: seq<Gate>, states: States) {
    InFlight(states) == {} || exists i: nat :: FirstInFlight(gates, states, i)
  }

  ghost predicate FirstInFlight(gates: seq<Gate>, states: States, i: nat) {
    i < |gates| && InFlight(states) == {gates[i].id} && FirstStartable(gates, Waiting(states), i)
  }

  /** What has been seen, and what one worker reports of the rest, is what it reports of the whole. */
  ghost predicate InSequence(gates: seq<Gate>, execute: string -> Status, states: States, seen: seq<GateResult>)
    requires DistinctIds(gates)
  {
    seen + SequentialLog(gates, execute, Waiting(states)) == SequentialLog(gates, execute, Initial(gates))
  }

  lemma NothingRunning(states: States)
    requires InFlight(states) == {}
    ensures Waiting(states) == states
  {
    forall id | id in states ensures states[id] != Running {
      assert id !in InFlight(states);
    }
  }

  lemma StartInSequence(gates: seq<Gate>, execute: string -> Status, states: States, seen: seq<GateResult>, i: nat)
    requires DistinctIds(gates) && states.Keys == Ids(gates) && Allowed(gates, 1, states, Starts(i))
    requires InSequence(gates, execute, states, seen)
    ensures InSequence(gates, execute, AfterMove(gates, execute, states, Starts(i)), seen)
    ensures AtMostFirst(gates, AfterMove(gates, execute, states, Starts(i)))
  {
    CountIsInFlight(gates, states);
    NothingRunning(states);
    var next := states[gates[i].id := Running];
    assert Waiting(next) == states;
    assert InFlight(next) == {gates[i].id};
    assert FirstInFlight(gates, next, i);
  }

  lemma SkipInSequence(gates: seq<Gate>, execute: string -> Status, states: States, seen: seq<GateResult>, i: nat)
    requires DistinctIds(gates) && states.Keys == Ids(gates) && Allowed(gates, 1, states, Skips(i))
    requires InSequence(gates, execute, states, seen)
    ensures var next := AfterMove(gates, execute, states, Skips(i));
            InSequence(gates, execute, next, seen + [SkippedAt(gates[i], states)]) && AtMostFirst(gates, next)
  {
    CountIsInFlight(gates, states);
    NothingRunning(states);
    var result, next := SkippedAt(gates[i], states), AfterMove(gates, execute, states, Skips(i));
    assert InFlight(next) == {};
    NothingRunning(next);
    LogSkipsFirst(gates, execute, states, i);
    Regroup(seen, result, SequentialLog(gates, execute, next));
  }

  lemma Regroup(seen: seq<GateResult>, result: GateResult, rest: seq<GateResult>)
    ensures seen + ([result] + rest) == seen + [result] + rest
  {
  }

  lemma SettlesPutBack(states: States, id: string, state: GateState)
    requires InFlight(states) == {id} && id in states && state != Running
    ensures Waiting(states)[id := state] == states[id := state] && InFlight(states[id := state]) == {}
  {
    forall other | other in states && other != id ensures states[other] != Running {
      assert other !in InFlight(states);
    }
  }

  lemma SettleInSequence(gates: seq<Gate>, execute: string -> Status, states: States, seen: seq<GateResult>, i: nat)
    requires DistinctIds(gates) && states.Keys == Ids(gates) && Allowed(gates, 1, states, Settles(i))
    requires InSequence(gates, execute, states, seen) && AtMostFirst(gates, states)
    ensures var next := AfterMove(gates, execute, states, Settles(i));
            InSequence(gates, execute, next, seen + [Executed(gates[i], execute)]) && AtMostFirst(gates, next)
  {
    assert gates[i].id in InFlight(states);
    var k: nat :| FirstInFlight(gates, states, k);
    assert k == i;
    var result, next := Executed(gates[i], execute), AfterMove(gates, execute, states, Settles(i));
    SettlesPutBack(states, gates[i].id, Settled(result.status));
    NothingRunning(next);
    LogExecutesFirst(gates, execute, Waiting(states), i);
    Regroup(seen, result, SequentialLog(gates, execute, next));
  }

  lemma MoveInSequence(gates: seq<Gate>, execute: string -> Status, states: States, seen: seq<GateResult>, move: Move)
    requires DistinctIds(gates) && states.Keys == Ids(gates) && Allowed(gates, 1, states, move)
    requires InSequence(gates, execute, states, seen) && AtMostFirst(gates, states)
    ensures var next := AfterMove(gates, execute, states, move);
            InSequence(gates, execute, next, seen + SeenOf(gates, execute, states, move)) && AtMostFirst(gates, next)
  {
    hide InSequence, AtMostFirst;
    match move
    case Starts(i) =>
      assert seen + [] == seen;
      StartInSequence(gates, execute, states, seen, i);
    case Skips(i) => SkipInSequence(gates, execute, states, seen, i);
    case Settles(i) => SettleInSequence(gates, execute, states, seen, i);
  }

  lemma BeginsInSequence(gates: seq<Gate>, execute: string -> Status)
    requires DistinctIds(gates)
    ensures InSequence(gates, execute, Initial(gates), []) && AtMostFirst(gates, Initial(gates))
  {
    NoneInFlight(gates);
    NothingRunning(Initial(gates));
    assert [] + SequentialLog(gates, execute, Initial(gates)) == SequentialLog(gates, execute, Initial(gates));
  }

  lemma {:induction false} RecordInSequence(gates: seq<Gate>, execute: string -> Status, moves: seq<Move>, n: nat)
    requires DistinctIds(gates) && Legal(gates, 1, execute, moves) && n <= |moves|
    ensures var states := Replay(gates, execute, moves, n);
            InSequence(gates, execute, states, Seen(gates, execute, moves, n)) && AtMostFirst(gates, states)
  {
    hide InSequence, AtMostFirst, Allowed, AfterMove, SeenOf;
    if n == 0 {
      BeginsInSequence(gates, execute);
    } else {
      RecordInSequence(gates, execute, moves, n - 1);
      ReplayKeys(gates, execute, moves, n - 1);
      assert AllowedAt(gates, 1, execute, moves, n - 1);
      MoveInSequence(gates, execute, Replay(gates, execute, moves, n - 1), Seen(gates, execute, moves, n - 1),
                     moves[n - 1]);
    }
  }

  /** One worker's observer sees the first startable gate of the aggregate, then the next, and skips between. */
  lemma OneWorkerIsSequential(gates: seq<Gate>, execute: string -> Status, moves: seq<Move>)
    requires DistinctIds(gates) && Legal(gates, 1, execute, moves)
    requires NothingLeft(Replay(gates, execute, moves, |moves|))
    ensures Seen(gates, execute, moves, |moves|) == SequentialLog(gates, execute, Initial(gates))
  {
    RecordInSequence(gates, execute, moves, |moves|);
    var states := Replay(gates, execute, moves, |moves|);
    assert InFlight(states) == {};
    NothingRunning(states);
    LogEnds(gates, execute, states);
  }
}
