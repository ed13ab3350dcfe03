/**
 * When exactly the list-scheduling bound survives failures. The scheduler of scripts/run-gates.ts skips one
 * doomed gate whenever it is idle, so the skips cut every run of an aggregate into the same phases.
 */
module SkipPhases {
  import opened GateGraph
  import opened Outcome
  import opened Scheduler
  import opened Makespan

  /** How many skips precede each pending gate, running one gate at a time from some states, with k skips done. */
  ghost function Phases(gates: seq<Gate>, execute: string -> Status, states: States, k: nat): map<string, nat>
    requires DistinctIds(gates)
    decreases Work(gates, states)
  {
    if exists i: nat :: FirstStartable(gates, states, i) then
      var i: nat :| FirstStartable(gates, states, i);
      var result := Executed(gates[i], execute);
      AfterLowersWork(gates, states, result);
      Phases(gates, execute, After(states, result), k)[gates[i].id := k]
    else if exists i: nat :: FirstDoomed(gates, states, i) then
      var i: nat :| FirstDoomed(gates, states, i);
      var result := SkippedAt(gates[i], states);
      AfterLowersWork(gates, states, result);
      Phases(gates, execute, After(states, result), k + 1)[gates[i].id := k]
    else map[]
  }

  lemma PhasesExecuteFirst(gates: seq<Gate>, execute: string -> Status, states: States, k: nat, i: nat)
    requires DistinctIds(gates) && FirstStartable(gates, states, i)
    ensures Phases(gates, execute, states, k)
            == Phases(gates, execute, After(states, Executed(gates[i], execute)), k)[gates[i].id := k]
  {
    assert forall j: nat | FirstStartable(gates, states, j) :: j == i;
  }

  lemma PhasesSkipFirst(gates: seq<Gate>, execute: string -> Status, states: States, k: nat, i: nat)
    requires DistinctIds(gates) && NoneStartable(gates, states) && FirstDoomed(gates, states, i)
    ensures Phases(gates, execute, states, k)
            == Phases(gates, execute, After(states, SkippedAt(gates[i], states)), k + 1)[gates[i].id := k]
  {
    assert forall j: nat | FirstDoomed(gates, states, j) :: j == i;
    assert !exists j: nat :: FirstStartable(gates, states, j);
  }

  lemma SetBoth(phases: map<string, nat>, a: string, b: string, k: nat)
    ensures phases[a := k][b := k] == phases[b := k][a := k]
  {
  }

  /** Any startable gate may be executed first: the phases come out the same. */
  lemma {:induction false} PhasesExecuteAny(gates: seq<Gate>, execute: string -> Status, states: States, k: nat,
                                            gate: Gate)
    requires DistinctIds(gates) && gate in gates && Startable(gate, states)
    ensures Phases(gates, execute, states, k)
            == Phases(gates, execute, After(states, Executed(gate, execute)), k)[gate.id := k]
    decreases Work(gates, states)
  {
    var j :| 0 <= j < |gates| && gates[j] == gate;
    var i := SomeFirstStartable(gates, states, j);
    PhasesExecuteFirst(gates, execute, states, k, i);
    var first, other := Executed(gates[i], execute), Executed(gate, execute);
    if i == j {
    } else {
      assert gates[i].id != gate.id;
      AfterLowersWork(gates, states, first);
      AfterLowersWork(gates, states, other);
      StartableLasts(gate, states, first);
      StartableLasts(gates[i], states, other);
      PhasesExecuteAny(gates, execute, After(states, first), k, gate);
      PhasesExecuteAny(gates, execute, After(states, other), k, gates[i]);
      AftersCommute(states, first, other);
      SetBoth(Phases(gates, execute, After(After(states, first), other), k), gates[i].id, gate.id, k);
    }
  }

  lemma {:induction false} FirstOf(gates: seq<Gate>, states: States, i: nat) returns (first: nat)
    requires i < |gates| && Doomed(gates[i], states)
    ensures FirstDoomed(gates, states, first)
    decreases i
  {
    if j: nat :| j < i && Doomed(gates[j], states) {
      first := FirstOf(gates, states, j);
    } else {
      first := i;
    }
  }

  /** The phases are of pending gates, none before k. */
  ghost predicate OfPending(phases: map<string, nat>, states: States, k: nat) {
    forall id | id in phases :: id in states && states[id] == Pending && k <= phases[id]
  }

  lemma OfPendingAfter(phases: map<string, nat>, states: States, result: GateResult, k: nat, next: nat)
    requires OfPending(phases, After(states, result), next) && k <= next
    requires result.gate.id in states && states[result.gate.id] == Pending
    ensures OfPending(phases[result.gate.id := k], states, k)
  {
    forall id | id in phases ensures id in states && states[id] == Pending && k <= phases[id] {
      assert After(states, result)[id] == Pending;
    }
  }

  /** Only pending gates have phases, none before the present one. */
  lemma {:induction false} PhasesArePending(gates: seq<Gate>, execute: string -> Status, states: States, k: nat)
    requires DistinctIds(gates)
    ensures OfPending(Phases(gates, execute, states, k), states, k)
    decreases Work(gates, states)
  {
    if i: nat :| FirstStartable(gates, states, i) {
      var result := Executed(gates[i], execute);
      AfterLowersWork(gates, states, result);
      PhasesExecuteFirst(gates, execute, states, k, i);
      PhasesArePending(gates, execute, After(states, result), k);
      OfPendingAfter(Phases(gates, execute, After(states, result), k), states, result, k, k);
    } else if i: nat :| FirstDoomed(gates, states, i) {
      var result := SkippedAt(gates[i], states);
      NoFirstNoneStartable(gates, states);
      AfterLowersWork(gates, states, result);
      PhasesSkipFirst(gates, execute, states, k, i);
      PhasesArePending(gates, execute, After(states, result), k + 1);
      OfPendingAfter(Phases(gates, execute, After(states, result), k + 1), states, result, k, k + 1);
    }
  }

  lemma NoFirstNoneStartable(gates: seq<Gate>, states: States)
    requires !exists i: nat :: FirstStartable(gates, states, i)
    ensures NoneStartable(gates, states)
  {
    forall gate | gate in gates ensures !Startable(gate, states) {
      if Startable(gate, states) {
        var j :| 0 <= j < |gates| && gates[j] == gate;
        var i := SomeFirstStartable(gates, states, j);
      }
    }
  }

  /** Nothing runs, and what has settled has its status. */
  ghost predicate Still(plan: Plan, states: States) {
    && states.Keys == Ids(plan.gates)
    && forall id | id in states :: StillAt(plan, states[id], id)
  }

  ghost predicate StillAt(plan: Plan, state: GateState, id: string) {
    state != Running && (state.Settled? ==> id in plan.status && plan.status[id] == state.status)
  }

  lemma StillIsState(plan: Plan, states: States)
    requires plan.Valid() && Still(plan, states)
    ensures IsState(plan, Clocked(0, states, map[]))
  {
    forall id | id in states ensures StateOk(plan, Clocked(0, states, map[]), id) {
      assert StillAt(plan, states[id], id);
    }
  }

  lemma StartableRuns(plan: Plan, states: States, gate: Gate)
    requires plan.Valid() && Still(plan, states) && gate in plan.gates && Startable(gate, states)
    ensures Runs(plan, gate.id) && Still(plan, After(states, Executed(gate, plan.execute)))
  {
    StillIsState(plan, states);
    RunsWhenStartable(plan, Clocked(0, states, map[]), gate);
    ExecutedStatus(plan, gate.id);
    var after := After(states, Executed(gate, plan.execute));
    forall id | id in after ensures StillAt(plan, after[id], id) { assert StillAt(plan, states[id], id); }
  }

  lemma DoomedIsSkipped(plan: Plan, states: States, gate: Gate)
    requires plan.Valid() && Still(plan, states) && gate in plan.gates && Doomed(gate, states)
    ensures !Runs(plan, gate.id) && Still(plan, After(states, SkippedAt(gate, states)))
  {
    StillIsState(plan, states);
    SkippedWhenDoomed(plan, Clocked(0, states, map[]), gate);
    var after := After(states, SkippedAt(gate, states));
    forall id | id in after ensures StillAt(plan, after[id], id) { assert StillAt(plan, states[id], id); }
  }

  lemma SomethingNext(plan: Plan, states: States, id: string)
    requires plan.Valid() && Still(plan, states) && id in states && states[id] == Pending
    requires NoneStartable(plan.gates, states)
    ensures exists i: nat :: FirstDoomed(plan.gates, states, i)
  {
    ByIdKeys(plan.gates);
    var gate := ById(plan.gates)[id];
    forall g | g in plan.gates ensures states[g.id] != Running { assert StillAt(plan, states[g.id], g.id); }
    NeverStalls(plan.gates, plan.rank, states, gate);
    var doomed :| doomed in plan.gates && Doomed(doomed, states);
    var j :| 0 <= j < |plan.gates| && plan.gates[j] == doomed;
    var i := FirstOf(plan.gates, states, j);
  }

  lemma NextExecution(plan: Plan, states: States, i: nat) returns (result: GateResult)
    requires plan.Valid() && Still(plan, states) && FirstStartable(plan.gates, states, i)
    ensures result == Executed(plan.gates[i], plan.execute) && Still(plan, After(states, result))
    ensures Work(plan.gates, After(states, result)) < Work(plan.gates, states)
  {
    result := Executed(plan.gates[i], plan.execute);
    StartableRuns(plan, states, plan.gates[i]);
    AfterLowersWork(plan.gates, states, result);
  }

  lemma NextSkip(plan: Plan, states: States, id: string) returns (i: nat, result: GateResult)
    requires plan.Valid() && Still(plan, states) && NoneStartable(plan.gates, states)
    requires id in states && states[id] == Pending
    ensures FirstDoomed(plan.gates, states, i) && result == SkippedAt(plan.gates[i], states)
    ensures Still(plan, After(states, result)) && !Runs(plan, plan.gates[i].id)
    ensures Work(plan.gates, After(states, result)) < Work(plan.gates, states)
  {
    SomethingNext(plan, states, id);
    i :| FirstDoomed(plan.gates, states, i);
    result := SkippedAt(plan.gates[i], states);
    DoomedIsSkipped(plan, states, plan.gates[i]);
    AfterLowersWork(plan.gates, states, result);
  }

  /** Every pending gate has a phase. */
  lemma {:induction false} PendingHasPhase(plan: Plan, states: States, k: nat, id: string)
    requires plan.Valid() && Still(plan, states) && id in states && states[id] == Pending
    ensures id in Phases(plan.gates, plan.execute, states, k)
    decreases Work(plan.gates, states), 1
  {
    if i: nat :| FirstStartable(plan.gates, states, i) {
      PhaseThroughExecution(plan, states, k, id, i);
    } else {
      NoFirstNoneStartable(plan.gates, states);
      PhaseThroughSkip(plan, states, k, id);
    }
  }

  lemma {:induction false} PhaseThroughExecution(plan: Plan, states: States, k: nat, id: string, i: nat)
    requires plan.Valid() && Still(plan, states) && id in states && states[id] == Pending
    requires FirstStartable(plan.gates, states, i)
    ensures id in Phases(plan.gates, plan.execute, states, k)
    decreases Work(plan.gates, states), 0
  {
    var result := NextExecution(plan, states, i);
    PhasesExecuteFirst(plan.gates, plan.execute, states, k, i);
    if id != plan.gates[i].id { PendingHasPhase(plan, After(states, result), k, id); }
  }

  lemma {:induction false} PhaseThroughSkip(plan: Plan, states: States, k: nat, id: string)
    requires plan.Valid() && Still(plan, states) && id in states && states[id] == Pending
    requires NoneStartable(plan.gates, states)
    ensures id in Phases(plan.gates, plan.execute, states, k)
    decreases Work(plan.gates, states), 0
  {
    var i, result := NextSkip(plan, states, id);
    PhasesSkipFirst(plan.gates, plan.execute, states, k, i);
    if id != plan.gates[i].id { PendingHasPhase(plan, After(states, result), k + 1, id); }
  }

  /**
   * A pending predecessor of an executed gate has no later phase, and within the present phase it is itself
   * executed.
   */
  lemma {:induction false} PredecessorPhase(plan: Plan, states: States, k: nat, id: string, p: string)
    requires plan.Valid() && Still(plan, states) && Runs(plan, id) && p in Predecessors(ById(plan.gates)[id])
    requires id in states && states[id] == Pending && p in states && states[p] == Pending
    ensures PrecedesIn(plan, Phases(plan.gates, plan.execute, states, k), k, id, p)
    decreases Work(plan.gates, states), 1
  {
    if i: nat :| FirstStartable(plan.gates, states, i) {
      PrecedesThroughExecution(plan, states, k, id, p, i);
    } else {
      NoFirstNoneStartable(plan.gates, states);
      PrecedesThroughSkip(plan, states, k, id, p);
    }
  }

  ghost predicate PrecedesIn(plan: Plan, phases: map<string, nat>, k: nat, id: string, p: string) {
    id in phases && p in phases && phases[p] <= phases[id] && (phases[id] == k ==> Runs(plan, p))
  }

  lemma {:induction false} PrecedesThroughExecution(plan: Plan, states: States, k: nat, id: string, p: string,
                                                    i: nat)
    requires plan.Valid() && Still(plan, states) && Runs(plan, id) && p in Predecessors(ById(plan.gates)[id])
    requires id in states && states[id] == Pending && p in states && states[p] == Pending
    requires FirstStartable(plan.gates, states, i)
    ensures PrecedesIn(plan, Phases(plan.gates, plan.execute, states, k), k, id, p)
    decreases Work(plan.gates, states), 0
  {
    var gate := plan.gates[i];
    var result := NextExecution(plan, states, i);
    PhasesExecuteFirst(plan.gates, plan.execute, states, k, i);
    PhasesArePending(plan.gates, plan.execute, states, k);
    if gate.id == id {
      ByIdFinds(plan.gates, gate);
    } else if gate.id == p {
      StartableRuns(plan, states, gate);
      PendingHasPhase(plan, states, k, id);
    } else {
      PredecessorPhase(plan, After(states, result), k, id, p);
    }
  }

  lemma {:induction false} PrecedesThroughSkip(plan: Plan, states: States, k: nat, id: string, p: string)
    requires plan.Valid() && Still(plan, states) && Runs(plan, id) && p in Predecessors(ById(plan.gates)[id])
    requires id in states && states[id] == Pending && p in states && states[p] == Pending
    requires NoneStartable(plan.gates, states)
    ensures PrecedesIn(plan, Phases(plan.gates, plan.execute, states, k), k, id, p)
    decreases Work(plan.gates, states), 0
  {
    var i, result := NextSkip(plan, states, id);
    PhasesSkipFirst(plan.gates, plan.execute, states, k, i);
    PhasesArePending(plan.gates, plan.execute, After(states, result), k + 1);
    if plan.gates[i].id == p {
      PendingHasPhase(plan, After(states, result), k + 1, id);
    } else {
      PredecessorPhase(plan, After(states, result), k + 1, id, p);
    }
  }

  ghost function FullPhases(plan: Plan): map<string, nat>
    requires plan.Valid()
  {
    Phases(plan.gates, plan.execute, Initial(plan.gates), 0)
  }

  /** An executed gate of a later phase follows every executed gate of an earlier one along executed gates. */
  ghost predicate PhasesChained(plan: Plan)
    requires plan.Valid()
  {
    forall b, x | Runs(plan, b) && Runs(plan, x) && Earlier(plan, b, x) :: ChainedFrom(plan, x, b)
  }

  ghost predicate Earlier(plan: Plan, b: string, x: string)
    requires plan.Valid()
  {
    b in FullPhases(plan) && x in FullPhases(plan) && FullPhases(plan)[b] < FullPhases(plan)[x]
  }

  ghost predicate ChainedFrom(plan: Plan, x: string, b: string) {
    exists walk :: ChainWalk(plan, walk, x, b)
  }

  ghost predicate ChainWalk(plan: Plan, walk: seq<string>, x: string, b: string) {
    IsChain(plan, walk) && walk[0] == x && walk[|walk| - 1] == b
  }

  lemma InitialIsStill(plan: Plan)
    requires plan.Valid()
    ensures Still(plan, Initial(plan.gates))
  {
  }

  // Phases along a run.

  /** An executed gate that has started found all its predecessors settled. */
  ghost predicate Rested(plan: Plan, s: Clocked) {
    forall id | id in s.states && s.states[id] != Pending && Runs(plan, id) :: RestedAt(plan, s, id)
  }

  ghost predicate RestedAt(plan: Plan, s: Clocked, id: string) {
    id in ById(plan.gates) && forall p | p in Predecessors(ById(plan.gates)[id]) :: GateSettled(s.states, p)
  }

  /** With k skips done, what is unsettled keeps the phases of the whole aggregate. */
  ghost predicate InPhase(plan: Plan, s: Clocked, k: nat)
    requires plan.Valid()
  {
    IsState(plan, s) && Rested(plan, s) && Agrees(plan, Waiting(s.states), k)
  }

  ghost predicate Agrees(plan: Plan, states: States, k: nat)
    requires plan.Valid()
  {
    AgreesWith(Phases(plan.gates, plan.execute, states, k), FullPhases(plan))
  }

  ghost predicate AgreesWith(part: map<string, nat>, full: map<string, nat>) {
    forall id | id in part :: id in full && full[id] == part[id]
  }

  lemma WaitingIsStill(plan: Plan, s: Clocked)
    requires plan.Valid() && IsState(plan, s)
    ensures Still(plan, Waiting(s.states))
  {
    forall id | id in s.states ensures StillAt(plan, Waiting(s.states)[id], id) { assert StateOk(plan, s, id); }
  }

  /** A started executed gate, put back, is startable. */
  lemma RestedIsReady(plan: Plan, s: Clocked, id: string)
    requires plan.Valid() && IsState(plan, s) && Rested(plan, s)
    requires id in s.states && s.states[id] == Running
    ensures id in ById(plan.gates) && Startable(ById(plan.gates)[id], Waiting(s.states))
  {
    ByIdKeys(plan.gates);
    GraphFacts(plan, id);
    assert StateOk(plan, s, id) && RestedAt(plan, s, id);
    var gate := ById(plan.gates)[id];
    forall d | d in gate.needs ensures IsPassed(Waiting(s.states), d) {
      assert d in Predecessors(gate) && StateOk(plan, s, d);
    }
    forall p | p in gate.after ensures GateSettled(Waiting(s.states), p) { assert p in Predecessors(gate); }
  }

  /** Whatever runs belongs to the present phase. */
  lemma RunningPhase(plan: Plan, s: Clocked, k: nat, id: string)
    requires plan.Valid() && InPhase(plan, s, k) && id in s.states && s.states[id] == Running
    ensures id in FullPhases(plan) && FullPhases(plan)[id] == k
  {
    RestedIsReady(plan, s, id);
    ByIdKeys(plan.gates);
    PhasesExecuteAny(plan.gates, plan.execute, Waiting(s.states), k, ById(plan.gates)[id]);
  }

  /** Whatever has an earlier phase has settled. */
  lemma EarlierIsSettled(plan: Plan, s: Clocked, k: nat, id: string)
    requires plan.Valid() && InPhase(plan, s, k) && id in s.states
    requires id in FullPhases(plan) && FullPhases(plan)[id] < k
    ensures s.states[id].Settled?
  {
    if !s.states[id].Settled? {
      WaitingIsStill(plan, s);
      PendingHasPhase(plan, Waiting(s.states), k, id);
      PhasesArePending(plan.gates, plan.execute, Waiting(s.states), k);
    }
  }

  /** A startable gate belongs to the present phase. */
  lemma StartablePhase(plan: Plan, s: Clocked, k: nat, gate: Gate)
    requires plan.Valid() && InPhase(plan, s, k) && gate in plan.gates && Startable(gate, s.states)
    ensures gate.id in FullPhases(plan) && FullPhases(plan)[gate.id] == k
  {
    WaitingReady(gate, s.states);
    PhasesExecuteAny(plan.gates, plan.execute, Waiting(s.states), k, gate);
  }

  lemma WaitingReady(gate: Gate, states: States)
    requires Startable(gate, states)
    ensures Startable(gate, Waiting(states))
  {
    forall d | d in gate.needs ensures IsPassed(Waiting(states), d) { assert IsPassed(states, d); }
    forall p | p in gate.after ensures GateSettled(Waiting(states), p) { assert GateSettled(states, p); }
  }

  lemma StartedIsRested(plan: Plan, s: Clocked, t: Clocked, gate: Gate)
    requires plan.Valid() && gate in plan.gates && gate.id in s.states && Startable(gate, s.states)
    requires t.states == s.states[gate.id := Running]
    ensures RestedAt(plan, t, gate.id)
  {
    ByIdFinds(plan.gates, gate);
    forall p | p in Predecessors(gate) ensures GateSettled(t.states, p) {
      assert p in gate.needs ==> IsPassed(s.states, p);
    }
  }

  lemma RestLasts(plan: Plan, s: Clocked, t: Clocked, started: string, id: string)
    requires started in s.states && s.states[started] == Pending && t.states == s.states[started := Running]
    requires RestedAt(plan, s, id)
    ensures RestedAt(plan, t, id)
  {
    forall p | p in Predecessors(ById(plan.gates)[id]) ensures GateSettled(t.states, p) {
      assert GateSettled(s.states, p);
    }
  }

  lemma StartKeepsRested(plan: Plan, s: Clocked, t: Clocked, i: nat)
    requires plan.Valid() && IsState(plan, s) && Rested(plan, s) && Makespan.StartStep(plan, s, t, i)
    ensures Rested(plan, t)
  {
    var gate := plan.gates[i];
    StartedIsRested(plan, s, t, gate);
    forall id | id in t.states && t.states[id] != Pending && Runs(plan, id) ensures RestedAt(plan, t, id) {
      if id != gate.id { RestLasts(plan, s, t, gate.id, id); }
    }
  }

  lemma SettlingKeepsRested(plan: Plan, s: Clocked, t: Clocked, settled: string, status: Status)
    requires plan.Valid() && Rested(plan, s) && settled in s.states
    requires t.states == s.states[settled := Settled(status)]
    requires s.states[settled] == Running || !Runs(plan, settled)
    ensures Rested(plan, t)
  {
    forall id | id in t.states && t.states[id] != Pending && Runs(plan, id) ensures RestedAt(plan, t, id) {
      assert RestedAt(plan, s, id);
    }
  }

  lemma PartShrinks(part: map<string, nat>, rest: map<string, nat>, full: map<string, nat>, id: string, k: nat)
    requires AgreesWith(part, full) && part == rest[id := k] && id !in rest
    ensures AgreesWith(rest, full)
  {
    forall other | other in rest ensures other in full && full[other] == rest[other] {
      assert other in part && part[other] == rest[other];
    }
  }

  lemma AgreesAfterExecution(plan: Plan, states: States, k: nat, gate: Gate)
    requires plan.Valid() && Agrees(plan, states, k) && gate in plan.gates && Startable(gate, states)
    ensures Agrees(plan, After(states, Executed(gate, plan.execute)), k)
  {
    var after := After(states, Executed(gate, plan.execute));
    PhasesExecuteAny(plan.gates, plan.execute, states, k, gate);
    PhasesArePending(plan.gates, plan.execute, after, k);
    PartShrinks(Phases(plan.gates, plan.execute, states, k), Phases(plan.gates, plan.execute, after, k),
                FullPhases(plan), gate.id, k);
  }

  lemma AgreesAfterSkip(plan: Plan, states: States, k: nat, i: nat)
    requires plan.Valid() && Agrees(plan, states, k)
    requires NoneStartable(plan.gates, states) && FirstDoomed(plan.gates, states, i)
    ensures Agrees(plan, After(states, SkippedAt(plan.gates[i], states)), k + 1)
  {
    var gate, after := plan.gates[i], After(states, SkippedAt(plan.gates[i], states));
    PhasesSkipFirst(plan.gates, plan.execute, states, k, i);
    PhasesArePending(plan.gates, plan.execute, after, k + 1);
    PartShrinks(Phases(plan.gates, plan.execute, states, k), Phases(plan.gates, plan.execute, after, k + 1),
                FullPhases(plan), gate.id, k);
  }

  lemma WaitingAfterStart(states: States, id: string)
    requires id in states && states[id] == Pending
    ensures Waiting(states[id := Running]) == Waiting(states)
  {
  }

  lemma WaitingAfterResult(states: States, result: GateResult)
    ensures Waiting(After(states, result)) == After(Waiting(states), result)
  {
  }

  lemma WaitingWhenIdle(states: States)
    requires forall id | id in states :: states[id] != Running
    ensures Waiting(states) == states
  {
  }

  lemma StartKeepsPhase(plan: Plan, s: Clocked, t: Clocked, k: nat, i: nat)
    requires plan.Valid() && InPhase(plan, s, k) && Makespan.StartStep(plan, s, t, i)
    ensures InPhase(plan, t, k)
  {
    StartKeepsState(plan, s, t, i);
    StartKeepsRested(plan, s, t, i);
    assert Agrees(plan, Waiting(t.states), k) by { WaitingAfterStart(s.states, plan.gates[i].id); }
  }

  lemma WaitKeepsAgreement(plan: Plan, s: Clocked, t: Clocked, k: nat, waited: string)
    requires plan.Valid() && InPhase(plan, s, k) && WaitStep(plan, s, t, waited)
    ensures Agrees(plan, Waiting(t.states), k)
  {
    RestedIsReady(plan, s, waited);
    ByIdKeys(plan.gates);
    var gate := ById(plan.gates)[waited];
    WaitingAfterResult(s.states, Executed(gate, plan.execute));
    AgreesAfterExecution(plan, Waiting(s.states), k, gate);
  }

  lemma WaitKeepsPhase(plan: Plan, s: Clocked, t: Clocked, k: nat, waited: string)
    requires plan.Valid() && InPhase(plan, s, k) && WaitStep(plan, s, t, waited)
    ensures InPhase(plan, t, k)
  {
    WaitKeepsState(plan, s, t, waited);
    SettlingKeepsRested(plan, s, t, waited, plan.execute(waited));
    WaitKeepsAgreement(plan, s, t, k, waited);
  }

  lemma NothingRuns(plan: Plan, s: Clocked, id: string)
    requires IsState(plan, s) && RunningCount(plan.gates, s.states) == 0 && id in s.states
    ensures s.states[id] != Running
  {
    if s.states[id] == Running { RunningGateCounts(plan.gates, s.states, id); }
  }

  lemma SkipKeepsAgreement(plan: Plan, s: Clocked, t: Clocked, k: nat, i: nat)
    requires plan.Valid() && InPhase(plan, s, k) && Makespan.SkipStep(plan, s, t, i)
    ensures Agrees(plan, Waiting(t.states), k + 1)
  {
    forall id | id in s.states ensures s.states[id] != Running { NothingRuns(plan, s, id); }
    WaitingWhenIdle(s.states);
    WaitingAfterResult(s.states, SkippedAt(plan.gates[i], s.states));
    AgreesAfterSkip(plan, s.states, k, i);
  }

  lemma SkipKeepsPhase(plan: Plan, s: Clocked, t: Clocked, k: nat, i: nat)
    requires plan.Valid() && InPhase(plan, s, k) && Makespan.SkipStep(plan, s, t, i)
    ensures InPhase(plan, t, k + 1)
  {
    SkipKeepsState(plan, s, t, i);
    SkippedWhenDoomed(plan, s, plan.gates[i]);
    SettlingKeepsRested(plan, s, t, plan.gates[i].id, Skipped);
    SkipKeepsAgreement(plan, s, t, k, i);
  }

  lemma StartsInPhase(plan: Plan)
    requires plan.Valid()
    ensures InPhase(plan, Begin(plan), 0)
  {
    assert Waiting(Begin(plan).states) == Initial(plan.gates);
  }

  lemma StepKeepsPhase(plan: Plan, s: Clocked, t: Clocked, k: nat) returns (next: nat)
    requires plan.Valid() && InPhase(plan, s, k) && Step(plan, s, t)
    ensures InPhase(plan, t, next)
  {
    next := k;
    if i: nat :| Makespan.StartStep(plan, s, t, i) {
      StartKeepsPhase(plan, s, t, k, i);
    } else if i: nat :| Makespan.SkipStep(plan, s, t, i) {
      SkipKeepsPhase(plan, s, t, k, i);
      next := k + 1;
    } else {
      var waited :| WaitStep(plan, s, t, waited);
      WaitKeepsPhase(plan, s, t, k, waited);
    }
  }

  lemma {:induction false} RunHasPhases(plan: Plan, run: seq<Clocked>, j: nat) returns (k: nat)
    requires plan.Valid() && IsRun(plan, run) && j < |run|
    ensures InPhase(plan, run[j], k)
  {
    if j == 0 {
      StartsInPhase(plan);
      k := 0;
    } else {
      k := RunHasPhases(plan, run, j - 1);
      k := StepKeepsPhase(plan, run[j - 1], run[j], k);
    }
  }

  // Chained phases keep the bound.

  /** An unsettled gate keeps every executed gate that follows it along executed gates from starting. */
  lemma {:induction false} UnsettledBehind(plan: Plan, s: Clocked, walk: seq<string>)
    requires plan.Valid() && IsState(plan, s) && Rested(plan, s) && IsChain(plan, walk)
    requires walk[|walk| - 1] in s.states && !s.states[walk[|walk| - 1]].Settled?
    ensures walk[0] in s.states && !s.states[walk[0]].Settled?
    decreases |walk|
  {
    if |walk| == 1 {
    } else {
      TailIsChain(plan, walk);
      UnsettledBehind(plan, s, walk[1..]);
      assert walk[0] in walk && Edge(ById(plan.gates), walk[0], walk[1]);
      assert s.states[walk[0]].Settled? ==> RestedAt(plan, s, walk[0]);
    }
  }

  lemma TailIsChain(plan: Plan, walk: seq<string>)
    requires IsChain(plan, walk) && |walk| >= 2
    ensures IsChain(plan, walk[1..]) && Edge(ById(plan.gates), walk[0], walk[1])
  {
    var rest := walk[1..];
    assert Edge(ById(plan.gates), walk[0], walk[1]);
    forall i | 0 <= i < |rest| - 1 ensures Edge(ById(plan.gates), rest[i], rest[i + 1]) {
      assert Edge(ById(plan.gates), walk[i + 1], walk[i + 2]);
    }
  }

  /** A pending executed gate that cannot start has an unsettled predecessor. */
  lemma UnmetPredecessor(plan: Plan, s: Clocked, id: string) returns (p: string)
    requires plan.Valid() && IsState(plan, s) && Runs(plan, id) && id in s.states && s.states[id] == Pending
    requires NoneStartable(plan.gates, s.states)
    ensures p in Predecessors(ById(plan.gates)[id]) && p in s.states && !s.states[p].Settled?
  {
    ByIdKeys(plan.gates);
    GraphFacts(plan, id);
    var gate := ById(plan.gates)[id];
    assert !Startable(gate, s.states);
    if !NeedsMet(gate, s.states) {
      p := UnmetNeed(plan, s, gate);
    } else {
      p :| p in gate.after && !GateSettled(s.states, p);
      assert p in Predecessors(gate);
    }
  }

  lemma UnmetNeed(plan: Plan, s: Clocked, gate: Gate) returns (p: string)
    requires plan.Valid() && IsState(plan, s) && gate in plan.gates && Runs(plan, gate.id)
    requires !NeedsMet(gate, s.states)
    ensures p in Predecessors(gate) && p in s.states && !s.states[p].Settled?
  {
    ByIdFinds(plan.gates, gate);
    GraphFacts(plan, gate.id);
    p :| p in gate.needs && !IsPassed(s.states, p);
    assert p in Predecessors(gate) && StateOk(plan, s, p);
  }

  lemma AwaitsWithinPhase(plan: Plan, s: Clocked, k: nat, id: string)
    requires plan.Valid() && InPhase(plan, s, k) && Runs(plan, id) && id in s.states && s.states[id] == Pending
    requires NoneStartable(plan.gates, s.states) && id in FullPhases(plan) && FullPhases(plan)[id] == k
    ensures AwaitsRun(plan, s, id)
  {
    var p := UnmetPredecessor(plan, s, id);
    WaitingIsStill(plan, s);
    PredecessorPhase(plan, Waiting(s.states), k, id, p);
  }

  lemma AwaitsEarlierPhase(plan: Plan, s: Clocked, waited: string, id: string)
    requires plan.Valid() && IsState(plan, s) && Rested(plan, s) && ChainedFrom(plan, id, waited)
    requires id in s.states && s.states[id] == Pending && waited in s.states && s.states[waited] == Running
    ensures AwaitsRun(plan, s, id)
  {
    var walk :| ChainWalk(plan, walk, id, waited);
    TailIsChain(plan, walk);
    UnsettledBehind(plan, s, walk[1..]);
    assert walk[1] in walk[1..];
  }

  lemma ChainedAwaitsRun(plan: Plan, s: Clocked, k: nat, waited: string, id: string)
    requires plan.Valid() && PhasesChained(plan) && InPhase(plan, s, k) && NoneStartable(plan.gates, s.states)
    requires waited in s.states && s.states[waited] == Running
    requires id in s.states && s.states[id] == Pending && Runs(plan, id)
    ensures AwaitsRun(plan, s, id)
  {
    RunningPhase(plan, s, k, waited);
    assert StateOk(plan, s, waited);
    WaitingIsStill(plan, s);
    PhasesArePending(plan.gates, plan.execute, Waiting(s.states), k);
    PendingHasPhase(plan, Waiting(s.states), k, id);
    if FullPhases(plan)[id] == k {
      AwaitsWithinPhase(plan, s, k, id);
    } else {
      assert Earlier(plan, waited, id);
      AwaitsEarlierPhase(plan, s, waited, id);
    }
  }

  lemma ChainedUnblocks(plan: Plan, s: Clocked, t: Clocked, k: nat)
    requires plan.Valid() && PhasesChained(plan) && InPhase(plan, s, k)
    ensures WaitsUnblocked(plan, s, t)
  {
    if waited :| WaitStep(plan, s, t, waited) && NoneStartable(plan.gates, s.states) {
      forall id | id in s.states && s.states[id] == Pending && Runs(plan, id) ensures AwaitsRun(plan, s, id) {
        ChainedAwaitsRun(plan, s, k, waited, id);
      }
    }
  }

  lemma ChainedKeepsBound(plan: Plan, run: seq<Clocked>, k: nat)
    requires plan.Valid() && PhasesChained(plan) && IsRun(plan, run) && k < |run|
    ensures WithinBound(plan, run[k].now)
  {
    forall j | 0 <= j < |run| - 1 ensures WaitsUnblocked(plan, run[j], run[j + 1]) {
      var phase := RunHasPhases(plan, run, j);
      ChainedUnblocks(plan, run[j], run[j + 1], phase);
    }
    UnblockedKeepsBound(plan, run, k);
  }
}
