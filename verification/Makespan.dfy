/**
 * The elapsed time of a run of scripts/run-gates.ts. The scheduler's loop is replayed against a clock: it
 * starts the first startable gate while a slot is free, skips the first doomed gate when idle, and otherwise
 * waits for the running gate with the least time left.
 */
module Makespan {
  import opened GateGraph
  import opened Outcome
  import opened Scheduler

  /**
   * An aggregate with a worker limit, its executor, and a duration for every gate; with the solution of the
   * defining equation and a rank of the graph.
   */
  datatype Plan = Plan(gates: seq<Gate>, workers: nat, execute: string -> Status, duration: map<string, nat>,
                       ghost status: map<string, Status>, ghost rank: map<string, nat>) {
    ghost predicate Valid() {
      && WellFormed(gates) && workers >= 1 && duration.Keys == Ids(gates)
      && Solves(gates, execute, status) && IsRank(ById(gates), rank)
    }
  }

  /** The gate is executed in the end, not skipped. */
  ghost predicate Runs(plan: Plan, id: string) {
    id in ById(plan.gates) && NeedsPassed(ById(plan.gates)[id], plan.status)
  }

  /** No executed gate waits for a skipped one. */
  ghost predicate AwaitsNoSkip(plan: Plan) {
    forall gate, p | gate in plan.gates && Runs(plan, gate.id) && p in gate.after :: Runs(plan, p)
  }

  /** `left` is the time a running gate still needs. */
  datatype Clocked = Clocked(now: nat, states: States, left: map<string, nat>)

  ghost predicate IsState(plan: Plan, s: Clocked) {
    && s.states.Keys == Ids(plan.gates) == plan.duration.Keys
    && forall id | id in s.states :: StateOk(plan, s, id)
  }

  ghost predicate StateOk(plan: Plan, s: Clocked, id: string)
    requires id in s.states && id in plan.duration
  {
    match s.states[id]
    case Pending => true
    case Running => Runs(plan, id) && id in s.left && s.left[id] <= plan.duration[id]
    case Settled(status) => id in plan.status && status == plan.status[id]
  }

  ghost function Begin(plan: Plan): Clocked {
    Clocked(0, Initial(plan.gates), map[])
  }

  ghost predicate StartStep(plan: Plan, s: Clocked, t: Clocked, i: nat)
    requires plan.duration.Keys == Ids(plan.gates)
  {
    && FirstStartable(plan.gates, s.states, i)
    && RunningCount(plan.gates, s.states) < plan.workers
    && var id := plan.gates[i].id;
       t == Clocked(s.now, s.states[id := Running], s.left[id := plan.duration[id]])
  }

  /** The wait happens only when every slot is taken or nothing can start. */
  ghost predicate WaitStep(plan: Plan, s: Clocked, t: Clocked, id: string) {
    && (RunningCount(plan.gates, s.states) == plan.workers || NoneStartable(plan.gates, s.states))
    && id in s.states && s.states[id] == Running && id in s.left
    && (forall other | other in s.left && other in s.states && s.states[other] == Running ::
      s.left[id] <= s.left[other])
    && t == Clocked(s.now + s.left[id], s.states[id := Settled(plan.execute(id))], Elapse(s.left, s.left[id]))
  }

  /** Idle with nothing startable, the loop skips the first doomed gate without waiting. */
  ghost predicate SkipStep(plan: Plan, s: Clocked, t: Clocked, i: nat) {
    && RunningCount(plan.gates, s.states) == 0 && NoneStartable(plan.gates, s.states)
    && FirstDoomed(plan.gates, s.states, i)
    && t == s.(states := s.states[plan.gates[i].id := Settled(Skipped)])
  }

  ghost function Elapse(left: map<string, nat>, time: nat): map<string, nat> {
    map id | id in left :: if time <= left[id] then left[id] - time else 0
  }

  ghost predicate Step(plan: Plan, s: Clocked, t: Clocked)
    requires plan.duration.Keys == Ids(plan.gates)
  {
    || (exists i: nat :: StartStep(plan, s, t, i)) || (exists i: nat :: SkipStep(plan, s, t, i))
    || (exists id :: WaitStep(plan, s, t, id))
  }

  ghost predicate IsRun(plan: Plan, run: seq<Clocked>)
    requires plan.duration.Keys == Ids(plan.gates)
  {
    run != [] && run[0] == Begin(plan) && forall k | 0 <= k < |run| - 1 :: Step(plan, run[k], run[k + 1])
  }

  /** The work a gate causes: none if it is skipped. */
  ghost function Cost(plan: Plan, id: string): nat {
    if id in plan.duration && Runs(plan, id) then plan.duration[id] else 0
  }

  /** Work finished so far, and the total work. */
  ghost function Progress(plan: Plan, s: Clocked, id: string): nat {
    if id !in s.states || id !in plan.duration then 0 else
      match s.states[id]
      case Pending => 0
      case Running => if id in s.left && s.left[id] <= Cost(plan, id) then Cost(plan, id) - s.left[id] else 0
      case Settled(_) => Cost(plan, id)
  }

  ghost function Done(plan: Plan, gates: seq<Gate>, s: Clocked): nat {
    if gates == [] then 0 else Done(plan, gates[..|gates| - 1], s) + Progress(plan, s, gates[|gates| - 1].id)
  }

  ghost function TotalWork(plan: Plan, gates: seq<Gate>): nat {
    if gates == [] then 0
    else TotalWork(plan, gates[..|gates| - 1]) + Cost(plan, gates[|gates| - 1].id)
  }

  /** Time the longest `needs`/`after` chain of executed gates ending at a gate still needs. */
  ghost function Remaining(plan: Plan, s: Clocked, id: string): nat
    requires plan.Valid() && IsState(plan, s) && id in s.states
    decreases Height(plan, id), 1, 0
  {
    match s.states[id]
    case Settled(_) => 0
    case Running => s.left[id]
    case Pending =>
      GraphFacts(plan, id);
      if !Runs(plan, id) then 0 else plan.duration[id] + MaxRemaining(plan, s, id, Predecessors(ById(plan.gates)[id]))
  }

  ghost function MaxRemaining(plan: Plan, s: Clocked, id: string, predecessors: seq<string>): nat
    requires plan.Valid() && IsState(plan, s) && id in s.states
    requires forall p | p in predecessors :: p in s.states && Height(plan, p) < Height(plan, id)
    decreases Height(plan, id), 0, |predecessors|
  {
    if predecessors == [] then 0 else
      Max(Remaining(plan, s, predecessors[0]), MaxRemaining(plan, s, id, predecessors[1..]))
  }

  function Max(a: nat, b: nat): nat {
    if a < b then b else a
  }

  ghost function Height(plan: Plan, id: string): nat
    requires plan.Valid() && id in plan.duration
  {
    ByIdKeys(plan.gates);
    plan.rank[id]
  }

  lemma GraphFacts(plan: Plan, id: string)
    requires plan.Valid() && id in plan.duration
    ensures ById(plan.gates).Keys == plan.duration.Keys
    ensures forall p | p in Predecessors(ById(plan.gates)[id]) ::
              p in plan.duration && Height(plan, p) < Height(plan, id)
  {
    ByIdKeys(plan.gates);
    forall p | p in Predecessors(ById(plan.gates)[id])
      ensures p in plan.duration && Height(plan, p) < Height(plan, id)
    {
      assert Edge(ById(plan.gates), id, p);
    }
  }

  /** The longest remaining chain of the whole aggregate. */
  ghost function Critical(plan: Plan, gates: seq<Gate>, s: Clocked): nat
    requires plan.Valid() && IsState(plan, s) && Ids(gates) <= Ids(plan.gates)
  {
    if gates == [] then 0 else
      var last := gates[|gates| - 1];
      assert last.id in Ids(gates);
      assert Ids(gates[..|gates| - 1]) <= Ids(gates);
      Max(Critical(plan, gates[..|gates| - 1], s), Remaining(plan, s, last.id))
  }

  lemma RunsWhenStartable(plan: Plan, s: Clocked, gate: Gate)
    requires plan.Valid() && IsState(plan, s) && gate in plan.gates && Startable(gate, s.states)
    ensures Runs(plan, gate.id)
  {
    ByIdFinds(plan.gates, gate);
    forall d | d in gate.needs ensures d in plan.status && plan.status[d] == Passed {
      assert IsPassed(s.states, d) && StateOk(plan, s, d);
    }
  }

  lemma SkippedWhenDoomed(plan: Plan, s: Clocked, gate: Gate)
    requires plan.Valid() && IsState(plan, s) && gate in plan.gates && Doomed(gate, s.states)
    ensures !Runs(plan, gate.id) && plan.status[gate.id] == Skipped
  {
    ByIdFinds(plan.gates, gate);
    var d :| d in gate.needs && GateFailed(s.states, d);
    assert StateOk(plan, s, d);
    assert !NeedsPassed(gate, plan.status);
  }

  lemma ExecutedStatus(plan: Plan, id: string)
    requires plan.Valid() && id in plan.duration
    ensures id in plan.status && plan.status[id] == if Runs(plan, id) then plan.execute(id) else Skipped
  {
    ByIdKeys(plan.gates);
    assert ById(plan.gates)[id] in plan.gates;
  }

  lemma StartKeepsState(plan: Plan, s: Clocked, t: Clocked, i: nat)
    requires plan.Valid() && IsState(plan, s) && StartStep(plan, s, t, i)
    ensures IsState(plan, t)
  {
    RunsWhenStartable(plan, s, plan.gates[i]);
    forall id | id in t.states ensures StateOk(plan, t, id) { assert StateOk(plan, s, id); }
  }

  lemma SkipKeepsState(plan: Plan, s: Clocked, t: Clocked, i: nat)
    requires plan.Valid() && IsState(plan, s) && SkipStep(plan, s, t, i)
    ensures IsState(plan, t)
  {
    SkippedWhenDoomed(plan, s, plan.gates[i]);
    forall id | id in t.states ensures StateOk(plan, t, id) { assert StateOk(plan, s, id); }
  }

  lemma WaitKeepsState(plan: Plan, s: Clocked, t: Clocked, waited: string)
    requires plan.Valid() && IsState(plan, s) && WaitStep(plan, s, t, waited)
    ensures IsState(plan, t)
  {
    assert StateOk(plan, s, waited);
    ExecutedStatus(plan, waited);
    forall id | id in t.states ensures StateOk(plan, t, id) { assert StateOk(plan, s, id); }
  }

  lemma StepKeepsState(plan: Plan, s: Clocked, t: Clocked)
    requires plan.Valid() && IsState(plan, s) && Step(plan, s, t)
    ensures IsState(plan, t)
  {
    if i: nat :| StartStep(plan, s, t, i) {
      StartKeepsState(plan, s, t, i);
    } else if i: nat :| SkipStep(plan, s, t, i) {
      SkipKeepsState(plan, s, t, i);
    } else {
      var waited :| WaitStep(plan, s, t, waited);
      WaitKeepsState(plan, s, t, waited);
    }
  }

  lemma {:induction false} MaxOfSettledIsZero(plan: Plan, s: Clocked, id: string, predecessors: seq<string>)
    requires plan.Valid() && IsState(plan, s) && id in s.states
    requires forall p | p in predecessors :: p in s.states && Height(plan, p) < Height(plan, id)
    requires forall p | p in predecessors :: s.states[p].Settled?
    ensures MaxRemaining(plan, s, id, predecessors) == 0
  {
    if predecessors == [] {
    } else {
      MaxOfSettledIsZero(plan, s, id, predecessors[1..]);
    }
  }

  /** Only one gate changes, and what it still needs does not. */
  ghost predicate ChangesOnly(plan: Plan, s: Clocked, t: Clocked, changed: string)
    requires plan.Valid() && IsState(plan, s) && IsState(plan, t)
  {
    && changed in s.states && Remaining(plan, t, changed) == Remaining(plan, s, changed)
    && forall id | id in s.states && id != changed ::
         t.states[id] == s.states[id] && (s.states[id].Running? ==> t.left[id] == s.left[id])
  }

  lemma {:induction false} RemainingFrame(plan: Plan, s: Clocked, t: Clocked, changed: string, id: string)
    requires plan.Valid() && IsState(plan, s) && IsState(plan, t) && ChangesOnly(plan, s, t, changed)
    requires id in s.states
    ensures Remaining(plan, t, id) == Remaining(plan, s, id)
    decreases Height(plan, id), 1, 0
  {
    if id != changed && s.states[id] == Pending && Runs(plan, id) {
      GraphFacts(plan, id);
      MaxFrame(plan, s, t, changed, id, Predecessors(ById(plan.gates)[id]));
    }
  }

  lemma {:induction false} MaxFrame(plan: Plan, s: Clocked, t: Clocked, changed: string, id: string,
                                    predecessors: seq<string>)
    requires plan.Valid() && IsState(plan, s) && IsState(plan, t) && ChangesOnly(plan, s, t, changed)
    requires id in s.states
    requires forall p | p in predecessors :: p in s.states && Height(plan, p) < Height(plan, id)
    ensures MaxRemaining(plan, t, id, predecessors) == MaxRemaining(plan, s, id, predecessors)
    decreases Height(plan, id), 0, |predecessors|
  {
    if predecessors == [] {
    } else {
      RemainingFrame(plan, s, t, changed, predecessors[0]);
      MaxFrame(plan, s, t, changed, id, predecessors[1..]);
    }
  }

  /** Starting a ready gate changes no remaining chain: all its predecessors have settled. */
  lemma RemainingAfterStart(plan: Plan, s: Clocked, t: Clocked, i: nat, id: string)
    requires plan.Valid() && IsState(plan, s) && StartStep(plan, s, t, i) && IsState(plan, t) && id in s.states
    ensures Remaining(plan, t, id) == Remaining(plan, s, id)
  {
    var started := plan.gates[i];
    GraphFacts(plan, started.id);
    ByIdFinds(plan.gates, started);
    RunsWhenStartable(plan, s, started);
    MaxOfSettledIsZero(plan, s, started.id, Predecessors(started));
    RemainingFrame(plan, s, t, started.id, id);
  }

  /** Nor does a skip: a skipped gate is on no chain of executed gates. */
  lemma RemainingAfterSkip(plan: Plan, s: Clocked, t: Clocked, i: nat, id: string)
    requires plan.Valid() && IsState(plan, s) && SkipStep(plan, s, t, i) && IsState(plan, t) && id in s.states
    ensures Remaining(plan, t, id) == Remaining(plan, s, id)
  {
    SkippedWhenDoomed(plan, s, plan.gates[i]);
    RemainingFrame(plan, s, t, plan.gates[i].id, id);
  }

  /** What a wait of a given time does to one remaining chain. */
  ghost predicate Shortened(plan: Plan, s: Clocked, t: Clocked, id: string, time: nat)
    requires plan.Valid() && IsState(plan, s) && IsState(plan, t) && id in s.states
  {
    Remaining(plan, t, id) == 0 || Remaining(plan, t, id) + time <= Remaining(plan, s, id)
  }

  /** The gate waits for one that will be executed and has not settled. */
  ghost predicate AwaitsRun(plan: Plan, s: Clocked, id: string) {
    && id in ById(plan.gates)
    && exists p | p in Predecessors(ById(plan.gates)[id]) ::
         p in s.states && !s.states[p].Settled? && Runs(plan, p)
  }

  /** With nothing startable, no pending gate waits for skips alone. */
  ghost predicate Unblocked(plan: Plan, s: Clocked) {
    NoneStartable(plan.gates, s.states) ==>
      forall id | id in s.states && s.states[id] == Pending && Runs(plan, id) :: AwaitsRun(plan, s, id)
  }

  /**
   * A wait never lengthens a remaining chain. When nothing could start, every chain of an unsettled
   * executed gate begins at a running gate, so the wait shortens all of them by its full length.
   */
  lemma {:induction false} RemainingAfterWait(plan: Plan, s: Clocked, t: Clocked, waited: string, id: string)
    requires plan.Valid() && IsState(plan, s) && Unblocked(plan, s)
    requires WaitStep(plan, s, t, waited) && IsState(plan, t) && id in s.states
    ensures Remaining(plan, t, id) <= Remaining(plan, s, id)
    ensures NoneStartable(plan.gates, s.states) ==> Shortened(plan, s, t, id, s.left[waited])
    ensures NoneStartable(plan.gates, s.states) && !s.states[id].Settled? && Runs(plan, id) ==>
              s.left[waited] <= Remaining(plan, s, id)
    decreases Height(plan, id), 1, 0
  {
    GraphFacts(plan, id);
    if s.states[id] != Pending || !Runs(plan, id) {
    } else {
      var gate, time := ById(plan.gates)[id], s.left[waited];
      assert forall p | p in Predecessors(gate) :: p in plan.duration;
      forall p | p in Predecessors(gate)
        ensures Remaining(plan, t, p) <= Remaining(plan, s, p)
        ensures NoneStartable(plan.gates, s.states) ==> Shortened(plan, s, t, p, time)
        ensures NoneStartable(plan.gates, s.states) && !s.states[p].Settled? && Runs(plan, p) ==>
                  time <= Remaining(plan, s, p)
      {
        RemainingAfterWait(plan, s, t, waited, p);
      }
      MaxPointwise(plan, s, t, id, Predecessors(gate), time);
      if NoneStartable(plan.gates, s.states) {
        assert AwaitsRun(plan, s, id);
        var p :| p in Predecessors(gate) && p in s.states && !s.states[p].Settled? && Runs(plan, p);
        MaxRemainingCovers(plan, s, id, Predecessors(gate), p);
      }
    }
  }

  lemma PassedRuns(plan: Plan, id: string)
    requires plan.Valid() && id in plan.duration && plan.status[id] == Passed
    ensures Runs(plan, id)
  {
    ExecutedStatus(plan, id);
  }

  /** A pending gate that will be executed but cannot start has an unsettled predecessor that will be executed. */
  lemma BlockedPredecessor(plan: Plan, s: Clocked, id: string) returns (p: string)
    requires plan.Valid() && AwaitsNoSkip(plan) && IsState(plan, s) && Runs(plan, id)
    requires id in s.states && s.states[id] == Pending && NoneStartable(plan.gates, s.states)
    ensures p in Predecessors(ById(plan.gates)[id]) && p in s.states && !s.states[p].Settled? && Runs(plan, p)
  {
    ByIdKeys(plan.gates);
    GraphFacts(plan, id);
    var gate := ById(plan.gates)[id];
    assert !Startable(gate, s.states);
    if !NeedsMet(gate, s.states) {
      p :| p in gate.needs && !IsPassed(s.states, p);
      assert p in Predecessors(gate);
      assert StateOk(plan, s, p) && plan.status[p] == Passed;
      PassedRuns(plan, p);
    } else {
      p :| p in gate.after && !GateSettled(s.states, p);
      assert p in Predecessors(gate);
    }
  }

  /** The maximum over predecessors follows what happens to each of them. */
  lemma {:induction false} MaxPointwise(plan: Plan, s: Clocked, t: Clocked, id: string, predecessors: seq<string>,
                                        time: nat)
    requires plan.Valid() && IsState(plan, s) && IsState(plan, t) && id in s.states && id in t.states
    requires forall p | p in predecessors :: p in s.states && p in t.states && Height(plan, p) < Height(plan, id)
    requires forall p | p in predecessors :: Remaining(plan, t, p) <= Remaining(plan, s, p)
    ensures var before, after := MaxRemaining(plan, s, id, predecessors), MaxRemaining(plan, t, id, predecessors);
            && after <= before
            && ((forall p | p in predecessors :: Shortened(plan, s, t, p, time)) ==>
              after == 0 || after + time <= before)
  {
    if predecessors == [] {
    } else {
      assert predecessors[0] in predecessors;
      MaxPointwise(plan, s, t, id, predecessors[1..], time);
    }
  }

  lemma {:induction false} CriticalFrame(plan: Plan, gates: seq<Gate>, s: Clocked, t: Clocked)
    requires plan.Valid() && IsState(plan, s) && IsState(plan, t) && Ids(gates) <= Ids(plan.gates)
    requires forall id | id in s.states :: Remaining(plan, t, id) == Remaining(plan, s, id)
    ensures Critical(plan, gates, t) == Critical(plan, gates, s)
  {
    if gates == [] {
    } else {
      assert gates[|gates| - 1].id in Ids(gates);
      assert Ids(gates[..|gates| - 1]) <= Ids(gates);
      CriticalFrame(plan, gates[..|gates| - 1], s, t);
    }
  }

  lemma {:induction false} CriticalAfterWait(plan: Plan, gates: seq<Gate>, s: Clocked, t: Clocked, waited: string)
    requires plan.Valid() && Ids(gates) <= Ids(plan.gates)
    requires IsState(plan, s) && Unblocked(plan, s) && WaitStep(plan, s, t, waited) && IsState(plan, t)
    ensures Critical(plan, gates, t) <= Critical(plan, gates, s)
    ensures NoneStartable(plan.gates, s.states) ==>
              Critical(plan, gates, t) == 0 || Critical(plan, gates, t) + s.left[waited] <= Critical(plan, gates, s)
  {
    if gates == [] {
    } else {
      var last := gates[|gates| - 1];
      assert last.id in Ids(gates);
      assert Ids(gates[..|gates| - 1]) <= Ids(gates);
      CriticalAfterWait(plan, gates[..|gates| - 1], s, t, waited);
      RemainingAfterWait(plan, s, t, waited, last.id);
    }
  }

  lemma {:induction false} CriticalBounds(plan: Plan, gates: seq<Gate>, s: Clocked, id: string)
    requires plan.Valid() && IsState(plan, s) && Ids(gates) <= Ids(plan.gates) && id in Ids(gates)
    ensures id in s.states && Remaining(plan, s, id) <= Critical(plan, gates, s)
  {
    var init, last := gates[..|gates| - 1], gates[|gates| - 1];
    assert gates == init + [last];
    assert last.id in Ids(gates) && Ids(init) <= Ids(gates);
    if id == last.id {
    } else {
      CriticalBounds(plan, init, s, id);
    }
  }

  lemma ProgressAfterWait(plan: Plan, s: Clocked, t: Clocked, waited: string, id: string)
    requires IsState(plan, s) && WaitStep(plan, s, t, waited) && id in s.states
    ensures Progress(plan, t, id) == Progress(plan, s, id) + if s.states[id] == Running then s.left[waited] else 0
  {
  }

  /** The work of k gates over a time. */
  function Area(k: nat, time: nat): nat {
    if k == 0 then 0 else Area(k - 1, time) + time
  }

  lemma {:induction false} AreaIsProduct(k: nat, time: nat)
    ensures Area(k, time) == k * time
  {
    if k == 0 {
    } else {
      AreaIsProduct(k - 1, time);
    }
  }

  /** A wait of length d with k running gates completes k*d units of work. */
  lemma {:induction false} DoneAfterWait(plan: Plan, gates: seq<Gate>, s: Clocked, t: Clocked, waited: string)
    requires IsState(plan, s) && WaitStep(plan, s, t, waited) && Ids(gates) <= Ids(plan.gates)
    ensures Done(plan, gates, t) == Done(plan, gates, s) + Area(RunningCount(gates, s.states), s.left[waited])
  {
    if gates == [] {
    } else {
      var init, last := gates[..|gates| - 1], gates[|gates| - 1];
      assert last.id in Ids(gates) && Ids(init) <= Ids(gates);
      DoneAfterWait(plan, init, s, t, waited);
      ProgressAfterWait(plan, s, t, waited, last.id);
    }
  }

  lemma {:induction false} DoneFrame(plan: Plan, gates: seq<Gate>, s: Clocked, t: Clocked)
    requires forall id | id in Ids(gates) :: Progress(plan, t, id) == Progress(plan, s, id)
    ensures Done(plan, gates, t) == Done(plan, gates, s)
  {
    if gates == [] {
    } else {
      assert gates[|gates| - 1].id in Ids(gates) && Ids(gates[..|gates| - 1]) <= Ids(gates);
      DoneFrame(plan, gates[..|gates| - 1], s, t);
    }
  }

  /** What a start does to the three quantities of the potential: nothing. */
  lemma StartEffects(plan: Plan, s: Clocked, t: Clocked, i: nat)
    requires plan.Valid() && IsState(plan, s) && StartStep(plan, s, t, i) && IsState(plan, t)
    ensures t.now == s.now && Done(plan, plan.gates, t) == Done(plan, plan.gates, s)
    ensures Critical(plan, plan.gates, t) == Critical(plan, plan.gates, s)
  {
    RunsWhenStartable(plan, s, plan.gates[i]);
    assert forall id | id in s.states :: Progress(plan, t, id) == Progress(plan, s, id);
    DoneFrame(plan, plan.gates, s, t);
    forall id | id in s.states ensures Remaining(plan, t, id) == Remaining(plan, s, id) {
      RemainingAfterStart(plan, s, t, i, id);
    }
    CriticalFrame(plan, plan.gates, s, t);
  }

  /** Nor does a skip. */
  lemma SkipEffects(plan: Plan, s: Clocked, t: Clocked, i: nat)
    requires plan.Valid() && IsState(plan, s) && SkipStep(plan, s, t, i) && IsState(plan, t)
    ensures t.now == s.now && Done(plan, plan.gates, t) == Done(plan, plan.gates, s)
    ensures Critical(plan, plan.gates, t) == Critical(plan, plan.gates, s)
  {
    hide NoneStartable, Doomed, Critical, Done, Remaining, Solves, WellFormed, IsRank;
    SkippedWhenDoomed(plan, s, plan.gates[i]);
    assert forall id | id in s.states :: Progress(plan, t, id) == Progress(plan, s, id);
    DoneFrame(plan, plan.gates, s, t);
    forall id | id in s.states ensures Remaining(plan, t, id) == Remaining(plan, s, id) {
      RemainingAfterSkip(plan, s, t, i, id);
    }
    CriticalFrame(plan, plan.gates, s, t);
  }

  lemma {:induction false} DoneAtMostTotal(plan: Plan, gates: seq<Gate>, s: Clocked)
    ensures Done(plan, gates, s) <= TotalWork(plan, gates)
  {
    if gates == [] {
    } else {
      DoneAtMostTotal(plan, gates[..|gates| - 1], s);
    }
  }

  lemma {:induction false} RunningGateCounts(gates: seq<Gate>, states: States, id: string)
    requires id in Ids(gates) && id in states && states[id] == Running
    ensures RunningCount(gates, states) >= 1
  {
    var init, last := gates[..|gates| - 1], gates[|gates| - 1];
    assert gates == init + [last];
    if last.id == id {
    } else {
      RunningGateCounts(init, states, id);
    }
  }

  /** The list-scheduling potential: elapsed time is paid for by finished work and shortened chains. */
  predicate Pays(workers: int, now: int, critical: int, done: int, chain: int) {
    workers * now + (workers - 1) * critical <= done + (workers - 1) * chain
  }

  ghost predicate Paid(plan: Plan, s: Clocked)
    requires plan.Valid() && IsState(plan, s)
  {
    Pays(plan.workers, s.now, Critical(plan, plan.gates, s), Done(plan, plan.gates, s), LongestChain(plan))
  }

  ghost function LongestChain(plan: Plan): nat
    requires plan.Valid()
  {
    Critical(plan, plan.gates, Begin(plan))
  }

  lemma WaitArithmetic(m: int, now: int, d: nat, k: nat, before: int, after: int, done: int, chain: int)
    requires m >= 1 && d >= 0 && 1 <= k <= m && after <= before
    requires Pays(m, now, before, done, chain)
    requires k == m || after + d <= before
    ensures Pays(m, now + d, after, done + Area(k, d), chain)
  {
    AreaIsProduct(k, d);
    assert m * (now + d) == m * now + m * d;
    if k == m {
      assert (m - 1) * after <= (m - 1) * before;
    } else {
      assert (m - 1) * (after + d) <= (m - 1) * before;
      assert (m - 1) * (after + d) == (m - 1) * after + m * d - d;
      assert d <= k * d;
    }
  }

  /** What one wait does to the three quantities of the potential. */
  lemma WaitEffects(plan: Plan, s: Clocked, t: Clocked, waited: string)
    requires plan.Valid() && IsState(plan, s) && Unblocked(plan, s)
    requires WaitStep(plan, s, t, waited) && IsState(plan, t)
    ensures var gates, k, d := plan.gates, RunningCount(plan.gates, s.states), s.left[waited];
            && t.now == s.now + d && k >= 1
            && Done(plan, gates, t) == Done(plan, gates, s) + Area(k, d)
            && Critical(plan, gates, t) <= Critical(plan, gates, s)
            && (k == plan.workers || Critical(plan, gates, t) + d <= Critical(plan, gates, s))
  {
    var gates := plan.gates;
    RunningGateCounts(gates, s.states, waited);
    DoneAfterWait(plan, gates, s, t, waited);
    CriticalAfterWait(plan, gates, s, t, waited);
    CriticalBounds(plan, gates, s, waited);
  }

  /** The potential survives such effects. */
  lemma EffectsPay(plan: Plan, s: Clocked, t: Clocked, k: nat, d: nat)
    requires plan.Valid() && IsState(plan, s) && IsState(plan, t) && Paid(plan, s)
    requires t.now == s.now + d && 1 <= k <= plan.workers
    requires Done(plan, plan.gates, t) == Done(plan, plan.gates, s) + Area(k, d)
    requires Critical(plan, plan.gates, t) <= Critical(plan, plan.gates, s)
    requires k == plan.workers || Critical(plan, plan.gates, t) + d <= Critical(plan, plan.gates, s)
    ensures Paid(plan, t)
  {
    WaitArithmetic(plan.workers, s.now, d, k, Critical(plan, plan.gates, s), Critical(plan, plan.gates, t),
                   Done(plan, plan.gates, s), LongestChain(plan));
  }

  lemma PaidAfterWait(plan: Plan, s: Clocked, t: Clocked, waited: string)
    requires plan.Valid() && IsState(plan, s) && Unblocked(plan, s) && IsState(plan, t)
    requires Paid(plan, s) && WaitStep(plan, s, t, waited)
    requires RunningCount(plan.gates, s.states) <= plan.workers
    ensures Paid(plan, t)
  {
    WaitEffects(plan, s, t, waited);
    EffectsPay(plan, s, t, RunningCount(plan.gates, s.states), s.left[waited]);
  }

  lemma {:induction false} CountAfterUpdate(gates: seq<Gate>, states: States, id: string, state: GateState)
    requires DistinctIds(gates) && id in states
    ensures RunningCount(gates, states[id := state]) <=
              RunningCount(gates, states) + if state == Running && states[id] != Running then 1 else 0
    ensures id !in Ids(gates) ==> RunningCount(gates, states[id := state]) == RunningCount(gates, states)
  {
    if gates == [] {
    } else {
      var init, last := gates[..|gates| - 1], gates[|gates| - 1];
      assert last.id in Ids(gates) && Ids(init) <= Ids(gates);
      if id in Ids(init) {
        var k :| 0 <= k < |init| && init[k].id == id;
        assert gates[k].id == id;
      }
      CountAfterUpdate(init, states, id, state);
    }
  }

  lemma {:induction false} NothingDoneInitially(plan: Plan, gates: seq<Gate>)
    ensures Done(plan, gates, Begin(plan)) == 0 && RunningCount(gates, Begin(plan).states) == 0
  {
    if gates == [] {
    } else {
      NothingDoneInitially(plan, gates[..|gates| - 1]);
    }
  }

  ghost predicate Reached(plan: Plan, s: Clocked)
    requires plan.Valid()
  {
    IsState(plan, s) && Paid(plan, s) && RunningCount(plan.gates, s.states) <= plan.workers
  }

  ghost predicate WaitsUnblocked(plan: Plan, s: Clocked, t: Clocked) {
    (exists waited :: WaitStep(plan, s, t, waited)) ==> Unblocked(plan, s)
  }

  lemma StepKeepsReached(plan: Plan, s: Clocked, t: Clocked)
    requires plan.Valid() && Reached(plan, s) && Step(plan, s, t) && WaitsUnblocked(plan, s, t)
    ensures Reached(plan, t)
  {
    if i: nat :| StartStep(plan, s, t, i) {
      StartKeepsState(plan, s, t, i);
      StartEffects(plan, s, t, i);
      CountAfterUpdate(plan.gates, s.states, plan.gates[i].id, Running);
    } else if i: nat :| SkipStep(plan, s, t, i) {
      SkipKeepsState(plan, s, t, i);
      SkipEffects(plan, s, t, i);
      CountAfterUpdate(plan.gates, s.states, plan.gates[i].id, Settled(Skipped));
    } else {
      var waited :| WaitStep(plan, s, t, waited);
      WaitKeepsState(plan, s, t, waited);
      PaidAfterWait(plan, s, t, waited);
      CountAfterUpdate(plan.gates, s.states, waited, Settled(plan.execute(waited)));
    }
  }

  lemma {:induction false} RunKeepsReached(plan: Plan, run: seq<Clocked>, k: nat)
    requires plan.Valid() && IsRun(plan, run) && k < |run|
    requires forall j | 0 <= j < |run| - 1 :: WaitsUnblocked(plan, run[j], run[j + 1])
    ensures Reached(plan, run[k])
  {
    if k == 0 {
      NothingDoneInitially(plan, plan.gates);
    } else {
      RunKeepsReached(plan, run, k - 1);
      StepKeepsReached(plan, run[k - 1], run[k]);
    }
  }

  /** A moment keeps Graham's bound: with m workers, total work W and longest chain L, m*T <= W + (m-1)*L. */
  ghost predicate WithinBound(plan: Plan, now: nat)
    requires plan.Valid()
  {
    plan.workers * now <= TotalWork(plan, plan.gates) + (plan.workers - 1) * LongestChain(plan)
  }

  lemma BoundArithmetic(m: int, now: int, critical: int, done: int, total: int, chain: int)
    requires m >= 1 && critical >= 0 && done <= total
    requires Pays(m, now, critical, done, chain)
    ensures m * now <= total + (m - 1) * chain
  {
    assert (m - 1) * critical >= 0;
  }

  lemma ReachedKeepsBound(plan: Plan, s: Clocked)
    requires plan.Valid() && Reached(plan, s)
    ensures WithinBound(plan, s.now)
  {
    DoneAtMostTotal(plan, plan.gates, s);
    BoundArithmetic(plan.workers, s.now, Critical(plan, plan.gates, s), Done(plan, plan.gates, s),
                    TotalWork(plan, plan.gates), LongestChain(plan));
  }

  /** Graham's bound, for every moment of a run whose waits are never for skips alone. */
  lemma UnblockedKeepsBound(plan: Plan, run: seq<Clocked>, k: nat)
    requires plan.Valid() && IsRun(plan, run) && k < |run|
    requires forall j | 0 <= j < |run| - 1 :: WaitsUnblocked(plan, run[j], run[j + 1])
    ensures WithinBound(plan, run[k].now)
  {
    RunKeepsReached(plan, run, k);
    ReachedKeepsBound(plan, run[k]);
  }

  lemma {:induction false} RunKeepsStates(plan: Plan, run: seq<Clocked>, k: nat)
    requires plan.Valid() && IsRun(plan, run) && k < |run|
    ensures IsState(plan, run[k])
  {
    if k == 0 {
    } else {
      RunKeepsStates(plan, run, k - 1);
      StepKeepsState(plan, run[k - 1], run[k]);
    }
  }

  lemma NoSkipUnblocks(plan: Plan, s: Clocked)
    requires plan.Valid() && AwaitsNoSkip(plan) && IsState(plan, s)
    ensures Unblocked(plan, s)
  {
    if NoneStartable(plan.gates, s.states) {
      forall id | id in s.states && s.states[id] == Pending && Runs(plan, id) ensures AwaitsRun(plan, s, id) {
        var p := BlockedPredecessor(plan, s, id);
      }
    }
  }

  /**
   * Graham's bound, for every moment of every run in which no executed gate waits for a skipped one; work and
   * chains are those of the executed gates.
   */
  lemma MakespanBound(plan: Plan, run: seq<Clocked>, k: nat)
    requires plan.Valid() && AwaitsNoSkip(plan) && IsRun(plan, run) && k < |run|
    ensures WithinBound(plan, run[k].now)
  {
    forall j | 0 <= j < |run| - 1 ensures WaitsUnblocked(plan, run[j], run[j + 1]) {
      RunKeepsStates(plan, run, j);
      NoSkipUnblocks(plan, run[j]);
    }
    UnblockedKeepsBound(plan, run, k);
  }

  /** Some gate runs whenever time passes. */
  ghost predicate Busy(plan: Plan, s: Clocked) {
    IsState(plan, s) && s.now <= Done(plan, plan.gates, s)
  }

  lemma StepKeepsBusy(plan: Plan, s: Clocked, t: Clocked)
    requires plan.Valid() && Busy(plan, s) && Step(plan, s, t)
    ensures Busy(plan, t)
  {
    if i: nat :| StartStep(plan, s, t, i) {
      StartKeepsState(plan, s, t, i);
      StartEffects(plan, s, t, i);
    } else if i: nat :| SkipStep(plan, s, t, i) {
      SkipKeepsState(plan, s, t, i);
      SkipEffects(plan, s, t, i);
    } else {
      var waited :| WaitStep(plan, s, t, waited);
      WaitKeepsState(plan, s, t, waited);
      RunningGateCounts(plan.gates, s.states, waited);
      DoneAfterWait(plan, plan.gates, s, t, waited);
    }
  }

  lemma {:induction false} RunKeepsBusy(plan: Plan, run: seq<Clocked>, k: nat)
    requires plan.Valid() && IsRun(plan, run) && k < |run|
    ensures Busy(plan, run[k])
  {
    if k == 0 {
      NothingDoneInitially(plan, plan.gates);
    } else {
      RunKeepsBusy(plan, run, k - 1);
      StepKeepsBusy(plan, run[k - 1], run[k]);
    }
  }

  /** No run, whatever fails, takes longer than its work one gate at a time. */
  lemma NoLongerThanWork(plan: Plan, run: seq<Clocked>, k: nat)
    requires plan.Valid() && IsRun(plan, run) && k < |run|
    ensures run[k].now <= TotalWork(plan, plan.gates)
  {
    RunKeepsBusy(plan, run, k);
    DoneAtMostTotal(plan, plan.gates, run[k]);
  }

  lemma SerialArithmetic(m: int, now: int, total: int, chain: int)
    requires m >= 1 && 0 <= now <= total && (m == 1 || total <= chain)
    ensures m * now <= total + (m - 1) * chain
  {
    if m > 1 {
      assert (m - 1) * now <= (m - 1) * chain;
      assert m * now == now + (m - 1) * now;
    }
  }

  /** So the bound holds of every run with one worker, and of every run whose work is one chain. */
  lemma SerialBound(plan: Plan, run: seq<Clocked>, k: nat)
    requires plan.Valid() && IsRun(plan, run) && k < |run|
    requires plan.workers == 1 || TotalWork(plan, plan.gates) <= LongestChain(plan)
    ensures WithinBound(plan, run[k].now)
  {
    NoLongerThanWork(plan, run, k);
    SerialArithmetic(plan.workers, run[k].now, TotalWork(plan, plan.gates), LongestChain(plan));
  }

  ghost predicate AllPass(plan: Plan) {
    forall id :: plan.execute(id) == Passed
  }

  lemma {:induction false} PassingRuns(plan: Plan, id: string)
    requires plan.Valid() && AllPass(plan) && id in plan.duration
    ensures Runs(plan, id) && plan.status[id] == Passed
    decreases Height(plan, id)
  {
    GraphFacts(plan, id);
    var gate := ById(plan.gates)[id];
    forall d | d in gate.needs ensures d in plan.status && plan.status[d] == Passed {
      assert d in Predecessors(gate);
      PassingRuns(plan, d);
    }
    ExecutedStatus(plan, id);
  }

  /** When every gate passes none is skipped, so the bound holds of every all-passing run. */
  lemma AllPassingAwaitsNoSkip(plan: Plan)
    requires plan.Valid() && AllPass(plan)
    ensures AwaitsNoSkip(plan)
  {
    forall gate, p | gate in plan.gates && Runs(plan, gate.id) && p in gate.after ensures Runs(plan, p) {
      assert p in Predecessors(gate);
      PassingRuns(plan, p);
    }
  }

  /** Summed durations along a walk of predecessor edges. */
  ghost function ChainTime(plan: Plan, walk: seq<string>): nat {
    if walk == [] then 0 else Cost(plan, walk[0]) + ChainTime(plan, walk[1..])
  }

  /** A walk of predecessor edges through executed gates. */
  ghost predicate IsChain(plan: Plan, walk: seq<string>) {
    && walk != [] && (forall id | id in walk :: id in Ids(plan.gates) && Runs(plan, id))
    && IsWalk(ById(plan.gates), walk)
  }

  lemma {:induction false} MaxRemainingCovers(plan: Plan, s: Clocked, id: string, predecessors: seq<string>, p: string)
    requires plan.Valid() && IsState(plan, s) && id in s.states && p in predecessors
    requires forall q | q in predecessors :: q in s.states && Height(plan, q) < Height(plan, id)
    ensures Remaining(plan, s, p) <= MaxRemaining(plan, s, id, predecessors)
  {
    if p == predecessors[0] {
    } else {
      MaxRemainingCovers(plan, s, id, predecessors[1..], p);
    }
  }

  lemma {:induction false} ChainFits(plan: Plan, walk: seq<string>)
    requires plan.Valid() && IsChain(plan, walk)
    ensures ChainTime(plan, walk) <= Remaining(plan, Begin(plan), walk[0])
  {
    var id := walk[0];
    GraphFacts(plan, id);
    if |walk| > 1 {
      var rest := walk[1..];
      assert Edge(ById(plan.gates), walk[0], walk[1]);
      forall i | 0 <= i < |rest| - 1 ensures Edge(ById(plan.gates), rest[i], rest[i + 1]) {
        assert Edge(ById(plan.gates), walk[i + 1], walk[i + 2]);
      }
      ChainFits(plan, rest);
      MaxRemainingCovers(plan, Begin(plan), id, Predecessors(ById(plan.gates)[id]), walk[1]);
    } else {
      assert walk[1..] == [];
    }
  }

  lemma {:induction false} ChainAttained(plan: Plan, id: string) returns (walk: seq<string>)
    requires plan.Valid() && id in plan.duration && Runs(plan, id)
    ensures IsChain(plan, walk) && walk[0] == id && ChainTime(plan, walk) == Remaining(plan, Begin(plan), id)
    decreases Height(plan, id), 1, 0
  {
    GraphFacts(plan, id);
    var predecessors := Predecessors(ById(plan.gates)[id]);
    var tail := MaxAttained(plan, id, predecessors);
    walk := [id] + tail;
    assert walk[1..] == tail;
    forall i | 0 <= i < |walk| - 1 ensures Edge(ById(plan.gates), walk[i], walk[i + 1]) {
      if i > 0 { assert Edge(ById(plan.gates), tail[i - 1], tail[i]); }
    }
  }

  lemma {:induction false} MaxAttained(plan: Plan, id: string, predecessors: seq<string>) returns (tail: seq<string>)
    requires plan.Valid() && id in plan.duration
    requires forall p | p in predecessors :: p in plan.duration && Height(plan, p) < Height(plan, id)
    ensures tail == [] || (IsChain(plan, tail) && tail[0] in predecessors)
    ensures ChainTime(plan, tail) == MaxRemaining(plan, Begin(plan), id, predecessors)
    decreases Height(plan, id), 0, |predecessors|
  {
    tail := [];
    if predecessors == [] {
    } else {
      tail := MaxAttained(plan, id, predecessors[1..]);
      if Runs(plan, predecessors[0]) {
        var first := ChainAttained(plan, predecessors[0]);
        if ChainTime(plan, tail) <= ChainTime(plan, first) { tail := first; }
      }
    }
  }

  lemma {:induction false} CriticalAttained(plan: Plan, gates: seq<Gate>) returns (id: string)
    requires plan.Valid() && gates != [] && Ids(gates) <= Ids(plan.gates)
    ensures id in Ids(gates) && Critical(plan, gates, Begin(plan)) == Remaining(plan, Begin(plan), id)
  {
    var init, last := gates[..|gates| - 1], gates[|gates| - 1];
    assert last.id in Ids(gates) && Ids(init) <= Ids(gates);
    if init == [] || Critical(plan, init, Begin(plan)) <= Remaining(plan, Begin(plan), last.id) {
      id := last.id;
    } else {
      id := CriticalAttained(plan, init);
    }
  }

  /** `LongestChain` is what its name says: it bounds every chain and, unless it is zero, some chain attains it. */
  lemma LongestChainIsLongest(plan: Plan) returns (longest: seq<string>)
    requires plan.Valid()
    ensures forall walk | IsChain(plan, walk) :: ChainTime(plan, walk) <= LongestChain(plan)
    ensures ChainTime(plan, longest) == LongestChain(plan) && (longest == [] || IsChain(plan, longest))
  {
    forall walk | IsChain(plan, walk) ensures ChainTime(plan, walk) <= LongestChain(plan) {
      ChainFits(plan, walk);
      CriticalBounds(plan, plan.gates, Begin(plan), walk[0]);
    }
    var id := CriticalAttained(plan, plan.gates);
    longest := [];
    if Runs(plan, id) { longest := ChainAttained(plan, id); }
  }
}
