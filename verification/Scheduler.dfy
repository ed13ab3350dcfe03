/** The bounded scheduler of scripts/run-gates.ts over any interleaving of settling gates. */
module Scheduler {
  import opened JavaScript
  import opened Options
  import opened GateGraph
  import opened Outcome
  import opened CycleFinder

  datatype GateState = Pending | Running | Settled(status: Status)

  /** `failedDeps` is what a skip reports; it is empty for an executed gate. */
  datatype GateResult = GateResult(gate: Gate, status: Status, failedDeps: seq<string>)

  type States = map<string, GateState>

  predicate IsPassed(states: States, id: string) {
    id in states && states[id] == Settled(Passed)
  }

  predicate GateSettled(states: States, id: string) {
    id in states && states[id].Settled?
  }

  predicate GateFailed(states: States, id: string) {
    GateSettled(states, id) && states[id].status != Passed
  }

  predicate PredecessorsReady(gate: Gate, states: States) {
    && NeedsMet(gate, states)
    && (forall p | p in gate.after :: GateSettled(states, p))
  }

  predicate Startable(gate: Gate, states: States) {
    gate.id in states && states[gate.id] == Pending && PredecessorsReady(gate, states)
  }

  predicate Doomed(gate: Gate, states: States) {
    gate.id in states && states[gate.id] == Pending && SomeNeedFailed(gate, states)
  }

  /** What `gates.find` returns for each of its two tests: the least index satisfying it. */
  ghost predicate FirstStartable(gates: seq<Gate>, states: States, i: nat) {
    i < |gates| && Startable(gates[i], states) && forall k | 0 <= k < i :: !Startable(gates[k], states)
  }

  ghost predicate FirstDoomed(gates: seq<Gate>, states: States, i: nat) {
    i < |gates| && Doomed(gates[i], states) && forall k | 0 <= k < i :: !Doomed(gates[k], states)
  }

  ghost predicate NoneStartable(gates: seq<Gate>, states: States) {
    forall gate | gate in gates :: !Startable(gate, states)
  }

  /** Pending gates count twice and running gates once; every loop turn lowers it. */
  ghost function Work(gates: seq<Gate>, states: States): nat {
    if gates == [] then 0 else
      Work(gates[..|gates| - 1], states) + Weight(states, gates[|gates| - 1].id)
  }

  ghost function Weight(states: States, id: string): nat {
    if id !in states || states[id].Settled? then 0 else if states[id].Pending? then 2 else 1
  }

  lemma {:induction false} WorkFrame(gates: seq<Gate>, s: States, t: States)
    requires forall gate | gate in gates :: Weight(s, gate.id) == Weight(t, gate.id)
    ensures Work(gates, s) == Work(gates, t)
  {
    if gates == [] {
    } else {
      var init := gates[..|gates| - 1];
      assert gates == init + [gates[|gates| - 1]];
      WorkFrame(init, s, t);
    }
  }

  /** Changing one gate's state changes the measure by that gate's weight alone. */
  lemma {:induction false} WorkUpdate(gates: seq<Gate>, s: States, id: string, state: GateState)
    requires DistinctIds(gates) && id in Ids(gates)
    ensures Work(gates, s[id := state]) == Work(gates, s) - Weight(s, id) + Weight(s[id := state], id)
  {
    var last := gates[|gates| - 1];
    var init := gates[..|gates| - 1];
    assert gates == init + [last];
    if last.id == id {
      forall gate | gate in init ensures Weight(s, gate.id) == Weight(s[id := state], gate.id) {
        var k :| 0 <= k < |init| && init[k] == gate;
        assert gates[k].id != gates[|gates| - 1].id;
      }
      WorkFrame(init, s, s[id := state]);
    } else {
      var k :| 0 <= k < |gates| && gates[k].id == id;
      assert init[k].id == id && init[k] in init;
      WorkUpdate(init, s, id, state);
    }
  }

  predicate NeedsMet(gate: Gate, states: States) {
    forall d | d in gate.needs :: IsPassed(states, d)
  }

  predicate SomeNeedFailed(gate: Gate, states: States) {
    exists d | d in gate.needs :: GateFailed(states, d)
  }

  /** A gate may be in `state` when its needs are as `states` says. */
  ghost predicate Justified(gate: Gate, execute: string -> Status, states: States, state: GateState) {
    match state
    case Pending => true
    case Running => NeedsMet(gate, states)
    case Settled(status) =>
      if NeedsMet(gate, states) then status == execute(gate.id)
      else status == Skipped && SomeNeedFailed(gate, states)
  }

  /** Every state obeys the defining equation on what is already settled. */
  ghost predicate Faithful(gates: seq<Gate>, execute: string -> Status, states: States) {
    && states.Keys == Ids(gates)
    && forall gate | gate in gates :: Justified(gate, execute, states, states[gate.id])
  }

  /** Justification survives a change to a gate that had not settled. */
  lemma JustifiedFrame(gate: Gate, execute: string -> Status, states: States, state: GateState, id: string,
                       next: GateState)
    requires Justified(gate, execute, states, state)
    requires id in states && !states[id].Settled?
    ensures Justified(gate, execute, states[id := next], state)
  {
    var s := states[id := next];
    if NeedsMet(gate, states) {
      assert NeedsMet(gate, s);
    } else if SomeNeedFailed(gate, states) {
      var d :| d in gate.needs && GateFailed(states, d);
      assert GateFailed(s, d);
      assert SomeNeedFailed(gate, s) && !NeedsMet(gate, s);
    }
  }

  /** A step touches one unsettled gate and keeps every settled fact. */
  lemma FaithfulStep(gates: seq<Gate>, execute: string -> Status, states: States, gate: Gate, state: GateState)
    requires DistinctIds(gates) && Faithful(gates, execute, states)
    requires gate in gates && !states[gate.id].Settled?
    requires state != Pending && Justified(gate, execute, states, state)
    ensures Faithful(gates, execute, states[gate.id := state])
  {
    var next := states[gate.id := state];
    forall other | other in gates ensures Justified(other, execute, next, next[other.id]) {
      if other.id == gate.id {
        assert other == gate;
        JustifiedFrame(gate, execute, states, state, gate.id, state);
      } else {
        JustifiedFrame(other, execute, states, states[other.id], gate.id, state);
      }
    }
  }

  /** A fully settled faithful state is a solution. */
  lemma SettledIsSolution(gates: seq<Gate>, execute: string -> Status, states: States)
    requires Faithful(gates, execute, states) && forall gate | gate in gates :: states[gate.id].Settled?
    ensures Solves(gates, execute, Statuses(states))
  {
    forall gate | gate in gates ensures NeedsPassed(gate, Statuses(states)) <==> NeedsMet(gate, states) {
    }
  }

  ghost function Statuses(states: States): map<string, Status> {
    map id | id in states && states[id].Settled? :: states[id].status
  }

  /**
   * No stall: if nothing runs and nothing can start, some pending gate has a failed need.
   * Walking down the ranks from any pending gate reaches one whose predecessors have all settled.
   */
  lemma {:induction false} NeverStalls(gates: seq<Gate>, rank: map<string, nat>, states: States, gate: Gate)
    requires WellFormed(gates) && IsRank(ById(gates), rank) && states.Keys == Ids(gates)
    requires gate in gates && gate.id in rank && states[gate.id] == Pending
    requires NoneStartable(gates, states) && forall g | g in gates :: states[g.id] != Running
    ensures exists g | g in gates :: Doomed(g, states)
    decreases rank[gate.id]
  {
    ByIdKeys(gates);
    ByIdFinds(gates, gate);
    if p :| p in Predecessors(gate) && states[p] == Pending {
      assert Edge(ById(gates), gate.id, p);
      NeverStalls(gates, rank, states, ById(gates)[p]);
    } else {
      forall p | p in Predecessors(gate) ensures GateSettled(states, p) {
        var g := ById(gates)[p];
        assert g in gates && states[g.id] != Running;
      }
      assert !Startable(gate, states);
      assert forall p | p in gate.after :: p in Predecessors(gate);
      var d :| d in gate.needs && !IsPassed(states, d);
      assert d in Predecessors(gate);
      assert GateFailed(states, d);
      assert SomeNeedFailed(gate, states);
      assert Doomed(gate, states);
    }
  }

  lemma SomeDoomed(gates: seq<Gate>, states: States, running: seq<Gate>, maxActive: nat)
    requires WellFormed(gates) && states.Keys == Ids(gates) && NoneStartable(gates, states)
    requires RunningOk(gates, states, running, maxActive) && running == []
    requires exists gate | gate in gates :: states[gate.id] == Pending
    ensures exists gate | gate in gates :: Doomed(gate, states)
  {
    forall gate | gate in gates ensures states[gate.id] != Running {
      assert gate !in running;
    }
    var rank :| IsRank(ById(gates), rank);
    var gate :| gate in gates && states[gate.id] == Pending;
    ByIdKeys(gates);
    NeverStalls(gates, rank, states, gate);
  }

  predicate NothingPending(gates: seq<Gate>, states: States) {
    forall gate | gate in gates :: gate.id in states ==> states[gate.id] != Pending
  }

  method FindFirstDoomed(gates: seq<Gate>, states: States) returns (i: nat)
    requires exists gate | gate in gates :: Doomed(gate, states)
    ensures FirstDoomed(gates, states, i)
  {
    i := 0;
    while i < |gates|
      invariant i <= |gates| && forall k | 0 <= k < i :: !Doomed(gates[k], states)
    {
      if Doomed(gates[i], states) { return; }
      i := i + 1;
    }
    assert false;
  }

  /** `running` lists exactly the running gates, once each, never more than allowed. */
  ghost predicate RunningOk(gates: seq<Gate>, states: States, running: seq<Gate>, maxActive: nat) {
    && |running| <= maxActive
    && DistinctIds(running)
    && (forall gate | gate in running :: gate in gates && gate.id in states && states[gate.id] == Running)
    && (forall gate | gate in gates && gate.id in states && states[gate.id] == Running :: gate in running)
  }

  lemma RemovedMembers(running: seq<Gate>, i: nat)
    requires DistinctIds(running) && i < |running|
    ensures DistinctIds(running[..i] + running[i + 1..])
    ensures forall gate :: gate in running[..i] + running[i + 1..] <==> gate in running && gate.id != running[i].id
  {
    var rest := running[..i] + running[i + 1..];
    assert running == running[..i] + [running[i]] + running[i + 1..];
    forall k | 0 <= k < |rest| ensures rest[k].id != running[i].id {
      assert rest[k] == if k < i then running[k] else running[k + 1];
    }
  }

  lemma RunningRemoved(gates: seq<Gate>, states: States, running: seq<Gate>, maxActive: nat, i: nat, status: Status)
    requires RunningOk(gates, states, running, maxActive) && DistinctIds(gates) && i < |running|
    ensures RunningOk(gates, states[running[i].id := Settled(status)], running[..i] + running[i + 1..], maxActive)
  {
    RemovedMembers(running, i);
  }

  /** A gate has a result exactly when it has settled, and that result reports its status. */
  ghost predicate ResultsOk(gates: seq<Gate>, states: States, results: map<string, GateResult>) {
    && results.Keys <= Ids(gates)
    && forall gate | gate in gates :: ResultOk(gate, states, results)
  }

  ghost predicate ResultOk(gate: Gate, states: States, results: map<string, GateResult>) {
    if GateSettled(states, gate.id)
    then gate.id in results && results[gate.id].gate == gate && results[gate.id].status == states[gate.id].status
    else gate.id !in results
  }

  /** Every recorded result was observed once, and nothing else was. */
  ghost predicate ObservedOk(results: map<string, GateResult>, observed: seq<GateResult>) {
    && (forall i, j | 0 <= i < j < |observed| :: observed[i].gate.id != observed[j].gate.id)
    && (forall r | r in observed :: r.gate.id in results && results[r.gate.id] == r)
    && (forall id | id in results :: results[id] in observed && results[id].gate.id == id)
  }

  lemma StartKeeps(gates: seq<Gate>, states: States, results: map<string, GateResult>, running: seq<Gate>,
                   maxActive: nat, gate: Gate)
    requires DistinctIds(gates) && gate in gates && Startable(gate, states) && |running| < maxActive
    requires RunningOk(gates, states, running, maxActive) && ResultsOk(gates, states, results)
    ensures RunningOk(gates, states[gate.id := Running], running + [gate], maxActive)
    ensures ResultsOk(gates, states[gate.id := Running], results)
  {
  }

  lemma RecordKeeps(gates: seq<Gate>, states: States, results: map<string, GateResult>, observed: seq<GateResult>,
                    result: GateResult)
    requires DistinctIds(gates) && result.gate in gates && ResultsOk(gates, states, results)
             && ObservedOk(results, observed)
    requires !GateSettled(states, result.gate.id)
    ensures ResultsOk(gates, states[result.gate.id := Settled(result.status)], results[result.gate.id := result])
    ensures ObservedOk(results[result.gate.id := result], observed + [result])
  {
    assert ResultOk(result.gate, states, results);
  }

  /** The invariant of one run, over the values its object holds. */
  ghost predicate RunOk(gates: seq<Gate>, maxActive: nat, execute: string -> Status, states: States,
                        results: map<string, GateResult>, running: seq<Gate>, observed: seq<GateResult>)
  {
    && DistinctIds(gates)
    && Faithful(gates, execute, states)
    && RunningOk(gates, states, running, maxActive)
    && ResultsOk(gates, states, results)
    && ObservedOk(results, observed)
  }

  lemma StartKeepsRun(gates: seq<Gate>, maxActive: nat, execute: string -> Status, states: States,
                  results: map<string, GateResult>, running: seq<Gate>, observed: seq<GateResult>, gate: Gate)
    requires RunOk(gates, maxActive, execute, states, results, running, observed)
    requires gate in gates && Startable(gate, states) && |running| < maxActive
    ensures RunOk(gates, maxActive, execute, states[gate.id := Running], results, running + [gate], observed)
    ensures Work(gates, states[gate.id := Running]) == Work(gates, states) - 1
  {
    FaithfulStep(gates, execute, states, gate, Running);
    WorkUpdate(gates, states, gate.id, Running);
    StartKeeps(gates, states, results, running, maxActive, gate);
  }

  lemma SkipRunning(gates: seq<Gate>, states: States, maxActive: nat, gate: Gate)
    requires RunningOk(gates, states, [], maxActive)
    ensures RunningOk(gates, states[gate.id := Settled(Skipped)], [], maxActive)
  {
  }

  lemma SkipKeepsRun(gates: seq<Gate>, maxActive: nat, execute: string -> Status, states: States,
                 results: map<string, GateResult>, running: seq<Gate>, observed: seq<GateResult>, result: GateResult)
    requires RunOk(gates, maxActive, execute, states, results, running, observed) && running == []
    requires result.gate in gates && Doomed(result.gate, states) && result.status == Skipped
    ensures RunOk(gates, maxActive, execute, states[result.gate.id := Settled(Skipped)],
                  results[result.gate.id := result], running, observed + [result])
    ensures Work(gates, states[result.gate.id := Settled(Skipped)]) < Work(gates, states)
  {
    var gate := result.gate;
    var d :| d in gate.needs && GateFailed(states, d);
    assert !NeedsMet(gate, states);
    FaithfulStep(gates, execute, states, gate, Settled(Skipped));
    WorkUpdate(gates, states, gate.id, Settled(Skipped));
    SkipRunning(gates, states, maxActive, gate);
    RecordKeeps(gates, states, results, observed, result);
  }

  lemma SettleKeepsRun(gates: seq<Gate>, maxActive: nat, execute: string -> Status, states: States,
                   results: map<string, GateResult>, running: seq<Gate>, observed: seq<GateResult>, i: nat)
    requires RunOk(gates, maxActive, execute, states, results, running, observed) && i < |running|
    ensures var gate := running[i];
            var result := GateResult(gate, execute(gate.id), []);
            && RunOk(gates, maxActive, execute, states[gate.id := Settled(result.status)],
                     results[gate.id := result], running[..i] + running[i + 1..], observed + [result])
            && Work(gates, states[gate.id := Settled(result.status)]) < Work(gates, states)
  {
    var gate := running[i];
    assert gate in running;
    assert Justified(gate, execute, states, states[gate.id]);
    FaithfulStep(gates, execute, states, gate, Settled(execute(gate.id)));
    WorkUpdate(gates, states, gate.id, Settled(execute(gate.id)));
    RunningRemoved(gates, states, running, maxActive, i, execute(gate.id));
    RecordKeeps(gates, states, results, observed, GateResult(gate, execute(gate.id), []));
  }

  /** `t` differs from `s` only by started gates, each of which was ready in `s` already. */
  ghost predicate OnlyStarted(gates: seq<Gate>, s: States, t: States) {
    && s.Keys == t.Keys
    && (forall id | id in s :: t[id] == s[id] || (s[id] == Pending && t[id] == Running))
    && (forall gate | gate in gates && gate.id in s && t[gate.id] != s[gate.id] :: PredecessorsReady(gate, s))
  }

  lemma StartExtends(gates: seq<Gate>, s: States, t: States, gate: Gate)
    requires DistinctIds(gates) && OnlyStarted(gates, s, t) && gate in gates && Startable(gate, t)
    ensures OnlyStarted(gates, s, t[gate.id := Running])
  {
    assert forall d | IsPassed(t, d) :: IsPassed(s, d);
    assert forall p | GateSettled(t, p) :: GateSettled(s, p);
    assert PredecessorsReady(gate, s);
  }

  /** The needs that failed or were skipped, as a skip reports them. */
  function FailedDeps(needs: seq<string>, states: States): (failed: seq<string>)
    ensures forall d :: d in failed <==> d in needs && GateFailed(states, d)
  {
    if needs == [] then []
    else (if GateFailed(states, needs[0]) then [needs[0]] else []) + FailedDeps(needs[1..], states)
  }

  lemma {:induction false} FailedDepsJoin(a: seq<string>, b: seq<string>, states: States)
    ensures FailedDeps(a + b, states) == FailedDeps(a, states) + FailedDeps(b, states)
  {
    if a == [] {
      assert a + b == b;
    } else {
      assert (a + b)[1..] == a[1..] + b;
      FailedDepsJoin(a[1..], b, states);
    }
  }

  /** The positions before `n` of needs that failed or were skipped. */
  function FailedPositions(needs: seq<string>, states: States, n: nat): set<nat>
    requires n <= |needs|
  {
    set k: nat | k < n && GateFailed(states, needs[k])
  }

  lemma PositionsNext(needs: seq<string>, states: States, n: nat)
    requires n < |needs|
    ensures |FailedPositions(needs, states, n + 1)|
            == |FailedPositions(needs, states, n)| + if GateFailed(states, needs[n]) then 1 else 0
  {
    var before, positions := FailedPositions(needs, states, n), FailedPositions(needs, states, n + 1);
    assert positions == if GateFailed(states, needs[n]) then before + {n} else before;
  }

  lemma FailedDepsNext(needs: seq<string>, states: States, n: nat)
    requires n < |needs|
    ensures FailedDeps(needs[..n + 1], states)
            == FailedDeps(needs[..n], states) + if GateFailed(states, needs[n]) then [needs[n]] else []
  {
    assert needs[..n + 1] == needs[..n] + [needs[n]];
    FailedDepsJoin(needs[..n], [needs[n]], states);
  }

  lemma {:induction false} FailedDepsCount(needs: seq<string>, states: States, n: nat)
    requires n <= |needs|
    ensures |FailedDeps(needs[..n], states)| == |FailedPositions(needs, states, n)|
  {
    if n == 0 {
      assert FailedPositions(needs, states, 0) == {};
    } else {
      FailedDepsCount(needs, states, n - 1);
      FailedDepsNext(needs, states, n - 1);
      PositionsNext(needs, states, n - 1);
    }
  }

  lemma FailedDepsSplit(needs: seq<string>, states: States, i: nat)
    requires i < |needs| && GateFailed(states, needs[i])
    ensures FailedDeps(needs, states)
            == FailedDeps(needs[..i], states) + ([needs[i]] + FailedDeps(needs[i + 1..], states))
  {
    assert needs == needs[..i] + needs[i..];
    FailedDepsJoin(needs[..i], needs[i..], states);
    assert needs[i..][1..] == needs[i + 1..];
  }

  /** Each failed need stands where it would if the others were struck out, repetitions included. */
  lemma FailedDepsKeepOrder(needs: seq<string>, states: States, i: nat)
    requires i < |needs| && GateFailed(states, needs[i])
    ensures |FailedDeps(needs, states)| == |FailedPositions(needs, states, |needs|)|
    ensures |FailedPositions(needs, states, i)| < |FailedDeps(needs, states)|
    ensures FailedDeps(needs, states)[|FailedPositions(needs, states, i)|] == needs[i]
  {
    FailedDepsCount(needs, states, |needs|);
    FailedDepsCount(needs, states, i);
    assert needs[..|needs|] == needs;
    FailedDepsSplit(needs, states, i);
  }

  function Executed(gate: Gate, execute: string -> Status): GateResult {
    GateResult(gate, execute(gate.id), [])
  }

  function SkippedAt(gate: Gate, states: States): GateResult {
    GateResult(gate, Skipped, FailedDeps(gate.needs, states))
  }

  /** The states after a gate's result. */
  function After(states: States, result: GateResult): States {
    states[result.gate.id := Settled(result.status)]
  }

  lemma AfterLowersWork(gates: seq<Gate>, states: States, result: GateResult)
    requires DistinctIds(gates) && result.gate in gates
    requires result.gate.id in states && states[result.gate.id] == Pending
    ensures Work(gates, After(states, result)) < Work(gates, states)
  {
    WorkUpdate(gates, states, result.gate.id, Settled(result.status));
  }

  /**
   * The aggregate run one gate at a time: execute the first startable gate, and with none skip the first
   * doomed one.
   */
  ghost function Sequential(gates: seq<Gate>, execute: string -> Status, states: States): map<string, GateResult>
    requires DistinctIds(gates)
    decreases Work(gates, states)
  {
    if exists i: nat :: FirstStartable(gates, states, i) then
      var i: nat :| FirstStartable(gates, states, i);
      var result := Executed(gates[i], execute);
      AfterLowersWork(gates, states, result);
      Sequential(gates, execute, After(states, result))[gates[i].id := result]
    else if exists i: nat :: FirstDoomed(gates, states, i) then
      var i: nat :| FirstDoomed(gates, states, i);
      var result := SkippedAt(gates[i], states);
      AfterLowersWork(gates, states, result);
      Sequential(gates, execute, After(states, result))[gates[i].id := result]
    else map[]
  }

  lemma SequentialExecutesFirst(gates: seq<Gate>, execute: string -> Status, states: States, i: nat)
    requires DistinctIds(gates) && FirstStartable(gates, states, i)
    ensures var result := Executed(gates[i], execute);
            Sequential(gates, execute, states)
            == Sequential(gates, execute, After(states, result))[gates[i].id := result]
  {
    assert forall k: nat | FirstStartable(gates, states, k) :: k == i;
  }

  lemma SequentialSkipsFirst(gates: seq<Gate>, execute: string -> Status, states: States, i: nat)
    requires DistinctIds(gates) && NoneStartable(gates, states) && FirstDoomed(gates, states, i)
    ensures var result := SkippedAt(gates[i], states);
            Sequential(gates, execute, states)
            == Sequential(gates, execute, After(states, result))[gates[i].id := result]
  {
    assert forall k: nat | FirstDoomed(gates, states, k) :: k == i;
    assert !exists k: nat :: FirstStartable(gates, states, k);
  }

  lemma SequentialEnds(gates: seq<Gate>, execute: string -> Status, states: States)
    requires DistinctIds(gates) && forall gate | gate in gates && gate.id in states :: states[gate.id] != Pending
    ensures Sequential(gates, execute, states) == map[]
  {
    assert !exists k: nat :: FirstStartable(gates, states, k);
    assert !exists k: nat :: FirstDoomed(gates, states, k);
  }

  lemma {:induction false} SomeFirstStartable(gates: seq<Gate>, states: States, k: nat) returns (i: nat)
    requires k < |gates| && Startable(gates[k], states)
    ensures FirstStartable(gates, states, i)
    decreases k
  {
    if j: nat :| j < k && Startable(gates[j], states) {
      i := SomeFirstStartable(gates, states, j);
    } else {
      i := k;
    }
  }

  /** A settled pending gate leaves another startable gate startable. */
  lemma StartableLasts(gate: Gate, states: States, result: GateResult)
    requires Startable(gate, states) && result.gate.id != gate.id
    requires result.gate.id in states && states[result.gate.id] == Pending
    ensures Startable(gate, After(states, result))
  {
  }

  lemma AftersCommute(states: States, a: GateResult, b: GateResult)
    requires a.gate.id != b.gate.id
    ensures After(After(states, a), b) == After(After(states, b), a)
  {
  }

  lemma UpdatesCommute(results: map<string, GateResult>, a: GateResult, b: GateResult)
    requires a.gate.id != b.gate.id
    ensures results[a.gate.id := a][b.gate.id := b] == results[b.gate.id := b][a.gate.id := a]
  {
  }

  /** Any startable gate may be executed first: the results come out the same. */
  lemma {:induction false} SequentialExecutesAny(gates: seq<Gate>, execute: string -> Status, states: States,
                                                 gate: Gate)
    requires DistinctIds(gates) && gate in gates && Startable(gate, states)
    ensures Sequential(gates, execute, states)
            == Sequential(gates, execute, After(states, Executed(gate, execute)))[gate.id := Executed(gate, execute)]
    decreases Work(gates, states)
  {
    var k :| 0 <= k < |gates| && gates[k] == gate;
    var i := SomeFirstStartable(gates, states, k);
    SequentialExecutesFirst(gates, execute, states, i);
    var first, other := Executed(gates[i], execute), Executed(gate, execute);
    if i == k {
    } else {
      assert gates[i].id != gate.id;
      AfterLowersWork(gates, states, first);
      AfterLowersWork(gates, states, other);
      StartableLasts(gate, states, first);
      StartableLasts(gates[i], states, other);
      SequentialExecutesAny(gates, execute, After(states, first), gate);
      SequentialExecutesAny(gates, execute, After(states, other), gates[i]);
      AftersCommute(states, first, other);
      UpdatesCommute(Sequential(gates, execute, After(After(states, first), other)), first, other);
    }
  }

  function Initial(gates: seq<Gate>): States {
    map id | id in Ids(gates) :: Pending
  }

  /** The states with what is running put back. */
  function Waiting(states: States): States {
    map id | id in states :: if states[id].Running? then Pending else states[id]
  }

  ghost predicate RunningReady(states: States, running: seq<Gate>) {
    forall gate | gate in running :: PredecessorsReady(gate, states)
  }

  /** Finishing one gate at a time from here gives the results of the whole aggregate run that way. */
  ghost predicate Refines(gates: seq<Gate>, execute: string -> Status, states: States,
                          results: map<string, GateResult>)
    requires DistinctIds(gates)
  {
    Sequential(gates, execute, Initial(gates)) == Sequential(gates, execute, Waiting(states)) + results
  }

  /** A gate seen before position k, having passed or not. */
  ghost predicate SeenBefore(observed: seq<GateResult>, k: nat, id: string, passed: bool)
    requires k <= |observed|
  {
    exists j | 0 <= j < k :: observed[j].gate.id == id && (observed[j].status == Passed <==> passed)
  }

  /** An executed gate comes after passes of its needs and after its `after` gates, a skip after its failed needs. */
  ghost predicate Precedes(observed: seq<GateResult>, k: nat, result: GateResult)
    requires k <= |observed|
  {
    if result.failedDeps == [] then
      && (forall d | d in result.gate.needs :: SeenBefore(observed, k, d, true))
      && forall p | p in result.gate.after :: SeenBefore(observed, k, p, true) || SeenBefore(observed, k, p, false)
    else
      forall d | d in result.failedDeps :: d in result.gate.needs && SeenBefore(observed, k, d, false)
  }

  ghost predicate InOrder(observed: seq<GateResult>) {
    forall k | 0 <= k < |observed| :: Precedes(observed, k, observed[k])
  }

  lemma SeenStays(observed: seq<GateResult>, result: GateResult, k: nat, earlier: GateResult)
    requires k <= |observed| && Precedes(observed, k, earlier)
    ensures Precedes(observed + [result], k, earlier)
  {
    forall id, passed | SeenBefore(observed, k, id, passed)
      ensures SeenBefore(observed + [result], k, id, passed)
    {
      var j :| 0 <= j < k && observed[j].gate.id == id && (observed[j].status == Passed <==> passed);
      assert (observed + [result])[j] == observed[j];
    }
  }

  lemma InOrderSnoc(observed: seq<GateResult>, result: GateResult)
    requires InOrder(observed) && Precedes(observed, |observed|, result)
    ensures InOrder(observed + [result])
  {
    var longer := observed + [result];
    forall k | 0 <= k < |longer| ensures Precedes(longer, k, longer[k]) {
      if k < |observed| { assert longer[k] == observed[k] && Precedes(observed, k, observed[k]); }
      SeenStays(observed, result, k, longer[k]);
    }
  }

  lemma SettledIsSeen(gates: seq<Gate>, states: States, results: map<string, GateResult>, observed: seq<GateResult>,
                      id: string)
    requires states.Keys == Ids(gates) && ResultsOk(gates, states, results) && ObservedOk(results, observed)
    requires GateSettled(states, id)
    ensures SeenBefore(observed, |observed|, id, states[id].status == Passed)
  {
    var gate :| gate in gates && gate.id == id;
    assert ResultOk(gate, states, results);
    var j :| 0 <= j < |observed| && observed[j] == results[id];
  }

  lemma ReadyPrecedes(gates: seq<Gate>, states: States, results: map<string, GateResult>, observed: seq<GateResult>,
                      result: GateResult)
    requires states.Keys == Ids(gates) && ResultsOk(gates, states, results) && ObservedOk(results, observed)
    requires result.failedDeps == [] && PredecessorsReady(result.gate, states)
    ensures Precedes(observed, |observed|, result)
  {
    forall d | d in result.gate.needs ensures SeenBefore(observed, |observed|, d, true) {
      assert IsPassed(states, d);
      SettledIsSeen(gates, states, results, observed, d);
    }
    forall p | p in result.gate.after
      ensures SeenBefore(observed, |observed|, p, true) || SeenBefore(observed, |observed|, p, false)
    {
      SettledIsSeen(gates, states, results, observed, p);
    }
  }

  lemma SkipPrecedes(gates: seq<Gate>, states: States, results: map<string, GateResult>, observed: seq<GateResult>,
                     gate: Gate)
    requires states.Keys == Ids(gates) && ResultsOk(gates, states, results) && ObservedOk(results, observed)
    requires Doomed(gate, states)
    ensures Precedes(observed, |observed|, SkippedAt(gate, states)) && SkippedAt(gate, states).failedDeps != []
  {
    var d :| d in gate.needs && GateFailed(states, d);
    assert d in FailedDeps(gate.needs, states);
    forall d | d in FailedDeps(gate.needs, states) ensures SeenBefore(observed, |observed|, d, false) {
      SettledIsSeen(gates, states, results, observed, d);
    }
  }

  /** What a run remembers of its past, beside its invariant. */
  ghost predicate HistoryOk(gates: seq<Gate>, execute: string -> Status, states: States,
                            results: map<string, GateResult>, running: seq<Gate>, observed: seq<GateResult>)
  {
    && DistinctIds(gates) && RunningReady(states, running)
    && Refines(gates, execute, states, results) && InOrder(observed)
  }

  lemma ReadyLasts(gate: Gate, states: States, id: string, next: GateState)
    requires PredecessorsReady(gate, states) && id in states && !states[id].Settled?
    ensures PredecessorsReady(gate, states[id := next])
  {
  }

  lemma ReadyAfterStarts(gates: seq<Gate>, s: States, t: States, gate: Gate)
    requires OnlyStarted(gates, s, t) && PredecessorsReady(gate, s)
    ensures PredecessorsReady(gate, t)
  {
    forall d | d in gate.needs ensures IsPassed(t, d) { assert IsPassed(s, d); }
    forall p | p in gate.after ensures GateSettled(t, p) { assert GateSettled(s, p); }
  }

  lemma FillKeepsReady(gates: seq<Gate>, maxActive: nat, s: States, t: States, before: seq<Gate>, after: seq<Gate>)
    requires RunningOk(gates, s, before, maxActive) && RunningOk(gates, t, after, maxActive)
    requires s.Keys == Ids(gates) && OnlyStarted(gates, s, t) && RunningReady(s, before)
    ensures RunningReady(t, after)
  {
    forall gate | gate in after ensures PredecessorsReady(gate, t) {
      if s[gate.id] == Running { assert gate in before; }
      ReadyAfterStarts(gates, s, t, gate);
    }
  }

  /** Starting gates is not part of the history: it puts nothing in the results. */
  lemma FillHistory(gates: seq<Gate>, maxActive: nat, execute: string -> Status, s: States, t: States,
                    results: map<string, GateResult>, before: seq<Gate>, after: seq<Gate>, observed: seq<GateResult>)
    requires RunOk(gates, maxActive, execute, s, results, before, observed)
    requires RunOk(gates, maxActive, execute, t, results, after, observed)
    requires OnlyStarted(gates, s, t) && HistoryOk(gates, execute, s, results, before, observed)
    ensures HistoryOk(gates, execute, t, results, after, observed)
  {
    hide ResultsOk, ObservedOk, Justified, InOrder, Sequential;
    assert Waiting(t) == Waiting(s);
    FillKeepsReady(gates, maxActive, s, t, before, after);
  }

  lemma ResultMoves(rest: map<string, GateResult>, results: map<string, GateResult>, result: GateResult)
    requires result.gate.id !in results
    ensures rest[result.gate.id := result] + results == rest + results[result.gate.id := result]
  {
  }

  lemma SettleRefines(gates: seq<Gate>, execute: string -> Status, states: States,
                      results: map<string, GateResult>, gate: Gate)
    requires DistinctIds(gates) && Refines(gates, execute, states, results)
    requires gate in gates && gate.id in states && states[gate.id] == Running && gate.id !in results
    requires PredecessorsReady(gate, states)
    ensures Refines(gates, execute, After(states, Executed(gate, execute)), results[gate.id := Executed(gate, execute)])
  {
    var result := Executed(gate, execute);
    assert Startable(gate, Waiting(states)) by {
      assert forall d | IsPassed(states, d) :: IsPassed(Waiting(states), d);
      assert forall p | GateSettled(states, p) :: GateSettled(Waiting(states), p);
    }
    SequentialExecutesAny(gates, execute, Waiting(states), gate);
    assert Waiting(After(states, result)) == After(Waiting(states), result);
    ResultMoves(Sequential(gates, execute, Waiting(After(states, result))), results, result);
  }

  lemma SkipRefines(gates: seq<Gate>, execute: string -> Status, states: States,
                    results: map<string, GateResult>, i: nat)
    requires DistinctIds(gates) && Refines(gates, execute, states, results)
    requires forall id | id in states :: states[id] != Running
    requires NoneStartable(gates, states) && FirstDoomed(gates, states, i) && gates[i].id !in results
    ensures var result := SkippedAt(gates[i], states);
            Refines(gates, execute, After(states, result), results[gates[i].id := result])
  {
    var result := SkippedAt(gates[i], states);
    assert Waiting(states) == states && Waiting(After(states, result)) == After(states, result);
    SequentialSkipsFirst(gates, execute, states, i);
    ResultMoves(Sequential(gates, execute, After(states, result)), results, result);
  }

  lemma NothingYet(gates: seq<Gate>, execute: string -> Status)
    requires DistinctIds(gates)
    ensures HistoryOk(gates, execute, Initial(gates), map[], [], [])
  {
    assert Waiting(Initial(gates)) == Initial(gates);
    var full := Sequential(gates, execute, Initial(gates));
    assert full + map[] == full;
  }

  lemma SkipHistory(gates: seq<Gate>, maxActive: nat, execute: string -> Status, states: States,
                    results: map<string, GateResult>, observed: seq<GateResult>, i: nat)
    requires RunOk(gates, maxActive, execute, states, results, [], observed)
    requires HistoryOk(gates, execute, states, results, [], observed)
    requires NoneStartable(gates, states) && FirstDoomed(gates, states, i)
    ensures var result := SkippedAt(gates[i], states);
            HistoryOk(gates, execute, After(states, result), results[gates[i].id := result], [], observed + [result])
  {
    var gate, result := gates[i], SkippedAt(gates[i], states);
    assert ResultOk(gate, states, results);
    forall id | id in states ensures states[id] != Running {
      var other :| other in gates && other.id == id;
      assert other !in [];
    }
    SkipRefines(gates, execute, states, results, i);
    SkipPrecedes(gates, states, results, observed, gate);
    InOrderSnoc(observed, result);
  }

  lemma SettleHistory(gates: seq<Gate>, maxActive: nat, execute: string -> Status, states: States,
                      results: map<string, GateResult>, running: seq<Gate>, observed: seq<GateResult>, i: nat)
    requires RunOk(gates, maxActive, execute, states, results, running, observed) && i < |running|
    requires HistoryOk(gates, execute, states, results, running, observed)
    ensures var result := Executed(running[i], execute);
            HistoryOk(gates, execute, After(states, result), results[running[i].id := result],
                      running[..i] + running[i + 1..], observed + [result])
  {
    var gate, result := running[i], Executed(running[i], execute);
    assert gate in running && ResultOk(gate, states, results);
    SettleRefines(gates, execute, states, results, gate);
    ReadyPrecedes(gates, states, results, observed, result);
    InOrderSnoc(observed, result);
    forall other | other in running[..i] + running[i + 1..] ensures PredecessorsReady(other, After(states, result)) {
      assert other in running;
      ReadyLasts(other, states, gate.id, Settled(result.status));
    }
  }

  // The record of a run: its moves, each allowed by the limit where it is made.

  ghost function RunningCount(gates: seq<Gate>, states: States): nat {
    if gates == [] then 0 else
      RunningCount(gates[..|gates| - 1], states)
      + (var id := gates[|gates| - 1].id; if id in states && states[id] == Running then 1 else 0)
  }

  /** Starting a gate, skipping one, or seeing one settle, by its place in the aggregate. */
  datatype Move = Starts(i: nat) | Skips(i: nat) | Settles(i: nat)

  ghost function AfterMove(gates: seq<Gate>, execute: string -> Status, states: States, move: Move): States {
    if move.i >= |gates| then states
    else
      match move
      case Starts(i) => states[gates[i].id := Running]
      case Skips(i) => states[gates[i].id := Settled(Skipped)]
      case Settles(i) => states[gates[i].id := Settled(execute(gates[i].id))]
  }

  /**
   * The first startable gate may be started below the limit; with nothing running or startable the first doomed one
   * is skipped; and a running gate is waited for only at the limit or when nothing is startable.
   */
  ghost predicate Allowed(gates: seq<Gate>, maxActive: nat, states: States, move: Move) {
    match move
    case Starts(i) => RunningCount(gates, states) < maxActive && FirstStartable(gates, states, i)
    case Skips(i) =>
      RunningCount(gates, states) == 0 && NoneStartable(gates, states) && FirstDoomed(gates, states, i)
    case Settles(i) =>
      && i < |gates| && gates[i].id in states && states[gates[i].id] == Running
      && (RunningCount(gates, states) == maxActive || NoneStartable(gates, states))
  }

  /** The states after the first `n` moves. */
  ghost function Replay(gates: seq<Gate>, execute: string -> Status, moves: seq<Move>, n: nat): States
    requires n <= |moves|
  {
    if n == 0 then Initial(gates) else AfterMove(gates, execute, Replay(gates, execute, moves, n - 1), moves[n - 1])
  }

  /** Every move is allowed where it is made. */
  ghost predicate Legal(gates: seq<Gate>, maxActive: nat, execute: string -> Status, moves: seq<Move>) {
    forall n: nat | n < |moves| :: AllowedAt(gates, maxActive, execute, moves, n)
  }

  ghost predicate AllowedAt(gates: seq<Gate>, maxActive: nat, execute: string -> Status, moves: seq<Move>, n: nat)
    requires n < |moves|
  {
    Allowed(gates, maxActive, Replay(gates, execute, moves, n), moves[n])
  }

  /** What the observer sees of the first `n` moves. */
  ghost function Seen(gates: seq<Gate>, execute: string -> Status, moves: seq<Move>, n: nat): seq<GateResult>
    requires n <= |moves|
  {
    if n == 0 then []
    else
      Seen(gates, execute, moves, n - 1)
      + SeenOf(gates, execute, Replay(gates, execute, moves, n - 1), moves[n - 1])
  }

  ghost function SeenOf(gates: seq<Gate>, execute: string -> Status, states: States, move: Move): seq<GateResult> {
    if move.i >= |gates| then []
    else
      match move
      case Starts(_) => []
      case Skips(i) => [SkippedAt(gates[i], states)]
      case Settles(i) => [Executed(gates[i], execute)]
  }

  lemma {:induction false} PrefixReplays(gates: seq<Gate>, execute: string -> Status, moves: seq<Move>, move: Move,
                                         n: nat)
    requires n <= |moves|
    ensures Replay(gates, execute, moves + [move], n) == Replay(gates, execute, moves, n)
    ensures Seen(gates, execute, moves + [move], n) == Seen(gates, execute, moves, n)
  {
    if n > 0 { PrefixReplays(gates, execute, moves, move, n - 1); }
  }

  /** The record of a run that has come to `states`. */
  ghost predicate RecordOk(gates: seq<Gate>, maxActive: nat, execute: string -> Status, states: States,
                           observed: seq<GateResult>, moves: seq<Move>)
  {
    && Legal(gates, maxActive, execute, moves) && states == Replay(gates, execute, moves, |moves|)
    && observed == Seen(gates, execute, moves, |moves|)
  }

  lemma RecordMove(gates: seq<Gate>, maxActive: nat, execute: string -> Status, states: States,
                   observed: seq<GateResult>, moves: seq<Move>, move: Move)
    requires RecordOk(gates, maxActive, execute, states, observed, moves)
    requires Allowed(gates, maxActive, states, move)
    ensures RecordOk(gates, maxActive, execute, AfterMove(gates, execute, states, move),
                     observed + SeenOf(gates, execute, states, move), moves + [move])
  {
    var longer := moves + [move];
    forall n: nat | n < |longer| ensures AllowedAt(gates, maxActive, execute, longer, n) {
      PrefixReplays(gates, execute, moves, move, n);
      if n < |moves| { assert AllowedAt(gates, maxActive, execute, moves, n); }
    }
    PrefixReplays(gates, execute, moves, move, |moves|);
  }

  lemma LastIsNew(gates: seq<Gate>)
    requires DistinctIds(gates) && gates != []
    ensures var init, last := gates[..|gates| - 1], gates[|gates| - 1];
            last.id !in Ids(init) && Ids(gates) == Ids(init) + {last.id} && DistinctIds(init)
  {
    var init, last := gates[..|gates| - 1], gates[|gates| - 1];
    assert gates == init + [last];
    forall gate | gate in init ensures gate.id != last.id {
      var k :| 0 <= k < |init| && init[k] == gate;
      assert gates[k].id != gates[|gates| - 1].id;
    }
  }

  lemma {:induction false} RunningCounted(gates: seq<Gate>, states: States, ids: set<string>)
    requires DistinctIds(gates)
    requires forall id :: id in ids <==> id in Ids(gates) && id in states && states[id] == Running
    ensures RunningCount(gates, states) == |ids|
  {
    if gates == [] {
      assert ids == {};
    } else {
      var init, last := gates[..|gates| - 1], gates[|gates| - 1];
      LastIsNew(gates);
      RunningCounted(init, states, ids - {last.id});
    }
  }

  lemma {:induction false} DistinctCounted(gates: seq<Gate>)
    requires DistinctIds(gates)
    ensures |Ids(gates)| == |gates|
  {
    if gates == [] {
    } else {
      var init, last := gates[..|gates| - 1], gates[|gates| - 1];
      LastIsNew(gates);
      DistinctCounted(init);
    }
  }

  /** The running list is as long as the count of running gates. */
  lemma RunningIsCounted(gates: seq<Gate>, states: States, running: seq<Gate>, maxActive: nat)
    requires DistinctIds(gates) && RunningOk(gates, states, running, maxActive)
    ensures |running| == RunningCount(gates, states)
  {
    RunningCounted(gates, states, Ids(running));
    DistinctCounted(running);
  }

  lemma StartKeepsAll(gates: seq<Gate>, maxActive: nat, execute: string -> Status, states: States,
                      results: map<string, GateResult>, running: seq<Gate>, observed: seq<GateResult>,
                      moves: seq<Move>, i: nat)
    requires RunOk(gates, maxActive, execute, states, results, running, observed)
    requires RecordOk(gates, maxActive, execute, states, observed, moves)
    requires |running| < maxActive && FirstStartable(gates, states, i)
    ensures RunOk(gates, maxActive, execute, states[gates[i].id := Running], results, running + [gates[i]], observed)
    ensures RecordOk(gates, maxActive, execute, states[gates[i].id := Running], observed, moves + [Starts(i)])
    ensures Work(gates, states[gates[i].id := Running]) == Work(gates, states) - 1
  {
    StartKeepsRun(gates, maxActive, execute, states, results, running, observed, gates[i]);
    RunningIsCounted(gates, states, running, maxActive);
    RecordMove(gates, maxActive, execute, states, observed, moves, Starts(i));
    assert observed + [] == observed;
  }

  lemma SkipKeeps(gates: seq<Gate>, maxActive: nat, execute: string -> Status, states: States,
                  results: map<string, GateResult>, observed: seq<GateResult>, moves: seq<Move>, i: nat)
    requires RunOk(gates, maxActive, execute, states, results, [], observed)
    requires RecordOk(gates, maxActive, execute, states, observed, moves)
    requires NoneStartable(gates, states) && FirstDoomed(gates, states, i)
    ensures var result := SkippedAt(gates[i], states);
            && RunOk(gates, maxActive, execute, After(states, result), results[gates[i].id := result], [],
                     observed + [result])
            && RecordOk(gates, maxActive, execute, After(states, result), observed + [result], moves + [Skips(i)])
            && Work(gates, After(states, result)) < Work(gates, states)
  {
    SkipKeepsRun(gates, maxActive, execute, states, results, [], observed, SkippedAt(gates[i], states));
    RunningIsCounted(gates, states, [], maxActive);
    RecordMove(gates, maxActive, execute, states, observed, moves, Skips(i));
  }

  lemma SettleKeeps(gates: seq<Gate>, maxActive: nat, execute: string -> Status, states: States,
                    results: map<string, GateResult>, running: seq<Gate>, observed: seq<GateResult>,
                    moves: seq<Move>, i: nat)
    returns (k: nat)
    requires RunOk(gates, maxActive, execute, states, results, running, observed) && i < |running|
    requires RecordOk(gates, maxActive, execute, states, observed, moves)
    requires |running| == maxActive || NoneStartable(gates, states)
    ensures var result := Executed(running[i], execute);
            && RunOk(gates, maxActive, execute, After(states, result), results[running[i].id := result],
                     running[..i] + running[i + 1..], observed + [result])
            && RecordOk(gates, maxActive, execute, After(states, result), observed + [result], moves + [Settles(k)])
            && Work(gates, After(states, result)) < Work(gates, states)
  {
    assert running[i] in running;
    k :| 0 <= k < |gates| && gates[k] == running[i];
    SettleKeepsRun(gates, maxActive, execute, states, results, running, observed, i);
    RunningIsCounted(gates, states, running, maxActive);
    RecordMove(gates, maxActive, execute, states, observed, moves, Settles(k));
  }

  /** One run of an accepted aggregate: the mutable state of `runGates`. */
  class GateRun {
    const gates: seq<Gate>
    const maxActive: nat
    const execute: string -> Status
    var states: States
    var results: map<string, GateResult>
    var running: seq<Gate>
    /** Results in the order the observer saw them. */
    var observed: seq<GateResult>
    /** What the loop has done so far. */
    ghost var moves: seq<Move>

    ghost predicate Static() {
      WellFormed(gates) && maxActive >= 1
    }

    ghost predicate Valid()
      reads this
    {
      && Static() && RunOk(gates, maxActive, execute, states, results, running, observed)
      && RecordOk(gates, maxActive, execute, states, observed, moves)
    }

    constructor (gates: seq<Gate>, maxActive: nat, execute: string -> Status)
      requires WellFormed(gates) && maxActive >= 1
      ensures this.gates == gates && this.maxActive == maxActive && this.execute == execute
      ensures Valid() && states == Initial(gates) && results == map[] && running == [] && observed == []
    {
      this.gates, this.maxActive, this.execute := gates, maxActive, execute;
      states := Initial(gates);
      results, running, observed, moves := map[], [], [], [];
    }

    /** `gates.find` for a startable gate. */
    method FindReady() returns (ready: Option<nat>)
      requires Valid()
      ensures ready.None? <==> NoneStartable(gates, states)
      ensures ready.Some? ==> FirstStartable(gates, states, ready.value)
    {
      for i := 0 to |gates|
        invariant forall k | 0 <= k < i :: !Startable(gates[k], states)
      {
        if Startable(gates[i], states) { return Some(i); }
      }
      ready := None;
    }

    method Start(i: nat)
      requires Valid() && FirstStartable(gates, states, i) && |running| < maxActive
      modifies this`states, this`running, this`moves
      ensures Valid()
      ensures states == old(states)[gates[i].id := Running] && running == old(running) + [gates[i]]
      ensures Work(gates, states) == Work(gates, old(states)) - 1
    {
      StartKeepsAll(gates, maxActive, execute, states, results, running, observed, moves, i);
      states, running := states[gates[i].id := Running], running + [gates[i]];
      moves := moves + [Starts(i)];
    }

    /**
     * Start gates until the limit is reached or none is ready. Work conservation: afterwards the
     * limit is met or no gate can start; a started gate's needs had all passed and its `after`
     * predecessors had all settled.
     */
    method Fill() returns (madeProgress: bool)
      requires Valid()
      modifies this`states, this`running, this`moves
      ensures Valid()
      ensures |running| == maxActive || NoneStartable(gates, states)
      ensures Work(gates, states) <= Work(gates, old(states))
      ensures madeProgress ==> Work(gates, states) < Work(gates, old(states))
      ensures !madeProgress ==> states == old(states) && running == old(running)
      ensures OnlyStarted(gates, old(states), states)
    {
      madeProgress := false;
      while |running| < maxActive
        invariant Valid()
        invariant Work(gates, states) <= Work(gates, old(states))
        invariant madeProgress ==> Work(gates, states) < Work(gates, old(states))
        invariant !madeProgress ==> states == old(states) && running == old(running)
        invariant OnlyStarted(gates, old(states), states)
        decreases Work(gates, states)
      {
        var ready := FindReady();
        if ready.None? { break; }
        StartExtends(gates, old(states), states, gates[ready.value]);
        Start(ready.value);
        madeProgress := true;
      }
    }

    /** Idle with gates left: the first doomed gate. The stall error cannot be reached. */
    method FindDoomed() returns (i: nat)
      requires Valid() && running == []
      requires !NothingPending(gates, states) && NoneStartable(gates, states)
      ensures i < |gates| && FirstDoomed(gates, states, i)
    {
      SomeDoomed(gates, states, running, maxActive);
      i := FindFirstDoomed(gates, states);
    }

    method Skip(i: nat)
      requires Valid() && running == [] && NoneStartable(gates, states)
      requires i < |gates| && FirstDoomed(gates, states, i)
      modifies this
      ensures Valid() && Work(gates, states) < Work(gates, old(states)) && running == []
      ensures states == After(old(states), SkippedAt(gates[i], old(states)))
      ensures results == old(results)[gates[i].id := SkippedAt(gates[i], old(states))]
      ensures observed == old(observed) + [SkippedAt(gates[i], old(states))]
    {
      hide RunOk, RecordOk, FirstDoomed, NoneStartable, Work;
      SkipKeeps(gates, maxActive, execute, states, results, observed, moves, i);
      var result := SkippedAt(gates[i], states);
      states, results, observed := After(states, result), results[gates[i].id := result], observed + [result];
      moves := moves + [Skips(i)];
    }

    /** At the limit or with nothing startable, any running gate may settle next; the executor decides its status. */
    method SettleOne() returns (i: nat)
      requires Valid() && running != [] && (|running| == maxActive || NoneStartable(gates, states))
      modifies this
      ensures Valid() && Work(gates, states) < Work(gates, old(states))
      ensures i < |old(running)| && running == old(running)[..i] + old(running)[i + 1..]
      ensures states == After(old(states), Executed(old(running)[i], execute))
      ensures results == old(results)[old(running)[i].id := Executed(old(running)[i], execute)]
      ensures observed == old(observed) + [Executed(old(running)[i], execute)]
    {
      hide RunOk, RecordOk, NoneStartable, Work;
      i :| i < |running|;
      ghost var k := SettleKeeps(gates, maxActive, execute, states, results, running, observed, moves, i);
      var result := Executed(running[i], execute);
      results, observed := results[running[i].id := result], observed + [result];
      running, states := running[..i] + running[i + 1..], After(states, result);
      moves := moves + [Settles(k)];
    }
  }

  ghost predicate NothingLeft(states: States) {
    forall id | id in states :: states[id].Settled?
  }

  datatype RunOutcome =
    | Finished(results: seq<GateResult>)
    | BadGraph(error: GraphError)
    | BadConcurrency

  /** The results are complete, in aggregate order, and carry the unique solution's statuses. */
  ghost predicate Reports(gates: seq<Gate>, execute: string -> Status, results: seq<GateResult>) {
    && |results| == |gates|
    && exists status :: Solves(gates, execute, status) && ReportsStatus(gates, status, results)
  }

  ghost predicate ReportsStatus(gates: seq<Gate>, status: map<string, Status>, results: seq<GateResult>) {
    && |results| == |gates|
    && forall i | 0 <= i < |gates| ::
         gates[i].id in status && results[i].gate == gates[i] && results[i].status == status[gates[i].id]
  }

  /** The results of the aggregate run one gate at a time, failed needs of skips included. */
  ghost predicate IsSequential(gates: seq<Gate>, execute: string -> Status, results: seq<GateResult>)
    requires DistinctIds(gates)
  {
    var full := Sequential(gates, execute, Initial(gates));
    |results| == |gates| && forall i | 0 <= i < |gates| :: gates[i].id in full && results[i] == full[gates[i].id]
  }

  /**
   * Confluence: two runs of one aggregate agree in every result, whatever the interleavings and worker counts
   * behind them, down to the failed needs a skip names; and their statuses solve the defining equation.
   */
  lemma ReportsAgree(gates: seq<Gate>, execute: string -> Status, a: RunOutcome, b: RunOutcome,
                     status: map<string, Status>)
    requires WellFormed(gates) && Completes(gates, execute, a) && Completes(gates, execute, b)
    requires Solves(gates, execute, status)
    ensures a == b && ReportsStatus(gates, status, a.results)
  {
    var s :| Solves(gates, execute, s) && ReportsStatus(gates, s, a.results);
    SolutionIsUnique(gates, execute, s, status);
    assert a.results == b.results;
  }

  /** What a finished run is known to have reported. */
  ghost predicate Completes(gates: seq<Gate>, execute: string -> Status, outcome: RunOutcome)
    requires DistinctIds(gates)
  {
    outcome.Finished? && Reports(gates, execute, outcome.results) && IsSequential(gates, execute, outcome.results)
  }

  /**
   * Whatever gate settles first at each wait and however many workers there are, an accepted
   * aggregate ends with the same report. Neither of the two internal errors is reachable. The record says that
   * every move kept the limit and that the observer saw exactly what settled, in that order.
   */
  method RunGates(gates: seq<Gate>, maxActive: int, execute: string -> Status)
    returns (outcome: RunOutcome, observed: seq<GateResult>, ghost moves: seq<Move>)
    ensures outcome.Finished? <==> WellFormed(gates) && 1 <= maxActive <= MAX_SAFE_INTEGER
    ensures outcome.BadGraph? ==> Explains(gates, outcome.error)
    ensures outcome.BadGraph? <==> !WellFormed(gates)
    ensures outcome.Finished? ==> Completes(gates, execute, outcome)
    ensures outcome.Finished? ==> ObservedOnce(outcome.results, observed) && InOrder(observed)
    ensures outcome.Finished? ==>
              && Legal(gates, maxActive, execute, moves) && observed == Seen(gates, execute, moves, |moves|)
              && NothingLeft(Replay(gates, execute, moves, |moves|))
    ensures !outcome.Finished? ==> observed == [] && moves == []
  {
    hide RunOk, RecordOk, HistoryOk, NoneStartable, NothingPending, Work, Sequential;
    var error := ValidateGateGraph(gates);
    if error.Some? { return BadGraph(error.value), [], []; }
    if !(1 <= maxActive <= MAX_SAFE_INTEGER) { return BadConcurrency, [], []; }
    var run := new GateRun(gates, maxActive, execute);
    NothingYet(gates, execute);
    while true
      invariant run.Valid() && fresh(run) && run.gates == gates && run.execute == execute
      invariant run.maxActive == maxActive
      invariant HistoryOk(gates, execute, run.states, run.results, run.running, run.observed)
      decreases Work(gates, run.states)
    {
      label L: var madeProgress := run.Fill();
      FillHistory(gates, run.maxActive, execute, old@L(run.states), run.states, run.results, old@L(run.running),
                  run.running, run.observed);
      if run.running == [] {
        if NothingPending(gates, run.states) { break; }
        var doomed := run.FindDoomed();
        SkipHistory(gates, run.maxActive, execute, run.states, run.results, run.observed, doomed);
        run.Skip(doomed);
      } else if !madeProgress {
        label M: var i := run.SettleOne();
        SettleHistory(gates, run.maxActive, execute, old@M(run.states), old@M(run.results), old@M(run.running),
                      old@M(run.observed), i);
      }
    }
    var results := CollectResults(run);
    IdleCompletes(gates, maxActive, execute, run.states, run.results, run.observed, run.moves, results);
    outcome, observed, moves := Finished(results), run.observed, run.moves;
  }

  /** A run with nothing running and nothing pending has done what is promised of a finished one. */
  lemma IdleCompletes(gates: seq<Gate>, maxActive: nat, execute: string -> Status, states: States,
                      byId: map<string, GateResult>, observed: seq<GateResult>, moves: seq<Move>,
                      results: seq<GateResult>)
    requires RunOk(gates, maxActive, execute, states, byId, [], observed)
    requires HistoryOk(gates, execute, states, byId, [], observed)
    requires RecordOk(gates, maxActive, execute, states, observed, moves)
    requires |results| == |gates|
    requires forall k | 0 <= k < |gates| :: ReportedAt(gates, states, byId, results, k)
    ensures IsSequential(gates, execute, results) && InOrder(observed)
    ensures Legal(gates, maxActive, execute, moves) && observed == Seen(gates, execute, moves, |moves|)
    ensures NothingLeft(Replay(gates, execute, moves, |moves|))
  {
    IdleIsSequential(gates, execute, states, byId, results);
    IdleLeavesNothing(gates, states, byId, results);
  }

  lemma IdleLeavesNothing(gates: seq<Gate>, states: States, byId: map<string, GateResult>, results: seq<GateResult>)
    requires states.Keys == Ids(gates) && |results| == |gates|
    requires forall k | 0 <= k < |gates| :: ReportedAt(gates, states, byId, results, k)
    ensures NothingLeft(states)
  {
    forall id | id in states ensures states[id].Settled? {
      var k :| 0 <= k < |gates| && gates[k].id == id;
      assert ReportedAt(gates, states, byId, results, k);
    }
  }

  lemma IdleIsSequential(gates: seq<Gate>, execute: string -> Status, states: States, byId: map<string, GateResult>,
                         results: seq<GateResult>)
    requires DistinctIds(gates) && Refines(gates, execute, states, byId) && |results| == |gates|
    requires forall k | 0 <= k < |gates| :: ReportedAt(gates, states, byId, results, k)
    ensures IsSequential(gates, execute, results)
  {
    forall gate | gate in gates && gate.id in Waiting(states) ensures Waiting(states)[gate.id] != Pending {
      var k :| 0 <= k < |gates| && gates[k] == gate;
      assert ReportedAt(gates, states, byId, results, k);
    }
    SequentialEnds(gates, execute, Waiting(states));
    forall k | 0 <= k < |gates| ensures gates[k].id in byId && results[k] == byId[gates[k].id] {
      assert ReportedAt(gates, states, byId, results, k);
    }
  }

  /** The observer saw every reported result, exactly once each, and nothing else. */
  ghost predicate ObservedOnce(results: seq<GateResult>, observed: seq<GateResult>) {
    && (forall i, j | 0 <= i < j < |observed| :: observed[i].gate.id != observed[j].gate.id)
    && (forall r :: r in observed <==> r in results)
  }

  ghost predicate ReportedAt(gates: seq<Gate>, states: States, byId: map<string, GateResult>,
                             results: seq<GateResult>, k: nat)
  {
    && k < |results| && k < |gates| && gates[k].id in byId && results[k] == byId[gates[k].id]
    && results[k].gate == gates[k]
    && gates[k].id in states && states[gates[k].id] == Settled(results[k].status)
  }

  lemma ObservedAll(gates: seq<Gate>, states: States, byId: map<string, GateResult>, results: seq<GateResult>,
                    observed: seq<GateResult>)
    requires ObservedOk(byId, observed) && byId.Keys <= Ids(gates) && |results| == |gates|
    requires forall k | 0 <= k < |gates| :: ReportedAt(gates, states, byId, results, k)
    ensures ObservedOnce(results, observed)
  {
    forall r | r in observed ensures r in results {
      var k :| 0 <= k < |gates| && gates[k].id == r.gate.id;
      assert ReportedAt(gates, states, byId, results, k);
    }
    forall r | r in results ensures r in observed {
      var k :| 0 <= k < |results| && results[k] == r;
      assert ReportedAt(gates, states, byId, results, k);
    }
  }

  lemma ReportsAll(gates: seq<Gate>, execute: string -> Status, states: States, byId: map<string, GateResult>,
                   results: seq<GateResult>)
    requires Faithful(gates, execute, states) && |results| == |gates|
    requires forall k | 0 <= k < |gates| :: ReportedAt(gates, states, byId, results, k)
    ensures Reports(gates, execute, results)
  {
    forall gate | gate in gates ensures states[gate.id].Settled? {
      var k :| 0 <= k < |gates| && gates[k] == gate;
      assert ReportedAt(gates, states, byId, results, k);
    }
    SettledIsSolution(gates, execute, states);
    forall k | 0 <= k < |gates|
      ensures gates[k].id in Statuses(states) && results[k].gate == gates[k]
              && results[k].status == Statuses(states)[gates[k].id]
    {
      assert ReportedAt(gates, states, byId, results, k);
    }
    assert ReportsStatus(gates, Statuses(states), results);
  }

  lemma IdleGateIsReported(run: GateRun, gate: Gate)
    requires run.Valid() && run.running == [] && gate in run.gates && run.states[gate.id] != Pending
    ensures gate.id in run.results && run.results[gate.id].gate == gate
    ensures run.states[gate.id] == Settled(run.results[gate.id].status)
  {
    assert gate !in run.running;
    assert ResultOk(gate, run.states, run.results);
  }

  /** The final `gates.map`: no result is missing. */
  method CollectResults(run: GateRun) returns (results: seq<GateResult>)
    requires run.Valid() && run.running == []
    requires NothingPending(run.gates, run.states)
    ensures Reports(run.gates, run.execute, results) && ObservedOnce(results, run.observed)
    ensures |results| == |run.gates|
    ensures forall k | 0 <= k < |run.gates| :: ReportedAt(run.gates, run.states, run.results, results, k)
  {
    results := [];
    for i := 0 to |run.gates|
      invariant |results| == i
      invariant forall k | 0 <= k < i :: run.gates[k].id in run.results && results[k] == run.results[run.gates[k].id]
    {
      IdleGateIsReported(run, run.gates[i]);
      results := results + [run.results[run.gates[i].id]];
    }
    forall k | 0 <= k < |run.gates| ensures ReportedAt(run.gates, run.states, run.results, results, k) {
      IdleGateIsReported(run, run.gates[k]);
    }
    ReportsAll(run.gates, run.execute, run.states, run.results, results);
    ObservedAll(run.gates, run.states, run.results, results, run.observed);
  }
}
