/** The shared-counter worker pool of scripts/publint-all.ts, under every interleaving of its workers. */
module WorkerPool {
  import opened Options

  /** What linting one target gives; opaque here. */
  type Report = string

  function Range(n: nat): seq<nat> {
    if n == 0 then [] else Range(n - 1) + [n - 1]
  }

  /** Every target's own report, in target order. */
  function Expected(n: nat, lint: nat -> Report): seq<Report> {
    if n == 0 then [] else Expected(n - 1, lint) + [lint(n - 1)]
  }

  /** Between awaits a worker is about to take an index, awaits one target, or has returned. */
  datatype Worker = Waiting | Running(index: nat) | Returned

  /** Target `index` was taken and has neither two owners nor an owner and a result. */
  predicate Owned(index: nat, next: nat, workers: seq<Worker>, results: seq<Option<Report>>)
    requires index < |results|
  {
    && (index >= next ==> results[index].None? && Running(index) !in workers)
    && (index < next ==> (results[index].Some? <==> Running(index) !in workers))
  }

  /** The state between two steps: each result is its own target's, and each taken target has one owner or a result. */
  ghost predicate PoolOk(lint: nat -> Report, next: nat, workers: seq<Worker>, results: seq<Option<Report>>) {
    && (forall i | 0 <= i < |results| :: Owned(i, next, workers, results))
    && (forall i | 0 <= i < |results| && results[i].Some? :: results[i].value == lint(i))
    && (forall v, w | 0 <= v < w < |workers| && workers[v].Running? :: workers[v] != workers[w])
    && (forall w | 0 <= w < |workers| && workers[w].Running? :: workers[w].index < |results|)
    && (Returned in workers ==> next >= |results|)
  }

  function Weight(worker: Worker): nat {
    match worker
    case Waiting => 1
    case Running(_) => 2
    case Returned => 0
  }

  function Weights(workers: seq<Worker>): nat {
    if workers == [] then 0 else Weights(workers[..|workers| - 1]) + Weight(workers[|workers| - 1])
  }

  /** Falls with every step of every worker. */
  function StepsLeft(total: nat, next: nat, workers: seq<Worker>): nat {
    (if next < total then 3 * (total - next) else 0) + Weights(workers)
  }

  lemma {:induction false} WeightsUpdate(workers: seq<Worker>, w: nat, worker: Worker)
    requires w < |workers|
    ensures Weights(workers[w := worker]) + Weight(workers[w]) == Weights(workers) + Weight(worker)
  {
    var n := |workers| - 1;
    if w < n {
      assert workers[w := worker][..n] == workers[..n][w := worker];
      WeightsUpdate(workers[..n], w, worker);
    } else {
      assert workers[w := worker][..n] == workers[..n];
    }
  }

  lemma ClaimKeeps(lint: nat -> Report, next: nat, workers: seq<Worker>, results: seq<Option<Report>>, w: nat)
    requires PoolOk(lint, next, workers, results) && w < |workers| && workers[w] == Waiting && next < |results|
    ensures PoolOk(lint, next + 1, workers[w := Running(next)], results)
  {
    var after, later := workers[w := Running(next)], next + 1;
    assert Owned(next, next, workers, results);
    forall i | 0 <= i < |results| ensures Owned(i, later, after, results) {
      assert Owned(i, next, workers, results);
      if i != next { StillRuns(workers, w, Running(next), i); }
      assert after[w] == Running(next);
    }
    forall v | 0 <= v < |workers| && v != w ensures workers[v] != Running(next) {
      assert workers[v] in workers;
    }
  }

  lemma StillRuns(workers: seq<Worker>, w: nat, worker: Worker, i: nat)
    requires w < |workers| && workers[w] != Running(i) && worker != Running(i)
    ensures Running(i) in workers[w := worker] <==> Running(i) in workers
  {
    if Running(i) in workers {
      var v :| 0 <= v < |workers| && workers[v] == Running(i);
      assert workers[w := worker][v] == Running(i);
    }
  }

  lemma SettleKeeps(lint: nat -> Report, next: nat, workers: seq<Worker>, results: seq<Option<Report>>, w: nat)
    requires PoolOk(lint, next, workers, results) && w < |workers| && workers[w].Running?
    ensures workers[w].index < |results|
    ensures PoolOk(lint, next, workers[w := Waiting], results[workers[w].index := Some(lint(workers[w].index))])
  {
    var k := workers[w].index;
    var after, filled := workers[w := Waiting], results[k := Some(lint(k))];
    assert workers[w] in workers;
    forall i | 0 <= i < |results| ensures Owned(i, next, after, filled) {
      assert Owned(i, next, workers, results);
      if i != k { StillRuns(workers, w, Waiting, i); }
    }
  }

  lemma ReturnKeeps(lint: nat -> Report, next: nat, workers: seq<Worker>, results: seq<Option<Report>>, w: nat)
    requires PoolOk(lint, next, workers, results) && w < |workers| && workers[w] == Waiting && next >= |results|
    ensures PoolOk(lint, next + 1, workers[w := Returned], results)
  {
    var after, later := workers[w := Returned], next + 1;
    forall i | 0 <= i < |results| ensures Owned(i, later, after, results) {
      assert Owned(i, next, workers, results);
      StillRuns(workers, w, Returned, i);
    }
  }

  class Pool {
    const total: nat
    const lint: nat -> Report
    var next: nat
    var workers: seq<Worker>
    var results: seq<Option<Report>>
    /** The indexes taken so far. */
    ghost var taken: seq<nat>

    ghost predicate Valid()
      reads this
    {
      && |results| == total && PoolOk(lint, next, workers, results)
      && taken == Range(if next < total then next else total)
    }

    constructor (total: nat, lint: nat -> Report, concurrency: nat)
      ensures Valid() && this.total == total && this.lint == lint
      ensures next == 0 && workers == seq(concurrency, _ => Waiting) && forall i | 0 <= i < total :: results[i].None?
    {
      this.total, this.lint := total, lint;
      next, workers, results := 0, seq(concurrency, _ => Waiting), seq(total, _ => None);
      taken := [];
    }

    /** One worker runs to its next await: it takes an index, or stores its result. */
    method Step(w: nat)
      requires Valid() && w < |workers| && workers[w] != Returned
      modifies this
      ensures Valid() && |workers| == |old(workers)| && forall v | 0 <= v < |workers| && v != w ::
              workers[v] == old(workers[v])
      ensures old(workers[w]) == Waiting ==>
                && next == old(next) + 1 && results == old(results)
                && workers[w] == if old(next) < total then Running(old(next)) else Returned
      ensures old(workers[w]).Running? ==>
                && next == old(next) && workers[w] == Waiting && old(workers[w]).index < total
                && results == old(results)[old(workers[w]).index := Some(lint(old(workers[w]).index))]
      ensures StepsLeft(total, next, workers) < StepsLeft(total, old(next), old(workers))
    {
      match workers[w]
      case Waiting =>
        var index := next;
        next := next + 1;
        if index < total {
          ClaimKeeps(lint, index, workers, results, w);
          WeightsUpdate(workers, w, Running(index));
          workers := workers[w := Running(index)];
          taken := taken + [index];
        } else {
          ReturnKeeps(lint, index, workers, results, w);
          WeightsUpdate(workers, w, Returned);
          workers := workers[w := Returned];
        }
      case Running(index) =>
        SettleKeeps(lint, next, workers, results, w);
        WeightsUpdate(workers, w, Waiting);
        results := results[index := Some(lint(index))];
        workers := workers[w := Waiting];
    }
  }

  /** With every worker returned, every target has its own report. */
  lemma AllReported(lint: nat -> Report, next: nat, workers: seq<Worker>, results: seq<Option<Report>>)
    requires PoolOk(lint, next, workers, results) && workers != [] && forall w | 0 <= w < |workers| ::
             workers[w] == Returned
    ensures forall i | 0 <= i < |results| :: results[i] == Some(lint(i))
  {
    assert workers[0] in workers;
    forall i | 0 <= i < |results| ensures results[i] == Some(lint(i)) {
      assert Owned(i, next, workers, results);
      assert Running(i) !in workers;
    }
  }

  datatype Outcome = Reports(all: seq<Report>) | MissingResult(index: nat)

  /** The final `targets.map`. */
  method Collect(results: seq<Option<Report>>, ghost lint: nat -> Report) returns (r: Outcome)
    ensures (forall i | 0 <= i < |results| :: results[i] == Some(lint(i))) ==> r == Reports(Expected(|results|, lint))
    ensures results != [] && results[0].None? ==> r == MissingResult(0)
  {
    var all: seq<Report> := [];
    for i := 0 to |results|
      invariant (forall k | 0 <= k < i :: results[k] == Some(lint(k))) ==> all == Expected(i, lint)
      invariant i > 0 ==> results[0].Some?
    {
      if results[i].None? { return MissingResult(i); }
      all := all + [results[i].value];
    }
    r := Reports(all);
  }

  /** The counter and the workers between two steps. */
  datatype Moment = Moment(next: nat, workers: seq<Worker>)

  /** One worker took the next index, found there was none, or finished its target. */
  ghost predicate MovesOn(total: nat, s: Moment, t: Moment) {
    exists w: nat :: MovesAt(total, s, t, w)
  }

  ghost predicate MovesAt(total: nat, s: Moment, t: Moment, w: nat) {
    w < |s.workers| &&
    match s.workers[w]
    case Waiting =>
      t == Moment(s.next + 1, s.workers[w := if s.next < total then Running(s.next) else Returned])
    case Running(_) => t == Moment(s.next, s.workers[w := Waiting])
    case Returned => false
  }

  /** The whole run of `concurrency` workers over the targets. */
  ghost predicate IsShift(total: nat, concurrency: nat, moments: seq<Moment>) {
    && moments != [] && moments[0] == Moment(0, seq(concurrency, _ => Waiting))
    && forall k | 0 < k < |moments| :: MovesOn(total, moments[k - 1], moments[k])
  }

  predicate AllReturned(workers: seq<Worker>) {
    forall worker | worker in workers :: worker == Returned
  }

  /** There are always that many workers, and none returns while there is a target to take. */
  lemma {:induction false} CrewIsKept(total: nat, concurrency: nat, moments: seq<Moment>, k: nat)
    requires IsShift(total, concurrency, moments) && k < |moments|
    ensures |moments[k].workers| == concurrency
    ensures moments[k].next < total ==> forall w | 0 <= w < concurrency :: moments[k].workers[w] != Returned
  {
    if k > 0 {
      CrewIsKept(total, concurrency, moments, k - 1);
      assert MovesOn(total, moments[k - 1], moments[k]);
    }
  }

  lemma ShiftGoesOn(total: nat, concurrency: nat, moments: seq<Moment>, t: Moment, w: nat)
    requires IsShift(total, concurrency, moments) && MovesAt(total, moments[|moments| - 1], t, w)
    ensures IsShift(total, concurrency, moments + [t])
  {
    var more := moments + [t];
    forall k | 0 < k < |more| ensures MovesOn(total, more[k - 1], more[k]) {
      if k < |moments| { assert MovesOn(total, moments[k - 1], moments[k]); }
    }
  }

  /** `runAll` under any schedule: the next worker to move is chosen freely, again and again. */
  method RunAll(total: nat, lint: nat -> Report, concurrency: nat)
    returns (r: Outcome, ghost taken: seq<nat>, ghost moments: seq<Moment>)
    ensures concurrency >= 1 || total == 0 ==> r == Reports(Expected(total, lint)) && taken == Range(total)
    ensures concurrency == 0 && total > 0 ==> r == MissingResult(0)
    ensures IsShift(total, concurrency, moments)
    ensures AllReturned(moments[|moments| - 1].workers)
  {
    var pool := new Pool(total, lint, concurrency);
    moments := [Moment(0, seq(concurrency, _ => Waiting))];
    while exists w :: 0 <= w < |pool.workers| && pool.workers[w] != Returned
      invariant pool.Valid() && pool.total == total && pool.lint == lint && |pool.workers| == concurrency && fresh(pool)
      invariant IsShift(total, concurrency, moments)
      invariant moments[|moments| - 1] == Moment(pool.next, pool.workers)
      invariant concurrency == 0 ==> forall i | 0 <= i < total :: pool.results[i].None?
      decreases StepsLeft(total, pool.next, pool.workers)
    {
      var w: nat :| w < |pool.workers| && pool.workers[w] != Returned;
      pool.Step(w);
      ShiftGoesOn(total, concurrency, moments, Moment(pool.next, pool.workers), w);
      moments := moments + [Moment(pool.next, pool.workers)];
    }
    taken := pool.taken;
    if concurrency > 0 {
      AllReported(lint, pool.next, pool.workers, pool.results);
      assert Returned in pool.workers by { assert pool.workers[0] == Returned; }
    }
    r := Collect(pool.results, lint);
  }
}
