/**
 * An aggregate on which Graham's bound fails: d needs a, which fails, and x waits for d. The scheduler of
 * scripts/run-gates.ts skips d only when idle, so x starts once b is done although a slot was free all along.
 */
module LateSkip {
  import opened GateGraph
  import opened Outcome
  import opened Scheduler
  import opened Makespan

  const A := Gate("a", [], [])
  const B := Gate("b", [], [])
  const D := Gate("d", ["a"], [])
  const X := Gate("x", [], ["d"])
  const GATES := [A, B, D, X]

  function Execute(id: string): Status {
    if id == "a" then Failed else Passed
  }

  const STATUS := map["a" := Failed, "b" := Passed, "d" := Skipped, "x" := Passed]

  ghost const LATE: Plan :=
    Plan(GATES, 2, Execute, map["a" := 0, "b" := 10, "d" := 0, "x" := 10], STATUS,
         map["a" := 0, "b" := 0, "d" := 1, "x" := 2])

  function States4(a: GateState, b: GateState, d: GateState, x: GateState): States {
    map["a" := a, "b" := b, "d" := d, "x" := x]
  }

  lemma Graph()
    ensures ById(GATES) == map["a" := A, "b" := B, "d" := D, "x" := X]
    ensures Ids(GATES) == {"a", "b", "d", "x"}
  {
    assert GATES[..3] == [A, B, D] && GATES[..3][..2] == [A, B] && [A, B][..1] == [A];
    assert ById([A]) == map["a" := A];
    assert ById([A, B]) == map["a" := A, "b" := B];
    assert ById([A, B, D]) == map["a" := A, "b" := B, "d" := D];
    assert A in GATES && B in GATES && D in GATES && X in GATES;
  }

  lemma GraphIsClosed()
    ensures DistinctIds(GATES) && Closed(GATES)
  {
    Graph();
    assert Predecessors(A) == [] && Predecessors(B) == [] && Predecessors(D) == ["a"] && Predecessors(X) == ["d"];
    forall gate, p | gate in GATES && p in Predecessors(gate) ensures p in Ids(GATES) {
      assert gate == D || gate == X;
    }
  }

  lemma GraphIsRanked()
    ensures IsRank(ById(GATES), LATE.rank)
  {
    Graph();
    assert Predecessors(A) == [] && Predecessors(B) == [] && Predecessors(D) == ["a"] && Predecessors(X) == ["d"];
  }

  lemma StatusSolves()
    ensures Solves(GATES, Execute, STATUS)
  {
    Graph();
    assert "a" in D.needs;
    assert NeedsPassed(A, STATUS) && NeedsPassed(B, STATUS) && !NeedsPassed(D, STATUS) && NeedsPassed(X, STATUS);
  }

  lemma PlanIsValid()
    ensures LATE.Valid()
  {
    Graph();
    GraphIsClosed();
    GraphIsRanked();
    StatusSolves();
  }

  lemma WhoRuns(id: string)
    ensures Runs(LATE, id) <==> id in {"a", "b", "x"}
  {
    Graph();
    assert "a" in D.needs;
    assert !NeedsPassed(D, STATUS) && NeedsPassed(X, STATUS);
  }

  lemma AwaitsASkip()
    ensures !AwaitsNoSkip(LATE)
  {
    WhoRuns("x");
    WhoRuns("d");
    assert X in GATES && "d" in X.after;
  }

  function One(state: GateState): nat {
    if state == Running then 1 else 0
  }

  lemma Counted(a: GateState, b: GateState, d: GateState, x: GateState)
    ensures RunningCount(GATES, States4(a, b, d, x)) == One(a) + One(b) + One(d) + One(x)
  {
    var states := States4(a, b, d, x);
    assert GATES[..3] == [A, B, D] && GATES[..3][..2] == [A, B] && [A, B][..1] == [A];
    assert RunningCount([A], states) == One(a);
    assert RunningCount([A, B], states) == One(a) + One(b);
    assert RunningCount([A, B, D], states) == One(a) + One(b) + One(d);
  }

  function Moment(k: nat): Clocked
    requires k < 8
  {
    match k
    case 0 => Clocked(0, States4(Pending, Pending, Pending, Pending), map[])
    case 1 => Clocked(0, States4(Running, Pending, Pending, Pending), map["a" := 0])
    case 2 => Clocked(0, States4(Running, Running, Pending, Pending), map["a" := 0, "b" := 10])
    case 3 => Clocked(0, States4(Settled(Failed), Running, Pending, Pending), map["a" := 0, "b" := 10])
    case 4 => Clocked(10, States4(Settled(Failed), Settled(Passed), Pending, Pending), map["a" := 0, "b" := 0])
    case 5 => Clocked(10, States4(Settled(Failed), Settled(Passed), Settled(Skipped), Pending),
                      map["a" := 0, "b" := 0])
    case 6 => Clocked(10, States4(Settled(Failed), Settled(Passed), Settled(Skipped), Running),
                      map["a" := 0, "b" := 0, "x" := 10])
    case _ => Clocked(20, States4(Settled(Failed), Settled(Passed), Settled(Skipped), Settled(Passed)),
                      map["a" := 0, "b" := 0, "x" := 0])
  }

  lemma StartA()
    ensures Makespan.StartStep(LATE, Moment(0), Moment(1), 0)
  {
    Graph();
    var s := Moment(0);
    Counted(s.states["a"], s.states["b"], s.states["d"], s.states["x"]);
    assert FirstStartable(GATES, s.states, 0);
    assert Moment(1).states == s.states["a" := Running];
  }

  lemma StartB()
    ensures Makespan.StartStep(LATE, Moment(1), Moment(2), 1)
  {
    Graph();
    var s := Moment(1);
    Counted(s.states["a"], s.states["b"], s.states["d"], s.states["x"]);
    assert FirstStartable(GATES, s.states, 1);
    assert Moment(2).states == s.states["b" := Running];
  }

  lemma StartX()
    ensures Makespan.StartStep(LATE, Moment(5), Moment(6), 3)
  {
    Graph();
    var s := Moment(5);
    Counted(s.states["a"], s.states["b"], s.states["d"], s.states["x"]);
    assert !Startable(A, s.states) && !Startable(B, s.states) && !Startable(D, s.states);
    assert "d" in X.after && Startable(X, s.states);
    assert FirstStartable(GATES, s.states, 3);
    assert Moment(6).states == s.states["x" := Running];
  }

  lemma NothingStarts(k: nat)
    requires k in {3, 4, 6}
    ensures NoneStartable(GATES, Moment(k).states)
  {
    var s := Moment(k).states;
    assert "a" in D.needs && "d" in X.after;
    assert !Startable(A, s) && !Startable(B, s) && !Startable(D, s) && !Startable(X, s);
  }

  lemma WaitA()
    ensures WaitStep(LATE, Moment(2), Moment(3), "a")
  {
    var s := Moment(2);
    Counted(s.states["a"], s.states["b"], s.states["d"], s.states["x"]);
    assert Moment(3).states == s.states["a" := Settled(Execute("a"))];
    assert Moment(3).left == Elapse(s.left, s.left["a"]);
  }

  lemma WaitB()
    ensures WaitStep(LATE, Moment(3), Moment(4), "b")
  {
    var s := Moment(3);
    Counted(s.states["a"], s.states["b"], s.states["d"], s.states["x"]);
    NothingStarts(3);
    assert Moment(4).states == s.states["b" := Settled(Execute("b"))];
    assert Moment(4).left == Elapse(s.left, s.left["b"]);
  }

  lemma WaitX()
    ensures WaitStep(LATE, Moment(6), Moment(7), "x")
  {
    var s := Moment(6);
    Counted(s.states["a"], s.states["b"], s.states["d"], s.states["x"]);
    NothingStarts(6);
    assert Moment(7).states == s.states["x" := Settled(Execute("x"))];
    assert Moment(7).left == Elapse(s.left, s.left["x"]);
  }

  lemma Skips()
    ensures Makespan.SkipStep(LATE, Moment(4), Moment(5), 2)
  {
    var s := Moment(4).states;
    Counted(s["a"], s["b"], s["d"], s["x"]);
    NothingStarts(4);
    assert "a" in D.needs && GateFailed(s, "a");
    assert FirstDoomed(GATES, s, 2);
    assert Moment(5).states == s["d" := Settled(Skipped)];
  }

  lemma EachStep(k: nat)
    requires k < 7
    ensures Step(LATE, Moment(k), Moment(k + 1))
  {
    Graph();
    match k
    case 0 => StartA();
    case 1 => StartB();
    case 2 => WaitA();
    case 3 => WaitB();
    case 4 => Skips();
    case 5 => StartX();
    case 6 => WaitX();
  }

  lemma Work()
    ensures TotalWork(LATE, GATES) == 20
  {
    WhoRuns("a");
    WhoRuns("b");
    WhoRuns("d");
    WhoRuns("x");
    assert GATES[..3] == [A, B, D] && GATES[..3][..2] == [A, B] && [A, B][..1] == [A];
    assert TotalWork(LATE, [A]) == 0;
    assert TotalWork(LATE, [A, B]) == 10;
    assert TotalWork(LATE, [A, B, D]) == 10;
  }

  /** No executed gate has an executed predecessor. */
  lemma NoEdge(id: string, p: string)
    requires Runs(LATE, id) && Runs(LATE, p)
    ensures !Edge(ById(GATES), id, p)
  {
    Graph();
    WhoRuns(id);
    WhoRuns(p);
    assert Predecessors(A) == [] && Predecessors(B) == [] && Predecessors(X) == ["d"];
  }

  /** So a chain is one gate. */
  lemma ChainIsShort(walk: seq<string>)
    requires IsChain(LATE, walk)
    ensures |walk| == 1
  {
    if |walk| > 1 { NoEdge(walk[0], walk[1]); }
  }

  lemma ShortChains()
    requires LATE.Valid()
    ensures LongestChain(LATE) <= 10
  {
    var walk := LongestChainIsLongest(LATE);
    if walk != [] {
      ChainIsShort(walk);
      assert walk[1..] == [];
      WhoRuns(walk[0]);
    }
  }

  lemma FirstMoment()
    ensures Moment(0) == Begin(LATE)
  {
    Graph();
  }

  function Moments(): (run: seq<Clocked>)
    ensures |run| == 8 && forall k | 0 <= k < 8 :: run[k] == Moment(k)
  {
    seq(8, k requires 0 <= k < 8 => Moment(k))
  }

  lemma MomentStep(run: seq<Clocked>, k: nat)
    requires run == Moments() && k < 7
    ensures Step(LATE, run[k], run[k + 1])
  {
    EachStep(k);
  }

  lemma LastMoment()
    ensures Moment(7).now == 20
  {
  }

  lemma LateRun() returns (run: seq<Clocked>)
    requires LATE.Valid()
    ensures IsRun(LATE, run) && run[|run| - 1].now == 20
  {
    run := Moments();
    FirstMoment();
    forall k | 0 <= k < |run| - 1 ensures Step(LATE, run[k], run[k + 1]) { MomentStep(run, k); }
    LastMoment();
  }

  lemma TwentyIsTooLate()
    requires LATE.Valid()
    ensures !WithinBound(LATE, 20)
  {
    Work();
    ShortChains();
  }

  /** The bound does not survive every failure: this run of two workers ends at 20, with W + L at most 30. */
  lemma BoundFails() returns (run: seq<Clocked>)
    ensures LATE.Valid() && !AwaitsNoSkip(LATE)
    ensures IsRun(LATE, run) && !WithinBound(LATE, run[|run| - 1].now)
  {
    PlanIsValid();
    AwaitsASkip();
    run := LateRun();
    TwentyIsTooLate();
  }
}
