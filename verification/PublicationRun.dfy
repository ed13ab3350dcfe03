/** One uninterrupted `publish` run of scripts/publish-npm-baseline.ts, from any state a crash can leave. */
module PublicationRun {
  import opened Options
  import opened Publication

  /** A process run alone to its end. */
  function RunAlone(bundle: Bundle, r: Registry, point: Point): Process
    decreases Phase(point), Left(bundle, point), Place(point)
  {
    if point.Completed? || point.Dead? then Process(r, point)
    else
      var after := Next(bundle, r, point);
      RunAlone(bundle, after.registry, after.point)
  }

  function Phase(point: Point): nat {
    match point
    case Completed => 0 case Dead => 0
    case VerifyLatest => 1
    case VerifyVersion(_) => 2 case VerifyTag(_) => 2
    case AddLatest => 3
    case ReadLatest => 4
    case _ => 5
  }

  function Left(bundle: Bundle, point: Point): nat {
    if (point.Check? || point.Upload? || point.ReadTag? || point.AddTag? || point.VerifyVersion? || point.VerifyTag?)
      && point.i <= |bundle.packages|
    then |bundle.packages| - point.i else 0
  }

  function Place(point: Point): nat {
    match point
    case Check(_) => 3 case Upload(_) => 2 case ReadTag(_) => 1
    case VerifyVersion(_) => 1
    case _ => 0
  }

  ghost predicate InBundle(bundle: Bundle, name: string) {
    exists i | 0 <= i < |bundle.packages| :: bundle.packages[i].name == name
  }

  /** No package of the bundle is already published with other content. */
  ghost predicate CompatibleFrom(bundle: Bundle, r: Registry, start: nat) {
    forall i | start <= i < |bundle.packages| && bundle.packages[i].name in r.integrity ::
      r.integrity[bundle.packages[i].name] == bundle.packages[i].integrity
  }

  /** What a caller can check before publishing: no clash, and an entry package to announce. */
  ghost predicate Publishable(bundle: Bundle, r: Registry) {
    CompatibleFrom(bundle, r, 0) && (InBundle(bundle, ENTRY) || ENTRY in r.integrity)
  }

  ghost predicate TaggedUpTo(bundle: Bundle, r: Registry, n: nat) {
    forall i | 0 <= i < n && i < |bundle.packages| ::
      r.TagOf(bundle.packages[i].name, bundle.distTag) == Some(bundle.version)
  }

  /** What `verifyRemote` and `verifyReleaseEntryDistTag` accept. */
  ghost predicate Verified(bundle: Bundle, r: Registry) {
    AllPresent(bundle, r) && TaggedUpTo(bundle, r, |bundle.packages|) && Announced(bundle, r)
  }

  /** What a process has verified so far: the tags it has read, and at the end the announcement. */
  ghost predicate TagsDone(bundle: Bundle, r: Registry, point: Point) {
    match point
    case VerifyVersion(i) => TaggedUpTo(bundle, r, i)
    case VerifyTag(i) => TaggedUpTo(bundle, r, i)
    case VerifyLatest => TaggedUpTo(bundle, r, |bundle.packages|)
    case Completed => TaggedUpTo(bundle, r, |bundle.packages|) && Announced(bundle, r)
    case _ => true
  }

  /** What a process at this point knows to be there. */
  ghost predicate Knows(bundle: Bundle, r: Registry, point: Point) {
    PresentUpTo(bundle, r, Passed(bundle, point)) && TagsDone(bundle, r, point)
  }

  /** No command moves a tag away from the bundle version. */
  ghost predicate TagsKept(bundle: Bundle, r: Registry, after: Registry) {
    forall name, tag | r.TagOf(name, tag) == Some(bundle.version) :: after.TagOf(name, tag) == Some(bundle.version)
  }

  lemma CommandKeepsTags(bundle: Bundle, r: Registry, point: Point)
    ensures TagsKept(bundle, r, Next(bundle, r, point).registry)
  {
  }

  lemma KnowledgeLasts(bundle: Bundle, r: Registry, after: Registry, point: Point)
    requires Knows(bundle, r, point) && VersionsKept(r, after) && TagsKept(bundle, r, after)
    ensures Knows(bundle, after, point)
  {
    PresentGrows(bundle, r, after, Passed(bundle, point));
  }

  /** Each command adds to its process's knowledge only what it has just seen or done. */
  lemma CommandKnows(bundle: Bundle, r: Registry, point: Point)
    requires Knows(bundle, r, point)
    ensures Knows(bundle, Next(bundle, r, point).registry, Next(bundle, r, point).point)
  {
    CommandKeepsClaim(bundle, r, point);
    CommandKeepsTags(bundle, r, point);
  }

  /** In every interleaved and crashed run, a process knows what it has passed. */
  lemma {:induction false} RunsKnow(bundle: Bundle, run: seq<World>, k: nat, p: nat)
    requires IsRun(bundle, run) && k < |run| && p < |run[k].processes|
    ensures Knows(bundle, run[k].registry, run[k].processes[p])
  {
    if k == 0 {
    } else {
      var w, v := run[k - 1], run[k];
      assert Step(bundle, w, v);
      if p < |w.processes| { RunsKnow(bundle, run, k - 1, p); }
      if q :| 0 <= q < |w.processes| && Command(bundle, w, v, q) {
        if q == p {
          CommandKnows(bundle, w.registry, w.processes[p]);
        } else {
          CommandKeepsVersions(bundle, w.registry, w.processes[q]);
          CommandKeepsTags(bundle, w.registry, w.processes[q]);
          KnowledgeLasts(bundle, w.registry, v.registry, w.processes[p]);
        }
      }
    }
  }

  lemma {:induction false} RunKeepsTags(bundle: Bundle, run: seq<World>, j: nat, k: nat)
    requires IsRun(bundle, run) && j <= k < |run|
    ensures TagsKept(bundle, run[j].registry, run[k].registry)
    decreases k
  {
    if j == k {
    } else {
      RunKeepsTags(bundle, run, j, k - 1);
      var w, v := run[k - 1], run[k];
      assert Step(bundle, w, v);
      if q :| 0 <= q < |w.processes| && Command(bundle, w, v, q) {
        CommandKeepsTags(bundle, w.registry, w.processes[q]);
      }
    }
  }

  /**
   * Although verification is a series of reads with other processes' commands in between, once any process
   * of any run has completed the release verifies, then and in every later state.
   */
  lemma CompletedMeansVerified(bundle: Bundle, run: seq<World>, j: nat, k: nat)
    requires IsRun(bundle, run) && j <= k < |run| && Completed in run[j].processes
    ensures Verified(bundle, run[k].registry)
  {
    var p :| 0 <= p < |run[j].processes| && run[j].processes[p] == Completed;
    RunsKnow(bundle, run, j, p);
    RunKeepsVersions(bundle, run, j, k);
    RunKeepsTags(bundle, run, j, k);
    PresentGrows(bundle, run[j].registry, run[k].registry, |bundle.packages|);
  }

  /** The registry after one package of the loop. */
  function Settle(bundle: Bundle, r: Registry, pkg: Packed): Registry {
    if pkg.name !in r.integrity then r.Upload(pkg, bundle.distTag, bundle.version)
    else r.SetTag(pkg.name, bundle.distTag, bundle.version)
  }

  lemma SetTagIdle(r: Registry, name: string, tag: string, version: string)
    requires r.TagOf(name, tag) == Some(version)
    ensures r.SetTag(name, tag, version) == r
  {
    assert r.tags[name][tag := version] == r.tags[name];
    assert r.tags[name := r.tags[name]] == r.tags;
  }

  /** One turn of the loop, whichever of its four paths is taken. */
  lemma LoopTurn(bundle: Bundle, r: Registry, i: nat)
    requires i < |bundle.packages| && WellFormed(bundle, r)
    ensures var pkg := bundle.packages[i];
            if pkg.name in r.integrity && r.integrity[pkg.name] != pkg.integrity
            then RunAlone(bundle, r, Check(i)) == Process(r, Dead)
            else RunAlone(bundle, r, Check(i)) == RunAlone(bundle, Settle(bundle, r, pkg), Check(i + 1))
  {
    var pkg := bundle.packages[i];
    var settled := Settle(bundle, r, pkg);
    if pkg.name !in r.integrity {
      assert RunAlone(bundle, r, Check(i)) == RunAlone(bundle, r, Upload(i));
      assert RunAlone(bundle, r, Upload(i)) == RunAlone(bundle, settled, ReadTag(i));
    } else if r.integrity[pkg.name] == pkg.integrity {
      assert RunAlone(bundle, r, Check(i)) == RunAlone(bundle, r, ReadTag(i));
      if r.TagOf(pkg.name, bundle.distTag) == Some(bundle.version) {
        SetTagIdle(r, pkg.name, bundle.distTag, bundle.version);
      } else {
        assert RunAlone(bundle, r, ReadTag(i)) == RunAlone(bundle, r, AddTag(i));
      }
    } else {
      assert RunAlone(bundle, r, Check(i)) == RunAlone(bundle, r, Dead);
    }
  }

  lemma SetTagWellFormed(bundle: Bundle, r: Registry, name: string, tag: string)
    requires name in r.integrity && r.integrity.Keys - {name} <= r.tags.Keys
    requires forall n, t | r.TagOf(n, t) == Some(bundle.version) :: n in r.integrity
    ensures WellFormed(bundle, r.SetTag(name, tag, bundle.version))
  {
    var after := r.SetTag(name, tag, bundle.version);
    forall n, t | after.TagOf(n, t) == Some(bundle.version) ensures n in after.integrity {
      if n != name { assert r.TagOf(n, t) == after.TagOf(n, t); }
    }
  }

  lemma UploadWellFormed(bundle: Bundle, r: Registry, pkg: Packed, tag: string)
    requires WellFormed(bundle, r)
    ensures WellFormed(bundle, r.Upload(pkg, tag, bundle.version))
  {
    var mid := Registry(r.integrity[pkg.name := pkg.integrity], r.tags);
    forall n, t | mid.TagOf(n, t) == Some(bundle.version) ensures n in mid.integrity {
      assert r.TagOf(n, t) == mid.TagOf(n, t);
    }
    SetTagWellFormed(bundle, mid, pkg.name, tag);
  }

  lemma SettleWellFormed(bundle: Bundle, r: Registry, pkg: Packed)
    requires WellFormed(bundle, r)
    ensures WellFormed(bundle, Settle(bundle, r, pkg))
  {
    if pkg.name !in r.integrity {
      UploadWellFormed(bundle, r, pkg, bundle.distTag);
    } else {
      SetTagWellFormed(bundle, r, pkg.name, bundle.distTag);
    }
  }

  /** The whole loop: it dies exactly on a clash, and otherwise leaves everything present and tagged. */
  lemma {:induction false} LoopRuns(bundle: Bundle, r: Registry, i: nat) returns (after: Registry)
    requires bundle.Valid() && i <= |bundle.packages| && WellFormed(bundle, r)
    requires PresentUpTo(bundle, r, i) && TaggedUpTo(bundle, r, i)
    ensures !CompatibleFrom(bundle, r, i) ==> RunAlone(bundle, r, Check(i)).point == Dead
    ensures CompatibleFrom(bundle, r, i) ==>
              && RunAlone(bundle, r, Check(i)) == RunAlone(bundle, after, ReadLatest)
              && WellFormed(bundle, after) && AllPresent(bundle, after) && TaggedUpTo(bundle, after, |bundle.packages|)
              && VersionsKept(r, after)
              && forall name | name in after.integrity :: name in r.integrity || InBundle(bundle, name)
    decreases |bundle.packages| - i
  {
    after := r;
    if i == |bundle.packages| {
    } else {
      var pkg := bundle.packages[i];
      LoopTurn(bundle, r, i);
      if pkg.name !in r.integrity || r.integrity[pkg.name] == pkg.integrity {
        var next := Settle(bundle, r, pkg);
        OtherVersionsUnchanged(bundle, r, i);
        after := LoopRuns(bundle, next, i + 1);
      }
    }
  }

  lemma OtherVersionsUnchanged(bundle: Bundle, r: Registry, i: nat)
    requires bundle.Valid() && i < |bundle.packages| && WellFormed(bundle, r)
    requires PresentUpTo(bundle, r, i) && TaggedUpTo(bundle, r, i)
    requires bundle.packages[i].name in r.integrity ==>
             r.integrity[bundle.packages[i].name] == bundle.packages[i].integrity
    ensures var after := Settle(bundle, r, bundle.packages[i]);
            && WellFormed(bundle, after) && VersionsKept(r, after)
            && PresentUpTo(bundle, after, i + 1) && TaggedUpTo(bundle, after, i + 1)
            && (CompatibleFrom(bundle, after, i + 1) <==> CompatibleFrom(bundle, r, i))
            && after.integrity.Keys == r.integrity.Keys + {bundle.packages[i].name}
  {
    var pkg, after := bundle.packages[i], Settle(bundle, r, bundle.packages[i]);
    SettleWellFormed(bundle, r, pkg);
    assert forall j | 0 <= j < |bundle.packages| && j != i :: bundle.packages[j].name != pkg.name;
  }

  /** Verification walks over what is present and tagged without touching the registry. */
  lemma {:induction false} VerifyRuns(bundle: Bundle, r: Registry, i: nat)
    requires i <= |bundle.packages|
    ensures RunAlone(bundle, r, VerifyVersion(i)).registry == r
    ensures RunAlone(bundle, r, VerifyVersion(i)).point == Completed <==>
              && (forall j | i <= j < |bundle.packages| ::
                    PresentAs(r, bundle.packages[j])
                      && r.TagOf(bundle.packages[j].name, bundle.distTag) == Some(bundle.version))
              && Announced(bundle, r)
    decreases |bundle.packages| - i
  {
    if i == |bundle.packages| {
      assert RunAlone(bundle, r, VerifyVersion(i)) == RunAlone(bundle, r, VerifyLatest);
    } else if !PresentAs(r, bundle.packages[i]) {
      assert RunAlone(bundle, r, VerifyVersion(i)) == RunAlone(bundle, r, Dead);
    } else {
      assert RunAlone(bundle, r, VerifyVersion(i)) == RunAlone(bundle, r, VerifyTag(i));
      if r.TagOf(bundle.packages[i].name, bundle.distTag) == Some(bundle.version) {
        assert RunAlone(bundle, r, VerifyTag(i)) == RunAlone(bundle, r, VerifyVersion(i + 1));
        VerifyRuns(bundle, r, i + 1);
      } else {
        assert RunAlone(bundle, r, VerifyTag(i)) == RunAlone(bundle, r, Dead);
      }
    }
  }

  /** `ensureDistTag` of the entry package, then verification. */
  lemma AnnounceRuns(bundle: Bundle, r: Registry)
    requires WellFormed(bundle, r) && AllPresent(bundle, r) && TaggedUpTo(bundle, r, |bundle.packages|)
    ensures ENTRY !in r.integrity ==> RunAlone(bundle, r, ReadLatest).point == Dead
    ensures ENTRY in r.integrity ==>
            RunAlone(bundle, r, ReadLatest) == Process(r.SetTag(ENTRY, LATEST, bundle.version), Completed)
    ensures ENTRY in r.integrity ==> Verified(bundle, r.SetTag(ENTRY, LATEST, bundle.version))
  {
    var after := r.SetTag(ENTRY, LATEST, bundle.version);
    if ENTRY !in r.integrity {
      if ENTRY in r.tags {
        assert r.TagOf(ENTRY, LATEST) != Some(bundle.version);
        assert RunAlone(bundle, r, ReadLatest) == RunAlone(bundle, r, AddLatest);
        assert RunAlone(bundle, r, AddLatest) == RunAlone(bundle, r, Dead);
      } else {
        assert RunAlone(bundle, r, ReadLatest) == RunAlone(bundle, r, Dead);
      }
    } else {
      if r.TagOf(ENTRY, LATEST) == Some(bundle.version) {
        SetTagIdle(r, ENTRY, LATEST, bundle.version);
      } else {
        assert RunAlone(bundle, r, ReadLatest) == RunAlone(bundle, r, AddLatest);
      }
      assert RunAlone(bundle, r, ReadLatest) == RunAlone(bundle, after, VerifyVersion(0));
      assert Verified(bundle, after);
      VerifyRuns(bundle, after, 0);
    }
  }

  /** A lone run completes exactly from a publishable registry, and then everything is verified. */
  lemma LoneRunCompletes(bundle: Bundle, r: Registry)
    requires bundle.Valid() && WellFormed(bundle, r)
    ensures var final := RunAlone(bundle, r, Check(0));
            && (final.point == Completed <==> Publishable(bundle, r))
            && (final.point == Completed ==> Verified(bundle, final.registry) && VersionsKept(r, final.registry))
  {
    var after := LoopRuns(bundle, r, 0);
    if CompatibleFrom(bundle, r, 0) {
      AnnounceRuns(bundle, after);
      if InBundle(bundle, ENTRY) {
        var i :| 0 <= i < |bundle.packages| && bundle.packages[i].name == ENTRY;
        assert PresentAs(after, bundle.packages[i]);
      }
    }
  }

  /** What every command of every process keeps of a publishable registry. */
  lemma CommandKeepsPublishable(bundle: Bundle, r: Registry, point: Point)
    requires bundle.Valid() && WellFormed(bundle, r) && Publishable(bundle, r)
    ensures WellFormed(bundle, Next(bundle, r, point).registry) && Publishable(bundle, Next(bundle, r, point).registry)
  {
    CommandKeepsVersions(bundle, r, point);
    var after := Next(bundle, r, point).registry;
    match point {
      case Upload(i) => if i < |bundle.packages| { UploadWellFormed(bundle, r, bundle.packages[i], bundle.distTag); }
      case AddTag(i) =>
        if i < |bundle.packages| && bundle.packages[i].name in r.integrity {
          SetTagWellFormed(bundle, r, bundle.packages[i].name, bundle.distTag);
        }
      case AddLatest => if ENTRY in r.integrity { SetTagWellFormed(bundle, r, ENTRY, LATEST); }
      case _ =>
    }
    forall i | 0 <= i < |bundle.packages| && bundle.packages[i].name in after.integrity
      ensures after.integrity[bundle.packages[i].name] == bundle.packages[i].integrity
    {
    }
  }

  lemma StepKeepsPublishable(bundle: Bundle, w: World, v: World)
    requires bundle.Valid() && WellFormed(bundle, w.registry) && Publishable(bundle, w.registry) && Step(bundle, w, v)
    ensures WellFormed(bundle, v.registry) && Publishable(bundle, v.registry)
  {
    if j :| 0 <= j < |w.processes| && Command(bundle, w, v, j) {
      CommandKeepsPublishable(bundle, w.registry, w.processes[j]);
    }
  }

  /**
   * Recovery: after any crashes, restarts and concurrent processes, a run left alone completes and
   * the release verifies.
   */
  lemma {:induction false} RunsRecover(bundle: Bundle, run: seq<World>, k: nat)
    requires bundle.Valid() && IsRun(bundle, run) && k < |run|
    requires WellFormed(bundle, run[0].registry) && Publishable(bundle, run[0].registry)
    ensures WellFormed(bundle, run[k].registry) && Publishable(bundle, run[k].registry)
    ensures RunAlone(bundle, run[k].registry, Check(0)).point == Completed
    ensures Verified(bundle, RunAlone(bundle, run[k].registry, Check(0)).registry)
  {
    if k == 0 {
    } else {
      RunsRecover(bundle, run, k - 1);
      assert Step(bundle, run[k - 1], run[k]);
      StepKeepsPublishable(bundle, run[k - 1], run[k]);
    }
    LoneRunCompletes(bundle, run[k].registry);
  }

  /** Publishing a verified release again changes nothing. */
  lemma RepublishIsIdle(bundle: Bundle, r: Registry)
    requires bundle.Valid() && WellFormed(bundle, r) && Verified(bundle, r)
    ensures RunAlone(bundle, r, Check(0)) == Process(r, Completed)
  {
    IdleLoop(bundle, r, 0);
    AnnounceRuns(bundle, r);
    SetTagIdle(r, ENTRY, LATEST, bundle.version);
  }

  lemma {:induction false} IdleLoop(bundle: Bundle, r: Registry, i: nat)
    requires i <= |bundle.packages| && WellFormed(bundle, r) && Verified(bundle, r)
    ensures RunAlone(bundle, r, Check(i)) == RunAlone(bundle, r, ReadLatest)
    decreases |bundle.packages| - i
  {
    if i == |bundle.packages| {
    } else {
      var pkg := bundle.packages[i];
      assert PresentAs(r, pkg);
      LoopTurn(bundle, r, i);
      SetTagIdle(r, pkg.name, bundle.distTag, bundle.version);
      IdleLoop(bundle, r, i + 1);
    }
  }

  /** The publishing object; `registry` is the remote state its npm commands read and write. */
  class RegistryPublication {
    const bundle: Bundle
    var registry: Registry

    constructor (bundle: Bundle, registry: Registry)
      ensures this.bundle == bundle && this.registry == registry
    {
      this.bundle, this.registry := bundle, registry;
    }

    /** `false` stands for the error npm reports on an unknown package or version. */
    method EnsureDistTag(name: string, tag: string) returns (ok: bool)
      requires WellFormed(bundle, registry)
      modifies this
      ensures ok <==> name in old(registry).integrity
      ensures registry == if ok then old(registry).SetTag(name, tag, bundle.version) else old(registry)
    {
      if name !in registry.tags { return false; }
      if registry.TagOf(name, tag) == Some(bundle.version) {
        SetTagIdle(registry, name, tag, bundle.version);
        return true;
      }
      if name !in registry.integrity { return false; }
      registry := registry.SetTag(name, tag, bundle.version);
      ok := true;
    }

    /** One package of the loop: upload it, or accept an identical version, then tag it. */
    method PublishPackage(pkg: Packed) returns (ok: bool)
      requires WellFormed(bundle, registry)
      modifies this
      ensures ok <==> (pkg.name in old(registry).integrity ==> old(registry).integrity[pkg.name] == pkg.integrity)
      ensures registry == if ok then Settle(bundle, old(registry), pkg) else old(registry)
    {
      if pkg.name !in registry.integrity {
        UploadWellFormed(bundle, registry, pkg, bundle.distTag);
        registry := registry.Upload(pkg, bundle.distTag, bundle.version);
        SetTagIdle(registry, pkg.name, bundle.distTag, bundle.version);
      } else if registry.integrity[pkg.name] != pkg.integrity {
        return false;
      }
      ok := EnsureDistTag(pkg.name, bundle.distTag);
    }

    /** Read-only verification of the whole release. */
    method VerifyRemote() returns (ok: bool)
      ensures ok <==> Verified(bundle, registry)
    {
      for i := 0 to |bundle.packages|
        invariant PresentUpTo(bundle, registry, i) && TaggedUpTo(bundle, registry, i)
      {
        if !PresentAs(registry, bundle.packages[i]) { return false; }
        if registry.TagOf(bundle.packages[i].name, bundle.distTag) != Some(bundle.version) { return false; }
      }
      ok := registry.TagOf(ENTRY, LATEST) == Some(bundle.version);
    }

    /** The uninterrupted run: it refines the command-by-command process and so inherits its laws. */
    method Publish() returns (ok: bool)
      requires bundle.Valid() && WellFormed(bundle, registry)
      modifies this
      ensures registry == RunAlone(bundle, old(registry), Check(0)).registry
      ensures ok <==> Publishable(bundle, old(registry))
      ensures ok ==> Verified(bundle, registry) && VersionsKept(old(registry), registry)
    {
      LoneRunCompletes(bundle, registry);
      for i := 0 to |bundle.packages|
        invariant WellFormed(bundle, registry) && PresentUpTo(bundle, registry, i) && TaggedUpTo(bundle, registry, i)
        invariant RunAlone(bundle, registry, Check(i)) == RunAlone(bundle, old(registry), Check(0))
      {
        LoopTurn(bundle, registry, i);
        ghost var before := registry;
        ok := PublishPackage(bundle.packages[i]);
        if !ok { return; }
        OtherVersionsUnchanged(bundle, before, i);
      }
      assert RunAlone(bundle, registry, Check(|bundle.packages|)) == RunAlone(bundle, registry, ReadLatest);
      AnnounceRuns(bundle, registry);
      ok := EnsureDistTag(ENTRY, LATEST);
      if !ok { AnnounceFailsIdle(bundle, registry); return; }
      ok := VerifyRemote();
    }
  }

  lemma AnnounceFailsIdle(bundle: Bundle, r: Registry)
    requires WellFormed(bundle, r) && ENTRY !in r.integrity
    ensures RunAlone(bundle, r, ReadLatest) == Process(r, Dead)
  {
    if ENTRY in r.tags {
      assert r.TagOf(ENTRY, LATEST) != Some(bundle.version);
      assert RunAlone(bundle, r, ReadLatest) == RunAlone(bundle, r, AddLatest);
    }
  }
}
