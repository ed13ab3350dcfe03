/** The resumable registry publication of scripts/publish-npm-baseline.ts, one registry command at a time. */
module Publication {
  import opened Options

  const ENTRY := "@deepseek-ai/dsh"
  const LATEST := "latest"

  datatype Packed = Packed(name: string, integrity: string)

  datatype Bundle = Bundle(version: string, distTag: string, packages: seq<Packed>) {
    /** What `ReleaseBundle.load` accepts. */
    ghost predicate Valid() {
      packages != [] && forall i, j | 0 <= i < j < |packages| :: packages[i].name != packages[j].name
    }
  }

  /** `integrity` holds the packages present at the bundle version, `tags` every known package's dist-tags. */
  datatype Registry = Registry(integrity: map<string, string>, tags: map<string, map<string, string>>) {
    function TagOf(name: string, tag: string): Option<string> {
      if name in tags && tag in tags[name] then Some(tags[name][tag]) else None
    }

    function SetTag(name: string, tag: string, version: string): Registry {
      Registry(integrity, tags[name := (if name in tags then tags[name] else map[])[tag := version]])
    }

    /** `npm publish --tag`: adds the immutable version and moves that one tag. */
    function Upload(pkg: Packed, tag: string, version: string): Registry {
      Registry(integrity[pkg.name := pkg.integrity], tags).SetTag(pkg.name, tag, version)
    }
  }

  /** Setting a tag moves that tag of that package and no other, and publishes nothing. */
  lemma SetTagSetsOne(r: Registry, name: string, tag: string, version: string, other: string, otherTag: string)
    ensures r.SetTag(name, tag, version).TagOf(name, tag) == Some(version)
    ensures other != name || otherTag != tag ==>
              r.SetTag(name, tag, version).TagOf(other, otherTag) == r.TagOf(other, otherTag)
    ensures r.SetTag(name, tag, version).integrity == r.integrity
  {
  }

  /** An upload adds one package's version and moves one tag of it. */
  lemma UploadAddsOne(r: Registry, pkg: Packed, tag: string, version: string, other: string, otherTag: string)
    ensures var after := r.Upload(pkg, tag, version);
            && pkg.name in after.integrity && after.integrity[pkg.name] == pkg.integrity
            && after.TagOf(pkg.name, tag) == Some(version)
            && (other != pkg.name ==>
              && (other in after.integrity <==> other in r.integrity)
              && (other in r.integrity ==> after.integrity[other] == r.integrity[other]))
            && (other != pkg.name || otherTag != tag ==> after.TagOf(other, otherTag) == r.TagOf(other, otherTag))
  {
  }

  /** A present version's package is known, and a tag at the bundle version points to a present version. */
  ghost predicate WellFormed(bundle: Bundle, r: Registry) {
    && r.integrity.Keys <= r.tags.Keys
    && forall name, tag | r.TagOf(name, tag) == Some(bundle.version) :: name in r.integrity
  }

  /** The registry command a `publish` process issues next; `Dead` is a failed or killed process. */
  datatype Point =
    | Check(i: nat) | Upload(i: nat) | ReadTag(i: nat) | AddTag(i: nat)
    | ReadLatest | AddLatest
    | VerifyVersion(i: nat) | VerifyTag(i: nat) | VerifyLatest
    | Completed | Dead

  datatype Process = Process(registry: Registry, point: Point)

  /** One atomic registry command of one process. */
  function Next(bundle: Bundle, r: Registry, point: Point): Process {
    var n := |bundle.packages|;
    match point
    case Check(i) =>
      if i >= n then Process(r, ReadLatest)
      else
        var pkg := bundle.packages[i];
        if pkg.name !in r.integrity then Process(r, Upload(i))
        else if r.integrity[pkg.name] != pkg.integrity then Process(r, Dead)
        else Process(r, ReadTag(i))
    case Upload(i) =>
      if i >= n || bundle.packages[i].name in r.integrity then Process(r, Dead)
      else Process(r.Upload(bundle.packages[i], bundle.distTag, bundle.version), ReadTag(i))
    case ReadTag(i) =>
      if i >= n || bundle.packages[i].name !in r.tags then Process(r, Dead)
      else if r.TagOf(bundle.packages[i].name, bundle.distTag) == Some(bundle.version) then Process(r, Check(i + 1))
      else Process(r, AddTag(i))
    case AddTag(i) =>
      if i >= n || bundle.packages[i].name !in r.integrity then Process(r, Dead)
      else Process(r.SetTag(bundle.packages[i].name, bundle.distTag, bundle.version), Check(i + 1))
    case ReadLatest =>
      if ENTRY !in r.tags then Process(r, Dead)
      else if r.TagOf(ENTRY, LATEST) == Some(bundle.version) then Process(r, VerifyVersion(0))
      else Process(r, AddLatest)
    case AddLatest =>
      if ENTRY !in r.integrity then Process(r, Dead)
      else Process(r.SetTag(ENTRY, LATEST, bundle.version), VerifyVersion(0))
    case VerifyVersion(i) =>
      if i >= n then Process(r, VerifyLatest)
      else if PresentAs(r, bundle.packages[i]) then Process(r, VerifyTag(i)) else Process(r, Dead)
    case VerifyTag(i) =>
      if i < n && r.TagOf(bundle.packages[i].name, bundle.distTag) == Some(bundle.version)
      then Process(r, VerifyVersion(i + 1)) else Process(r, Dead)
    case VerifyLatest =>
      if r.TagOf(ENTRY, LATEST) == Some(bundle.version) then Process(r, Completed) else Process(r, Dead)
    case Completed => Process(r, Completed)
    case Dead => Process(r, Dead)
  }

  predicate PresentAs(r: Registry, pkg: Packed) {
    pkg.name in r.integrity && r.integrity[pkg.name] == pkg.integrity
  }

  /** The registry with any number of publishing processes, and every upload ever attempted. */
  datatype World = World(registry: Registry, processes: seq<Point>, uploads: seq<string>)

  /** A process is started, killed at any point, or issues its next command, in any interleaving. */
  ghost predicate Step(bundle: Bundle, w: World, v: World) {
    || v == w.(processes := w.processes + [Check(0)])
    || (exists k | 0 <= k < |w.processes| :: Killed(w, v, k))
    || (exists k | 0 <= k < |w.processes| :: Command(bundle, w, v, k))
  }

  ghost predicate Killed(w: World, v: World, k: nat)
    requires k < |w.processes|
  {
    v == w.(processes := w.processes[k := Dead])
  }

  ghost predicate Command(bundle: Bundle, w: World, v: World, k: nat)
    requires k < |w.processes|
  {
    var after := Next(bundle, w.registry, w.processes[k]);
    v == World(after.registry, w.processes[k := after.point], w.uploads + Attempt(bundle, w.processes[k]))
  }

  /** The package an upload command names, whether or not the registry takes it. */
  function Attempt(bundle: Bundle, point: Point): seq<string> {
    if point.Upload? && point.i < |bundle.packages| then [bundle.packages[point.i].name] else []
  }

  ghost predicate IsRun(bundle: Bundle, run: seq<World>) {
    && run != [] && run[0].processes == [] && run[0].uploads == []
    && forall k | 0 <= k < |run| - 1 :: Step(bundle, run[k], run[k + 1])
  }

  ghost predicate Announced(bundle: Bundle, r: Registry) {
    r.TagOf("@deepseek-ai/dsh", "latest") == Some(bundle.version)
  }

  ghost predicate PresentUpTo(bundle: Bundle, r: Registry, n: nat) {
    forall i | 0 <= i < n && i < |bundle.packages| :: PresentAs(r, bundle.packages[i])
  }

  ghost predicate AllPresent(bundle: Bundle, r: Registry) {
    PresentUpTo(bundle, r, |bundle.packages|)
  }

  /** How many packages a process has already seen present. */
  ghost function Passed(bundle: Bundle, point: Point): nat {
    match point
    case Check(i) => i
    case Upload(i) => i
    case ReadTag(i) => i + 1
    case AddTag(i) => i + 1
    case Dead => 0
    case _ => |bundle.packages|
  }

  /** The caller-side condition: the bundle's own tag is not `latest`, or the entry package comes last. */
  ghost predicate EntryTagIsLast(bundle: Bundle) {
    bundle.distTag == "latest" ==>
      forall i | 0 <= i < |bundle.packages| && bundle.packages[i].name == "@deepseek-ai/dsh" ::
        i == |bundle.packages| - 1
  }

  ghost predicate Safe(bundle: Bundle, w: World) {
    && (Announced(bundle, w.registry) ==> AllPresent(bundle, w.registry))
    && forall k | 0 <= k < |w.processes| :: PresentUpTo(bundle, w.registry, Passed(bundle, w.processes[k]))
  }

  /** Versions are immutable: a command only ever adds one. */
  ghost predicate VersionsKept(r: Registry, after: Registry) {
    forall name | name in r.integrity :: name in after.integrity && after.integrity[name] == r.integrity[name]
  }

  lemma CommandKeepsVersions(bundle: Bundle, r: Registry, point: Point)
    ensures VersionsKept(r, Next(bundle, r, point).registry)
  {
  }

  /** A command keeps its own progress claim. */
  lemma CommandKeepsClaim(bundle: Bundle, r: Registry, point: Point)
    requires PresentUpTo(bundle, r, Passed(bundle, point))
    ensures PresentUpTo(bundle, Next(bundle, r, point).registry, Passed(bundle, Next(bundle, r, point).point))
  {
    CommandKeepsVersions(bundle, r, point);
    PresentGrows(bundle, r, Next(bundle, r, point).registry, Passed(bundle, point));
  }

  /** `latest` moves to the bundle version only once everything is present. */
  lemma CommandAnnouncesLast(bundle: Bundle, r: Registry, point: Point)
    requires PresentUpTo(bundle, r, Passed(bundle, point)) && EntryTagIsLast(bundle)
    requires Announced(bundle, Next(bundle, r, point).registry) && !Announced(bundle, r)
    ensures AllPresent(bundle, Next(bundle, r, point).registry)
  {
    assert point.Upload? || point.AddTag? || point.AddLatest?;
    CommandKeepsClaim(bundle, r, point);
    if !point.AddLatest? {
      assert bundle.packages[point.i].name == ENTRY && bundle.distTag == LATEST;
    }
  }

  lemma PresentGrows(bundle: Bundle, r: Registry, after: Registry, n: nat)
    requires PresentUpTo(bundle, r, n)
    requires VersionsKept(r, after)
    ensures PresentUpTo(bundle, after, n)
  {
  }

  lemma StepIsSafe(bundle: Bundle, w: World, v: World)
    requires bundle.Valid() && EntryTagIsLast(bundle) && Safe(bundle, w) && Step(bundle, w, v)
    ensures Safe(bundle, v)
  {
    if k :| 0 <= k < |w.processes| && Command(bundle, w, v, k) {
      CommandKeepsVersions(bundle, w.registry, w.processes[k]);
      CommandKeepsClaim(bundle, w.registry, w.processes[k]);
      if Announced(bundle, v.registry) && !Announced(bundle, w.registry) {
        CommandAnnouncesLast(bundle, w.registry, w.processes[k]);
      }
      forall j | 0 <= j < |v.processes| ensures PresentUpTo(bundle, v.registry, Passed(bundle, v.processes[j])) {
        if j != k { PresentGrows(bundle, w.registry, v.registry, Passed(bundle, w.processes[j])); }
      }
      if Announced(bundle, w.registry) { PresentGrows(bundle, w.registry, v.registry, |bundle.packages|); }
    }
  }

  /**
   * Safety in every state of every run, whatever is killed, restarted or run concurrently: `latest`
   * names the bundle version only when every package of the bundle is present with its integrity.
   */
  lemma {:induction false} PublicationIsSafe(bundle: Bundle, run: seq<World>, k: nat)
    requires bundle.Valid() && EntryTagIsLast(bundle)
    requires IsRun(bundle, run) && !Announced(bundle, run[0].registry) && k < |run|
    ensures Safe(bundle, run[k])
    ensures Announced(bundle, run[k].registry) ==> AllPresent(bundle, run[k].registry)
  {
    if k == 0 {
    } else {
      PublicationIsSafe(bundle, run, k - 1);
      StepIsSafe(bundle, run[k - 1], run[k]);
    }
  }

  /** A process that may still issue a command. */
  predicate Live(point: Point) {
    !point.Completed? && !point.Dead?
  }

  /** At most one publisher at a time, though any number may have been killed before it. */
  ghost predicate OnePublisher(w: World) {
    forall j, k | 0 <= j < k < |w.processes| :: !(Live(w.processes[j]) && Live(w.processes[k]))
  }

  /** A package about to be uploaded is one the registry lacks. */
  predicate Awaits(bundle: Bundle, r: Registry, point: Point) {
    point.Upload? ==> point.i < |bundle.packages| && bundle.packages[point.i].name !in r.integrity
  }

  ghost predicate AllAwait(bundle: Bundle, w: World) {
    forall k | 0 <= k < |w.processes| :: Awaits(bundle, w.registry, w.processes[k])
  }

  /** Uploads are attempted once each, of versions the registry did not hold, and it took every one. */
  ghost predicate UploadedOnce(initial: Registry, w: World) {
    && (forall i, j | 0 <= i < j < |w.uploads| :: w.uploads[i] != w.uploads[j])
    && (forall name | name in w.uploads :: name in w.registry.integrity && name !in initial.integrity)
    && VersionsKept(initial, w.registry)
  }

  lemma StepKeepsAwaits(bundle: Bundle, w: World, v: World)
    requires OnePublisher(w) && AllAwait(bundle, w) && Step(bundle, w, v)
    ensures AllAwait(bundle, v)
  {
    if k :| 0 <= k < |w.processes| && Command(bundle, w, v, k) {
      forall j | 0 <= j < |v.processes| ensures Awaits(bundle, v.registry, v.processes[j]) {
        if j != k && v.processes[j].Upload? {
          assert Awaits(bundle, w.registry, w.processes[j]) && Live(w.processes[j]);
          assert !Live(w.processes[k]);
        }
      }
    }
  }

  lemma StepUploadsOnce(bundle: Bundle, initial: Registry, w: World, v: World)
    requires AllAwait(bundle, w) && UploadedOnce(initial, w) && Step(bundle, w, v)
    ensures UploadedOnce(initial, v)
  {
    if k :| 0 <= k < |w.processes| && Command(bundle, w, v, k) {
      CommandKeepsVersions(bundle, w.registry, w.processes[k]);
      assert Awaits(bundle, w.registry, w.processes[k]);
    }
  }

  /**
   * With one publisher at a time, killed and restarted at will, the look before each upload is enough: no
   * upload is ever rejected, and none is attempted twice or over a version the registry held.
   */
  lemma {:induction false} NoVersionIsUploadedTwice(bundle: Bundle, run: seq<World>, k: nat)
    requires IsRun(bundle, run) && k < |run|
    requires forall j | 0 <= j < k :: OnePublisher(run[j])
    ensures AllAwait(bundle, run[k]) && UploadedOnce(run[0].registry, run[k])
  {
    if k == 0 {
    } else {
      NoVersionIsUploadedTwice(bundle, run, k - 1);
      StepKeepsAwaits(bundle, run[k - 1], run[k]);
      StepUploadsOnce(bundle, run[0].registry, run[k - 1], run[k]);
    }
  }

  /** Process p found the version absent in state j and went on to upload it. */
  ghost predicate LookedAt(bundle: Bundle, run: seq<World>, p: nat, i: nat, j: nat) {
    && j + 1 < |run| && p < |run[j].processes| && p < |run[j + 1].processes| && i < |bundle.packages|
    && run[j].processes[p] == Check(i) && run[j + 1].processes[p] == Upload(i)
    && bundle.packages[i].name !in run[j].registry.integrity
    && run[j + 1].registry == run[j].registry
  }

  /** The step after state t is process q's upload of the name. */
  ghost predicate Uploads(bundle: Bundle, run: seq<World>, name: string, t: nat, q: nat) {
    && t + 1 < |run| && q < |run[t].processes| && Command(bundle, run[t], run[t + 1], q)
    && Attempt(bundle, run[t].processes[q]) == [name]
    && name !in run[t].registry.integrity && name in run[t + 1].registry.integrity
  }

  ghost predicate OtherUploads(bundle: Bundle, run: seq<World>, p: nat, i: nat, t: nat) {
    i < |bundle.packages| && exists q: nat :: q != p && Uploads(bundle, run, bundle.packages[i].name, t, q)
  }

  ghost predicate Raced(bundle: Bundle, run: seq<World>, p: nat, i: nat, j: nat, k: nat) {
    exists t | j < t < k :: OtherUploads(bundle, run, p, i, t)
  }

  lemma {:induction false} RunKeepsVersions(bundle: Bundle, run: seq<World>, j: nat, k: nat)
    requires IsRun(bundle, run) && j <= k < |run|
    ensures VersionsKept(run[j].registry, run[k].registry)
    decreases k
  {
    if j == k {
    } else {
      RunKeepsVersions(bundle, run, j, k - 1);
      var w, v := run[k - 1], run[k];
      assert Step(bundle, w, v);
      if q :| 0 <= q < |w.processes| && Command(bundle, w, v, q) {
        CommandKeepsVersions(bundle, w.registry, w.processes[q]);
      }
    }
  }

  /** A version appears only by an upload of it. */
  lemma CommandAddsByUpload(bundle: Bundle, r: Registry, point: Point, name: string)
    requires name !in r.integrity && name in Next(bundle, r, point).registry.integrity
    ensures Attempt(bundle, point) == [name]
  {
  }

  /** A process reaches an upload only from the look that found the version absent. */
  lemma UploadFollowsLook(bundle: Bundle, r: Registry, point: Point, i: nat)
    requires Next(bundle, r, point).point == Upload(i)
    ensures point == Check(i) && Next(bundle, r, point).registry == r
    ensures i < |bundle.packages| && bundle.packages[i].name !in r.integrity
  {
  }

  /** Process p has stood at its upload since the look in state j. */
  ghost predicate WaitsSince(bundle: Bundle, run: seq<World>, p: nat, i: nat, j: nat, k: nat)
    requires k < |run|
  {
    && j < k && LookedAt(bundle, run, p, i, j)
    && forall t | j < t <= k :: p < |run[t].processes| && run[t].processes[p] == Upload(i)
  }

  lemma {:induction false} UploadWaits(bundle: Bundle, run: seq<World>, p: nat, i: nat, k: nat) returns (j: nat)
    requires IsRun(bundle, run) && k < |run| && p < |run[k].processes| && run[k].processes[p] == Upload(i)
    ensures WaitsSince(bundle, run, p, i, j, k)
  {
    hide Next;
    var w, v := run[k - 1], run[k];
    assert Step(bundle, w, v);
    if p < |w.processes| && w.processes[p] == Upload(i) {
      j := UploadWaits(bundle, run, p, i, k - 1);
    } else {
      var q :| 0 <= q < |w.processes| && Command(bundle, w, v, q);
      UploadFollowsLook(bundle, w.registry, w.processes[p], i);
      j := k - 1;
    }
  }

  /** A version that appears between two states was uploaded by some step between them. */
  lemma {:induction false} VersionAppears(bundle: Bundle, run: seq<World>, name: string, j: nat, k: nat)
    returns (t: nat, q: nat)
    requires IsRun(bundle, run) && j <= k < |run|
    requires name !in run[j].registry.integrity && name in run[k].registry.integrity
    ensures j <= t < k && Uploads(bundle, run, name, t, q)
    decreases k
  {
    var w, v := run[k - 1], run[k];
    if name in w.registry.integrity {
      t, q := VersionAppears(bundle, run, name, j, k - 1);
    } else {
      assert Step(bundle, w, v);
      t, q :| t == k - 1 && 0 <= q < |w.processes| && Command(bundle, w, v, q);
      CommandAddsByUpload(bundle, w.registry, w.processes[q], name);
    }
  }

  lemma UploadMovesOn(bundle: Bundle, r: Registry, i: nat)
    ensures !Next(bundle, r, Upload(i)).point.Upload?
  {
  }

  /** A version present after the look was uploaded by another process meanwhile. */
  lemma PresentMeansRaced(bundle: Bundle, run: seq<World>, p: nat, i: nat, j: nat, k: nat)
    requires IsRun(bundle, run) && k < |run| && WaitsSince(bundle, run, p, i, j, k)
    requires bundle.packages[i].name in run[k].registry.integrity
    ensures Raced(bundle, run, p, i, j, k)
  {
    var t, q := VersionAppears(bundle, run, bundle.packages[i].name, j + 1, k);
    UploadMovesOn(bundle, run[t].registry, i);
    assert q != p;
    assert OtherUploads(bundle, run, p, i, t);
  }

  lemma PresentStays(bundle: Bundle, run: seq<World>, name: string, t: nat, k: nat)
    requires IsRun(bundle, run) && t <= k < |run| && name in run[t].registry.integrity
    ensures name in run[k].registry.integrity
  {
    RunKeepsVersions(bundle, run, t, k);
  }

  lemma RacedWhen(bundle: Bundle, run: seq<World>, p: nat, i: nat, j: nat, k: nat) returns (t: nat)
    requires i < |bundle.packages| && Raced(bundle, run, p, i, j, k)
    ensures j < t < k && t + 1 < |run| && bundle.packages[i].name in run[t + 1].registry.integrity
  {
    t :| j < t < k && OtherUploads(bundle, run, p, i, t);
  }

  lemma RacedMeansPresent(bundle: Bundle, run: seq<World>, p: nat, i: nat, j: nat, k: nat)
    requires IsRun(bundle, run) && k < |run| && i < |bundle.packages| && Raced(bundle, run, p, i, j, k)
    ensures bundle.packages[i].name in run[k].registry.integrity
  {
    var t := RacedWhen(bundle, run, p, i, j, k);
    PresentStays(bundle, run, bundle.packages[i].name, t + 1, k);
  }

  /**
   * In every concurrent run, an upload is rejected exactly when another process uploaded that version between
   * this process's look and its upload.
   */
  lemma RejectedExactlyWhenRaced(bundle: Bundle, run: seq<World>, p: nat, i: nat, k: nat) returns (j: nat)
    requires IsRun(bundle, run) && k < |run| && p < |run[k].processes| && run[k].processes[p] == Upload(i)
    ensures WaitsSince(bundle, run, p, i, j, k)
    ensures Next(bundle, run[k].registry, Upload(i)).point.Dead? <==> Raced(bundle, run, p, i, j, k)
  {
    j := UploadWaits(bundle, run, p, i, k);
    if bundle.packages[i].name in run[k].registry.integrity {
      PresentMeansRaced(bundle, run, p, i, j, k);
    } else if Raced(bundle, run, p, i, j, k) {
      RacedMeansPresent(bundle, run, p, i, j, k);
      assert false;
    }
  }

  /** The registry in which exactly the packages before the i-th are published and tagged. */
  ghost function PublishedBefore(bundle: Bundle, i: nat): Registry
    requires bundle.Valid() && i <= |bundle.packages|
  {
    Registry(map k | 0 <= k < i :: bundle.packages[k].name := bundle.packages[k].integrity,
             map k | 0 <= k < i :: bundle.packages[k].name := map[bundle.distTag := bundle.version])
  }

  lemma StepExtendsRun(bundle: Bundle, run: seq<World>, v: World)
    requires IsRun(bundle, run) && Step(bundle, run[|run| - 1], v)
    ensures IsRun(bundle, run + [v])
  {
    var longer := run + [v];
    forall k | 0 <= k < |longer| - 1 ensures Step(bundle, longer[k], longer[k + 1]) {
      if k < |run| - 1 { assert Step(bundle, run[k], run[k + 1]); }
    }
  }

  /** A fresh process passes over everything already published. */
  lemma {:induction false} RunReachesPackage(bundle: Bundle, i: nat, j: nat) returns (run: seq<World>)
    requires bundle.Valid() && j <= i <= |bundle.packages|
    ensures IsRun(bundle, run) && run[0].registry == PublishedBefore(bundle, i)
    ensures run[|run| - 1] == World(PublishedBefore(bundle, i), [Check(j)], [])
  {
    var r := PublishedBefore(bundle, i);
    if j == 0 {
      var start := World(r, [], []);
      assert IsRun(bundle, [start]);
      StepExtendsRun(bundle, [start], World(r, [Check(0)], []));
      run := [start] + [World(r, [Check(0)], [])];
    } else {
      run := RunReachesPackage(bundle, i, j - 1);
      run := OneCommand(bundle, run, ReadTag(j - 1));
      run := OneCommand(bundle, run, Check(j));
    }
  }

  /** Extend a one-process run by one command that leaves the registry alone. */
  lemma OneCommand(bundle: Bundle, run: seq<World>, next: Point) returns (longer: seq<World>)
    requires IsRun(bundle, run) && |run[|run| - 1].processes| == 1 && !run[|run| - 1].processes[0].Upload?
    requires Next(bundle, run[|run| - 1].registry, run[|run| - 1].processes[0])
             == Process(run[|run| - 1].registry, next)
    ensures IsRun(bundle, longer) && longer[0] == run[0]
    ensures longer[|longer| - 1] == run[|run| - 1].(processes := [next])
  {
    var last := run[|run| - 1];
    assert last.processes[0 := next] == [next];
    assert Command(bundle, last, last.(processes := [next]), 0);
    StepExtendsRun(bundle, run, last.(processes := [next]));
    longer := run + [last.(processes := [next])];
  }

  /** Publishing under the tag `latest` with the entry package not last announces an incomplete release. */
  lemma EarlyEntryIsUnsafe(bundle: Bundle) returns (run: seq<World>)
    requires bundle.Valid() && !EntryTagIsLast(bundle)
    ensures IsRun(bundle, run) && !Announced(bundle, run[0].registry)
    ensures Announced(bundle, run[|run| - 1].registry) && !AllPresent(bundle, run[|run| - 1].registry)
  {
    var i :| 0 <= i < |bundle.packages| && bundle.packages[i].name == ENTRY && i != |bundle.packages| - 1;
    var r := PublishedBefore(bundle, i);
    run := RunReachesPackage(bundle, i, i);
    assert ENTRY !in r.integrity;
    run := OneCommand(bundle, run, Upload(i));
    hide IsRun, PublishedBefore;
    var last := run[|run| - 1];
    var after := r.Upload(bundle.packages[i], bundle.distTag, bundle.version);
    var v := World(after, [ReadTag(i)], [ENTRY]);
    assert last.processes[0 := ReadTag(i)] == [ReadTag(i)];
    assert ENTRY in after.integrity;
    assert Command(bundle, last, v, 0);
    StepExtendsRun(bundle, run, v);
    run := run + [v];
    assert !PresentAs(after, bundle.packages[|bundle.packages| - 1]);
  }

  /** The safety property holds of a bundle exactly when its own tag cannot announce it early. */
  lemma SafeExactlyWhenEntryTagIsLast(bundle: Bundle)
    requires bundle.Valid()
    ensures EntryTagIsLast(bundle) <==>
              forall run: seq<World>, k: nat | IsRun(bundle, run) && !Announced(bundle, run[0].registry) && k < |run| ::
                Announced(bundle, run[k].registry) ==> AllPresent(bundle, run[k].registry)
  {
    if EntryTagIsLast(bundle) {
      forall run: seq<World>, k: nat | IsRun(bundle, run) && !Announced(bundle, run[0].registry) && k < |run|
        ensures Announced(bundle, run[k].registry) ==> AllPresent(bundle, run[k].registry)
      {
        PublicationIsSafe(bundle, run, k);
      }
    } else {
      var run := EarlyEntryIsUnsafe(bundle);
      assert Announced(bundle, run[|run| - 1].registry);
    }
  }
}
