/** Compiler-face isolation over Project References: scripts/project-reference-faces.ts. */
module ProjectFaces {
  import opened Options
  import Sequences

  type Directory = seq<string>

  /** A resolved absolute path: its directory's segments and its last name. */
  datatype Path = Path(dir: Directory, name: string)

  datatype Face = Host | Client

  /** A reference as written, and the config path it resolves to. */
  datatype Reference = Reference(text: string, target: Path)

  /** A config's references, and its parent when it extends a local path. */
  datatype Config = Config(parent: Option<Path>, references: seq<Reference>) | Unparsable

  /** The existing config files, and the workspace packages' directories. */
  datatype Workspace = Workspace(root: Directory, configs: map<Path, Config>, packages: seq<Directory>)

  function Leaf(dir: Directory, face: Face): Path {
    Path(dir, if face == Host then "tsconfig.host.json" else "tsconfig.client.json")
  }

  // Split projects.

  predicate IsSplit(w: Workspace, dir: Directory) {
    Leaf(dir, Host) in w.configs && Leaf(dir, Client) in w.configs
  }

  /** Characters of the path, each segment with its separator. */
  function Length(dir: Directory): nat {
    if dir == [] then 0 else Length(dir[..|dir| - 1]) + 1 + |dir[|dir| - 1]|
  }

  function SplitOnly(w: Workspace, dirs: seq<Directory>): seq<Directory> {
    if dirs == [] then []
    else (if IsSplit(w, dirs[0]) then [dirs[0]] else []) + SplitOnly(w, dirs[1..])
  }

  function Longer(): (Directory, Directory) -> bool {
    (a, b) => Length(b) <= Length(a)
  }

  function SplitRoots(w: Workspace): seq<Directory> {
    Sequences.Sort(SplitOnly(w, w.packages), Longer())
  }

  /** The path lies at or below the directory. */
  predicate Within(dir: Directory, target: Path) {
    dir <= target.dir + [target.name]
  }

  function FirstWithin(roots: seq<Directory>, target: Path): Option<Directory> {
    if roots == [] then None
    else if Within(roots[0], target) then Some(roots[0])
    else FirstWithin(roots[1..], target)
  }

  /** `containingSplitRoot`. */
  function SplitRoot(w: Workspace, target: Path): Option<Directory> {
    FirstWithin(SplitRoots(w), target)
  }

  lemma {:induction false} LongerPrefix(a: Directory, b: Directory)
    requires a <= b
    ensures Length(a) <= Length(b) && (a != b ==> Length(a) < Length(b))
  {
    if a == b {
    } else {
      LongerPrefix(a, b[..|b| - 1]);
    }
  }

  lemma {:induction false} SplitOnlyIsFilter(w: Workspace, dirs: seq<Directory>)
    ensures forall d :: d in SplitOnly(w, dirs) <==> d in dirs && IsSplit(w, d)
  {
    if dirs == [] {
    } else {
      SplitOnlyIsFilter(w, dirs[1..]);
      assert dirs == [dirs[0]] + dirs[1..];
    }
  }

  /** The first root in the sorted list is the innermost one. */
  lemma {:induction false} FirstIsInnermost(roots: seq<Directory>, target: Path)
    requires Sequences.Ordered(roots, Longer())
    ensures var found := FirstWithin(roots, target);
      && (found.Some? ==> found.value in roots && Within(found.value, target))
      && forall d | d in roots && Within(d, target) :: found.Some? && d <= found.value
  {
    if roots == [] {
    } else {
      assert roots == [roots[0]] + roots[1..];
      FirstIsInnermost(roots[1..], target);
      if Within(roots[0], target) {
        forall d | d in roots && Within(d, target) ensures d <= roots[0] {
          if roots[0] <= d && d != roots[0] { LongerPrefix(roots[0], d); }
          PrefixesCompare(d, roots[0], target.dir + [target.name]);
        }
      }
    }
  }

  lemma PrefixesCompare(a: Directory, b: Directory, whole: Directory)
    requires a <= whole && b <= whole
    ensures a <= b || b <= a
  {
  }

  /** A config's split root is the innermost split package directory around it. */
  lemma SplitRootIsInnermost(w: Workspace, target: Path)
    ensures var found := SplitRoot(w, target);
      && (found.Some? ==> found.value in w.packages && IsSplit(w, found.value) && Within(found.value, target))
      && forall d | d in w.packages && IsSplit(w, d) && Within(d, target) :: found.Some? && d <= found.value
  {
    SplitOnlyIsFilter(w, w.packages);
    Sequences.SortOrders(SplitOnly(w, w.packages), Longer());
    FirstIsInnermost(SplitRoots(w), target);
  }

  // Faces.

  datatype FaceResult = Faced(face: Face) | Faceless | Unreadable(path: Path)

  function Role(w: Workspace, path: Path): Option<Face> {
    if path.name == "tsconfig.host.json" then Some(Host)
    else if path.name == "tsconfig.client.json" then Some(Client)
    else if path == Path(w.root, "tsconfig.base.json") then Some(Host)
    else if path == Path(w.root, "tsconfig.base.client.json") then Some(Client)
    else None
  }

  /** A config file that was read. */
  predicate Readable(w: Workspace, path: Path) {
    path in w.configs && w.configs[path].Config?
  }

  /** `projectFace`: follow `extends` until a named face, a dead end or a repetition. */
  function ProjectFace(w: Workspace, path: Path, seen: set<Path>): FaceResult
    requires Readable(w, path)
    decreases w.configs.Keys - seen
  {
    if Role(w, path).Some? then Faced(Role(w, path).value)
    else if path in seen then Faceless
    else
      var parent := w.configs[path].parent;
      if parent.None? || parent.value !in w.configs then Faceless
      else if w.configs[parent.value].Unparsable? then Unreadable(parent.value)
      else
        assert w.configs.Keys - (seen + {path}) < w.configs.Keys - seen by { assert path in w.configs.Keys - seen; }
        ProjectFace(w, parent.value, seen + {path})
  }

  /** The face along at most `n` steps of the extends chain. */
  function FaceWithin(w: Workspace, path: Path, n: nat): FaceResult
    requires Readable(w, path)
    decreases n
  {
    if Role(w, path).Some? then Faced(Role(w, path).value)
    else
      var parent := w.configs[path].parent;
      if n == 0 || parent.None? || parent.value !in w.configs then Faceless
      else if w.configs[parent.value].Unparsable? then Unreadable(parent.value)
      else FaceWithin(w, parent.value, n - 1)
  }

  /** A config without a role whose readable parent is in the set, or is the current config. */
  predicate OnTrail(w: Workspace, p: Path, seen: set<Path>, path: Path) {
    && Readable(w, p) && Role(w, p).None? && w.configs[p].parent.Some?
    && Readable(w, w.configs[p].parent.value)
      && (w.configs[p].parent.value in seen || w.configs[p].parent.value == path)
  }

  ghost predicate Trail(w: Workspace, seen: set<Path>, path: Path) {
    forall p {:trigger OnTrail(w, p, seen, path)} | p in seen :: OnTrail(w, p, seen, path)
  }

  lemma {:induction false} LoopIsFaceless(w: Workspace, path: Path, at: Path, seen: set<Path>, n: nat)
    requires Trail(w, seen, path) && path in seen && at in seen
    ensures Readable(w, at) && FaceWithin(w, at, n) == Faceless
    decreases n
  {
    assert OnTrail(w, at, seen, path);
    if n == 0 {
    } else {
      LoopIsFaceless(w, path, w.configs[at].parent.value, seen, n - 1);
    }
  }

  lemma TrailGrows(w: Workspace, path: Path, seen: set<Path>)
    requires Readable(w, path) && Trail(w, seen, path) && Role(w, path).None? && w.configs[path].parent.Some?
    requires Readable(w, w.configs[path].parent.value)
    ensures Trail(w, seen + {path}, w.configs[path].parent.value)
  {
    forall p | p in seen + {path} ensures OnTrail(w, p, seen + {path}, w.configs[path].parent.value) {
      assert p in seen ==> OnTrail(w, p, seen, path);
    }
  }

  lemma FewerUnseen(all: set<Path>, seen: set<Path>, path: Path)
    requires path in all && path !in seen
    ensures |all - seen| == |all - (seen + {path})| + 1
  {
    assert all - seen == (all - (seen + {path})) + {path};
  }

  /** Both searches go on to the same parent. */
  lemma SameStep(w: Workspace, path: Path, seen: set<Path>, n: nat)
    requires Readable(w, path) && Role(w, path).None? && path !in seen && n > 0
    requires w.configs[path].parent.Some? && Readable(w, w.configs[path].parent.value)
    ensures ProjectFace(w, path, seen) == ProjectFace(w, w.configs[path].parent.value, seen + {path})
    ensures FaceWithin(w, path, n) == FaceWithin(w, w.configs[path].parent.value, n - 1)
  {
  }

  /** Without a parent to go on to, both searches stop alike. */
  lemma SameStop(w: Workspace, path: Path, seen: set<Path>, n: nat)
    requires Readable(w, path) && path !in seen && n > 0
    requires Role(w, path).Some? || w.configs[path].parent.None? || !Readable(w, w.configs[path].parent.value)
    ensures ProjectFace(w, path, seen) == FaceWithin(w, path, n)
  {
  }

  /** The search with its `seen` set finds the face of the whole chain. */
  lemma {:induction false} ProjectFaceIsChainFace(w: Workspace, path: Path, seen: set<Path>, n: nat)
    requires Readable(w, path) && Trail(w, seen, path) && n >= |w.configs.Keys - seen|
    ensures ProjectFace(w, path, seen) == FaceWithin(w, path, n)
    decreases n
  {
    if path in seen {
      assert OnTrail(w, path, seen, path);
      LoopIsFaceless(w, path, path, seen, n);
    } else {
      FewerUnseen(w.configs.Keys, seen, path);
      var parent := w.configs[path].parent;
      if Role(w, path).Some? || parent.None? || !Readable(w, parent.value) {
        SameStop(w, path, seen, n);
      } else {
        TrailGrows(w, path, seen);
        ProjectFaceIsChainFace(w, parent.value, seen + {path}, n - 1);
        SameStep(w, path, seen, n);
      }
    }
  }

  /** More steps than there are configs find nothing new. */
  lemma FaceIsEventual(w: Workspace, path: Path, n: nat)
    requires Readable(w, path) && n >= |w.configs|
    ensures FaceWithin(w, path, n) == ProjectFace(w, path, {})
  {
    assert w.configs.Keys - {} == w.configs.Keys && |w.configs.Keys| == |w.configs|;
    ProjectFaceIsChainFace(w, path, {}, n);
  }

  // The rule, in the names of the files.

  /** A workspace package with both leaf configs, around a file. */
  ghost predicate Encloses(w: Workspace, dir: Directory, target: Path) {
    && dir in w.packages && dir <= target.dir + [target.name]
    && Path(dir, "tsconfig.host.json") in w.configs && Path(dir, "tsconfig.client.json") in w.configs
  }

  ghost predicate IsSplitRoot(w: Workspace, target: Path, dir: Directory) {
    Encloses(w, dir, target) && forall d | Encloses(w, d, target) :: d <= dir
  }

  /** The script's search finds that package, and fails only if there is none. */
  lemma SplitRootIsFound(w: Workspace, target: Path, dir: Directory)
    ensures SplitRoot(w, target) == Some(dir) <==> IsSplitRoot(w, target, dir)
  {
    SplitRootIsInnermost(w, target);
    var found := SplitRoot(w, target);
    forall d | Encloses(w, d, target) ensures found.Some? && d <= found.value {
      assert d in w.packages && IsSplit(w, d) && Within(d, target);
    }
    if found.Some? { assert Encloses(w, found.value, target); }
    if IsSplitRoot(w, target, dir) { PrefixesAgree(dir, found.value); }
  }

  lemma PrefixesAgree(a: Directory, b: Directory)
    requires a <= b <= a
    ensures a == b
  {
    assert |a| == |b| && forall i | 0 <= i < |a| :: a[i] == b[i];
  }

  ghost predicate NamesFace(w: Workspace, path: Path, face: Face) {
    match face
    case Host => path.name == "tsconfig.host.json" || path == Path(w.root, "tsconfig.base.json")
    case Client => path.name == "tsconfig.client.json" || path == Path(w.root, "tsconfig.base.client.json")
  }

  /** The nearest config on the extends chain that names a face, within `n` steps, names this one. */
  ghost predicate InheritsFace(w: Workspace, path: Path, face: Face, n: nat)
    decreases n
  {
    NamesFace(w, path, face) ||
    (&& n > 0 && !NamesFace(w, path, Host) && !NamesFace(w, path, Client) && Readable(w, path)
     && w.configs[path].parent.Some? && Readable(w, w.configs[path].parent.value)
     && InheritsFace(w, w.configs[path].parent.value, face, n - 1))
  }

  ghost predicate HasFace(w: Workspace, path: Path, face: Face) {
    exists n: nat :: InheritsFace(w, path, face, n)
  }

  lemma RoleIsNamed(w: Workspace, path: Path, face: Face)
    ensures Role(w, path) == Some(face) <==> NamesFace(w, path, face)
  {
  }

  /** A leaf config has the face it is the leaf of. */
  lemma LeafHasItsFace(w: Workspace, dir: Directory, face: Face)
    ensures Role(w, Leaf(dir, face)) == Some(face) && HasFace(w, Leaf(dir, face), face)
  {
    RoleIsNamed(w, Leaf(dir, face), face);
    assert InheritsFace(w, Leaf(dir, face), face, 0);
  }

  lemma {:induction false} WithinIsInherited(w: Workspace, path: Path, face: Face, n: nat)
    requires Readable(w, path)
    ensures FaceWithin(w, path, n) == Faced(face) <==> InheritsFace(w, path, face, n)
    decreases n
  {
    RoleIsNamed(w, path, Host);
    RoleIsNamed(w, path, Client);
    var parent := w.configs[path].parent;
    if Role(w, path).None? && n > 0 && parent.Some? && Readable(w, parent.value) {
      WithinIsInherited(w, parent.value, face, n - 1);
    }
  }

  lemma {:induction false} InheritsFurther(w: Workspace, path: Path, face: Face, n: nat, m: nat)
    requires InheritsFace(w, path, face, n) && n <= m
    ensures InheritsFace(w, path, face, m)
    decreases n
  {
    if !NamesFace(w, path, face) { InheritsFurther(w, w.configs[path].parent.value, face, n - 1, m - 1); }
  }

  /** The search with its `seen` set finds a config's face, if it has one. */
  lemma FaceIsInherited(w: Workspace, path: Path, face: Face)
    requires Readable(w, path)
    ensures ProjectFace(w, path, {}) == Faced(face) <==> HasFace(w, path, face)
  {
    var all := |w.configs|;
    FaceIsEventual(w, path, all);
    WithinIsInherited(w, path, face, all);
    if n: nat :| InheritsFace(w, path, face, n) {
      var most := if n < all then all else n;
      InheritsFurther(w, path, face, n, most);
      FaceIsEventual(w, path, most);
      WithinIsInherited(w, path, face, most);
    }
  }

  /** A reference into a split package that does not name the leaf of the config's own face. */
  ghost predicate IsWrong(w: Workspace, p: Path, r: Reference, dir: Directory) {
    && IsSplitRoot(w, r.target, dir)
    && !(HasFace(w, p, Host) && r.target == Path(dir, "tsconfig.host.json"))
    && !(HasFace(w, p, Client) && r.target == Path(dir, "tsconfig.client.json"))
  }

  // Traversal.

  datatype Violation = Violation(config: Path, reference: string, splitRoot: Directory, face: Option<Face>)

  /** A reference into a split project that is not to the leaf of the config's face. */
  predicate IsBad(w: Workspace, face: FaceResult, r: Reference) {
    var root := SplitRoot(w, r.target);
    root.Some? && !(face.Faced? && r.target == Leaf(root.value, face.face))
  }

  /** The face of a readable config. */
  function FaceOf(w: Workspace, path: Path): FaceResult
    requires Readable(w, path)
  {
    ProjectFace(w, path, {})
  }

  /** What the script rejects is what the rule calls wrong. */
  lemma BadIsWrong(w: Workspace, p: Path, r: Reference)
    requires Readable(w, p)
    ensures IsBad(w, FaceOf(w, p), r) <==> exists dir :: IsWrong(w, p, r, dir)
    ensures forall dir | IsWrong(w, p, r, dir) :: SplitRoot(w, r.target) == Some(dir)
  {
    FaceIsInherited(w, p, Host);
    FaceIsInherited(w, p, Client);
    forall dir ensures SplitRoot(w, r.target) == Some(dir) <==> IsSplitRoot(w, r.target, dir) {
      SplitRootIsFound(w, r.target, dir);
    }
    if IsBad(w, FaceOf(w, p), r) { assert IsWrong(w, p, r, SplitRoot(w, r.target).value); }
  }

  function Complaint(w: Workspace, path: Path, face: FaceResult, r: Reference): Violation
    requires IsBad(w, face, r)
  {
    Violation(path, r.text, SplitRoot(w, r.target).value, if face.Faced? then Some(face.face) else None)
  }

  function BadRefs(w: Workspace, path: Path, face: FaceResult, refs: seq<Reference>): seq<Violation> {
    if refs == [] then []
    else
      var last := refs[|refs| - 1];
      BadRefs(w, path, face, refs[..|refs| - 1]) + if IsBad(w, face, last) then [Complaint(w, path, face, last)] else []
  }

  function GoodTargets(w: Workspace, face: FaceResult, refs: seq<Reference>): seq<Path> {
    if refs == [] then []
    else
      var last := refs[|refs| - 1];
      GoodTargets(w, face, refs[..|refs| - 1]) + if IsBad(w, face, last) then [] else [last.target]
  }

  function Aggregates(w: Workspace): seq<Path> {
    [Leaf(w.root, Host), Leaf(w.root, Client)]
  }

  /** Violations of the configs in a list, in its order. */
  function Complaints(w: Workspace, order: seq<Path>): seq<Violation>
    requires forall p | p in order :: Readable(w, p)
  {
    if order == [] then []
    else
      var last := order[|order| - 1];
      Complaints(w, order[..|order| - 1]) + BadRefs(w, last, FaceOf(w, last), w.configs[last].references)
  }

  /** One reference that is followed. */
  ghost predicate Follows(w: Workspace, p: Path, q: Path) {
    Readable(w, p) && exists r | r in w.configs[p].references :: r.target == q && IsRight(w, p, r)
  }

  ghost predicate IsRight(w: Workspace, p: Path, r: Reference) {
    forall dir :: !IsWrong(w, p, r, dir)
  }

  /** The two configs the traversal begins at. */
  ghost predicate IsAggregate(w: Workspace, p: Path) {
    p == Path(w.root, "tsconfig.host.json") || p == Path(w.root, "tsconfig.client.json")
  }

  /** A chain of followed references from an aggregate. */
  ghost predicate IsRoute(w: Workspace, route: seq<Path>) {
    && route != []
    && var n := |route| - 1;
      if n == 0 then IsAggregate(w, route[0]) else IsRoute(w, route[..n]) && Follows(w, route[n - 1], route[n])
  }

  ghost predicate Reached(w: Workspace, path: Path) {
    exists route :: IsRoute(w, route) && route[|route| - 1] == path
  }

  datatype Outcome = Violations(found: seq<Violation>) | Failed(path: Path)

  method CheckReferences(w: Workspace, path: Path, face: FaceResult, refs: seq<Reference>,
                         violations0: seq<Violation>, pending0: seq<Path>)
    returns (violations: seq<Violation>, pending: seq<Path>)
    ensures violations == violations0 + BadRefs(w, path, face, refs)
    ensures pending == pending0 + GoodTargets(w, face, refs)
  {
    violations, pending := violations0, pending0;
    for i := 0 to |refs|
      invariant violations == violations0 + BadRefs(w, path, face, refs[..i])
      invariant pending == pending0 + GoodTargets(w, face, refs[..i])
    {
      var r := refs[i];
      OneMoreReference(w, path, face, refs, i);
      var root := SplitRoot(w, r.target);
      if root.Some? && (!face.Faced? || r.target != Leaf(root.value, face.face)) {
        Sequences.Associate(violations0, BadRefs(w, path, face, refs[..i]), [Complaint(w, path, face, r)]);
        violations := violations + [Violation(path, r.text, root.value, if face.Faced? then Some(face.face) else None)];
        continue;
      }
      Sequences.Associate(pending0, GoodTargets(w, face, refs[..i]), [r.target]);
      pending := pending + [r.target];
    }
    assert refs[..|refs|] == refs;
  }

  lemma OneMoreReference(w: Workspace, path: Path, face: FaceResult, refs: seq<Reference>, i: nat)
    requires i < |refs|
    ensures var bad, good := BadRefs(w, path, face, refs[..i]), GoodTargets(w, face, refs[..i]);
            if IsBad(w, face, refs[i]) then
              && BadRefs(w, path, face, refs[..i + 1]) == bad + [Complaint(w, path, face, refs[i])]
              && GoodTargets(w, face, refs[..i + 1]) == good
            else
              && BadRefs(w, path, face, refs[..i + 1]) == bad
              && GoodTargets(w, face, refs[..i + 1]) == good + [refs[i].target]
  {
    assert refs[..i + 1][..i] == refs[..i];
  }

  /** The visited configs were read and reached, each once, and gave the violations found so far. */
  ghost predicate Sound(w: Workspace, visited: set<Path>, pending: seq<Path>, order: seq<Path>,
                        violations: seq<Violation>)
  {
    && AllRead(w, order) && (forall p | p in order :: Reached(w, p)) && NoRepeats(order)
    && (forall p :: p in visited <==> p in order)
    && violations == Complaints(w, order)
    && (forall q | q in pending :: Reached(w, q))
  }

  predicate AllRead(w: Workspace, order: seq<Path>) {
    forall p | p in order :: Readable(w, p) && !FaceOf(w, p).Unreadable?
  }

  predicate NoRepeats(order: seq<Path>) {
    forall i, j | 0 <= i < j < |order| :: order[i] != order[j]
  }

  predicate Settled(w: Workspace, q: Path, visited: set<Path>, pending: seq<Path>) {
    q in visited || q in pending || q !in w.configs
  }

  predicate Explored(w: Workspace, p: Path, visited: set<Path>, pending: seq<Path>) {
    Readable(w, p) && forall q | q in GoodTargets(w, FaceOf(w, p), w.configs[p].references) ::
      Settled(w, q, visited, pending)
  }

  /** Every followed reference of a visited config is visited, pending, or to a missing file. */
  ghost predicate Closed(w: Workspace, visited: set<Path>, pending: seq<Path>) {
    && (forall q | q in Aggregates(w) :: Settled(w, q, visited, pending))
    && forall p | p in visited :: Explored(w, p, visited, pending)
  }

  lemma ClosedCarries(w: Workspace, v: set<Path>, pending: seq<Path>, v2: set<Path>, pending2: seq<Path>)
    requires Closed(w, v, pending)
    requires forall q | Settled(w, q, v, pending) :: Settled(w, q, v2, pending2)
    requires forall p | p in v2 :: p in v || Explored(w, p, v2, pending2)
    ensures Closed(w, v2, pending2)
  {
    forall p | p in v2 ensures Explored(w, p, v2, pending2) {
      assert p in v ==> Explored(w, p, v, pending);
    }
  }

  /** A visited config, or a missing one, is simply dropped from the stack. */
  lemma Dropped(w: Workspace, visited: set<Path>, pending: seq<Path>)
    requires pending != [] && Closed(w, visited, pending)
    requires var top := pending[|pending| - 1]; top in visited || top !in w.configs
    ensures Closed(w, visited, pending[..|pending| - 1])
  {
    var rest := pending[..|pending| - 1];
    assert pending == rest + [pending[|pending| - 1]];
    ClosedCarries(w, visited, pending, visited, rest);
  }

  /** A config is visited when its followed references take its place on the stack. */
  lemma Visited(w: Workspace, visited: set<Path>, pending: seq<Path>, top: Path)
    requires pending != [] && pending[|pending| - 1] == top && Closed(w, visited, pending) && Readable(w, top)
    ensures Closed(w, visited + {top},
                   pending[..|pending| - 1] + GoodTargets(w, FaceOf(w, top), w.configs[top].references))
  {
    var rest := pending[..|pending| - 1];
    assert pending == rest + [top];
    ClosedCarries(w, visited, pending, visited + {top},
                  rest + GoodTargets(w, FaceOf(w, top), w.configs[top].references));
  }

  lemma FollowedTargets(w: Workspace, p: Path, q: Path)
    requires Readable(w, p)
    ensures q in GoodTargets(w, FaceOf(w, p), w.configs[p].references) <==> Follows(w, p, q)
  {
    GoodTargetsAreFollowed(w, FaceOf(w, p), w.configs[p].references, q);
    forall r ensures IsBad(w, FaceOf(w, p), r) <==> !IsRight(w, p, r) { BadIsWrong(w, p, r); }
  }

  lemma {:induction false} GoodTargetsAreFollowed(w: Workspace, face: FaceResult, refs: seq<Reference>, q: Path)
    ensures q in GoodTargets(w, face, refs) <==> exists r | r in refs :: r.target == q && !IsBad(w, face, r)
  {
    if refs == [] {
    } else {
      var before, last := refs[..|refs| - 1], refs[|refs| - 1];
      assert refs == before + [last];
      GoodTargetsAreFollowed(w, face, before, q);
    }
  }

  lemma RouteExtends(w: Workspace, route: seq<Path>, q: Path)
    requires IsRoute(w, route) && Follows(w, route[|route| - 1], q)
    ensures IsRoute(w, route + [q])
  {
    assert (route + [q])[..|route|] == route;
  }

  lemma StepReaches(w: Workspace, p: Path, q: Path)
    requires Reached(w, p) && Follows(w, p, q)
    ensures Reached(w, q)
  {
    var route :| IsRoute(w, route) && route[|route| - 1] == p;
    RouteExtends(w, route, q);
    assert (route + [q])[|route + [q]| - 1] == q;
  }

  lemma VisitSounds(w: Workspace, visited: set<Path>, pending: seq<Path>, order: seq<Path>,
                    violations: seq<Violation>, top: Path)
    requires pending != [] && pending[|pending| - 1] == top && Sound(w, visited, pending, order, violations)
    requires top !in visited && Readable(w, top) && !FaceOf(w, top).Unreadable?
    ensures Sound(w, visited + {top},
                  pending[..|pending| - 1] + GoodTargets(w, FaceOf(w, top), w.configs[top].references),
                  order + [top], violations + BadRefs(w, top, FaceOf(w, top), w.configs[top].references))
  {
    var refs := w.configs[top].references;
    forall q | q in pending[..|pending| - 1] + GoodTargets(w, FaceOf(w, top), refs) ensures Reached(w, q) {
      if q in GoodTargets(w, FaceOf(w, top), refs) {
        FollowedTargets(w, top, q);
        StepReaches(w, top, q);
      }
    }
    assert (order + [top])[..|order|] == order;
  }

  /** A config reached over good references, or the face of one needed this file. */
  ghost predicate Consulted(w: Workspace, path: Path) {
    Reached(w, path) || exists p | Reached(w, p) && Readable(w, p) :: FaceOf(w, p) == Unreadable(path)
  }

  /** A consulted file that does not parse. */
  ghost predicate Unusable(w: Workspace, path: Path) {
    path in w.configs && w.configs[path].Unparsable? && Consulted(w, path)
  }

  ghost predicate AnyUnusable(w: Workspace) {
    exists path :: Unusable(w, path)
  }

  lemma ReachedIsUnusable(w: Workspace, path: Path)
    requires path in w.configs && w.configs[path].Unparsable? && Reached(w, path)
    ensures Unusable(w, path) && AnyUnusable(w)
  {
    assert Unusable(w, path);
  }

  lemma FaceIsUnusable(w: Workspace, path: Path, p: Path)
    requires path in w.configs && w.configs[path].Unparsable?
    requires Reached(w, p) && Readable(w, p) && FaceOf(w, p) == Unreadable(path)
    ensures Unusable(w, path) && AnyUnusable(w)
  {
    assert Unusable(w, path);
  }

  lemma {:induction false} UnreadableIsUnparsable(w: Workspace, path: Path, seen: set<Path>)
    requires Readable(w, path)
    ensures var face := ProjectFace(w, path, seen); face.Unreadable? ==>
            face.path in w.configs && w.configs[face.path].Unparsable?
    decreases w.configs.Keys - seen
  {
    if Role(w, path).Some? || path in seen || w.configs[path].parent.None?
       || !Readable(w, w.configs[path].parent.value)
    {
    } else {
      assert w.configs.Keys - (seen + {path}) < w.configs.Keys - seen by { assert path in w.configs.Keys - seen; }
      UnreadableIsUnparsable(w, w.configs[path].parent.value, seen + {path});
    }
  }

  /** `collectProjectReferenceFaceViolations`, before its final sort; `order` lists the configs visited. */
  method CollectViolations(w: Workspace) returns (r: Outcome, ghost order: seq<Path>)
    ensures r.Violations? ==> Exact(w, order, r.found)
    ensures r.Failed? ==> Unusable(w, r.path)
    ensures r.Failed? <==> AnyUnusable(w)
  {
    var violations: seq<Violation> := [];
    var pending := Aggregates(w);
    var visited: set<Path> := {};
    order := [];
    Starts(w);
    while pending != []
      invariant Sound(w, visited, pending, order, violations) && Closed(w, visited, pending)
      decreases w.configs.Keys - visited, |pending|
    {
      var configPath := pending[|pending| - 1];
      ghost var stack := pending;
      pending := pending[..|pending| - 1];
      if configPath in visited || configPath !in w.configs {
        Dropped(w, visited, stack);
        continue;
      }
      var config := w.configs[configPath];
      assert Reached(w, configPath) by { assert configPath in stack; }
      if config.Unparsable? {
        ReachedIsUnusable(w, configPath);
        return Failed(configPath), order;
      }
      var face := ProjectFace(w, configPath, {});
      UnreadableIsUnparsable(w, configPath, {});
      if face.Unreadable? {
        FaceIsUnusable(w, face.path, configPath);
        return Failed(face.path), order;
      }
      VisitSounds(w, visited, stack, order, violations, configPath);
      Visited(w, visited, stack, configPath);
      visited, order := visited + {configPath}, order + [configPath];
      violations, pending := CheckReferences(w, configPath, face, config.references, violations, pending);
    }
    EndsExact(w, visited, order, violations);
    ExactUsesAll(w, order, violations);
    r := Violations(violations);
  }

  lemma Starts(w: Workspace)
    ensures Sound(w, {}, Aggregates(w), [], []) && Closed(w, {}, Aggregates(w))
  {
    forall q | q in Aggregates(w) ensures Reached(w, q) {
      assert IsRoute(w, [q]) && [q][|[q]| - 1] == q;
    }
  }

  /** With nothing pending, every reached config that exists was visited. */
  lemma {:induction false} ReachedIsVisited(w: Workspace, visited: set<Path>, route: seq<Path>)
    requires Closed(w, visited, []) && IsRoute(w, route)
    ensures route[|route| - 1] in visited || route[|route| - 1] !in w.configs
    decreases |route|
  {
    var n := |route| - 1;
    if n == 0 {
      assert Settled(w, route[0], visited, []);
    } else {
      var before := route[..n];
      assert before[|before| - 1] == route[n - 1];
      ReachedIsVisited(w, visited, before);
      assert Follows(w, route[n - 1], route[n]);
      assert Explored(w, route[n - 1], visited, []);
      FollowedTargets(w, route[n - 1], route[n]);
      assert Settled(w, route[n], visited, []);
    }
  }

  /** Exactly the bad references of the existing configs reached over good references, each config's once. */
  ghost predicate Exact(w: Workspace, order: seq<Path>, found: seq<Violation>) {
    && AllRead(w, order) && NoRepeats(order)
    && (forall p :: p in order <==> Reached(w, p) && p in w.configs)
    && found == Complaints(w, order)
  }

  lemma EndsExact(w: Workspace, visited: set<Path>, order: seq<Path>, violations: seq<Violation>)
    requires Sound(w, visited, [], order, violations) && Closed(w, visited, [])
    ensures Exact(w, order, violations)
  {
    forall p | Reached(w, p) && p in w.configs ensures p in order {
      var route :| IsRoute(w, route) && route[|route| - 1] == p;
      ReachedIsVisited(w, visited, route);
    }
  }

  /** An exact traversal consulted no file that does not parse. */
  lemma ExactUsesAll(w: Workspace, order: seq<Path>, found: seq<Violation>)
    requires Exact(w, order, found)
    ensures !AnyUnusable(w)
  {
    forall path ensures !Unusable(w, path) {
      assert Reached(w, path) && path in w.configs ==> path in order;
      forall p | Reached(w, p) && Readable(w, p) ensures FaceOf(w, p) != Unreadable(path) { assert p in order; }
    }
  }

  // Reachability over all references, good or bad.

  predicate Refers(w: Workspace, p: Path, q: Path) {
    Readable(w, p) && exists r | r in w.configs[p].references :: r.target == q
  }

  ghost predicate IsPath(w: Workspace, path: seq<Path>) {
    && path != []
    && var n := |path| - 1;
      if n == 0 then IsAggregate(w, path[0]) else IsPath(w, path[..n]) && Refers(w, path[n - 1], path[n])
  }

  ghost predicate Reachable(w: Workspace, p: Path) {
    exists path :: IsPath(w, path) && path[|path| - 1] == p
  }

  /** Every reference into a split package names its leaf of the config's own face. */
  ghost predicate FacesKept(w: Workspace, p: Path)
    requires Readable(w, p)
  {
    forall r | r in w.configs[p].references :: IsRight(w, p, r)
  }

  lemma {:induction false} NoBadRefs(w: Workspace, path: Path, face: FaceResult, refs: seq<Reference>)
    ensures BadRefs(w, path, face, refs) == [] <==> forall r | r in refs :: !IsBad(w, face, r)
  {
    if refs == [] {
    } else {
      var before, last := refs[..|refs| - 1], refs[|refs| - 1];
      assert refs == before + [last];
      NoBadRefs(w, path, face, before);
    }
  }

  lemma KeptIffNoneBad(w: Workspace, p: Path)
    requires Readable(w, p)
    ensures FacesKept(w, p) <==> BadRefs(w, p, FaceOf(w, p), w.configs[p].references) == []
  {
    NoBadRefs(w, p, FaceOf(w, p), w.configs[p].references);
    forall r ensures IsBad(w, FaceOf(w, p), r) <==> !IsRight(w, p, r) { BadIsWrong(w, p, r); }
  }

  lemma {:induction false} NoComplaints(w: Workspace, order: seq<Path>)
    requires AllRead(w, order)
    ensures Complaints(w, order) == [] <==> forall p | p in order :: FacesKept(w, p)
  {
    if order == [] {
    } else {
      var before, last := order[..|order| - 1], order[|order| - 1];
      assert order == before + [last];
      NoComplaints(w, before);
      KeptIffNoneBad(w, last);
    }
  }

  lemma {:induction false} RouteIsPath(w: Workspace, route: seq<Path>)
    requires IsRoute(w, route)
    ensures IsPath(w, route)
    decreases |route|
  {
    var n := |route| - 1;
    if n == 0 {
    } else {
      RouteIsPath(w, route[..n]);
      assert Follows(w, route[n - 1], route[n]);
      assert Refers(w, route[n - 1], route[n]);
    }
  }

  lemma KeptIsFollowed(w: Workspace, p: Path, q: Path)
    requires Refers(w, p, q) && FacesKept(w, p)
    ensures Follows(w, p, q)
  {
    var r :| r in w.configs[p].references && r.target == q;
    assert IsRight(w, p, r);
  }

  ghost predicate ReachedKeepFaces(w: Workspace) {
    forall p {:trigger Reached(w, p)} | Reached(w, p) && Readable(w, p) :: FacesKept(w, p)
  }

  lemma LastIsKept(w: Workspace, route: seq<Path>)
    requires IsRoute(w, route) && ReachedKeepFaces(w) && Readable(w, route[|route| - 1])
    ensures FacesKept(w, route[|route| - 1])
  {
    assert Reached(w, route[|route| - 1]);
  }

  lemma RouteGrows(w: Workspace, path: seq<Path>, n: nat)
    requires |path| == n + 1 && n > 0 && ReachedKeepFaces(w)
    requires IsRoute(w, path[..n]) && Refers(w, path[n - 1], path[n])
    ensures IsRoute(w, path)
  {
    assert path[..n][|path[..n]| - 1] == path[n - 1];
    LastIsKept(w, path[..n]);
    KeptIsFollowed(w, path[n - 1], path[n]);
  }

  lemma PathShrinks(w: Workspace, path: seq<Path>, n: nat)
    requires IsPath(w, path) && |path| == n + 1 && n > 0
    ensures IsPath(w, path[..n]) && Refers(w, path[n - 1], path[n])
  {
  }

  /** Without bad references every path of references is followed to its end. */
  lemma {:induction false} PathIsRoute(w: Workspace, path: seq<Path>)
    requires IsPath(w, path) && ReachedKeepFaces(w)
    ensures IsRoute(w, path)
    decreases |path|
  {
    var n := |path| - 1;
    if n == 0 {
    } else {
      PathShrinks(w, path, n);
      PathIsRoute(w, path[..n]);
      RouteGrows(w, path, n);
    }
  }

  /** The list is empty exactly when every config reachable at all keeps its face. */
  lemma EmptyIffKept(w: Workspace, order: seq<Path>, found: seq<Violation>)
    requires Exact(w, order, found)
    ensures found == [] <==> forall p | Reachable(w, p) && Readable(w, p) :: FacesKept(w, p)
  {
    NoComplaints(w, order);
    if found == [] {
      forall p | Reachable(w, p) && Readable(w, p) ensures FacesKept(w, p) {
        var path :| IsPath(w, path) && path[|path| - 1] == p;
        PathIsRoute(w, path);
        assert Reached(w, p);
      }
    } else {
      var p :| p in order && !FacesKept(w, p);
      var route :| IsRoute(w, route) && route[|route| - 1] == p;
      RouteIsPath(w, route);
    }
  }

  /** A violation of a config's reference, as it is reported. */
  ghost predicate Reports(w: Workspace, p: Path, r: Reference, v: Violation) {
    && IsWrong(w, p, r, v.splitRoot) && v.config == p && v.reference == r.text
    && forall face :: v.face == Some(face) <==> HasFace(w, p, face)
  }

  lemma {:induction false} BadRefsReported(w: Workspace, p: Path, refs: seq<Reference>, v: Violation)
    requires Readable(w, p)
    ensures v in BadRefs(w, p, FaceOf(w, p), refs) <==> exists r | r in refs :: Reports(w, p, r, v)
  {
    if refs == [] {
    } else {
      var before, last := refs[..|refs| - 1], refs[|refs| - 1];
      assert refs == before + [last];
      BadRefsReported(w, p, before, v);
      ComplaintReports(w, p, last, v);
    }
  }

  lemma ComplaintReports(w: Workspace, p: Path, r: Reference, v: Violation)
    requires Readable(w, p)
    ensures Reports(w, p, r, v) <==> IsBad(w, FaceOf(w, p), r) && v == Complaint(w, p, FaceOf(w, p), r)
  {
    BadIsWrong(w, p, r);
    forall face ensures FaceOf(w, p) == Faced(face) <==> HasFace(w, p, face) { FaceIsInherited(w, p, face); }
    assert v.face.Some? ==> v.face == Some(v.face.value);
  }

  lemma {:induction false} ComplaintsReported(w: Workspace, order: seq<Path>, v: Violation)
    requires AllRead(w, order)
    ensures v in Complaints(w, order) <==> exists p | p in order :: ReportedOf(w, p, v)
  {
    if order == [] {
    } else {
      var before, last := order[..|order| - 1], order[|order| - 1];
      assert order == before + [last];
      assert last in order;
      ComplaintsReported(w, before, v);
      BadRefsReported(w, last, w.configs[last].references, v);
    }
  }

  ghost predicate ReportedOf(w: Workspace, p: Path, v: Violation) {
    Readable(w, p) && exists r | r in w.configs[p].references :: Reports(w, p, r, v)
  }

  /** Reported are the wrong references of the existing configs reached over right ones, and nothing else. */
  lemma ExactReportsWrong(w: Workspace, order: seq<Path>, found: seq<Violation>, v: Violation)
    requires Exact(w, order, found)
    ensures v in found <==> exists p :: Reached(w, p) && ReportedOf(w, p, v)
  {
    ComplaintsReported(w, order, v);
  }

  // Any order of the stack gives the same violations.

  function BadCount(w: Workspace, p: Path, v: Violation): nat
    requires Readable(w, p)
  {
    multiset(BadRefs(w, p, FaceOf(w, p), w.configs[p].references))[v]
  }

  lemma {:induction false} BadRefsNameTheirConfig(w: Workspace, p: Path, face: FaceResult, refs: seq<Reference>,
                                                  v: Violation)
    requires v.config != p
    ensures v !in multiset(BadRefs(w, p, face, refs))
  {
    if refs == [] {
    } else {
      BadRefsNameTheirConfig(w, p, face, refs[..|refs| - 1], v);
    }
  }

  /** A violation is listed as often as its own config's references give it. */
  lemma {:induction false} ComplaintCount(w: Workspace, order: seq<Path>, v: Violation)
    requires AllRead(w, order) && NoRepeats(order)
    ensures multiset(Complaints(w, order))[v] == if v.config in order then BadCount(w, v.config, v) else 0
  {
    if order == [] {
    } else {
      var n := |order| - 1;
      var before, last := order[..n], order[n];
      assert order == before + [last];
      assert last !in before;
      ComplaintCount(w, before, v);
      if v.config != last {
        BadRefsNameTheirConfig(w, last, FaceOf(w, last), w.configs[last].references, v);
      }
    }
  }

  /** Two exact traversals found the same violations, whatever the order of their stacks. */
  lemma StackOrderIsIrrelevant(w: Workspace, a: seq<Path>, found: seq<Violation>, b: seq<Path>, other: seq<Violation>)
    requires Exact(w, a, found) && Exact(w, b, other)
    ensures multiset(found) == multiset(other)
  {
    forall v ensures multiset(found)[v] == multiset(other)[v] {
      ComplaintCount(w, a, v);
      ComplaintCount(w, b, v);
    }
  }
}
