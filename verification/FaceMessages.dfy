/** The rendered and sorted diagnostics of scripts/project-reference-faces.ts. */
module FaceMessages {
  import opened Options
  import opened ProjectFaces
  import Sequences
  import Splitting

  /** `JSON.stringify` of a string. */
  type Quote = string -> string

  /** `relative`: up out of what only the root has, then down. */
  function Relative(root: Directory, path: Directory): seq<string> {
    if root != [] && path != [] && root[0] == path[0] then Relative(root[1..], path[1..])
    else seq(|root|, i => "..") + path
  }

  /** Where a relative path leads, `..` going up. */
  function Resolve(from: Directory, path: seq<string>): Directory
    decreases |path|
  {
    if path == [] then from
    else if path[0] == ".." then Resolve(if from == [] then [] else from[..|from| - 1], path[1..])
    else Resolve(from + [path[0]], path[1..])
  }

  lemma {:induction false} ResolveUp(from: Directory, n: nat, path: seq<string>)
    requires n <= |from|
    ensures Resolve(from, seq(n, i => "..") + path) == Resolve(from[..|from| - n], path)
  {
    var up := seq(n, i => "..");
    if n == 0 {
      assert up + path == path && from[..|from|] == from;
    } else {
      assert (up + path)[1..] == seq(n - 1, i => "..") + path;
      ResolveUp(from[..|from| - 1], n - 1, path);
      assert from[..|from| - 1][..|from| - n] == from[..|from| - n];
    }
  }

  lemma {:induction false} ResolveDown(from: Directory, path: seq<string>)
    requires ".." !in path
    ensures Resolve(from, path) == from + path
    decreases |path|
  {
    if path == [] {
    } else {
      ResolveDown(from + [path[0]], path[1..]);
      assert from + [path[0]] + path[1..] == from + path;
    }
  }

  lemma {:induction false} RelativeIsSplit(root: Directory, path: Directory) returns (n: nat)
    ensures n <= |root| && n <= |path| && root[..n] == path[..n]
    ensures Relative(root, path) == seq(|root| - n, i => "..") + path[n..]
    ensures n < |root| && n < |path| ==> root[n] != path[n]
  {
    if root != [] && path != [] && root[0] == path[0] {
      var m := RelativeIsSplit(root[1..], path[1..]);
      n := m + 1;
      assert root[..n] == [root[0]] + root[1..][..m] && path[..n] == [path[0]] + path[1..][..m];
      assert path[1..][m..] == path[n..];
    } else {
      n := 0;
      assert path[0..] == path;
    }
  }

  /** A path relative to the root leads from the root back to it. */
  lemma RelativeLeadsBack(root: Directory, path: Directory)
    requires ".." !in path
    ensures Resolve(root, Relative(root, path)) == path
  {
    var n := RelativeIsSplit(root, path);
    ResolveUp(root, |root| - n, path[n..]);
    ResolveDown(root[..n], path[n..]);
    assert path[..n] + path[n..] == path;
  }

  function RepoPath(root: Directory, path: Directory): string {
    var segments := Relative(root, path);
    if segments == [] then "" else Splitting.Join(segments, '/')
  }

  lemma {:induction false} NothingBelow(root: Directory)
    ensures Relative(root, root) == []
  {
    if root != [] { NothingBelow(root[1..]); }
  }

  /** What is printed for a path, read at its slashes, leads from the root back to the path. */
  lemma RepoPathLeadsBack(root: Directory, path: Directory)
    requires ".." !in path && Splitting.Free(path, '/') && path != root
    ensures Resolve(root, Splitting.Split(RepoPath(root, path), '/')) == path
    ensures RepoPath(root, root) == ""
  {
    NothingBelow(root);
    RelativeLeadsBack(root, path);
    var n := RelativeIsSplit(root, path);
    var segments := Relative(root, path);
    if segments == [] {
      PrefixesAgree(root, path);
    } else {
      assert Splitting.Free(segments, '/');
      Splitting.SplitUndoesJoin(segments, '/');
    }
  }

  function Whole(path: Path): Directory {
    path.dir + [path.name]
  }

  function Label(face: Face): string {
    if face == Host then "Host" else "Client"
  }

  function Message(w: Workspace, quote: Quote, v: Violation): string {
    RepoPath(w.root, Whole(v.config)) + ": Project Reference " + quote(v.reference)
    + " enters split project " + RepoPath(w.root, v.splitRoot) + " from a " + Origin(w, quote, v.splitRoot, v.face)
  }

  function Origin(w: Workspace, quote: Quote, splitRoot: Directory, face: Option<Face>): string {
    match face
    case None => "config with no Host/Client face"
    case Some(face) =>
      Label(face) + " config; reference " + quote(RepoPath(w.root, Whole(Leaf(splitRoot, face)))) + " instead"
  }

  /** A message names the face the config has, and the file the reference should be to. */
  lemma OriginReads(w: Workspace, quote: Quote, dir: Directory)
    ensures Origin(w, quote, dir, None) == "config with no Host/Client face"
    ensures Origin(w, quote, dir, Some(Host))
            == "Host" + " config; reference " + quote(RepoPath(w.root, dir + ["tsconfig.host.json"])) + " instead"
    ensures Origin(w, quote, dir, Some(Client))
            == "Client" + " config; reference " + quote(RepoPath(w.root, dir + ["tsconfig.client.json"])) + " instead"
  {
    hide RepoPath;
    assert Whole(Leaf(dir, Host)) == dir + ["tsconfig.host.json"];
    assert Whole(Leaf(dir, Client)) == dir + ["tsconfig.client.json"];
  }

  function Messages(w: Workspace, quote: Quote, found: seq<Violation>): seq<string> {
    if found == [] then [] else [Message(w, quote, found[0])] + Messages(w, quote, found[1..])
  }

  /** The order of `sort` on strings. */
  predicate NotAfter(a: string, b: string) {
    a == "" || (b != "" && (a[0] < b[0] || (a[0] == b[0] && NotAfter(a[1..], b[1..]))))
  }

  lemma {:induction false} OrderIsTotal(a: string, b: string)
    ensures NotAfter(a, b) || NotAfter(b, a)
    ensures NotAfter(a, b) && NotAfter(b, a) ==> a == b
  {
    if a == "" || b == "" {
    } else {
      OrderIsTotal(a[1..], b[1..]);
      assert a == [a[0]] + a[1..] && b == [b[0]] + b[1..];
    }
  }

  /** Code unit by code unit: a prefix comes first, and otherwise the smaller of the two that differ first. */
  lemma {:induction false} OrderIsByFirstDifference(a: string, b: string)
    ensures NotAfter(a, b) <==> a <= b || exists k: nat :: FirstDifference(a, b, k) && a[k] < b[k]
  {
    if a == "" {
    } else if b == "" || a[0] != b[0] {
      assert FirstDifference(a, b, 0) <==> b != "";
      assert forall k: nat | FirstDifference(a, b, k) :: k == 0;
    } else {
      OrderIsByFirstDifference(a[1..], b[1..]);
      assert a == [a[0]] + a[1..] && b == [b[0]] + b[1..];
      if k: nat :| FirstDifference(a[1..], b[1..], k) && a[1..][k] < b[1..][k] {
        assert FirstDifference(a, b, k + 1) && a[k + 1] < b[k + 1];
      }
      if k: nat :| FirstDifference(a, b, k) && a[k] < b[k] {
        DifferenceBehind(a, b, k);
      }
    }
  }

  ghost predicate FirstDifference(a: string, b: string, k: nat) {
    k < |a| && k < |b| && a[..k] == b[..k] && a[k] != b[k]
  }

  lemma DifferenceBehind(a: string, b: string, k: nat)
    requires FirstDifference(a, b, k) && a[0] == b[0]
    ensures k > 0 && FirstDifference(a[1..], b[1..], k - 1)
  {
    assert a[1..][..k - 1] == a[..k][1..] && b[1..][..k - 1] == b[..k][1..];
  }

  lemma {:induction false} OrderIsTransitive(a: string, b: string, c: string)
    requires NotAfter(a, b) && NotAfter(b, c)
    ensures NotAfter(a, c)
  {
    if a == "" || a[0] < b[0] || b[0] < c[0] {
    } else {
      OrderIsTransitive(a[1..], b[1..], c[1..]);
    }
  }

  function InOrder(): (string, string) -> bool {
    (a: string, b: string) => NotAfter(a, b)
  }

  lemma OrderIsPreorder()
    ensures Sequences.IsPreorder(InOrder())
    ensures forall a, b :: InOrder()(a, b) && InOrder()(b, a) ==> a == b
  {
    forall a, b ensures InOrder()(a, b) || InOrder()(b, a)
      ensures InOrder()(a, b) && InOrder()(b, a) ==> a == b
    {
      OrderIsTotal(a, b);
    }
    forall a, b, c | InOrder()(a, b) && InOrder()(b, c) ensures InOrder()(a, c) { OrderIsTransitive(a, b, c); }
  }

  /** What the function returns for the violations it found. */
  function Report(w: Workspace, quote: Quote, found: seq<Violation>): seq<string> {
    Sequences.Sort(Messages(w, quote, found), InOrder())
  }

  lemma {:induction false} MessagesJoin(w: Workspace, quote: Quote, a: seq<Violation>, b: seq<Violation>)
    ensures Messages(w, quote, a + b) == Messages(w, quote, a) + Messages(w, quote, b)
  {
    if a == [] {
      assert a + b == b;
    } else {
      assert (a + b)[1..] == a[1..] + b;
      MessagesJoin(w, quote, a[1..], b);
    }
  }

  /** Taking a violation out takes its message out. */
  lemma MessageOut(w: Workspace, quote: Quote, a: seq<Violation>, v: Violation, b: seq<Violation>)
    ensures multiset(Messages(w, quote, a + ([v] + b)))
            == multiset(Messages(w, quote, a + b)) + multiset{Message(w, quote, v)}
  {
    hide Message;
    MessagesJoin(w, quote, a, [v] + b);
    MessagesJoin(w, quote, a, b);
    assert ([v] + b)[1..] == b;
    Sequences.InsertedOnce(Messages(w, quote, a), Message(w, quote, v), Messages(w, quote, b));
  }

  lemma MessagesSplit(w: Workspace, quote: Quote, b: seq<Violation>, k: nat)
    requires k < |b|
    ensures multiset(Messages(w, quote, b))
            == multiset(Messages(w, quote, b[..k] + b[k + 1..])) + multiset{Message(w, quote, b[k])}
  {
    hide Message;
    MessageOut(w, quote, b[..k], b[k], b[k + 1..]);
    assert b == b[..k] + ([b[k]] + b[k + 1..]);
  }

  lemma MessagesHead(w: Workspace, quote: Quote, a: seq<Violation>)
    requires a != []
    ensures multiset(Messages(w, quote, a))
            == multiset(Messages(w, quote, a[1..])) + multiset{Message(w, quote, a[0])}
  {
    hide Message;
  }

  /** The bag of messages depends only on the bag of violations. */
  lemma {:induction false} SameMessages(w: Workspace, quote: Quote, a: seq<Violation>, b: seq<Violation>)
    requires multiset(a) == multiset(b)
    ensures multiset(Messages(w, quote, a)) == multiset(Messages(w, quote, b))
    decreases |a|
  {
    hide Message;
    if a == [] {
      assert |b| == |multiset(b)|;
    } else {
      var k := Position(a, b);
      Sequences.RemovedBags(a, b, k);
      SameMessages(w, quote, a[1..], b[..k] + b[k + 1..]);
      MessagesSplit(w, quote, b, k);
      MessagesHead(w, quote, a);
    }
  }

  lemma Position<T(!new)>(a: seq<T>, b: seq<T>) returns (k: nat)
    requires a != [] && multiset(a) == multiset(b)
    ensures k < |b| && b[k] == a[0]
  {
    Sequences.SameMembers(a, b);
    assert a[0] in b;
    k :| k < |b| && b[k] == a[0];
  }

  /** The diagnostics are one list in order, whatever the order in which the configs were visited. */
  lemma ReportIsDetermined(w: Workspace, quote: Quote, a: seq<Path>, found: seq<Violation>, b: seq<Path>,
                           other: seq<Violation>)
    requires Exact(w, a, found) && Exact(w, b, other)
    ensures Report(w, quote, found) == Report(w, quote, other)
    ensures Sequences.Ordered(Report(w, quote, found), InOrder())
  {
    StackOrderIsIrrelevant(w, a, found, b, other);
    SameMessages(w, quote, found, other);
    OrderIsPreorder();
    Sequences.SortOrders(Messages(w, quote, found), InOrder());
    Sequences.SortOrders(Messages(w, quote, other), InOrder());
    Sequences.OrderIsUnique(Report(w, quote, found), Report(w, quote, other), InOrder());
  }

  /** No diagnostics are returned exactly when every config reachable at all keeps its face. */
  lemma ReportIsEmptyIffKept(w: Workspace, quote: Quote, order: seq<Path>, found: seq<Violation>)
    requires Exact(w, order, found)
    ensures Report(w, quote, found) == [] <==> forall p | Reachable(w, p) && Readable(w, p) :: FacesKept(w, p)
  {
    EmptyIffKept(w, order, found);
    Sequences.SortPermutes(Messages(w, quote, found), InOrder());
    assert |Report(w, quote, found)| == |multiset(Report(w, quote, found))|;
    assert |Messages(w, quote, found)| == |multiset(Messages(w, quote, found))|;
  }

  /** The messages, or the file whose parse error ends the script. */
  datatype Diagnostics = Printed(all: seq<string>) | Unparsed(path: Path)

  /** The whole function, its final sort included. */
  method CollectMessages(w: Workspace, quote: Quote)
    returns (diagnostics: Diagnostics, ghost order: seq<Path>, ghost found: seq<Violation>)
    ensures diagnostics.Printed? ==> Exact(w, order, found) && diagnostics.all == Report(w, quote, found)
    ensures diagnostics.Printed? ==>
              (diagnostics.all == [] <==> forall p | Reachable(w, p) && Readable(w, p) :: FacesKept(w, p))
    ensures diagnostics.Unparsed? ==> Unusable(w, diagnostics.path)
    ensures diagnostics.Unparsed? <==> AnyUnusable(w)
  {
    var r;
    found := [];
    r, order := CollectViolations(w);
    match r
    case Violations(violations) =>
      found := violations;
      diagnostics := Printed(Report(w, quote, violations));
      ReportIsEmptyIffKept(w, quote, order, found);
    case Failed(path) => diagnostics := Unparsed(path);
  }
}
