/** Source files and the re-export search of scripts/gen-config-catalog.ts. */
module Exports {
  import opened Options

  type FileId = string

  /** Type syntax. `Opaque` is any node the walk does not look into. */
  datatype TypeNode =
    | Literal(members: seq<Member>)
    | Parenthesized(inner: TypeNode)
    | Readonly(inner: TypeNode)
    | Intersection(parts: seq<TypeNode>)
    | Union(parts: seq<TypeNode>)
    | ArrayOf(element: TypeNode)
    | Indexed(target: TypeNode, index: Option<string>)
    | Reference(name: string, qualified: bool, arguments: seq<TypeNode>)
    | Opaque(tag: nat)

  /**
   * One element of a member list. A property signature carries its name as written, quotes included, and the key it
   * declares, which a computed name does not show; a method or accessor its key. A call or construct signature
   * declares no key, and an open member, such as an index signature, any.
   */
  datatype Member =
    | Property(written: string, key: Option<string>, annotation: Option<TypeNode>)
    | Method(key: Option<string>)
    | Signature
    | OpenMember

  datatype Heritage = Base(name: string) | ComputedBase

  /** A class is not among the declarations the script looks for, but it merges with an interface of its name. */
  datatype Decl =
    | Interface(members: seq<Member>, heritage: seq<Heritage>)
    | Alias(body: TypeNode)
    | Enum
    | Class

  /** A module specifier, with a relative `.ts` one already resolved to a file. */
  datatype Specifier = RelativeTs(file: FileId) | RelativeOther | Bare(name: string)

  datatype Import = Import(imported: string, specifier: Specifier)

  datatype ExportElement = ExportElement(name: string, source: string)

  /** `export * from`, `export { a as b } from`, and export forms that name no type. */
  datatype ReExport = Star(from: Specifier) | Named(from: Specifier, elements: seq<ExportElement>) | OtherExport

  datatype NamedDecl = NamedDecl(name: string, decl: Decl)

  datatype SourceFile = SourceFile(decls: seq<NamedDecl>, imports: map<string, Import>, exports: seq<ReExport>)

  /** Every readable file, and the entry file of every workspace package. */
  datatype World = World(files: map<FileId, SourceFile>, entries: map<string, FileId>)

  /** The first interface, alias or enum of a name. */
  function FindTypeDecl(decls: seq<NamedDecl>, name: string): Option<Decl> {
    if decls == [] then None
    else if decls[0].name == name && !decls[0].decl.Class? then Some(decls[0].decl)
    else FindTypeDecl(decls[1..], name)
  }

  datatype Key = Key(file: FileId, name: string)

  function Declares(world: World, key: Key): Option<Decl> {
    if key.file in world.files then FindTypeDecl(world.files[key.file].decls, key.name) else None
  }

  function FindElement(elements: seq<ExportElement>, name: string): Option<string> {
    if elements == [] then None
    else if elements[0].name == name then Some(elements[0].source)
    else FindElement(elements[1..], name)
  }

  /** Where one export statement sends the search for a name. */
  function Target(statement: ReExport, name: string): Option<Key> {
    match statement
    case Star(RelativeTs(file)) => Some(Key(file, name))
    case Named(RelativeTs(file), elements) =>
      (match FindElement(elements, name) case Some(source) => Some(Key(file, source)) case None => None)
    case _ => None
  }

  /** The first interface, alias or enum of that name in its file, as the file is written. */
  ghost predicate IsDeclared(world: World, key: Key, decl: Decl) {
    key.file in world.files && exists i: nat :: IsFirstDecl(world.files[key.file].decls, key.name, i, decl)
  }

  ghost predicate IsFirstDecl(decls: seq<NamedDecl>, name: string, i: nat, decl: Decl) {
    && i < |decls| && decls[i] == NamedDecl(name, decl) && decl != Class
    && forall j | 0 <= j < i && decls[j].name == name :: decls[j].decl == Class
  }

  lemma {:induction false} FindsFirstDecl(decls: seq<NamedDecl>, name: string, decl: Decl)
    ensures FindTypeDecl(decls, name) == Some(decl) <==> exists i: nat :: IsFirstDecl(decls, name, i, decl)
  {
    if decls == [] {
    } else if decls[0].name == name && !decls[0].decl.Class? {
      if decl == decls[0].decl { assert IsFirstDecl(decls, name, 0, decl); }
    } else {
      FindsFirstDecl(decls[1..], name, decl);
      if i: nat :| IsFirstDecl(decls[1..], name, i, decl) {
        assert forall j | 0 < j < i + 1 :: decls[j] == decls[1..][j - 1];
        assert IsFirstDecl(decls, name, i + 1, decl);
      }
      if i: nat :| IsFirstDecl(decls, name, i, decl) {
        assert forall j | 0 <= j < i - 1 :: decls[1..][j] == decls[j + 1];
        assert IsFirstDecl(decls[1..], name, i - 1, decl);
      }
    }
  }

  /** The script reads a name as the first declaration of it that is not a class. */
  lemma DeclaresTheFirst(world: World, key: Key, decl: Decl)
    ensures Declares(world, key) == Some(decl) <==> IsDeclared(world, key, decl)
  {
    if key.file in world.files { FindsFirstDecl(world.files[key.file].decls, key.name, decl); }
  }

  /**
   * Where an export statement leads a name, as it is written: `export * from './f.ts'` to the same name of `f`, and
   * `export { a as b } from './f.ts'` from `b` to the `a` of `f`, by the first element exported as `b`. No other
   * statement leads anywhere.
   */
  ghost predicate Leads(statement: ReExport, name: string, to: Key) {
    match statement
    case Star(specifier) => specifier == RelativeTs(to.file) && to.name == name
    case Named(specifier, elements) =>
      specifier == RelativeTs(to.file) && exists i: nat :: IsFirstElement(elements, name, i, to.name)
    case OtherExport => false
  }

  ghost predicate IsFirstElement(elements: seq<ExportElement>, name: string, i: nat, source: string) {
    && i < |elements| && elements[i] == ExportElement(name, source)
    && forall j | 0 <= j < i :: elements[j].name != name
  }

  lemma {:induction false} FindsFirstElement(elements: seq<ExportElement>, name: string, source: string)
    ensures FindElement(elements, name) == Some(source) <==>
              exists i: nat :: IsFirstElement(elements, name, i, source)
  {
    if elements == [] {
    } else if elements[0].name == name {
      if source == elements[0].source { assert IsFirstElement(elements, name, 0, source); }
    } else {
      FindsFirstElement(elements[1..], name, source);
      if i: nat :| IsFirstElement(elements[1..], name, i, source) {
        assert forall j | 0 < j < i + 1 :: elements[j] == elements[1..][j - 1];
        assert IsFirstElement(elements, name, i + 1, source);
      }
      if i: nat :| IsFirstElement(elements, name, i, source) {
        assert forall j | 0 <= j < i - 1 :: elements[1..][j] == elements[j + 1];
        assert IsFirstElement(elements[1..], name, i - 1, source);
      }
    }
  }

  /** The search goes where the statement leads, and nowhere else. */
  lemma TargetLeads(statement: ReExport, name: string, to: Key)
    ensures Target(statement, name) == Some(to) <==> Leads(statement, name, to)
  {
    if statement.Named? { FindsFirstElement(statement.elements, name, to.name); }
  }

  /** One link of a re-export chain. */
  ghost predicate Link(world: World, from: Key, to: Key) {
    && from.file in world.files
    && exists statement | statement in world.files[from.file].exports :: Leads(statement, from.name, to)
  }

  lemma TargetLinks(world: World, key: Key, statement: ReExport, to: Key)
    requires key.file in world.files && statement in world.files[key.file].exports
    requires Target(statement, key.name) == Some(to)
    ensures Link(world, key, to)
  {
    TargetLeads(statement, key.name, to);
  }

  ghost predicate IsChain(world: World, chain: seq<Key>) {
    chain != [] && forall i | 0 <= i < |chain| - 1 :: Link(world, chain[i], chain[i + 1])
  }

  ghost predicate Reaches(world: World, from: Key, to: Key) {
    exists chain :: IsChain(world, chain) && chain[0] == from && chain[|chain| - 1] == to
  }

  /** A finite set of keys that no link to a readable file leaves. */
  ghost predicate IsUniverse(world: World, universe: set<Key>) {
    && (forall key | key in universe :: key.file in world.files)
    && forall from, to | from in universe && Link(world, from, to) && to.file in world.files :: to in universe
  }

  datatype Outcome = Hit(file: FileId, name: string, decl: Decl) | NotFound | Unreadable(missing: Key)

  datatype Search = Search(outcome: Outcome, seen: set<Key>)

  function FindExported(world: World, ghost universe: set<Key>, key: Key, seen: set<Key>): (r: Search)
    requires IsUniverse(world, universe) && key in universe
    ensures seen <= r.seen
    decreases |universe - seen|, 0, 0
  {
    if key in seen then Search(NotFound, seen)
    else
      Shrinks(universe, seen, key);
      match Declares(world, key)
      case Some(decl) => Search(Hit(key.file, key.name, decl), seen + {key})
      case None => FindInExports(world, universe, key, world.files[key.file].exports, seen + {key})
  }

  function FindInExports(world: World, ghost universe: set<Key>, key: Key, statements: seq<ReExport>,
                         seen: set<Key>): (r: Search)
    requires IsUniverse(world, universe) && key in universe
    requires forall statement | statement in statements :: statement in world.files[key.file].exports
    ensures seen <= r.seen
    decreases |universe - seen|, 1, |statements|
  {
    if statements == [] then Search(NotFound, seen)
    else
      match Target(statements[0], key.name)
      case None => FindInExports(world, universe, key, statements[1..], seen)
      case Some(next) =>
        if next.file !in world.files then Search(Unreadable(next), seen)
        else
          assert statements[0] in statements;
          TargetLinks(world, key, statements[0], next);
          var r := FindExported(world, universe, next, seen);
          if r.outcome != NotFound then r
          else
            Grows(universe, seen, r.seen);
            FindInExports(world, universe, key, statements[1..], r.seen)
  }

  lemma Shrinks(universe: set<Key>, seen: set<Key>, key: Key)
    requires key in universe && key !in seen
    ensures |universe - (seen + {key})| < |universe - seen|
  {
    assert universe - seen == (universe - (seen + {key})) + {key};
  }

  lemma Grows(universe: set<Key>, seen: set<Key>, more: set<Key>)
    requires seen <= more
    ensures |universe - more| <= |universe - seen|
  {
    assert universe - seen == (universe - more) + (universe * more - seen);
  }

  /** Every newly seen key declares nothing and has all its links inside the seen set. */
  ghost predicate Exhausted(world: World, before: set<Key>, after: set<Key>) {
    forall key | key in after && key !in before ::
      Declares(world, key).None? && forall to | Link(world, key, to) :: to in after
  }

  lemma {:induction false} FailureExhausts(world: World, universe: set<Key>, key: Key, seen: set<Key>)
    requires IsUniverse(world, universe) && key in universe
    requires FindExported(world, universe, key, seen).outcome == NotFound
    ensures var after := FindExported(world, universe, key, seen).seen;
            key in after && Exhausted(world, seen, after)
    decreases |universe - seen|, 0, 0
  {
    if key in seen {
    } else {
      Shrinks(universe, seen, key);
      StatementsExhaust(world, universe, key, world.files[key.file].exports, seen + {key});
      var after := FindExported(world, universe, key, seen).seen;
      forall to | Link(world, key, to) ensures to in after {
        var statement :| statement in world.files[key.file].exports && Leads(statement, key.name, to);
        TargetLeads(statement, key.name, to);
      }
    }
  }

  lemma {:induction false} StatementsExhaust(world: World, universe: set<Key>, key: Key, statements: seq<ReExport>,
                                             seen: set<Key>)
    requires IsUniverse(world, universe) && key in universe
    requires forall statement | statement in statements :: statement in world.files[key.file].exports
    requires FindInExports(world, universe, key, statements, seen).outcome == NotFound
    ensures var after := FindInExports(world, universe, key, statements, seen).seen;
            && Exhausted(world, seen, after)
            && forall statement | statement in statements && Target(statement, key.name).Some? ::
                 Target(statement, key.name).value in after
    decreases |universe - seen|, 1, |statements|
  {
    if statements == [] {
    } else {
      assert statements[0] in statements;
      match Target(statements[0], key.name)
      case None => StatementsExhaust(world, universe, key, statements[1..], seen);
      case Some(next) =>
        TargetLinks(world, key, statements[0], next);
        var r := FindExported(world, universe, next, seen);
        FailureExhausts(world, universe, next, seen);
        Grows(universe, seen, r.seen);
        StatementsExhaust(world, universe, key, statements[1..], r.seen);
    }
  }

  lemma {:induction false} ChainStaysInside(world: World, inside: set<Key>, chain: seq<Key>)
    requires IsChain(world, chain) && chain[0] in inside && Exhausted(world, {}, inside)
    ensures forall key | key in chain :: key in inside
  {
    if |chain| == 1 {
    } else {
      assert Link(world, chain[0], chain[1]);
      forall i | 0 <= i < |chain[1..]| - 1 ensures Link(world, chain[1..][i], chain[1..][i + 1]) {
        assert Link(world, chain[i + 1], chain[i + 2]);
      }
      ChainStaysInside(world, inside, chain[1..]);
    }
  }

  lemma ReachesSelf(world: World, key: Key)
    ensures Reaches(world, key, key)
  {
    assert IsChain(world, [key]);
  }

  lemma ReachesThroughLink(world: World, from: Key, next: Key, to: Key)
    requires Link(world, from, next) && Reaches(world, next, to)
    ensures Reaches(world, from, to)
  {
    var chain :| IsChain(world, chain) && chain[0] == next && chain[|chain| - 1] == to;
    var longer := [from] + chain;
    forall i | 0 <= i < |longer| - 1 ensures Link(world, longer[i], longer[i + 1]) {
      if i > 0 { assert Link(world, chain[i - 1], chain[i]); }
    }
    assert IsChain(world, longer);
  }

  /** What a decided search reports is at the end of a genuine chain. */
  ghost predicate Genuine(world: World, key: Key, outcome: Outcome) {
    match outcome
    case Hit(file, name, decl) => Reaches(world, key, Key(file, name)) && Declares(world, Key(file, name)) == Some(decl)
    case Unreadable(missing) => Reaches(world, key, missing) && missing.file !in world.files
    case NotFound => true
  }

  lemma {:induction false} OutcomeIsGenuine(world: World, universe: set<Key>, key: Key, seen: set<Key>)
    requires IsUniverse(world, universe) && key in universe
    ensures Genuine(world, key, FindExported(world, universe, key, seen).outcome)
    decreases |universe - seen|, 0, 0
  {
    if key in seen {
    } else {
      Shrinks(universe, seen, key);
      ReachesSelf(world, key);
      if Declares(world, key).None? {
        StatementOutcomeIsGenuine(world, universe, key, world.files[key.file].exports, seen + {key});
      }
    }
  }

  lemma {:induction false} StatementOutcomeIsGenuine(world: World, universe: set<Key>, key: Key,
                                                     statements: seq<ReExport>, seen: set<Key>)
    requires IsUniverse(world, universe) && key in universe
    requires forall statement | statement in statements :: statement in world.files[key.file].exports
    ensures Genuine(world, key, FindInExports(world, universe, key, statements, seen).outcome)
    decreases |universe - seen|, 1, |statements|
  {
    if statements == [] {
    } else {
      assert statements[0] in statements;
      match Target(statements[0], key.name)
      case None => StatementOutcomeIsGenuine(world, universe, key, statements[1..], seen);
      case Some(next) =>
        TargetLinks(world, key, statements[0], next);
        ReachesSelf(world, next);
        if next.file !in world.files {
          ReachesThroughLink(world, key, next, next);
        } else {
          var r := FindExported(world, universe, next, seen);
          OutcomeIsGenuine(world, universe, next, seen);
          match r.outcome {
            case Hit(file, name, _) => ReachesThroughLink(world, key, next, Key(file, name));
            case Unreadable(missing) => ReachesThroughLink(world, key, next, missing);
            case NotFound =>
              Grows(universe, seen, r.seen);
              StatementOutcomeIsGenuine(world, universe, key, statements[1..], r.seen);
          }
        }
    }
  }

  /**
   * The search is exact despite cycles and the shared seen set: it fails precisely when no chain
   * from the key reaches a declaration or an unreadable file.
   */
  lemma SearchIsExact(world: World, universe: set<Key>, key: Key)
    requires IsUniverse(world, universe) && key in universe
    ensures Genuine(world, key, FindExported(world, universe, key, {}).outcome)
    ensures FindExported(world, universe, key, {}).outcome == NotFound <==>
              forall to | Reaches(world, key, to) :: Declares(world, to).None? && to.file in world.files
  {
    OutcomeIsGenuine(world, universe, key, {});
    var r := FindExported(world, universe, key, {});
    if r.outcome == NotFound {
      FailureExhausts(world, universe, key, {});
      SeenStaysInUniverse(world, universe, key, {});
      forall to | Reaches(world, key, to) ensures Declares(world, to).None? && to.file in world.files {
        var chain :| IsChain(world, chain) && chain[0] == key && chain[|chain| - 1] == to;
        ChainStaysInside(world, r.seen, chain);
      }
    }
  }

  // Which of several declarations the search finds.

  /** The search ends at a declaration or at a file that cannot be read. */
  ghost predicate Stops(world: World, key: Key) {
    key.file !in world.files || Declares(world, key).Some?
  }

  /** Some chain from a key that avoids the given ones has a stop at its end. */
  ghost predicate FindsBeyond(world: World, from: Key, avoid: set<Key>) {
    exists chain ::
      IsChain(world, chain) && chain[0] == from && Avoids(chain, avoid) && Stops(world, chain[|chain| - 1])
  }

  ghost predicate Avoids(chain: seq<Key>, avoid: set<Key>) {
    forall key | key in chain :: key !in avoid
  }

  /** A chain to a stop that takes, at each key, the first way behind which there is a stop without coming back. */
  ghost predicate IsFirst(world: World, chain: seq<Key>, avoid: set<Key>) {
    && chain != [] && chain[0] !in avoid
    && if |chain| == 1 then Stops(world, chain[0])
       else
         && !Stops(world, chain[0])
         && (exists i: nat :: IsFirstWay(world, chain[0], i, chain[1], avoid + {chain[0]}))
         && IsFirst(world, chain[1..], avoid + {chain[0]})
  }

  ghost predicate IsFirstWay(world: World, from: Key, i: nat, to: Key, avoid: set<Key>) {
    && from.file in world.files && i < |world.files[from.file].exports|
    && Leads(world.files[from.file].exports[i], from.name, to)
    && NothingBefore(world, from, world.files[from.file].exports[..i], avoid)
  }

  ghost predicate NothingBefore(world: World, from: Key, statements: seq<ReExport>, avoid: set<Key>) {
    forall statement, to | statement in statements && Leads(statement, from.name, to) :: !FindsBeyond(world, to, avoid)
  }

  lemma {:induction false} FirstFindsBeyond(world: World, chain: seq<Key>, avoid: set<Key>)
    requires IsFirst(world, chain, avoid)
    ensures IsChain(world, chain) && Avoids(chain, avoid) && Stops(world, chain[|chain| - 1])
    ensures FindsBeyond(world, chain[0], avoid)
  {
    if |chain| == 1 {
    } else {
      var rest := chain[1..];
      FirstFindsBeyond(world, rest, avoid + {chain[0]});
      assert Link(world, chain[0], chain[1]);
      forall i | 0 <= i < |chain| - 1 ensures Link(world, chain[i], chain[i + 1]) {
        if i > 0 { assert Link(world, rest[i - 1], rest[i]); }
      }
      assert chain == [chain[0]] + rest;
    }
  }

  lemma WaysAreOne(world: World, from: Key, i: nat, a: seq<Key>, j: nat, b: seq<Key>, avoid: set<Key>)
    requires IsFirst(world, a, avoid) && IsFirst(world, b, avoid)
    requires IsFirstWay(world, from, i, a[0], avoid) && IsFirstWay(world, from, j, b[0], avoid)
    ensures a[0] == b[0]
  {
    FirstFindsBeyond(world, a, avoid);
    FirstFindsBeyond(world, b, avoid);
    var statements := world.files[from.file].exports;
    TargetLeads(statements[i], from.name, a[0]);
    TargetLeads(statements[i], from.name, b[0]);
  }

  /** There is one first chain at most, so being at the end of it names a single stop. */
  lemma {:induction false} FirstIsOne(world: World, a: seq<Key>, b: seq<Key>, avoid: set<Key>)
    requires IsFirst(world, a, avoid) && IsFirst(world, b, avoid) && a[0] == b[0]
    ensures a == b
    decreases |a|
  {
    if |a| == 1 {
      assert |b| == 1;
    } else {
      var more := avoid + {a[0]};
      var i: nat :| IsFirstWay(world, a[0], i, a[1], more);
      var j: nat :| IsFirstWay(world, b[0], j, b[1], more);
      WaysAreOne(world, a[0], i, a[1..], j, b[1..], more);
      FirstIsOne(world, a[1..], b[1..], more);
      assert a == [a[0]] + a[1..] && b == [b[0]] + b[1..];
    }
  }

  /** Whatever was seen beside the keys on the way has led nowhere. */
  lemma {:induction false} NothingBehind(world: World, path: set<Key>, seen: set<Key>, chain: seq<Key>)
    requires path <= seen && Exhausted(world, path, seen)
    requires IsChain(world, chain) && chain[0] in seen && Avoids(chain, path)
    ensures Declares(world, chain[|chain| - 1]).None? && chain[|chain| - 1] in seen
  {
    assert chain[0] in chain;
    if |chain| == 1 {
    } else {
      var rest := chain[1..];
      assert Link(world, chain[0], chain[1]);
      forall i | 0 <= i < |rest| - 1 ensures Link(world, rest[i], rest[i + 1]) {
        assert Link(world, chain[i + 1], chain[i + 2]);
      }
      NothingBehind(world, path, seen, rest);
    }
  }

  lemma NothingFound(world: World, universe: set<Key>, path: set<Key>, seen: set<Key>, key: Key)
    requires IsUniverse(world, universe) && seen <= universe
    requires path <= seen && Exhausted(world, path, seen) && key in seen
    ensures !FindsBeyond(world, key, path)
  {
    if FindsBeyond(world, key, path) {
      var chain :| IsChain(world, chain) && chain[0] == key && Avoids(chain, path) && Stops(world, chain[|chain| - 1]);
      NothingBehind(world, path, seen, chain);
    }
  }

  /** Where a search that found something ended. */
  ghost predicate EndsAt(outcome: Outcome, key: Key) {
    match outcome
    case Hit(file, name, _) => key == Key(file, name)
    case Unreadable(missing) => key == missing
    case NotFound => false
  }

  lemma FirstHere(world: World, key: Key, avoid: set<Key>)
    requires key !in avoid && Stops(world, key)
    ensures IsFirst(world, [key], avoid)
  {
  }

  lemma FirstThrough(world: World, key: Key, i: nat, rest: seq<Key>, avoid: set<Key>)
    requires key !in avoid && !Stops(world, key)
    requires IsFirst(world, rest, avoid + {key}) && IsFirstWay(world, key, i, rest[0], avoid + {key})
    ensures IsFirst(world, [key] + rest, avoid) && |rest| >= 1
  {
    assert ([key] + rest)[1..] == rest;
  }

  lemma {:induction false} SearchIsFirst(world: World, universe: set<Key>, key: Key, path: set<Key>, seen: set<Key>)
    returns (chain: seq<Key>)
    requires IsUniverse(world, universe) && key in universe && seen <= universe
    requires path <= seen && Exhausted(world, path, seen)
    requires FindExported(world, universe, key, seen).outcome != NotFound
    ensures IsFirst(world, chain, path) && chain[0] == key
    ensures EndsAt(FindExported(world, universe, key, seen).outcome, chain[|chain| - 1])
    decreases |universe - seen|, 0, 0
  {
    hide IsFirst, IsFirstWay, FindInExports, NothingBefore, Exhausted, Link;
    Shrinks(universe, seen, key);
    if Declares(world, key).Some? {
      FirstHere(world, key, path);
      chain := [key];
    } else {
      ExhaustedWith(world, path, seen, key);
      NothingBeforeFirst(world, key, path + {key});
      var all := world.files[key.file].exports;
      assert all[0..] == all;
      var i, rest := StatementIsFirst(world, universe, key, 0, path + {key}, seen + {key});
      FirstThrough(world, key, i, rest, path);
      chain := [key] + rest;
    }
  }

  /** What the search does at one statement. */
  lemma AtStatement(world: World, universe: set<Key>, key: Key, n: nat, seen: set<Key>)
    requires IsUniverse(world, universe) && key in universe && n <= |world.files[key.file].exports|
    requires FindInExports(world, universe, key, world.files[key.file].exports[n..], seen).outcome != NotFound
    ensures var all := world.files[key.file].exports;
            var outcome := FindInExports(world, universe, key, all[n..], seen).outcome;
            && n < |all|
            && match Target(all[n], key.name)
               case None => outcome == FindInExports(world, universe, key, all[n + 1..], seen).outcome
               case Some(next) =>
                 if next.file !in world.files then outcome == Unreadable(next)
                 else
                   && next in universe
                   && var r := FindExported(world, universe, next, seen);
                      outcome == if r.outcome != NotFound then r.outcome
                                 else FindInExports(world, universe, key, all[n + 1..], r.seen).outcome
  {
    var all := world.files[key.file].exports;
    var statements := all[n..];
    assert n < |all|;
    assert statements[0] == all[n] && statements[1..] == all[n + 1..] && statements[0] in statements;
    match Target(all[n], key.name)
    case None =>
    case Some(next) => TargetLinks(world, key, all[n], next);
  }

  lemma {:induction false} StatementIsFirst(world: World, universe: set<Key>, key: Key, n: nat, path: set<Key>,
                                            seen: set<Key>)
    returns (i: nat, chain: seq<Key>)
    requires IsUniverse(world, universe) && key in universe && seen <= universe
    requires path <= seen && Exhausted(world, path, seen) && n <= |world.files[key.file].exports|
    requires FindInExports(world, universe, key, world.files[key.file].exports[n..], seen).outcome != NotFound
    requires NothingBefore(world, key, world.files[key.file].exports[..n], path)
    ensures IsFirst(world, chain, path) && IsFirstWay(world, key, i, chain[0], path)
    ensures EndsAt(FindInExports(world, universe, key, world.files[key.file].exports[n..], seen).outcome,
                   chain[|chain| - 1])
    decreases |universe - seen|, 1, |world.files[key.file].exports| - n
  {
    hide FindInExports, FindExported, Link, NothingBefore, FindsBeyond, Exhausted, Target, Leads, Declares;
    AtStatement(world, universe, key, n, seen);
    var all := world.files[key.file].exports;
    match Target(all[n], key.name)
    case None =>
      NoTargetLeadsNowhere(all[n], key.name);
      NothingBeforeNext(world, key, n, path);
      i, chain := StatementIsFirst(world, universe, key, n + 1, path, seen);
    case Some(next) =>
      TargetLeads(all[n], key.name, next);
      if next.file !in world.files {
        i, chain := n, [next];
      } else {
        var r := FindExported(world, universe, next, seen);
        if r.outcome != NotFound {
          i := n;
          chain := SearchIsFirst(world, universe, next, path, seen);
        } else {
          FailureExhausts(world, universe, next, seen);
          SeenStaysInUniverse(world, universe, next, seen);
          Grows(universe, seen, r.seen);
          ExhaustedMore(world, path, seen, r.seen);
          NothingFound(world, universe, path, r.seen, next);
          OnlyTarget(all[n], key.name, next);
          NothingBeforeNext(world, key, n, path);
          i, chain := StatementIsFirst(world, universe, key, n + 1, path, r.seen);
        }
      }
  }

  lemma NothingBeforeFirst(world: World, from: Key, avoid: set<Key>)
    requires from.file in world.files
    ensures NothingBefore(world, from, world.files[from.file].exports[..0], avoid)
  {
  }

  lemma NothingBeforeNext(world: World, from: Key, n: nat, avoid: set<Key>)
    requires from.file in world.files && n < |world.files[from.file].exports|
    requires NothingBefore(world, from, world.files[from.file].exports[..n], avoid)
    requires forall to | Leads(world.files[from.file].exports[n], from.name, to) :: !FindsBeyond(world, to, avoid)
    ensures NothingBefore(world, from, world.files[from.file].exports[..n + 1], avoid)
  {
    var all := world.files[from.file].exports;
    assert all[..n + 1] == all[..n] + [all[n]];
  }

  lemma NoTargetLeadsNowhere(statement: ReExport, name: string)
    requires Target(statement, name).None?
    ensures forall to :: !Leads(statement, name, to)
  {
    forall to ensures !Leads(statement, name, to) { TargetLeads(statement, name, to); }
  }

  lemma OnlyTarget(statement: ReExport, name: string, next: Key)
    requires Target(statement, name) == Some(next)
    ensures forall to | Leads(statement, name, to) :: to == next
  {
    forall to | Leads(statement, name, to) ensures to == next { TargetLeads(statement, name, to); }
  }

  lemma ExhaustedWith(world: World, path: set<Key>, seen: set<Key>, key: Key)
    requires Exhausted(world, path, seen)
    ensures Exhausted(world, path + {key}, seen + {key})
  {
  }

  lemma ExhaustedMore(world: World, path: set<Key>, seen: set<Key>, more: set<Key>)
    requires Exhausted(world, path, seen) && Exhausted(world, seen, more) && seen <= more
    ensures Exhausted(world, path, more)
  {
  }

  /**
   * Of several declarations the search finds the one its order says: the end of the one first chain. It fails if
   * there is no such chain.
   */
  lemma SearchTakesFirst(world: World, universe: set<Key>, key: Key, chain: seq<Key>)
    requires IsUniverse(world, universe) && key in universe
    requires IsFirst(world, chain, {}) && chain[0] == key
    ensures EndsAt(FindExported(world, universe, key, {}).outcome, chain[|chain| - 1])
  {
    FirstFindsBeyond(world, chain, {});
    assert Reaches(world, key, chain[|chain| - 1]);
    SearchIsExact(world, universe, key);
    var first := SearchIsFirst(world, universe, key, {}, {});
    FirstIsOne(world, chain, first, {});
  }

  lemma {:induction false} SeenStaysInUniverse(world: World, universe: set<Key>, key: Key, seen: set<Key>)
    requires IsUniverse(world, universe) && key in universe && seen <= universe
    ensures FindExported(world, universe, key, seen).seen <= universe
    decreases |universe - seen|, 0, 0
  {
    if key in seen {
    } else {
      Shrinks(universe, seen, key);
      StatementsStayInUniverse(world, universe, key, world.files[key.file].exports, seen + {key});
    }
  }

  lemma {:induction false} StatementsStayInUniverse(world: World, universe: set<Key>, key: Key,
                                                    statements: seq<ReExport>, seen: set<Key>)
    requires IsUniverse(world, universe) && key in universe && seen <= universe
    requires forall statement | statement in statements :: statement in world.files[key.file].exports
    ensures FindInExports(world, universe, key, statements, seen).seen <= universe
    decreases |universe - seen|, 1, |statements|
  {
    if statements == [] {
    } else {
      assert statements[0] in statements;
      match Target(statements[0], key.name)
      case None => StatementsStayInUniverse(world, universe, key, statements[1..], seen);
      case Some(next) =>
        TargetLinks(world, key, statements[0], next);
        if next.file in world.files {
          var r := FindExported(world, universe, next, seen);
          SeenStaysInUniverse(world, universe, next, seen);
          Grows(universe, seen, r.seen);
          StatementsStayInUniverse(world, universe, key, statements[1..], r.seen);
        }
    }
  }

  /** Names an import or a renaming export can ask for. */
  ghost function Names(world: World): set<string> {
    (set file, local | file in world.files && local in world.files[file].imports ::
       world.files[file].imports[local].imported)
    + (set file, statement, element |
         file in world.files && statement in world.files[file].exports && statement.Named?
           && element in statement.elements ::
         element.source)
  }

  /** Every key a search started from an import can meet. */
  ghost function AllKeys(world: World, name: string): set<Key> {
    set file, n | file in world.files && n in Names(world) + {name} :: Key(file, n)
  }

  /** The universe exists for every world, so the search always terminates. */
  lemma AllKeysIsUniverse(world: World, name: string)
    ensures IsUniverse(world, AllKeys(world, name))
  {
    forall from, to | from in AllKeys(world, name) && Link(world, from, to) && to.file in world.files
      ensures to in AllKeys(world, name)
    {
      var statement :| statement in world.files[from.file].exports && Leads(statement, from.name, to);
      if statement.Named? {
        var i: nat :| IsFirstElement(statement.elements, from.name, i, to.name);
        assert statement.elements[i].source in Names(world);
      }
    }
  }

  datatype Resolution = Resolved(file: FileId, name: string, decl: Decl) | OutOfReach | Throws

  function ResolveExport(world: World, key: Key): Resolution
    requires key.file in world.files
  {
    AllKeysIsUniverse(world, key.name);
    match FindExported(world, AllKeys(world, key.name), key, {}).outcome
    case Hit(file, name, decl) => Resolved(file, name, decl)
    case NotFound => OutOfReach
    case Unreadable(_) => Throws
  }

  /** `declForTypeName`: declared locally, imported relatively, or imported from a workspace package. */
  function DeclForTypeName(world: World, file: FileId, name: string): (r: Resolution)
    ensures r.Resolved? ==> Declares(world, Key(r.file, r.name)) == Some(r.decl)
  {
    if file !in world.files then OutOfReach
    else
      match Declares(world, Key(file, name))
      case Some(decl) => Resolved(file, name, decl)
      case None =>
        var imports := world.files[file].imports;
        if name !in imports then OutOfReach
        else
          match imports[name].specifier
          case RelativeOther => OutOfReach
          case RelativeTs(target) =>
            if target !in world.files then Throws else
              ResolvedIsDeclared(world, Key(target, imports[name].imported));
              ResolveExport(world, Key(target, imports[name].imported))
          case Bare(package) =>
            if package !in world.entries || world.entries[package] !in world.files then OutOfReach else
              ResolvedIsDeclared(world, Key(world.entries[package], imports[name].imported));
              ResolveExport(world, Key(world.entries[package], imports[name].imported))
  }

  lemma ResolvedIsDeclared(world: World, key: Key)
    requires key.file in world.files
    ensures var r := ResolveExport(world, key);
            && (r.Resolved? ==> Reaches(world, key, Key(r.file, r.name)))
            && (r.Resolved? ==> Declares(world, Key(r.file, r.name)) == Some(r.decl))
  {
    AllKeysIsUniverse(world, key.name);
    OutcomeIsGenuine(world, AllKeys(world, key.name), key, {});
  }

  /** Where a name leads: itself if it is declared in the file, else the end of the first chain from its import. */
  ghost predicate Denotes(world: World, file: FileId, name: string, key: Key) {
    file in world.files &&
    if exists decl :: IsDeclared(world, Key(file, name), decl) then key == Key(file, name)
    else exists from, chain :: IsImported(world, file, name, from) && IsFirstFrom(world, from, chain, key)
  }

  ghost predicate IsFirstFrom(world: World, from: Key, chain: seq<Key>, key: Key) {
    IsFirst(world, chain, {}) && chain[0] == from && chain[|chain| - 1] == key
  }

  /**
   * A name imported from a relative `.ts` file is looked for there, and one imported from a workspace package in the
   * package's entry file, if that can be read.
   */
  ghost predicate IsImported(world: World, file: FileId, name: string, from: Key) {
    && file in world.files && name in world.files[file].imports
    && var imported := world.files[file].imports[name];
       && from.name == imported.imported
       && match imported.specifier
          case RelativeTs(target) => from.file == target
          case Bare(package) =>
            package in world.entries && from.file == world.entries[package] && from.file in world.files
          case RelativeOther => false
  }

  lemma ResolvesFirst(world: World, key: Key)
    requires key.file in world.files
    ensures var r := ResolveExport(world, key);
            && (r.Resolved? ==> exists chain :: IsFirstFrom(world, key, chain, Key(r.file, r.name)))
            && (r.Throws? ==> exists chain, to :: IsFirstFrom(world, key, chain, to) && to.file !in world.files)
            && (r.OutOfReach? ==> forall chain, to :: !IsFirstFrom(world, key, chain, to))
  {
    AllKeysIsUniverse(world, key.name);
    var universe := AllKeys(world, key.name);
    OutcomeIsGenuine(world, universe, key, {});
    var outcome := FindExported(world, universe, key, {}).outcome;
    if outcome != NotFound {
      var chain := SearchIsFirst(world, universe, key, {}, {});
      assert IsFirstFrom(world, key, chain, chain[|chain| - 1]);
    } else {
      forall chain, to ensures !IsFirstFrom(world, key, chain, to) {
        if IsFirstFrom(world, key, chain, to) { SearchTakesFirst(world, universe, key, chain); }
      }
    }
  }

  lemma UnreadableIsFirst(world: World, from: Key, chain: seq<Key>, to: Key)
    requires from.file !in world.files
    ensures IsFirstFrom(world, from, chain, to) <==> chain == [from] && to == from
  {
  }

  /** A name leads to one key at most. */
  lemma DenotesOne(world: World, file: FileId, name: string, a: Key, b: Key)
    requires Denotes(world, file, name, a) && Denotes(world, file, name, b)
    ensures a == b
  {
    if !exists decl :: IsDeclared(world, Key(file, name), decl) {
      var from, chain :| IsImported(world, file, name, from) && IsFirstFrom(world, from, chain, a);
      var other, more :| IsImported(world, file, name, other) && IsFirstFrom(world, other, more, b);
      FirstIsOne(world, chain, more, {});
    }
  }

  /**
   * A name resolves to the declaration it leads to; the script throws if it leads to a file it cannot read, and finds
   * the name out of reach if it leads nowhere.
   */
  lemma NameDenotes(world: World, file: FileId, name: string)
    ensures var r := DeclForTypeName(world, file, name);
            && (r.Resolved? ==>
              Denotes(world, file, name, Key(r.file, r.name)) && IsDeclared(world, Key(r.file, r.name), r.decl))
            && (r.Throws? ==> exists key :: Denotes(world, file, name, key) && key.file !in world.files)
            && (r.OutOfReach? ==> forall key :: !Denotes(world, file, name, key))
  {
    var r := DeclForTypeName(world, file, name);
    if r.Resolved? { DeclaresTheFirst(world, Key(r.file, r.name), r.decl); }
    if file in world.files {
      forall decl ensures Declares(world, Key(file, name)) == Some(decl) <==> IsDeclared(world, Key(file, name), decl) {
        DeclaresTheFirst(world, Key(file, name), decl);
      }
      if Declares(world, Key(file, name)).None? && name in world.files[file].imports {
        var imported := world.files[file].imports[name];
        match imported.specifier
        case RelativeOther =>
        case RelativeTs(target) => ImportLeads(world, file, name, Key(target, imported.imported));
        case Bare(package) =>
          if package in world.entries && world.entries[package] in world.files {
            ImportLeads(world, file, name, Key(world.entries[package], imported.imported));
          }
      }
    }
  }

  lemma ImportLeads(world: World, file: FileId, name: string, from: Key)
    requires file in world.files && Declares(world, Key(file, name)).None? && IsImported(world, file, name, from)
    requires forall decl :: !IsDeclared(world, Key(file, name), decl)
    ensures var r := if from.file in world.files then ResolveExport(world, from) else Throws;
            && (r.Resolved? ==> Denotes(world, file, name, Key(r.file, r.name)))
            && (r.Throws? ==> exists key :: Denotes(world, file, name, key) && key.file !in world.files)
            && (r.OutOfReach? ==> forall key :: !Denotes(world, file, name, key))
  {
    if from.file in world.files {
      ResolvesFirst(world, from);
    } else {
      UnreadableIsFirst(world, from, [from], from);
      assert Denotes(world, file, name, from);
    }
  }
}
