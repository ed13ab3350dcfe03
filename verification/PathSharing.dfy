/**
 * When the guard set that the schema-path walk of scripts/gen-config-catalog.ts shares between sibling branches
 * changes nothing: the walk enters no declaration twice with the same number of steps left.
 */
module PathSharing {
  import opened Options
  import opened Exports
  import opened PathLookup
  import opened PathMeaning
  import opened PathTermination
  import opened PathPrecision

  function Alone(repaired: bool): Mode {
    Mode(false, repaired)
  }

  function Together(repaired: bool): Mode {
    Mode(true, repaired)
  }

  // The guards a walk sets, in order, when every branch has guards of its own.

  function EntriesType(world: World, repaired: bool, fuel: nat, file: FileId, node: TypeNode, steps: seq<Step>,
                       own: set<Guard>): seq<Guard>
    decreases fuel, 0, 0
  {
    if steps == [] || fuel == 0 then []
    else
      match PlanType(Alone(repaired), node, steps)
      case Decided(_) => []
      case Descend(inner, rest) => EntriesType(world, repaired, fuel - 1, file, inner, rest, own)
      case IntoMember(member) => EntriesMember(world, repaired, fuel - 1, file, member, steps, own)
      case AllParts(parts, _) => EntriesParts(world, repaired, fuel - 1, file, parts, steps, own)
      case ByName(name) => EntriesName(world, repaired, fuel - 1, file, name, steps, own)
  }

  function EntriesMember(world: World, repaired: bool, fuel: nat, file: FileId, member: Member, steps: seq<Step>,
                         own: set<Guard>): seq<Guard>
    requires member.Property? && steps != []
    decreases fuel, 1, 0
  {
    if |steps| == 1 || member.annotation.None? then []
    else EntriesType(world, repaired, fuel, file, member.annotation.value, steps[1..], own)
  }

  function EntriesParts(world: World, repaired: bool, fuel: nat, file: FileId, parts: seq<TypeNode>,
                        steps: seq<Step>, own: set<Guard>): seq<Guard>
    decreases fuel, 1, |parts|
  {
    if parts == [] then []
    else
      EntriesType(world, repaired, fuel, file, parts[0], steps, own)
      + EntriesParts(world, repaired, fuel, file, parts[1..], steps, own)
  }

  function EntriesName(world: World, repaired: bool, fuel: nat, file: FileId, name: string, steps: seq<Step>,
                       own: set<Guard>): seq<Guard>
    decreases fuel, 3, 0
  {
    match DeclForTypeName(world, file, name)
    case Resolved(target, found, decl) => EntriesDecl(world, repaired, fuel, Key(target, found), decl, steps, own)
    case _ => []
  }

  function EntriesDecl(world: World, repaired: bool, fuel: nat, key: Key, decl: Decl, steps: seq<Step>,
                       own: set<Guard>): seq<Guard>
    decreases fuel, 2, 0
  {
    var guard := Guard(key.file, key.name, |steps|);
    if steps == [] || decl.Enum? || decl.Class? || guard in own || fuel == 0 then []
    else
      [guard] +
      match Read(world, Alone(repaired), key, decl)
      case Alias(body) => EntriesType(world, repaired, fuel - 1, key.file, body, steps, own + {guard})
      case Interface(members, heritage) =>
        EntriesInterface(world, repaired, fuel - 1, key.file, members, heritage, steps, own + {guard})
  }

  function EntriesInterface(world: World, repaired: bool, fuel: nat, file: FileId, members: seq<Member>,
                            heritage: seq<Heritage>, steps: seq<Step>, own: set<Guard>): seq<Guard>
    requires steps != []
    decreases fuel, 5, 0
  {
    if steps[0].Element? then []
    else
      match FindMember(Alone(repaired), members, steps[0].name)
      case Some(member) => EntriesMember(world, repaired, fuel, file, member, steps, own)
      case None => EntriesBases(world, repaired, fuel, file, heritage, steps, own)
  }

  function EntriesBase(world: World, repaired: bool, fuel: nat, file: FileId, base: Heritage, steps: seq<Step>,
                       own: set<Guard>): seq<Guard>
    decreases fuel, 4, 0
  {
    if base.Base? then EntriesName(world, repaired, fuel, file, base.name, steps, own) else []
  }

  function EntriesBases(world: World, repaired: bool, fuel: nat, file: FileId, heritage: seq<Heritage>,
                        steps: seq<Step>, own: set<Guard>): seq<Guard>
    decreases fuel, 4, 1 + |heritage|
  {
    if heritage == [] then []
    else
      EntriesBase(world, repaired, fuel, file, heritage[0], steps, own)
      + EntriesBases(world, repaired, fuel, file, heritage[1..], steps, own)
  }

  // Without repetition, sharing the guards makes no difference.

  function All(entries: seq<Guard>): set<Guard> {
    set guard | guard in entries
  }

  /** None of the guards is set yet, and none is set twice. */
  predicate Fresh(entries: seq<Guard>, seen: set<Guard>) {
    && (forall i, j | 0 <= i < j < |entries| :: entries[i] != entries[j])
    && forall guard | guard in entries :: guard !in seen
  }

  lemma FreshSplits(a: seq<Guard>, b: seq<Guard>, seen: set<Guard>)
    requires Fresh(a + b, seen)
    ensures Fresh(a, seen) && Fresh(b, seen + All(a)) && seen + All(a + b) == seen + All(a) + All(b)
  {
    var both := a + b;
    forall i, j | 0 <= i < j < |a| ensures a[i] != a[j] { assert both[i] != both[j]; }
    forall i, j | 0 <= i < j < |b| ensures b[i] != b[j] { assert both[|a| + i] != both[|a| + j]; }
    forall guard | guard in b ensures guard !in seen + All(a) {
      var j :| 0 <= j < |b| && b[j] == guard;
      assert both[|a| + j] == guard && guard in both;
      assert forall i | 0 <= i < |a| :: both[i] == a[i] && both[i] != both[|a| + j];
    }
    forall guard | guard in a ensures guard !in seen { assert guard in both; }
  }

  /** The shared walk gives the same answer, and has then set the guards entered. */
  predicate SameAnswer<T(==)>(shared: Walk<T>, own: Walk<T>, entries: seq<Guard>, seen: set<Guard>) {
    shared.Done? && own.Done? && shared.value == own.value && shared.seen == seen + All(entries)
  }

  lemma NothingEntered(seen: set<Guard>)
    ensures seen + All([]) == seen
  {
  }

  lemma {:induction false} TypeShares(world: World, repaired: bool, fuel: nat, file: FileId, node: TypeNode,
                                      steps: seq<Step>, own: set<Guard>, seen: set<Guard>)
    requires own <= seen && LookupType(world, Alone(repaired), fuel, file, node, steps, own).Done?
    requires Fresh(EntriesType(world, repaired, fuel, file, node, steps, own), seen)
    ensures SameAnswer(LookupType(world, Together(repaired), fuel, file, node, steps, seen),
                       LookupType(world, Alone(repaired), fuel, file, node, steps, own),
                       EntriesType(world, repaired, fuel, file, node, steps, own), seen)
    decreases fuel, 0, 0
  {
    NothingEntered(seen);
    if steps == [] {
    } else {
      match PlanType(Alone(repaired), node, steps)
      case Decided(_) =>
      case Descend(inner, rest) => TypeShares(world, repaired, fuel - 1, file, inner, rest, own, seen);
      case IntoMember(member) => MemberShares(world, repaired, fuel - 1, file, member, steps, own, seen);
      case AllParts(parts, _) => PartsShare(world, repaired, fuel - 1, file, parts, steps, own, seen);
      case ByName(name) => NameShares(world, repaired, fuel - 1, file, name, steps, own, seen);
    }
  }

  lemma {:induction false} MemberShares(world: World, repaired: bool, fuel: nat, file: FileId, member: Member,
                                        steps: seq<Step>, own: set<Guard>, seen: set<Guard>)
    requires member.Property? && steps != []
    requires own <= seen && LookupMember(world, Alone(repaired), fuel, file, member, steps, own).Done?
    requires Fresh(EntriesMember(world, repaired, fuel, file, member, steps, own), seen)
    ensures SameAnswer(LookupMember(world, Together(repaired), fuel, file, member, steps, seen),
                       LookupMember(world, Alone(repaired), fuel, file, member, steps, own),
                       EntriesMember(world, repaired, fuel, file, member, steps, own), seen)
    decreases fuel, 1, 0
  {
    NothingEntered(seen);
    if |steps| == 1 || member.annotation.None? {
    } else {
      TypeShares(world, repaired, fuel, file, member.annotation.value, steps[1..], own, seen);
    }
  }

  lemma {:induction false} PartsShare(world: World, repaired: bool, fuel: nat, file: FileId, parts: seq<TypeNode>,
                                      steps: seq<Step>, own: set<Guard>, seen: set<Guard>)
    requires own <= seen && LookupParts(world, Alone(repaired), fuel, file, parts, steps, own).Done?
    requires Fresh(EntriesParts(world, repaired, fuel, file, parts, steps, own), seen)
    ensures SameAnswer(LookupParts(world, Together(repaired), fuel, file, parts, steps, seen),
                       LookupParts(world, Alone(repaired), fuel, file, parts, steps, own),
                       EntriesParts(world, repaired, fuel, file, parts, steps, own), seen)
    decreases fuel, 1, |parts|
  {
    NothingEntered(seen);
    if parts == [] {
    } else {
      var first := EntriesType(world, repaired, fuel, file, parts[0], steps, own);
      var rest := EntriesParts(world, repaired, fuel, file, parts[1..], steps, own);
      FreshSplits(first, rest, seen);
      TypeShares(world, repaired, fuel, file, parts[0], steps, own, seen);
      PartsShare(world, repaired, fuel, file, parts[1..], steps, own, seen + All(first));
    }
  }

  lemma {:induction false} NameShares(world: World, repaired: bool, fuel: nat, file: FileId, name: string,
                                      steps: seq<Step>, own: set<Guard>, seen: set<Guard>)
    requires own <= seen && LookupName(world, Alone(repaired), fuel, file, name, steps, own).Done?
    requires Fresh(EntriesName(world, repaired, fuel, file, name, steps, own), seen)
    ensures SameAnswer(LookupName(world, Together(repaired), fuel, file, name, steps, seen),
                       LookupName(world, Alone(repaired), fuel, file, name, steps, own),
                       EntriesName(world, repaired, fuel, file, name, steps, own), seen)
    decreases fuel, 3, 0
  {
    NothingEntered(seen);
    match DeclForTypeName(world, file, name)
    case Resolved(target, found, decl) => DeclShares(world, repaired, fuel, Key(target, found), decl, steps, own, seen);
    case _ =>
  }

  /** A walk that sets no guard twice answers the same with shared guards. */
  lemma {:induction false} DeclShares(world: World, repaired: bool, fuel: nat, key: Key, decl: Decl,
                                      steps: seq<Step>, own: set<Guard>, seen: set<Guard>)
    requires own <= seen && LookupDecl(world, Alone(repaired), fuel, key, decl, steps, own).Done?
    requires Fresh(EntriesDecl(world, repaired, fuel, key, decl, steps, own), seen)
    ensures SameAnswer(LookupDecl(world, Together(repaired), fuel, key, decl, steps, seen),
                       LookupDecl(world, Alone(repaired), fuel, key, decl, steps, own),
                       EntriesDecl(world, repaired, fuel, key, decl, steps, own), seen)
    decreases fuel, 2, 0
  {
    NothingEntered(seen);
    var guard := Guard(key.file, key.name, |steps|);
    if steps == [] || decl.Enum? || decl.Class? || guard in own {
    } else {
      match Read(world, Alone(repaired), key, decl)
      case Alias(body) =>
        FreshSplits([guard], EntriesType(world, repaired, fuel - 1, key.file, body, steps, own + {guard}), seen);
        assert All([guard]) == {guard};
        TypeShares(world, repaired, fuel - 1, key.file, body, steps, own + {guard}, seen + {guard});
      case Interface(members, heritage) =>
        FreshSplits([guard],
                    EntriesInterface(world, repaired, fuel - 1, key.file, members, heritage, steps, own + {guard}),
                    seen);
        assert All([guard]) == {guard};
        InterfaceShares(world, repaired, fuel - 1, key.file, members, heritage, steps, own + {guard},
                        seen + {guard});
    }
  }

  lemma {:induction false} InterfaceShares(world: World, repaired: bool, fuel: nat, file: FileId,
                                           members: seq<Member>, heritage: seq<Heritage>, steps: seq<Step>,
                                           own: set<Guard>, seen: set<Guard>)
    requires steps != [] && own <= seen
    requires LookupInterface(world, Alone(repaired), fuel, file, members, heritage, steps, own).Done?
    requires Fresh(EntriesInterface(world, repaired, fuel, file, members, heritage, steps, own), seen)
    ensures SameAnswer(LookupInterface(world, Together(repaired), fuel, file, members, heritage, steps, seen),
                       LookupInterface(world, Alone(repaired), fuel, file, members, heritage, steps, own),
                       EntriesInterface(world, repaired, fuel, file, members, heritage, steps, own), seen)
    decreases fuel, 5, 0
  {
    NothingEntered(seen);
    if steps[0].Element? {
    } else {
      match FindMember(Alone(repaired), members, steps[0].name)
      case Some(member) => MemberShares(world, repaired, fuel, file, member, steps, own, seen);
      case None => BasesShare(world, repaired, fuel, file, heritage, steps, own, seen);
    }
  }

  lemma {:induction false} BasesShare(world: World, repaired: bool, fuel: nat, file: FileId,
                                      heritage: seq<Heritage>, steps: seq<Step>, own: set<Guard>, seen: set<Guard>)
    requires own <= seen && LookupBases(world, Alone(repaired), fuel, file, heritage, steps, own).Done?
    requires Fresh(EntriesBases(world, repaired, fuel, file, heritage, steps, own), seen)
    ensures SameAnswer(LookupBases(world, Together(repaired), fuel, file, heritage, steps, seen),
                       LookupBases(world, Alone(repaired), fuel, file, heritage, steps, own),
                       EntriesBases(world, repaired, fuel, file, heritage, steps, own), seen)
    decreases fuel, 4, 1 + |heritage|
  {
    NothingEntered(seen);
    if heritage == [] {
    } else {
      var first := EntriesBase(world, repaired, fuel, file, heritage[0], steps, own);
      var rest := EntriesBases(world, repaired, fuel, file, heritage[1..], steps, own);
      FreshSplits(first, rest, seen);
      if heritage[0].Base? { NameShares(world, repaired, fuel, file, heritage[0].name, steps, own, seen); }
      BasesShare(world, repaired, fuel, file, heritage[1..], steps, own, seen + All(first));
    }
  }

  /** Some declaration is entered twice with the same number of steps left. */
  predicate Repeats(entries: seq<Guard>) {
    exists i, j | 0 <= i < j < |entries| :: entries[i] == entries[j]
  }

  /**
   * The script's answer differs from the one with unshared guards only if that walk enters some declaration twice
   * with the same number of steps left.
   */
  lemma DifferenceIsRepeat(world: World, fuel: nat, key: Key, decl: Decl, steps: seq<Step>)
    requires LookupDecl(world, SPLIT, fuel, key, decl, steps, {}).Done?
    ensures var script := LookupDecl(world, SCRIPT, fuel, key, decl, steps, {});
            || (script.Done? && script.value == LookupDecl(world, SPLIT, fuel, key, decl, steps, {}).value)
            || Repeats(EntriesDecl(world, false, fuel, key, decl, steps, {}))
  {
    var entries := EntriesDecl(world, false, fuel, key, decl, steps, {});
    if !Repeats(entries) {
      assert Fresh(entries, {});
      DeclShares(world, false, fuel, key, decl, steps, {}, {});
    }
  }

  // How often one walk can enter a declaration, by the declarations alone.

  function Most(a: nat, b: nat): nat {
    if a < b then b else a
  }

  /**
   * At most how often one walk from a type node enters a declaration: the parts of an intersection or a union add
   * up, and of the members of a list the walk takes one.
   */
  ghost function MeetsType(world: World, rank: Rank, repaired: bool, level: nat, file: FileId, node: TypeNode,
                           target: Key): nat
    requires AcyclicFor(world, Alone(repaired), rank) && BelowType(world, rank, level, file, node)
    decreases level, 1, node
  {
    match node
    case Literal(members) => MeetsMembers(world, rank, repaired, level, file, members, target)
    case Parenthesized(inner) => MeetsType(world, rank, repaired, level, file, inner, target)
    case Readonly(inner) => MeetsType(world, rank, repaired, level, file, inner, target)
    case Intersection(parts) => MeetsParts(world, rank, repaired, level, file, parts, target)
    case Union(parts) => MeetsParts(world, rank, repaired, level, file, parts, target)
    case ArrayOf(element) => MeetsType(world, rank, repaired, level, file, element, target)
    case Indexed(indexed, Some(_)) => MeetsType(world, rank, repaired, level, file, indexed, target)
    case Indexed(_, None) => 0
    case Reference(name, qualified, arguments) =>
      if name in PASSTHROUGH_WRAPPERS + ARRAY_NAMES && arguments != [] then
        MeetsType(world, rank, repaired, level, file, arguments[0], target)
      else if qualified then 0
      else MeetsName(world, rank, repaired, level, file, name, target)
    case Opaque(_) => 0
  }

  ghost function MeetsMember(world: World, rank: Rank, repaired: bool, level: nat, file: FileId, member: Member,
                             target: Key): nat
    requires AcyclicFor(world, Alone(repaired), rank) && BelowMember(world, rank, level, file, member)
    decreases level, 1, member
  {
    match member
    case Property(_, _, Some(node)) => MeetsType(world, rank, repaired, level, file, node, target)
    case _ => 0
  }

  ghost function MeetsMembers(world: World, rank: Rank, repaired: bool, level: nat, file: FileId,
                              members: seq<Member>, target: Key): nat
    requires AcyclicFor(world, Alone(repaired), rank)
    requires forall member | member in members :: BelowMember(world, rank, level, file, member)
    decreases level, 1, members
  {
    if members == [] then 0
    else
      Most(MeetsMember(world, rank, repaired, level, file, members[0], target),
           MeetsMembers(world, rank, repaired, level, file, members[1..], target))
  }

  ghost function MeetsParts(world: World, rank: Rank, repaired: bool, level: nat, file: FileId,
                            parts: seq<TypeNode>, target: Key): nat
    requires AcyclicFor(world, Alone(repaired), rank)
    requires forall part | part in parts :: BelowType(world, rank, level, file, part)
    decreases level, 1, parts
  {
    if parts == [] then 0
    else
      MeetsType(world, rank, repaired, level, file, parts[0], target)
      + MeetsParts(world, rank, repaired, level, file, parts[1..], target)
  }

  ghost function MeetsName(world: World, rank: Rank, repaired: bool, level: nat, file: FileId, name: string,
                           target: Key): nat
    requires AcyclicFor(world, Alone(repaired), rank) && BelowName(world, rank, level, file, name)
    decreases level, 0, 0
  {
    match DeclForTypeName(world, file, name)
    case Resolved(next, found, decl) => MeetsDecl(world, rank, repaired, Key(next, found), decl, target)
    case _ => 0
  }

  /** At a declaration: itself, and for an interface one of its members or all of its bases. */
  ghost function MeetsDecl(world: World, rank: Rank, repaired: bool, key: Key, decl: Decl, target: Key): nat
    requires AcyclicFor(world, Alone(repaired), rank) && Declares(world, key) == Some(decl)
    decreases rank(key), 3, 0
  {
    (if key == target then 1 else 0) +
    match Read(world, Alone(repaired), key, decl)
    case Alias(body) => MeetsType(world, rank, repaired, rank(key), key.file, body, target)
    case Interface(members, heritage) =>
      Most(MeetsMembers(world, rank, repaired, rank(key), key.file, members, target),
           MeetsBases(world, rank, repaired, rank(key), key.file, heritage, target))
    case _ => 0
  }

  ghost function MeetsBase(world: World, rank: Rank, repaired: bool, level: nat, file: FileId, base: Heritage,
                           target: Key): nat
    requires AcyclicFor(world, Alone(repaired), rank) && BelowBase(world, rank, level, file, base)
    decreases level, 0, 1
  {
    if base.Base? then MeetsName(world, rank, repaired, level, file, base.name, target) else 0
  }

  ghost function MeetsBases(world: World, rank: Rank, repaired: bool, level: nat, file: FileId,
                            heritage: seq<Heritage>, target: Key): nat
    requires AcyclicFor(world, Alone(repaired), rank)
    requires forall base | base in heritage :: BelowBase(world, rank, level, file, base)
    decreases level, 0, 2 + |heritage|
  {
    if heritage == [] then 0
    else
      MeetsBase(world, rank, repaired, level, file, heritage[0], target)
      + MeetsBases(world, rank, repaired, level, file, heritage[1..], target)
  }

  /** How often a list of entries enters a declaration. */
  function Count(entries: seq<Guard>, target: Key): nat {
    if entries == [] then 0
    else (if Key(entries[0].file, entries[0].name) == target then 1 else 0) + Count(entries[1..], target)
  }

  lemma {:induction false} CountJoins(a: seq<Guard>, b: seq<Guard>, target: Key)
    ensures Count(a + b, target) == Count(a, target) + Count(b, target)
  {
    if a == [] {
      assert a + b == b;
    } else {
      assert (a + b)[1..] == a[1..] + b;
      CountJoins(a[1..], b, target);
    }
  }

  lemma {:induction false} TypeMeets(world: World, rank: Rank, repaired: bool, level: nat, fuel: nat, file: FileId,
                                     node: TypeNode, steps: seq<Step>, own: set<Guard>, target: Key)
    requires AcyclicFor(world, Alone(repaired), rank) && BelowType(world, rank, level, file, node)
    ensures Count(EntriesType(world, repaired, fuel, file, node, steps, own), target)
            <= MeetsType(world, rank, repaired, level, file, node, target)
    decreases fuel, 0, 0
  {
    hide AcyclicFor, BelowName, MeetsMembers, MeetsParts, MeetsName, EntriesMember, EntriesParts, EntriesName;
    if steps == [] || fuel == 0 {
    } else {
      match PlanType(Alone(repaired), node, steps)
      case Decided(_) =>
      case Descend(inner, rest) =>
        TypeMeets(world, rank, repaired, level, fuel - 1, file, inner, rest, own, target);
      case IntoMember(member) =>
        MemberMeets(world, rank, repaired, level, fuel - 1, file, member, steps, own, target);
        OneOfMembers(world, rank, repaired, level, file, node.members, member, target);
      case AllParts(parts, _) => PartsMeet(world, rank, repaired, level, fuel - 1, file, parts, steps, own, target);
      case ByName(name) => NameMeets(world, rank, repaired, level, fuel - 1, file, name, steps, own, target);
    }
  }

  lemma {:induction false} OneOfMembers(world: World, rank: Rank, repaired: bool, level: nat, file: FileId,
                                        members: seq<Member>, member: Member, target: Key)
    requires AcyclicFor(world, Alone(repaired), rank) && member in members
    requires forall m | m in members :: BelowMember(world, rank, level, file, m)
    ensures MeetsMember(world, rank, repaired, level, file, member, target)
            <= MeetsMembers(world, rank, repaired, level, file, members, target)
  {
    if members[0] != member { OneOfMembers(world, rank, repaired, level, file, members[1..], member, target); }
  }

  lemma {:induction false} MemberMeets(world: World, rank: Rank, repaired: bool, level: nat, fuel: nat, file: FileId,
                                       member: Member, steps: seq<Step>, own: set<Guard>, target: Key)
    requires AcyclicFor(world, Alone(repaired), rank) && BelowMember(world, rank, level, file, member)
    requires member.Property? && steps != []
    ensures Count(EntriesMember(world, repaired, fuel, file, member, steps, own), target)
            <= MeetsMember(world, rank, repaired, level, file, member, target)
    decreases fuel, 1, 0
  {
    if |steps| == 1 || member.annotation.None? {
    } else {
      TypeMeets(world, rank, repaired, level, fuel, file, member.annotation.value, steps[1..], own, target);
    }
  }

  lemma {:induction false} PartsMeet(world: World, rank: Rank, repaired: bool, level: nat, fuel: nat, file: FileId,
                                     parts: seq<TypeNode>, steps: seq<Step>, own: set<Guard>, target: Key)
    requires AcyclicFor(world, Alone(repaired), rank)
    requires forall part | part in parts :: BelowType(world, rank, level, file, part)
    ensures Count(EntriesParts(world, repaired, fuel, file, parts, steps, own), target)
            <= MeetsParts(world, rank, repaired, level, file, parts, target)
    decreases fuel, 1, |parts|
  {
    if parts == [] {
    } else {
      CountJoins(EntriesType(world, repaired, fuel, file, parts[0], steps, own),
                 EntriesParts(world, repaired, fuel, file, parts[1..], steps, own), target);
      TypeMeets(world, rank, repaired, level, fuel, file, parts[0], steps, own, target);
      PartsMeet(world, rank, repaired, level, fuel, file, parts[1..], steps, own, target);
    }
  }

  lemma {:induction false} NameMeets(world: World, rank: Rank, repaired: bool, level: nat, fuel: nat, file: FileId,
                                     name: string, steps: seq<Step>, own: set<Guard>, target: Key)
    requires AcyclicFor(world, Alone(repaired), rank) && BelowName(world, rank, level, file, name)
    ensures Count(EntriesName(world, repaired, fuel, file, name, steps, own), target)
            <= MeetsName(world, rank, repaired, level, file, name, target)
    decreases fuel, 3, 0
  {
    match DeclForTypeName(world, file, name)
    case Resolved(next, found, decl) =>
      DeclMeets(world, rank, repaired, fuel, Key(next, found), decl, steps, own, target);
    case _ =>
  }

  lemma {:induction false} DeclMeets(world: World, rank: Rank, repaired: bool, fuel: nat, key: Key, decl: Decl,
                                     steps: seq<Step>, own: set<Guard>, target: Key)
    requires AcyclicFor(world, Alone(repaired), rank) && Declares(world, key) == Some(decl)
    ensures Count(EntriesDecl(world, repaired, fuel, key, decl, steps, own), target)
            <= MeetsDecl(world, rank, repaired, key, decl, target)
    decreases fuel, 2, 0
  {
    var guard := Guard(key.file, key.name, |steps|);
    if steps == [] || decl.Enum? || decl.Class? || guard in own || fuel == 0 {
    } else {
      match Read(world, Alone(repaired), key, decl)
      case Alias(body) =>
        var entries := EntriesType(world, repaired, fuel - 1, key.file, body, steps, own + {guard});
        assert ([guard] + entries)[1..] == entries;
        TypeMeets(world, rank, repaired, rank(key), fuel - 1, key.file, body, steps, own + {guard}, target);
      case Interface(members, heritage) =>
        var entries := EntriesInterface(world, repaired, fuel - 1, key.file, members, heritage, steps, own + {guard});
        assert ([guard] + entries)[1..] == entries;
        InterfaceMeets(world, rank, repaired, fuel - 1, key, members, heritage, steps, own + {guard}, target);
    }
  }

  lemma {:induction false} InterfaceMeets(world: World, rank: Rank, repaired: bool, fuel: nat, key: Key,
                                          members: seq<Member>, heritage: seq<Heritage>, steps: seq<Step>,
                                          own: set<Guard>, target: Key)
    requires AcyclicFor(world, Alone(repaired), rank) && AcyclicInterface(world, rank, key, members, heritage)
    requires steps != []
    ensures Count(EntriesInterface(world, repaired, fuel, key.file, members, heritage, steps, own), target)
            <= Most(MeetsMembers(world, rank, repaired, rank(key), key.file, members, target),
                    MeetsBases(world, rank, repaired, rank(key), key.file, heritage, target))
    decreases fuel, 5, 0
  {
    if steps[0].Field? {
      match FindMember(Alone(repaired), members, steps[0].name)
      case Some(member) =>
        MemberMeets(world, rank, repaired, rank(key), fuel, key.file, member, steps, own, target);
        OneOfMembers(world, rank, repaired, rank(key), key.file, members, member, target);
      case None => BasesMeet(world, rank, repaired, rank(key), fuel, key.file, heritage, steps, own, target);
    }
  }

  lemma {:induction false} BasesMeet(world: World, rank: Rank, repaired: bool, level: nat, fuel: nat, file: FileId,
                                     heritage: seq<Heritage>, steps: seq<Step>, own: set<Guard>, target: Key)
    requires AcyclicFor(world, Alone(repaired), rank)
    requires forall base | base in heritage :: BelowBase(world, rank, level, file, base)
    ensures Count(EntriesBases(world, repaired, fuel, file, heritage, steps, own), target)
            <= MeetsBases(world, rank, repaired, level, file, heritage, target)
    decreases fuel, 4, 1 + |heritage|
  {
    if heritage == [] {
    } else {
      CountJoins(EntriesBase(world, repaired, fuel, file, heritage[0], steps, own),
                 EntriesBases(world, repaired, fuel, file, heritage[1..], steps, own), target);
      assert BelowBase(world, rank, level, file, heritage[0]);
      if heritage[0].Base? {
        NameMeets(world, rank, repaired, level, fuel, file, heritage[0].name, steps, own, target);
      }
      BasesMeet(world, rank, repaired, level, fuel, file, heritage[1..], steps, own, target);
    }
  }

  // A declaration met twice is reached along two chains of references.

  /** The declarations a type node refers to, in the order of its text, once for every reference. */
  ghost function RefsType(world: World, file: FileId, node: TypeNode): seq<Key>
    decreases node
  {
    match node
    case Literal(members) => RefsMembers(world, file, members)
    case Parenthesized(inner) => RefsType(world, file, inner)
    case Readonly(inner) => RefsType(world, file, inner)
    case Intersection(parts) => RefsParts(world, file, parts)
    case Union(parts) => RefsParts(world, file, parts)
    case ArrayOf(element) => RefsType(world, file, element)
    case Indexed(indexed, Some(_)) => RefsType(world, file, indexed)
    case Indexed(_, None) => []
    case Reference(name, qualified, arguments) =>
      if name in PASSTHROUGH_WRAPPERS + ARRAY_NAMES && arguments != [] then RefsType(world, file, arguments[0])
      else if qualified then [] else RefsName(world, file, name)
    case Opaque(_) => []
  }

  ghost function RefsMember(world: World, file: FileId, member: Member): seq<Key>
    decreases member
  {
    match member
    case Property(_, _, Some(node)) => RefsType(world, file, node)
    case _ => []
  }

  ghost function RefsMembers(world: World, file: FileId, members: seq<Member>): seq<Key>
    decreases members
  {
    if members == [] then [] else RefsMember(world, file, members[0]) + RefsMembers(world, file, members[1..])
  }

  ghost function RefsParts(world: World, file: FileId, parts: seq<TypeNode>): seq<Key>
    decreases parts
  {
    if parts == [] then [] else RefsType(world, file, parts[0]) + RefsParts(world, file, parts[1..])
  }

  ghost function RefsName(world: World, file: FileId, name: string): seq<Key> {
    match DeclForTypeName(world, file, name)
    case Resolved(next, found, _) => [Key(next, found)]
    case _ => []
  }

  ghost function RefsBases(world: World, file: FileId, heritage: seq<Heritage>): seq<Key> {
    if heritage == [] then []
    else
      (if heritage[0].Base? then RefsName(world, file, heritage[0].name) else [])
      + RefsBases(world, file, heritage[1..])
  }

  /** The references of a declaration as the walk reads it. */
  ghost function RefsOf(world: World, repaired: bool, key: Key): seq<Key>
    requires Declares(world, key).Some?
  {
    match Read(world, Alone(repaired), key, Declares(world, key).value)
    case Alias(body) => RefsType(world, key.file, body)
    case Interface(members, heritage) =>
      RefsMembers(world, key.file, members) + RefsBases(world, key.file, heritage)
    case _ => []
  }

  /** A chain of references, by the places of the references in the declarations that hold them. */
  ghost predicate IsChainOf(world: World, repaired: bool, from: Key, chain: seq<nat>, to: Key)
    decreases |chain|
  {
    Declares(world, from).Some? &&
    if chain == [] then from == to
    else
      && chain[0] < |RefsOf(world, repaired, from)|
      && IsChainOf(world, repaired, RefsOf(world, repaired, from)[chain[0]], chain[1..], to)
  }

  /** No declaration is reached along two different chains of references. */
  ghost predicate OneChainEach(world: World, repaired: bool, from: Key) {
    forall to, a, b | IsChainOf(world, repaired, from, a, to) && IsChainOf(world, repaired, from, b, to) :: a == b
  }

  ghost function MeetsKey(world: World, rank: Rank, repaired: bool, key: Key, target: Key): nat
    requires AcyclicFor(world, Alone(repaired), rank)
  {
    if Declares(world, key).Some? then MeetsDecl(world, rank, repaired, key, Declares(world, key).value, target)
    else 0
  }

  ghost function MeetsAll(world: World, rank: Rank, repaired: bool, keys: seq<Key>, target: Key): nat
    requires AcyclicFor(world, Alone(repaired), rank)
  {
    if keys == [] then 0
    else
      MeetsKey(world, rank, repaired, keys[0], target) + MeetsAll(world, rank, repaired, keys[1..], target)
  }

  lemma {:induction false} MeetsAllJoins(world: World, rank: Rank, repaired: bool, a: seq<Key>, b: seq<Key>,
                                         target: Key)
    requires AcyclicFor(world, Alone(repaired), rank)
    ensures MeetsAll(world, rank, repaired, a + b, target)
            == MeetsAll(world, rank, repaired, a, target) + MeetsAll(world, rank, repaired, b, target)
  {
    if a == [] {
      assert a + b == b;
    } else {
      assert (a + b)[1..] == a[1..] + b;
      MeetsAllJoins(world, rank, repaired, a[1..], b, target);
    }
  }

  /** Of declared keys below a level. */
  ghost predicate AllBelow(world: World, rank: Rank, level: nat, keys: seq<Key>) {
    forall key | key in keys :: rank(key) < level && Declares(world, key).Some?
  }

  lemma {:induction false} TypeRefs(world: World, rank: Rank, repaired: bool, level: nat, file: FileId,
                                    node: TypeNode, target: Key)
    requires AcyclicFor(world, Alone(repaired), rank) && BelowType(world, rank, level, file, node)
    ensures AllBelow(world, rank, level, RefsType(world, file, node))
    ensures MeetsType(world, rank, repaired, level, file, node, target)
            <= MeetsAll(world, rank, repaired, RefsType(world, file, node), target)
    decreases node
  {
    match node
    case Literal(members) => MembersRefs(world, rank, repaired, level, file, members, target);
    case Parenthesized(inner) => TypeRefs(world, rank, repaired, level, file, inner, target);
    case Readonly(inner) => TypeRefs(world, rank, repaired, level, file, inner, target);
    case Intersection(parts) => PartsRefs(world, rank, repaired, level, file, parts, target);
    case Union(parts) => PartsRefs(world, rank, repaired, level, file, parts, target);
    case ArrayOf(element) => TypeRefs(world, rank, repaired, level, file, element, target);
    case Indexed(indexed, Some(_)) => TypeRefs(world, rank, repaired, level, file, indexed, target);
    case Indexed(_, None) =>
    case Reference(name, qualified, arguments) =>
      if name in PASSTHROUGH_WRAPPERS + ARRAY_NAMES && arguments != [] {
        TypeRefs(world, rank, repaired, level, file, arguments[0], target);
      } else if !qualified {
        NameRefs(world, rank, repaired, level, file, name, target);
      }
    case Opaque(_) =>
  }

  lemma NameRefs(world: World, rank: Rank, repaired: bool, level: nat, file: FileId, name: string, target: Key)
    requires AcyclicFor(world, Alone(repaired), rank) && BelowName(world, rank, level, file, name)
    ensures AllBelow(world, rank, level, RefsName(world, file, name))
    ensures MeetsName(world, rank, repaired, level, file, name, target)
            == MeetsAll(world, rank, repaired, RefsName(world, file, name), target)
  {
    match DeclForTypeName(world, file, name)
    case Resolved(next, found, _) =>
      assert [Key(next, found)][1..] == [];
      assert MeetsAll(world, rank, repaired, [], target) == 0;
    case _ =>
  }

  lemma {:induction false} MembersRefs(world: World, rank: Rank, repaired: bool, level: nat, file: FileId,
                                       members: seq<Member>, target: Key)
    requires AcyclicFor(world, Alone(repaired), rank)
    requires forall member | member in members :: BelowMember(world, rank, level, file, member)
    ensures AllBelow(world, rank, level, RefsMembers(world, file, members))
    ensures MeetsMembers(world, rank, repaired, level, file, members, target)
            <= MeetsAll(world, rank, repaired, RefsMembers(world, file, members), target)
    decreases members
  {
    if members == [] {
    } else {
      var first := RefsMember(world, file, members[0]);
      assert BelowMember(world, rank, level, file, members[0]);
      match members[0] {
        case Property(_, _, Some(node)) => TypeRefs(world, rank, repaired, level, file, node, target);
        case _ =>
      }
      MembersRefs(world, rank, repaired, level, file, members[1..], target);
      MeetsAllJoins(world, rank, repaired, first, RefsMembers(world, file, members[1..]), target);
    }
  }

  lemma {:induction false} PartsRefs(world: World, rank: Rank, repaired: bool, level: nat, file: FileId,
                                     parts: seq<TypeNode>, target: Key)
    requires AcyclicFor(world, Alone(repaired), rank)
    requires forall part | part in parts :: BelowType(world, rank, level, file, part)
    ensures AllBelow(world, rank, level, RefsParts(world, file, parts))
    ensures MeetsParts(world, rank, repaired, level, file, parts, target)
            <= MeetsAll(world, rank, repaired, RefsParts(world, file, parts), target)
    decreases parts
  {
    if parts == [] {
    } else {
      TypeRefs(world, rank, repaired, level, file, parts[0], target);
      PartsRefs(world, rank, repaired, level, file, parts[1..], target);
      MeetsAllJoins(world, rank, repaired, RefsType(world, file, parts[0]), RefsParts(world, file, parts[1..]),
                    target);
    }
  }

  lemma {:induction false} BasesRefs(world: World, rank: Rank, repaired: bool, level: nat, file: FileId,
                                     heritage: seq<Heritage>, target: Key)
    requires AcyclicFor(world, Alone(repaired), rank)
    requires forall base | base in heritage :: BelowBase(world, rank, level, file, base)
    ensures AllBelow(world, rank, level, RefsBases(world, file, heritage))
    ensures MeetsBases(world, rank, repaired, level, file, heritage, target)
            <= MeetsAll(world, rank, repaired, RefsBases(world, file, heritage), target)
  {
    if heritage == [] {
    } else {
      assert BelowBase(world, rank, level, file, heritage[0]);
      var first := if heritage[0].Base? then RefsName(world, file, heritage[0].name) else [];
      if heritage[0].Base? { NameRefs(world, rank, repaired, level, file, heritage[0].name, target); }
      BasesRefs(world, rank, repaired, level, file, heritage[1..], target);
      MeetsAllJoins(world, rank, repaired, first, RefsBases(world, file, heritage[1..]), target);
    }
  }

  /** What is met from a declaration is met from it or from its references. */
  lemma DeclRefs(world: World, rank: Rank, repaired: bool, key: Key, target: Key)
    requires AcyclicFor(world, Alone(repaired), rank) && Declares(world, key).Some?
    ensures AllBelow(world, rank, rank(key), RefsOf(world, repaired, key))
    ensures MeetsKey(world, rank, repaired, key, target)
            <= (if key == target then 1 else 0)
               + MeetsAll(world, rank, repaired, RefsOf(world, repaired, key), target)
  {
    match Read(world, Alone(repaired), key, Declares(world, key).value)
    case Alias(body) => TypeRefs(world, rank, repaired, rank(key), key.file, body, target);
    case Interface(members, heritage) =>
      MembersRefs(world, rank, repaired, rank(key), key.file, members, target);
      BasesRefs(world, rank, repaired, rank(key), key.file, heritage, target);
      MeetsAllJoins(world, rank, repaired, RefsMembers(world, key.file, members),
                    RefsBases(world, key.file, heritage), target);
    case _ =>
  }

  /** A sum of at least one has a term of at least one. */
  lemma {:induction false} SomeMeets(world: World, rank: Rank, repaired: bool, keys: seq<Key>, target: Key)
    returns (i: nat)
    requires AcyclicFor(world, Alone(repaired), rank) && MeetsAll(world, rank, repaired, keys, target) >= 1
    ensures i < |keys| && MeetsKey(world, rank, repaired, keys[i], target) >= 1
  {
    i := 0;
    if MeetsKey(world, rank, repaired, keys[0], target) == 0 {
      i := SomeMeets(world, rank, repaired, keys[1..], target);
      i := i + 1;
    }
  }

  /** A sum of at least two has two such terms, or one of at least two. */
  lemma {:induction false} TwoMeet(world: World, rank: Rank, repaired: bool, keys: seq<Key>, target: Key)
    returns (i: nat, j: nat)
    requires AcyclicFor(world, Alone(repaired), rank) && MeetsAll(world, rank, repaired, keys, target) >= 2
    ensures i <= j < |keys| && MeetsKey(world, rank, repaired, keys[i], target) >= 1
    ensures MeetsKey(world, rank, repaired, keys[j], target) >= if i == j then 2 else 1
  {
    var first := MeetsKey(world, rank, repaired, keys[0], target);
    if first >= 2 {
      i, j := 0, 0;
    } else if first == 1 {
      i := 0;
      j := SomeMeets(world, rank, repaired, keys[1..], target);
      j := j + 1;
    } else {
      i, j := TwoMeet(world, rank, repaired, keys[1..], target);
      i, j := i + 1, j + 1;
    }
  }

  lemma {:induction false} MetIsReached(world: World, rank: Rank, repaired: bool, key: Key, target: Key)
    returns (chain: seq<nat>)
    requires AcyclicFor(world, Alone(repaired), rank) && MeetsKey(world, rank, repaired, key, target) >= 1
    ensures IsChainOf(world, repaired, key, chain, target)
    decreases rank(key)
  {
    if key == target {
      chain := [];
    } else {
      DeclRefs(world, rank, repaired, key, target);
      var refs := RefsOf(world, repaired, key);
      var i := SomeMeets(world, rank, repaired, refs, target);
      assert refs[i] in refs;
      var rest := MetIsReached(world, rank, repaired, refs[i], target);
      chain := Longer(world, repaired, key, i, rest, target);
    }
  }

  lemma Longer(world: World, repaired: bool, key: Key, i: nat, rest: seq<nat>, target: Key) returns (chain: seq<nat>)
    requires Declares(world, key).Some? && i < |RefsOf(world, repaired, key)|
    requires IsChainOf(world, repaired, RefsOf(world, repaired, key)[i], rest, target)
    ensures chain == [i] + rest && IsChainOf(world, repaired, key, chain, target)
  {
    chain := [i] + rest;
    assert chain[1..] == rest;
  }

  lemma {:induction false} MetTwiceIsReachedTwice(world: World, rank: Rank, repaired: bool, key: Key, target: Key)
    returns (a: seq<nat>, b: seq<nat>)
    requires AcyclicFor(world, Alone(repaired), rank) && MeetsKey(world, rank, repaired, key, target) >= 2
    ensures IsChainOf(world, repaired, key, a, target) && IsChainOf(world, repaired, key, b, target) && a != b
    decreases rank(key)
  {
    DeclRefs(world, rank, repaired, key, target);
    var refs := RefsOf(world, repaired, key);
    if key == target {
      var i := SomeMeets(world, rank, repaired, refs, target);
      assert refs[i] in refs;
      var rest := MetIsReached(world, rank, repaired, refs[i], target);
      a := [];
      b := Longer(world, repaired, key, i, rest, target);
    } else {
      var i, j := TwoMeet(world, rank, repaired, refs, target);
      assert refs[i] in refs && refs[j] in refs;
      var first, second;
      if i == j {
        first, second := MetTwiceIsReachedTwice(world, rank, repaired, refs[i], target);
      } else {
        first := MetIsReached(world, rank, repaired, refs[i], target);
        second := MetIsReached(world, rank, repaired, refs[j], target);
      }
      a := Longer(world, repaired, key, i, first, target);
      b := Longer(world, repaired, key, j, second, target);
      assert i == j ==> a[1..] == first && b[1..] == second;
    }
  }

  lemma {:induction false} CountsOne(entries: seq<Guard>, i: nat)
    requires i < |entries|
    ensures Count(entries, Key(entries[i].file, entries[i].name)) >= 1
  {
    if i > 0 { CountsOne(entries[1..], i - 1); }
  }

  lemma {:induction false} CountsTwo(entries: seq<Guard>, i: nat, j: nat)
    requires i < j < |entries| && entries[i] == entries[j]
    ensures Count(entries, Key(entries[i].file, entries[i].name)) >= 2
  {
    if i == 0 {
      CountsOne(entries[1..], j - 1);
    } else {
      CountsTwo(entries[1..], i - 1, j - 1);
    }
  }

  /** No walk from the declaration can enter any declaration twice. */
  ghost predicate MeetsOnce(world: World, rank: Rank, repaired: bool, key: Key, decl: Decl)
    requires AcyclicFor(world, Alone(repaired), rank) && Declares(world, key) == Some(decl)
  {
    forall target :: MeetsDecl(world, rank, repaired, key, decl, target) <= 1
  }

  /** In particular if no declaration is reached along two different chains of references. */
  lemma OneChainMeetsOnce(world: World, rank: Rank, repaired: bool, key: Key, decl: Decl)
    requires AcyclicFor(world, Alone(repaired), rank) && Declares(world, key) == Some(decl)
    requires OneChainEach(world, repaired, key)
    ensures MeetsOnce(world, rank, repaired, key, decl)
  {
    forall target ensures MeetsDecl(world, rank, repaired, key, decl, target) <= 1 {
      if MeetsKey(world, rank, repaired, key, target) >= 2 {
        var a, b := MetTwiceIsReachedTwice(world, rank, repaired, key, target);
      }
    }
  }

  lemma MeetsOnceIsFresh(world: World, rank: Rank, repaired: bool, fuel: nat, key: Key, decl: Decl, steps: seq<Step>)
    requires AcyclicFor(world, Alone(repaired), rank) && Declares(world, key) == Some(decl)
    requires MeetsOnce(world, rank, repaired, key, decl)
    ensures Fresh(EntriesDecl(world, repaired, fuel, key, decl, steps, {}), {})
  {
    var entries := EntriesDecl(world, repaired, fuel, key, decl, steps, {});
    forall i, j | 0 <= i < j < |entries| ensures entries[i] != entries[j] {
      var target := Key(entries[i].file, entries[i].name);
      DeclMeets(world, rank, repaired, fuel, key, decl, steps, {}, target);
      assert MeetsDecl(world, rank, repaired, key, decl, target) <= 1;
      if entries[i] == entries[j] { CountsTwo(entries, i, j); }
    }
  }

  /**
   * The script decides. If every file loads, no declaration refers back to itself, and no walk can enter one twice,
   * then with all members property signatures written as their keys and declared once, the script's walk ends, says
   * found exactly of the paths the type has under every interpretation, and missing exactly of those it has under
   * none.
   */
  lemma ScriptDecides(world: World, rank: Rank, key: Key, decl: Decl, steps: seq<Step>) returns (fuel: nat)
    requires AcyclicWorld(world, rank) && TidyWorld(Listed, world) && Loads(world)
    requires Declares(world, key) == Some(decl) && AcyclicFor(world, SPLIT, rank)
    requires MeetsOnce(world, rank, false, key, decl)
    ensures var script := LookupDecl(world, SCRIPT, fuel, key, decl, steps, {});
            && script.Done?
            && (script.value == Found <==> AlwaysHas(world, key, decl, steps))
            && (script.value == Missing <==> NeverHas(world, key, decl, steps))
  {
    fuel := ScriptExact(world, rank, 0, key, decl, steps);
    MeetsOnceIsFresh(world, rank, false, fuel, key, decl, steps);
    DeclShares(world, false, fuel, key, decl, steps, {}, {});
  }

  /** With all blocks read and members found by their keys, sharing the guards is as exact on every such world. */
  lemma RepairedDecides(world: World, rank: Rank, key: Key, decl: Decl, steps: seq<Step>) returns (fuel: nat)
    requires AcyclicWorld(world, rank) && Loads(world) && Declares(world, key) == Some(decl)
    requires MeetsOnce(world, rank, true, key, decl)
    ensures var shared := LookupDecl(world, Mode(true, true), fuel, key, decl, steps, {});
            && shared.Done?
            && (shared.value == Found <==> AlwaysHas(world, key, decl, steps))
            && (shared.value == Missing <==> NeverHas(world, key, decl, steps))
  {
    fuel := DeclFinishes(world, rank, PRECISE, key, decl, steps, {});
    DeclExact(world, rank, fuel, key, decl, steps);
    MeetsOnceIsFresh(world, rank, true, fuel, key, decl, steps);
    DeclShares(world, true, fuel, key, decl, steps, {}, {});
  }

  // An interface that inherits a key.

  const PORT := Property("port", Some("port"), None)
  const HOST := Property("host", Some("host"), None)
  const CONFIG := Interface([HOST], [Base("Base")])

  /** `interface Base { port: number }` and `interface Config extends Base { host: string }`. */
  ghost function Inheriting(file: FileId): World {
    World(map[file := SourceFile([NamedDecl("Base", Interface([PORT], [])), NamedDecl("Config", CONFIG)], map[], [])],
          map[])
  }

  lemma InheritingDeclares(file: FileId, name: string)
    ensures Declares(Inheriting(file), Key(file, name))
            == if name == "Base" then Some(Interface([PORT], [])) else if name == "Config" then Some(CONFIG) else None
  {
    var decls := [NamedDecl("Base", Interface([PORT], [])), NamedDecl("Config", CONFIG)];
    assert decls[1..] == [NamedDecl("Config", CONFIG)];
    assert decls[1..][1..] == [];
    assert FindTypeDecl(decls[1..], name)
           == if name == "Config" then Some(CONFIG) else FindTypeDecl(decls[1..][1..], name);
    assert Inheriting(file).files[file].decls == decls;
  }

  lemma BaseIsDeclared(file: FileId)
    ensures DeclForTypeName(Inheriting(file), file, "Base") == Resolved(file, "Base", Interface([PORT], []))
  {
    InheritingDeclares(file, "Base");
  }

  lemma BaseAnswers(file: FileId, fuel: nat, name: string, seen: set<Guard>)
    requires fuel > 0 && Guard(file, "Base", 1) !in seen
    ensures LookupName(Inheriting(file), SCRIPT, fuel, file, "Base", [Field(name)], seen)
            == Done(if name == "port" then Found else Missing, seen + {Guard(file, "Base", 1)})
  {
    var world, steps, more := Inheriting(file), [Field(name)], seen + {Guard(file, "Base", 1)};
    BaseIsDeclared(file);
    assert [PORT][1..] == [];
    assert OwnMember([PORT][1..], name) == None;
    assert FindMember(SCRIPT, [PORT], name) == if name == "port" then Some(PORT) else None;
    assert LookupBases(world, SCRIPT, fuel - 1, file, [], steps, more) == Done([], more);
    assert LookupInterface(world, SCRIPT, fuel - 1, file, [PORT], [], steps, more)
           == Done(if name == "port" then Found else Missing, more);
    assert LookupDecl(world, SCRIPT, fuel, Key(file, "Base"), Interface([PORT], []), steps, seen)
           == LookupInterface(world, SCRIPT, fuel - 1, file, [PORT], [], steps, more);
  }

  /** The script finds the key of a base, and reports a key that neither declares. */
  lemma InheritedKeyIsDecided(file: FileId, fuel: nat, name: string)
    requires fuel > 1
    ensures var script := LookupDecl(Inheriting(file), SCRIPT, fuel, Key(file, "Config"), CONFIG, [Field(name)], {});
            script.Done? && script.value == if name == "host" || name == "port" then Found else Missing
  {
    var world, steps, seen := Inheriting(file), [Field(name)], {Guard(file, "Config", 1)};
    BaseAnswers(file, fuel - 1, name, seen);
    assert [HOST][1..] == [] && [Base("Base")][1..] == [];
    assert OwnMember([HOST][1..], name) == None;
    assert FindMember(SCRIPT, [HOST], name) == if name == "host" then Some(HOST) else None;
    var base := LookupBase(world, SCRIPT, fuel - 1, file, Base("Base"), steps, seen);
    assert base == LookupName(world, SCRIPT, fuel - 1, file, "Base", steps, seen);
    assert LookupBases(world, SCRIPT, fuel - 1, file, [Base("Base")][1..], steps, base.seen) == Done([], base.seen);
    assert LookupBases(world, SCRIPT, fuel - 1, file, [Base("Base")], steps, seen)
           == Done([base.value] + [], base.seen);
    assert [base.value] + [] == [base.value];
    assert LookupDecl(world, SCRIPT, fuel, Key(file, "Config"), CONFIG, steps, {})
           == LookupInterface(world, SCRIPT, fuel - 1, file, [HOST], [Base("Base")], steps, {} + seen);
    assert {} + seen == seen;
  }

  /** Nothing in that world is reached along two chains. */
  lemma InheritingIsOneChain(file: FileId)
    ensures OneChainEach(Inheriting(file), false, Key(file, "Config"))
  {
    var world, config, base := Inheriting(file), Key(file, "Config"), Key(file, "Base");
    InheritingDeclares(file, "Config");
    InheritingDeclares(file, "Base");
    BaseIsDeclared(file);
    NoMemberRefs(world, file, PORT);
    NoMemberRefs(world, file, HOST);
    assert RefsBases(world, file, []) == [];
    assert RefsOf(world, false, base) == [];
    assert [Base("Base")][1..] == [] && RefsName(world, file, "Base") == [base];
    assert RefsBases(world, file, [Base("Base")]) == [base];
    assert RefsOf(world, false, config) == [base];
    forall chain, to | IsChainOf(world, false, config, chain, to)
      ensures chain == if to == config then [] else [0]
    {
      if chain != [] { ChainOfOne(world, config, base, chain, to); }
    }
  }

  lemma NoMemberRefs(world: World, file: FileId, member: Member)
    requires member.Property? && member.annotation.None?
    ensures RefsMembers(world, file, [member]) == []
  {
    assert [member][1..] == [];
    assert RefsMembers(world, file, []) == [];
  }

  lemma ChainOfOne(world: World, from: Key, next: Key, chain: seq<nat>, to: Key)
    requires Declares(world, from).Some? && RefsOf(world, false, from) == [next]
    requires Declares(world, next).Some? && RefsOf(world, false, next) == []
    requires chain != [] && IsChainOf(world, false, from, chain, to)
    ensures chain == [0] && to == next
  {
    assert IsChainOf(world, false, next, chain[1..], to);
    assert chain[1..] == [];
    assert chain == [chain[0]] + chain[1..];
  }
}
