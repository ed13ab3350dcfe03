/** How far the schema-path walk of scripts/gen-config-catalog.ts goes, and what its guard set costs. */
module PathTermination {
  import opened Options
  import opened Exports
  import opened PathLookup

  /** More fuel never changes an answer, so the answer of a walk does not depend on the bound. */
  lemma {:induction false} TypeFuel(world: World, mode: Mode, fuel: nat, more: nat, file: FileId, node: TypeNode,
                                    steps: seq<Step>, seen: set<Guard>)
    requires fuel <= more && LookupType(world, mode, fuel, file, node, steps, seen) != OutOfFuel
    ensures LookupType(world, mode, more, file, node, steps, seen)
            == LookupType(world, mode, fuel, file, node, steps, seen)
    decreases fuel, 0, 0
  {
    if steps == [] {
    } else {
      match PlanType(mode, node, steps)
      case Decided(_) =>
      case Descend(inner, rest) => TypeFuel(world, mode, fuel - 1, more - 1, file, inner, rest, seen);
      case IntoMember(member) => MemberFuel(world, mode, fuel - 1, more - 1, file, member, steps, seen);
      case AllParts(parts, _) => PartsFuel(world, mode, fuel - 1, more - 1, file, parts, steps, seen);
      case ByName(name) => NameFuel(world, mode, fuel - 1, more - 1, file, name, steps, seen);
    }
  }

  lemma {:induction false} MemberFuel(world: World, mode: Mode, fuel: nat, more: nat, file: FileId, member: Member,
                                      steps: seq<Step>, seen: set<Guard>)
    requires member.Property? && steps != []
    requires fuel <= more && LookupMember(world, mode, fuel, file, member, steps, seen) != OutOfFuel
    ensures LookupMember(world, mode, more, file, member, steps, seen)
            == LookupMember(world, mode, fuel, file, member, steps, seen)
    decreases fuel, 1, 0
  {
    if |steps| == 1 || member.annotation.None? {
    } else {
      TypeFuel(world, mode, fuel, more, file, member.annotation.value, steps[1..], seen);
    }
  }

  lemma {:induction false} PartsFuel(world: World, mode: Mode, fuel: nat, more: nat, file: FileId,
                                     parts: seq<TypeNode>, steps: seq<Step>, seen: set<Guard>)
    requires fuel <= more && LookupParts(world, mode, fuel, file, parts, steps, seen) != OutOfFuel
    ensures LookupParts(world, mode, more, file, parts, steps, seen)
            == LookupParts(world, mode, fuel, file, parts, steps, seen)
    decreases fuel, 1, |parts|
  {
    if parts == [] {
    } else {
      TypeFuel(world, mode, fuel, more, file, parts[0], steps, seen);
      match LookupType(world, mode, fuel, file, parts[0], steps, seen)
      case Done(_, after) =>
        PartsFuel(world, mode, fuel, more, file, parts[1..], steps, if mode.shared then after else seen);
      case _ =>
    }
  }

  lemma {:induction false} NameFuel(world: World, mode: Mode, fuel: nat, more: nat, file: FileId, name: string,
                                    steps: seq<Step>, seen: set<Guard>)
    requires fuel <= more && LookupName(world, mode, fuel, file, name, steps, seen) != OutOfFuel
    ensures LookupName(world, mode, more, file, name, steps, seen)
            == LookupName(world, mode, fuel, file, name, steps, seen)
    decreases fuel, 3, 0
  {
    match DeclForTypeName(world, file, name)
    case Resolved(target, found, decl) => DeclFuel(world, mode, fuel, more, Key(target, found), decl, steps, seen);
    case _ =>
  }

  lemma {:induction false} DeclFuel(world: World, mode: Mode, fuel: nat, more: nat, key: Key, decl: Decl,
                                    steps: seq<Step>, seen: set<Guard>)
    requires fuel <= more && LookupDecl(world, mode, fuel, key, decl, steps, seen) != OutOfFuel
    ensures LookupDecl(world, mode, more, key, decl, steps, seen)
            == LookupDecl(world, mode, fuel, key, decl, steps, seen)
    decreases fuel, 2, 0
  {
    var guard := Guard(key.file, key.name, |steps|);
    if steps == [] || decl.Enum? || decl.Class? || guard in seen {
    } else {
      match Read(world, mode, key, decl)
      case Alias(body) => TypeFuel(world, mode, fuel - 1, more - 1, key.file, body, steps, seen + {guard});
      case Interface(members, heritage) =>
        InterfaceFuel(world, mode, fuel - 1, more - 1, key.file, members, heritage, steps, seen + {guard});
    }
  }

  lemma {:induction false} InterfaceFuel(world: World, mode: Mode, fuel: nat, more: nat, file: FileId,
                                         members: seq<Member>, heritage: seq<Heritage>, steps: seq<Step>,
                                         seen: set<Guard>)
    requires steps != []
    requires fuel <= more && LookupInterface(world, mode, fuel, file, members, heritage, steps, seen) != OutOfFuel
    ensures LookupInterface(world, mode, more, file, members, heritage, steps, seen)
            == LookupInterface(world, mode, fuel, file, members, heritage, steps, seen)
    decreases fuel, 5, 0
  {
    if steps[0].Element? {
    } else {
      match FindMember(mode, members, steps[0].name)
      case Some(member) => MemberFuel(world, mode, fuel, more, file, member, steps, seen);
      case None => BasesFuel(world, mode, fuel, more, file, heritage, steps, seen);
    }
  }

  lemma {:induction false} BaseFuel(world: World, mode: Mode, fuel: nat, more: nat, file: FileId, base: Heritage,
                                    steps: seq<Step>, seen: set<Guard>)
    requires fuel <= more && LookupBase(world, mode, fuel, file, base, steps, seen) != OutOfFuel
    ensures LookupBase(world, mode, more, file, base, steps, seen)
            == LookupBase(world, mode, fuel, file, base, steps, seen)
    decreases fuel, 4, 0
  {
    match base
    case Base(name) => NameFuel(world, mode, fuel, more, file, name, steps, seen);
    case ComputedBase =>
  }

  lemma {:induction false} BasesFuel(world: World, mode: Mode, fuel: nat, more: nat, file: FileId,
                                     heritage: seq<Heritage>, steps: seq<Step>, seen: set<Guard>)
    requires fuel <= more && LookupBases(world, mode, fuel, file, heritage, steps, seen) != OutOfFuel
    ensures LookupBases(world, mode, more, file, heritage, steps, seen)
            == LookupBases(world, mode, fuel, file, heritage, steps, seen)
    decreases fuel, 4, 1 + |heritage|
  {
    if heritage == [] {
    } else {
      BaseFuel(world, mode, fuel, more, file, heritage[0], steps, seen);
      match LookupBase(world, mode, fuel, file, heritage[0], steps, seen)
      case Done(_, after) =>
        BasesFuel(world, mode, fuel, more, file, heritage[1..], steps, if mode.shared then after else seen);
      case _ =>
    }
  }

  /** A blurred answer: the same, or unknown. */
  predicate Blurs(blurred: Lookup, sharp: Lookup) {
    blurred == Unknown || blurred == sharp
  }

  predicate AllBlur(blurred: seq<Lookup>, sharp: seq<Lookup>) {
    |blurred| == |sharp| && forall i | 0 <= i < |sharp| :: Blurs(blurred[i], sharp[i])
  }

  lemma CombineBlurs(blurred: seq<Lookup>, sharp: seq<Lookup>)
    requires AllBlur(blurred, sharp)
    ensures Blurs(Combine(blurred), Combine(sharp)) && Blurs(CombineUnion(blurred), CombineUnion(sharp))
  {
    assert forall i | 0 <= i < |sharp| :: sharp[i] in sharp && blurred[i] in blurred;
    if Found in blurred {
      var i :| 0 <= i < |blurred| && blurred[i] == Found;
      assert sharp[i] == Found;
    }
  }

  /** One guard set for all branches, and one for each. */
  const SHARED := SCRIPT
  const SPLIT := Mode(false, false)

  /**
   * Sharing one guard set between sibling branches can only turn an answer into unknown: against a
   * walk that gives every branch its own guards, a definite shared answer is the same answer.
   */
  lemma {:induction false} TypeSharing(world: World, fuel: nat, file: FileId, node: TypeNode, steps: seq<Step>,
                                       own: set<Guard>, seen: set<Guard>)
    requires own <= seen
    requires LookupType(world, SHARED, fuel, file, node, steps, seen).Done?
    requires LookupType(world, SPLIT, fuel, file, node, steps, own).Done?
    ensures Blurs(LookupType(world, SHARED, fuel, file, node, steps, seen).value,
                  LookupType(world, SPLIT, fuel, file, node, steps, own).value)
    decreases fuel, 0, 0
  {
    if steps == [] {
    } else {
      match PlanType(SHARED, node, steps)
      case Decided(_) =>
      case Descend(inner, rest) => TypeSharing(world, fuel - 1, file, inner, rest, own, seen);
      case IntoMember(member) => MemberSharing(world, fuel - 1, file, member, steps, own, seen);
      case AllParts(parts, _) =>
        PartsSharing(world, fuel - 1, file, parts, steps, own, seen);
        CombineBlurs(LookupParts(world, SHARED, fuel - 1, file, parts, steps, seen).value,
                     LookupParts(world, SPLIT, fuel - 1, file, parts, steps, own).value);
      case ByName(name) => NameSharing(world, fuel - 1, file, name, steps, own, seen);
    }
  }

  lemma {:induction false} MemberSharing(world: World, fuel: nat, file: FileId, member: Member, steps: seq<Step>,
                                         own: set<Guard>, seen: set<Guard>)
    requires own <= seen && member.Property? && steps != []
    requires LookupMember(world, SHARED, fuel, file, member, steps, seen).Done?
    requires LookupMember(world, SPLIT, fuel, file, member, steps, own).Done?
    ensures Blurs(LookupMember(world, SHARED, fuel, file, member, steps, seen).value,
                  LookupMember(world, SPLIT, fuel, file, member, steps, own).value)
    decreases fuel, 1, 0
  {
    if |steps| == 1 || member.annotation.None? {
    } else {
      TypeSharing(world, fuel, file, member.annotation.value, steps[1..], own, seen);
    }
  }

  lemma {:induction false} PartsSharing(world: World, fuel: nat, file: FileId, parts: seq<TypeNode>,
                                        steps: seq<Step>, own: set<Guard>, seen: set<Guard>)
    requires own <= seen
    requires LookupParts(world, SHARED, fuel, file, parts, steps, seen).Done?
    requires LookupParts(world, SPLIT, fuel, file, parts, steps, own).Done?
    ensures AllBlur(LookupParts(world, SHARED, fuel, file, parts, steps, seen).value,
                    LookupParts(world, SPLIT, fuel, file, parts, steps, own).value)
    decreases fuel, 1, |parts|
  {
    if parts == [] {
    } else {
      TypeSharing(world, fuel, file, parts[0], steps, own, seen);
      var after := LookupType(world, SHARED, fuel, file, parts[0], steps, seen).seen;
      PartsSharing(world, fuel, file, parts[1..], steps, own, after);
    }
  }

  lemma {:induction false} NameSharing(world: World, fuel: nat, file: FileId, name: string, steps: seq<Step>,
                                       own: set<Guard>, seen: set<Guard>)
    requires own <= seen
    requires LookupName(world, SHARED, fuel, file, name, steps, seen).Done?
    requires LookupName(world, SPLIT, fuel, file, name, steps, own).Done?
    ensures Blurs(LookupName(world, SHARED, fuel, file, name, steps, seen).value,
                  LookupName(world, SPLIT, fuel, file, name, steps, own).value)
    decreases fuel, 3, 0
  {
    match DeclForTypeName(world, file, name)
    case Resolved(target, found, decl) => DeclSharing(world, fuel, Key(target, found), decl, steps, own, seen);
    case _ =>
  }

  /** The same at a declaration. */
  lemma {:induction false} DeclSharing(world: World, fuel: nat, key: Key, decl: Decl, steps: seq<Step>,
                                       own: set<Guard>, seen: set<Guard>)
    requires own <= seen
    requires LookupDecl(world, SHARED, fuel, key, decl, steps, seen).Done?
    requires LookupDecl(world, SPLIT, fuel, key, decl, steps, own).Done?
    ensures Blurs(LookupDecl(world, SHARED, fuel, key, decl, steps, seen).value,
                  LookupDecl(world, SPLIT, fuel, key, decl, steps, own).value)
    decreases fuel, 2, 0
  {
    var guard := Guard(key.file, key.name, |steps|);
    if steps == [] || decl.Enum? || decl.Class? || guard in seen {
    } else {
      match decl
      case Alias(body) => TypeSharing(world, fuel - 1, key.file, body, steps, own + {guard}, seen + {guard});
      case Interface(members, heritage) =>
        InterfaceSharing(world, fuel - 1, key.file, members, heritage, steps, own + {guard}, seen + {guard});
    }
  }

  lemma {:induction false} InterfaceSharing(world: World, fuel: nat, file: FileId, members: seq<Member>,
                                            heritage: seq<Heritage>, steps: seq<Step>, own: set<Guard>,
                                            seen: set<Guard>)
    requires own <= seen && steps != []
    requires LookupInterface(world, SHARED, fuel, file, members, heritage, steps, seen).Done?
    requires LookupInterface(world, SPLIT, fuel, file, members, heritage, steps, own).Done?
    ensures Blurs(LookupInterface(world, SHARED, fuel, file, members, heritage, steps, seen).value,
                  LookupInterface(world, SPLIT, fuel, file, members, heritage, steps, own).value)
    decreases fuel, 5, 0
  {
    if steps[0].Element? {
    } else {
      match OwnMember(members, steps[0].name)
      case Some(member) => MemberSharing(world, fuel, file, member, steps, own, seen);
      case None =>
        BasesSharing(world, fuel, file, heritage, steps, own, seen);
        CombineBlurs(LookupBases(world, SHARED, fuel, file, heritage, steps, seen).value,
                     LookupBases(world, SPLIT, fuel, file, heritage, steps, own).value);
    }
  }

  lemma {:induction false} BasesSharing(world: World, fuel: nat, file: FileId, heritage: seq<Heritage>,
                                        steps: seq<Step>, own: set<Guard>, seen: set<Guard>)
    requires own <= seen
    requires LookupBases(world, SHARED, fuel, file, heritage, steps, seen).Done?
    requires LookupBases(world, SPLIT, fuel, file, heritage, steps, own).Done?
    ensures AllBlur(LookupBases(world, SHARED, fuel, file, heritage, steps, seen).value,
                    LookupBases(world, SPLIT, fuel, file, heritage, steps, own).value)
    decreases fuel, 4, |heritage|
  {
    if heritage == [] {
    } else {
      if heritage[0].Base? { NameSharing(world, fuel, file, heritage[0].name, steps, own, seen); }
      var after := LookupBase(world, SHARED, fuel, file, heritage[0], steps, seen).seen;
      BasesSharing(world, fuel, file, heritage[1..], steps, own, after);
    }
  }

  /** For every declaration, how many steps a walk from it may come to hold beyond those it starts with. */
  type Potential = Key -> nat

  /** What a name stands for adds no more steps than the credit. */
  ghost predicate BoundedName(world: World, potential: Potential, credit: int, file: FileId, name: string) {
    match DeclForTypeName(world, file, name)
    case Resolved(target, found, _) => potential(Key(target, found)) <= credit
    case _ => true
  }

  /** An indexed access costs one step; a member and an array element give one back. */
  ghost predicate BoundedType(world: World, potential: Potential, credit: int, file: FileId, node: TypeNode)
    decreases node
  {
    match node
    case Literal(members) => forall m | m in members :: BoundedMember(world, potential, credit, file, m)
    case Parenthesized(inner) => BoundedType(world, potential, credit, file, inner)
    case Readonly(inner) => BoundedType(world, potential, credit, file, inner)
    case Intersection(parts) => forall p | p in parts :: BoundedType(world, potential, credit, file, p)
    case Union(parts) => forall p | p in parts :: BoundedType(world, potential, credit, file, p)
    case ArrayOf(element) => BoundedType(world, potential, credit + 1, file, element)
    case Indexed(target, Some(_)) => BoundedType(world, potential, credit - 1, file, target)
    case Indexed(_, None) => true
    case Reference(name, qualified, arguments) =>
      if name in PASSTHROUGH_WRAPPERS && arguments != [] then
        BoundedType(world, potential, credit, file, arguments[0])
      else if name in ARRAY_NAMES && arguments != [] then
        BoundedType(world, potential, credit + 1, file, arguments[0])
      else qualified || BoundedName(world, potential, credit, file, name)
    case Opaque(_) => true
  }

  ghost predicate BoundedMember(world: World, potential: Potential, credit: int, file: FileId, member: Member)
    decreases member
  {
    match member
    case Property(_, _, Some(node)) => BoundedType(world, potential, credit + 1, file, node)
    case _ => true
  }

  ghost predicate BoundedBases(world: World, potential: Potential, credit: int, file: FileId,
                               heritage: seq<Heritage>)
  {
    forall base | base in heritage && base.Base? :: BoundedName(world, potential, credit, file, base.name)
  }

  ghost predicate BoundedDecl(world: World, potential: Potential, key: Key, decl: Decl) {
    match decl
    case Enum => true
    case Class => true
    case Alias(body) => BoundedType(world, potential, potential(key), key.file, body)
    case Interface(members, heritage) =>
      && (forall m | m in members :: BoundedMember(world, potential, potential(key), key.file, m))
      && BoundedBases(world, potential, potential(key), key.file, heritage)
  }

  /** No cycle of declarations adds more steps by indexed access than its members and elements consume. */
  ghost predicate Bounded(world: World, mode: Mode, potential: Potential) {
    forall key | Declares(world, key).Some? ::
      BoundedDecl(world, potential, key, Read(world, mode, key, Declares(world, key).value))
  }

  /** Every guard a walk of at most `bound` steps can set. */
  ghost function Guards(world: World, bound: nat): set<Guard> {
    set file, named, left |
        file in world.files && named in world.files[file].decls && 0 <= left <= bound ::
      Guard(file, named.name, left)
  }

  lemma {:induction false} DeclaredIsListed(decls: seq<NamedDecl>, name: string)
    requires FindTypeDecl(decls, name).Some?
    ensures exists named | named in decls :: named.name == name
  {
    if decls[0].name == name {
    } else {
      DeclaredIsListed(decls[1..], name);
    }
  }

  ghost function Budget(world: World, bound: nat, seen: set<Guard>): nat {
    |Guards(world, bound) - seen|
  }

  lemma BudgetShrinks(world: World, bound: nat, seen: set<Guard>, key: Key, left: nat)
    requires Declares(world, key).Some? && left <= bound && Guard(key.file, key.name, left) !in seen
    ensures Budget(world, bound, seen + {Guard(key.file, key.name, left)}) < Budget(world, bound, seen)
  {
    var guard := Guard(key.file, key.name, left);
    DeclaredIsListed(world.files[key.file].decls, key.name);
    assert guard in Guards(world, bound);
    assert Guards(world, bound) - seen == (Guards(world, bound) - (seen + {guard})) + {guard};
  }

  lemma BudgetMonotone(world: World, bound: nat, seen: set<Guard>, more: set<Guard>)
    requires seen <= more
    ensures Budget(world, bound, more) <= Budget(world, bound, seen)
  {
    var guards := Guards(world, bound);
    assert guards - seen == (guards - more) + (guards * more - seen);
  }

  /**
   * On a bounded world every walk ends. The steps held and the credit left never exceed what they were together,
   * so a visit to a declaration uses up one of finitely many guards, and every other call descends in the syntax.
   */
  lemma {:induction false} TypeEnds(world: World, potential: Potential, mode: Mode, credit: int, bound: nat,
                                    file: FileId, node: TypeNode, steps: seq<Step>, seen: set<Guard>)
    returns (fuel: nat)
    requires Bounded(world, mode, potential) && BoundedType(world, potential, credit, file, node)
    requires |steps| + credit <= bound
    ensures LookupType(world, mode, fuel, file, node, steps, seen) != OutOfFuel
    decreases Budget(world, bound, seen), 1, node
  {
    if steps == [] {
      fuel := 0;
    } else {
      match PlanType(mode, node, steps) {
        case Decided(_) => fuel := 0;
        case Descend(inner, rest) =>
          fuel := TypeEnds(world, potential, mode, credit + |steps| - |rest|, bound, file, inner, rest, seen);
        case IntoMember(member) =>
          fuel := MemberEnds(world, potential, mode, credit, bound, file, member, steps, seen);
        case AllParts(parts, _) =>
          fuel := PartsEnd(world, potential, mode, credit, bound, file, parts, steps, seen);
        case ByName(name) =>
          fuel := NameEnds(world, potential, mode, credit, bound, file, name, steps, seen);
      }
      fuel := fuel + 1;
    }
  }

  lemma {:induction false} MemberEnds(world: World, potential: Potential, mode: Mode, credit: int, bound: nat,
                                      file: FileId, member: Member, steps: seq<Step>, seen: set<Guard>)
    returns (fuel: nat)
    requires Bounded(world, mode, potential) && BoundedMember(world, potential, credit, file, member)
    requires member.Property? && steps != [] && |steps| + credit <= bound
    ensures LookupMember(world, mode, fuel, file, member, steps, seen) != OutOfFuel
    decreases Budget(world, bound, seen), 1, member
  {
    fuel := 0;
    if |steps| > 1 && member.annotation.Some? {
      fuel := TypeEnds(world, potential, mode, credit + 1, bound, file, member.annotation.value, steps[1..], seen);
    }
  }

  lemma {:induction false} PartsEnd(world: World, potential: Potential, mode: Mode, credit: int, bound: nat,
                                    file: FileId, parts: seq<TypeNode>, steps: seq<Step>, seen: set<Guard>)
    returns (fuel: nat)
    requires Bounded(world, mode, potential) && |steps| + credit <= bound
    requires forall p | p in parts :: BoundedType(world, potential, credit, file, p)
    ensures LookupParts(world, mode, fuel, file, parts, steps, seen) != OutOfFuel
    decreases Budget(world, bound, seen), 1, parts
  {
    fuel := 0;
    if parts == [] {
    } else {
      var first := TypeEnds(world, potential, mode, credit, bound, file, parts[0], steps, seen);
      fuel := first;
      match LookupType(world, mode, first, file, parts[0], steps, seen) {
        case Done(_, after) =>
          BudgetMonotone(world, bound, seen, after);
          var next := if mode.shared then after else seen;
          var rest := PartsEnd(world, potential, mode, credit, bound, file, parts[1..], steps, next);
          PartsJoin(world, mode, file, parts, steps, seen, next, first, rest);
          fuel := first + rest;
        case _ =>
      }
    }
  }

  lemma PartsJoin(world: World, mode: Mode, file: FileId, parts: seq<TypeNode>, steps: seq<Step>,
                  seen: set<Guard>, after: set<Guard>, first: nat, rest: nat)
    requires parts != [] && LookupType(world, mode, first, file, parts[0], steps, seen).Done?
    requires after == if mode.shared then LookupType(world, mode, first, file, parts[0], steps, seen).seen else seen
    requires LookupParts(world, mode, rest, file, parts[1..], steps, after) != OutOfFuel
    ensures LookupParts(world, mode, first + rest, file, parts, steps, seen) != OutOfFuel
  {
    TypeFuel(world, mode, first, first + rest, file, parts[0], steps, seen);
    PartsFuel(world, mode, rest, first + rest, file, parts[1..], steps, after);
  }

  lemma {:induction false} NameEnds(world: World, potential: Potential, mode: Mode, credit: int, bound: nat,
                                    file: FileId, name: string, steps: seq<Step>, seen: set<Guard>)
    returns (fuel: nat)
    requires Bounded(world, mode, potential) && BoundedName(world, potential, credit, file, name)
    requires |steps| + credit <= bound
    ensures LookupName(world, mode, fuel, file, name, steps, seen) != OutOfFuel
    decreases Budget(world, bound, seen), 0, 1
  {
    fuel := 0;
    match DeclForTypeName(world, file, name)
    case Resolved(target, found, decl) =>
      fuel := DeclEnds(world, potential, mode, bound, Key(target, found), decl, steps, seen);
    case _ =>
  }

  /** The same at a declaration. */
  lemma {:induction false} DeclEnds(world: World, potential: Potential, mode: Mode, bound: nat, key: Key, decl: Decl,
                                    steps: seq<Step>, seen: set<Guard>)
    returns (fuel: nat)
    requires Bounded(world, mode, potential) && |steps| + potential(key) <= bound
    requires Declares(world, key) == Some(decl)
    ensures LookupDecl(world, mode, fuel, key, decl, steps, seen) != OutOfFuel
    decreases Budget(world, bound, seen), 0, 0
  {
    fuel := 0;
    var guard := Guard(key.file, key.name, |steps|);
    if steps == [] || decl.Enum? || decl.Class? || guard in seen {
    } else {
      BudgetShrinks(world, bound, seen, key, |steps|);
      match Read(world, mode, key, decl) {
        case Alias(body) =>
          fuel := TypeEnds(world, potential, mode, potential(key), bound, key.file, body, steps, seen + {guard});
        case Interface(members, heritage) =>
          fuel := InterfaceEnds(world, potential, mode, bound, key, members, heritage, steps, seen + {guard});
      }
      fuel := fuel + 1;
    }
  }

  lemma {:induction false} InterfaceEnds(world: World, potential: Potential, mode: Mode, bound: nat, key: Key,
                                         members: seq<Member>, heritage: seq<Heritage>, steps: seq<Step>,
                                         seen: set<Guard>)
    returns (fuel: nat)
    requires Bounded(world, mode, potential) && BoundedDecl(world, potential, key, Interface(members, heritage))
    requires steps != [] && |steps| + potential(key) <= bound
    ensures LookupInterface(world, mode, fuel, key.file, members, heritage, steps, seen) != OutOfFuel
    decreases Budget(world, bound, seen), 2, 0
  {
    fuel := 0;
    if steps[0].Field? {
      match FindMember(mode, members, steps[0].name)
      case Some(member) =>
        fuel := MemberEnds(world, potential, mode, potential(key), bound, key.file, member, steps, seen);
      case None =>
        fuel := BasesEnd(world, potential, mode, potential(key), bound, key.file, heritage, steps, seen);
    }
  }

  lemma BasesJoin(world: World, mode: Mode, file: FileId, heritage: seq<Heritage>, steps: seq<Step>,
                  seen: set<Guard>, after: set<Guard>, first: nat, rest: nat)
    requires heritage != [] && LookupBase(world, mode, first, file, heritage[0], steps, seen).Done?
    requires after == if mode.shared then LookupBase(world, mode, first, file, heritage[0], steps, seen).seen
                      else seen
    requires LookupBases(world, mode, rest, file, heritage[1..], steps, after) != OutOfFuel
    ensures LookupBases(world, mode, first + rest, file, heritage, steps, seen) != OutOfFuel
  {
    BaseFuel(world, mode, first, first + rest, file, heritage[0], steps, seen);
    BasesFuel(world, mode, rest, first + rest, file, heritage[1..], steps, after);
  }

  lemma {:induction false} BaseEnds(world: World, potential: Potential, mode: Mode, credit: int, bound: nat,
                                    file: FileId, base: Heritage, steps: seq<Step>, seen: set<Guard>)
    returns (fuel: nat)
    requires Bounded(world, mode, potential) && |steps| + credit <= bound
    requires base.Base? ==> BoundedName(world, potential, credit, file, base.name)
    ensures LookupBase(world, mode, fuel, file, base, steps, seen) != OutOfFuel
    decreases Budget(world, bound, seen), 0, 2
  {
    match base
    case Base(name) => fuel := NameEnds(world, potential, mode, credit, bound, file, name, steps, seen);
    case ComputedBase => fuel := 0;
  }

  lemma BasesSplit(world: World, potential: Potential, credit: int, file: FileId, heritage: seq<Heritage>)
    requires heritage != [] && BoundedBases(world, potential, credit, file, heritage)
    ensures heritage[0].Base? ==> BoundedName(world, potential, credit, file, heritage[0].name)
    ensures BoundedBases(world, potential, credit, file, heritage[1..])
  {
  }

  lemma {:induction false} BasesEnd(world: World, potential: Potential, mode: Mode, credit: int, bound: nat,
                                    file: FileId, heritage: seq<Heritage>, steps: seq<Step>, seen: set<Guard>)
    returns (fuel: nat)
    requires Bounded(world, mode, potential) && BoundedBases(world, potential, credit, file, heritage)
    requires |steps| + credit <= bound
    ensures LookupBases(world, mode, fuel, file, heritage, steps, seen) != OutOfFuel
    decreases Budget(world, bound, seen), 0, 3 + |heritage|
  {
    fuel := 0;
    if heritage == [] {
    } else {
      BasesSplit(world, potential, credit, file, heritage);
      fuel := BaseEnds(world, potential, mode, credit, bound, file, heritage[0], steps, seen);
      match LookupBase(world, mode, fuel, file, heritage[0], steps, seen) {
        case Done(_, after) =>
          BudgetMonotone(world, bound, seen, after);
          var next := if mode.shared then after else seen;
          var rest := BasesEnd(world, potential, mode, credit, bound, file, heritage[1..], steps, next);
          BasesJoin(world, mode, file, heritage, steps, seen, next, fuel, rest);
          fuel := fuel + rest;
        case _ =>
      }
    }
  }

  /** No indexed access anywhere below a node. */
  ghost predicate Direct(node: TypeNode) {
    match node
    case Literal(members) => forall m | m in members :: DirectMember(m)
    case Parenthesized(inner) => Direct(inner)
    case Readonly(inner) => Direct(inner)
    case Intersection(parts) => forall p | p in parts :: Direct(p)
    case Union(parts) => forall p | p in parts :: Direct(p)
    case ArrayOf(element) => Direct(element)
    case Indexed(_, _) => false
    case Reference(_, _, arguments) => forall a | a in arguments :: Direct(a)
    case Opaque(_) => true
  }

  ghost predicate DirectMember(member: Member) {
    match member
    case Property(_, _, Some(node)) => Direct(node)
    case _ => true
  }

  ghost predicate DirectDecl(decl: Decl) {
    match decl
    case Enum => true
    case Class => true
    case Alias(body) => Direct(body)
    case Interface(members, _) => forall m | m in members :: DirectMember(m)
  }

  ghost predicate DirectWorld(world: World, mode: Mode) {
    forall key | Declares(world, key).Some? :: DirectDecl(Read(world, mode, key, Declares(world, key).value))
  }

  const FLAT: Potential := key => 0

  lemma {:induction false} DirectTypeIsBounded(world: World, credit: nat, file: FileId, node: TypeNode)
    requires Direct(node)
    ensures BoundedType(world, FLAT, credit, file, node)
    decreases node
  {
    match node
    case Literal(members) =>
      forall m | m in members ensures BoundedMember(world, FLAT, credit, file, m) {
        DirectMemberIsBounded(world, credit, file, m);
      }
    case Parenthesized(inner) => DirectTypeIsBounded(world, credit, file, inner);
    case Readonly(inner) => DirectTypeIsBounded(world, credit, file, inner);
    case Intersection(parts) => forall p | p in parts { DirectTypeIsBounded(world, credit, file, p); }
    case Union(parts) => forall p | p in parts { DirectTypeIsBounded(world, credit, file, p); }
    case ArrayOf(element) => DirectTypeIsBounded(world, credit + 1, file, element);
    case Reference(name, _, arguments) =>
      if arguments != [] {
        DirectTypeIsBounded(world, credit, file, arguments[0]);
        DirectTypeIsBounded(world, credit + 1, file, arguments[0]);
      }
    case Opaque(_) =>
  }

  lemma {:induction false} DirectMemberIsBounded(world: World, credit: nat, file: FileId, member: Member)
    requires DirectMember(member)
    ensures BoundedMember(world, FLAT, credit, file, member)
    decreases member
  {
    match member
    case Property(_, _, Some(node)) => DirectTypeIsBounded(world, credit + 1, file, node);
    case _ =>
  }

  /** Without indexed access no potential is needed, however the declarations refer to each other. */
  lemma DirectIsBounded(world: World, mode: Mode)
    requires DirectWorld(world, mode)
    ensures Bounded(world, mode, FLAT)
  {
    forall key | Declares(world, key).Some?
      ensures BoundedDecl(world, FLAT, key, Read(world, mode, key, Declares(world, key).value))
    {
      match Read(world, mode, key, Declares(world, key).value)
      case Enum =>
      case Class =>
      case Alias(body) => DirectTypeIsBounded(world, 0, key.file, body);
      case Interface(members, _) =>
        forall m | m in members { DirectMemberIsBounded(world, 0, key.file, m); }
    }
  }

  /** A world whose one alias indexes itself. */
  ghost function SelfIndexing(file: FileId): World {
    World(map[file := SourceFile([NamedDecl("A", Alias(SELF_INDEXING))], map[], [])], map[])
  }

  const SELF_INDEXING := Indexed(Reference("A", false, []), Some("x"))

  lemma SelfIndexingTurn(file: FileId, mode: Mode, fuel: nat, steps: seq<Step>, seen: set<Guard>)
    requires steps != [] && Guard(file, "A", |steps|) !in seen && fuel >= 3
    ensures LookupDecl(SelfIndexing(file), mode, fuel, Key(file, "A"), Alias(SELF_INDEXING), steps, seen) ==
            LookupDecl(SelfIndexing(file), mode, fuel - 3, Key(file, "A"), Alias(SELF_INDEXING),
                       [Field("x")] + steps, seen + {Guard(file, "A", |steps|)})
  {
    var world, longer, more := SelfIndexing(file), [Field("x")] + steps, seen + {Guard(file, "A", |steps|)};
    var reference := Reference("A", false, []);
    assert Declares(world, Key(file, "A")) == Some(Alias(SELF_INDEXING));
    assert PlanType(mode, SELF_INDEXING, steps) == Descend(reference, longer);
    assert PlanType(mode, reference, longer) == ByName("A");
    assert LookupType(world, mode, fuel - 2, file, reference, longer, more) ==
           LookupName(world, mode, fuel - 3, file, "A", longer, more);
  }

  lemma SelfIndexingStarves(file: FileId, mode: Mode, fuel: nat, steps: seq<Step>, seen: set<Guard>)
    requires steps != [] && Guard(file, "A", |steps|) !in seen && fuel < 3
    ensures LookupDecl(SelfIndexing(file), mode, fuel, Key(file, "A"), Alias(SELF_INDEXING), steps, seen) == OutOfFuel
  {
    var world, longer, more := SelfIndexing(file), [Field("x")] + steps, seen + {Guard(file, "A", |steps|)};
    var reference := Reference("A", false, []);
    assert PlanType(mode, SELF_INDEXING, steps) == Descend(reference, longer);
    assert PlanType(mode, reference, longer) == ByName("A");
    if fuel == 2 {
      assert LookupType(world, mode, 0, file, reference, longer, more) == OutOfFuel;
      assert LookupType(world, mode, 1, file, SELF_INDEXING, steps, more) == OutOfFuel;
    }
  }

  /** Indexed access lengthens the step list, so a self-indexing alias is walked for ever. */
  lemma {:induction false} SelfIndexingDiverges(file: FileId, mode: Mode, fuel: nat, steps: seq<Step>, seen: set<Guard>)
    requires steps != [] && forall n | |steps| <= n :: Guard(file, "A", n) !in seen
    ensures LookupDecl(SelfIndexing(file), mode, fuel, Key(file, "A"), Alias(SELF_INDEXING), steps, seen) == OutOfFuel
  {
    if fuel < 3 {
      SelfIndexingStarves(file, mode, fuel, steps, seen);
    } else {
      SelfIndexingTurn(file, mode, fuel, steps, seen);
      SelfIndexingDiverges(file, mode, fuel - 3, [Field("x")] + steps, seen + {Guard(file, "A", |steps|)});
    }
  }

  lemma SelfIndexingIsUnbounded(file: FileId, mode: Mode, potential: Potential)
    ensures !Bounded(SelfIndexing(file), mode, potential)
  {
    var key := Key(file, "A");
    assert Declares(SelfIndexing(file), key) == Some(Alias(SELF_INDEXING));
    assert !BoundedName(SelfIndexing(file), potential, potential(key) - 1, file, "A");
    assert !BoundedType(SelfIndexing(file), potential, potential(key) - 1, file, Reference("A", false, []));
    assert !BoundedDecl(SelfIndexing(file), potential, key, Alias(SELF_INDEXING));
  }

  /** An alias that indexes itself below a member: each turn takes back the step it adds. */
  ghost function IndexedBelowMember(file: FileId): World {
    World(map[file := SourceFile([NamedDecl("A", Alias(Literal([INDEXED_MEMBER])))], map[], [])], map[])
  }

  const INDEXED_MEMBER := Property("x", Some("x"), Some(SELF_INDEXING))

  lemma IndexedBelowMemberIsBounded(file: FileId, mode: Mode)
    ensures Bounded(IndexedBelowMember(file), mode, FLAT)
  {
    var world, reference := IndexedBelowMember(file), Reference("A", false, []);
    var decls := world.files[file].decls;
    forall name
      ensures FindTypeDecl(decls, name) == if name == "A" then Some(Alias(Literal([INDEXED_MEMBER]))) else None
    {
      assert decls[1..] == [];
    }
    assert BoundedType(world, FLAT, 0, file, reference);
    assert BoundedType(world, FLAT, 1, file, SELF_INDEXING);
    assert BoundedMember(world, FLAT, 0, file, INDEXED_MEMBER);
    assert BoundedType(world, FLAT, 0, file, Literal([INDEXED_MEMBER]));
    forall key | Declares(world, key).Some?
      ensures BoundedDecl(world, FLAT, key, Read(world, mode, key, Declares(world, key).value))
    {
      assert key == Key(file, "A");
    }
  }

  /** An alias of one member of an interface that may refer back to itself. */
  ghost function IndexedInterface(file: FileId): World {
    var members := [Property("x", Some("x"), Some(Reference("I", false, [])))];
    World(map[file := SourceFile([NamedDecl("I", Interface(members, [])), NamedDecl("A", Alias(INDEX_OF_I))],
                                 map[], [])], map[])
  }

  const INDEX_OF_I := Indexed(Reference("I", false, []), Some("x"))
  const ALIAS_FIRST: Potential := (key: Key) => if key.name == "A" then 1 else 0

  /** Such a world is bounded: the indexed access is on no cycle. */
  lemma IndexedInterfaceIsBounded(file: FileId)
    ensures Bounded(IndexedInterface(file), SCRIPT, ALIAS_FIRST)
  {
    var world, reference := IndexedInterface(file), Reference("I", false, []);
    var member := Property("x", Some("x"), Some(reference));
    var decls := world.files[file].decls;
    forall name
      ensures FindTypeDecl(decls, name) == if name == "I" then Some(Interface([member], []))
                                           else if name == "A" then Some(Alias(INDEX_OF_I)) else None
    {
      var rest := [NamedDecl("A", Alias(INDEX_OF_I))];
      assert decls[1..] == rest && rest[1..] == [];
      assert FindTypeDecl(rest, name) == if name == "A" then Some(Alias(INDEX_OF_I)) else None;
    }
    assert DeclForTypeName(world, file, "I") == Resolved(file, "I", Interface([member], []));
    assert BoundedType(world, ALIAS_FIRST, 1, file, reference);
    assert BoundedMember(world, ALIAS_FIRST, 0, file, member);
    assert BoundedType(world, ALIAS_FIRST, 0, file, reference);
    assert BoundedType(world, ALIAS_FIRST, 1, file, INDEX_OF_I);
    forall key | Declares(world, key).Some?
      ensures BoundedDecl(world, ALIAS_FIRST, key, Declares(world, key).value)
    {
      assert key == Key(file, "I") || key == Key(file, "A");
    }
  }
}
