/** Where the schema-path walk of scripts/gen-config-catalog.ts leaves nothing open that the declarations decide. */
module PathPrecision {
  import opened Options
  import opened Exports
  import opened PathLookup
  import opened PathMeaning
  import opened PathTermination

  /** The repaired walk with guards of its own for every branch. */
  const PRECISE := Mode(false, true)

  /** The answer against the most and the least there can be: open exactly when they differ. */
  predicate Tight(value: Lookup, most: bool, least: bool) {
    match value
    case Found => most && least
    case Missing => !most && !least
    case Unknown => most && !least
  }

  ghost predicate TightType(world: World, file: FileId, node: TypeNode, steps: seq<Step>, value: Lookup) {
    Tight(value, HasType(world, EVERYTHING, false, file, node, steps),
          HasType(world, NOTHING, true, file, node, steps))
  }

  ghost predicate TightDecl(world: World, key: Key, decl: Decl, steps: seq<Step>, value: Lookup) {
    Tight(value, HasDecl(world, EVERYTHING, false, key, decl, steps),
          HasDecl(world, NOTHING, true, key, decl, steps))
  }

  ghost predicate TightMember(world: World, file: FileId, member: Member, steps: seq<Step>, value: Lookup) {
    Tight(value, HasMember(world, EVERYTHING, false, file, member, steps),
          HasMember(world, NOTHING, true, file, member, steps))
  }

  ghost predicate TightName(world: World, file: FileId, name: string, site: Site, steps: seq<Step>,
                            value: Lookup)
  {
    Tight(value, HasName(world, EVERYTHING, false, file, name, site, steps),
          HasName(world, NOTHING, true, file, name, site, steps))
  }

  ghost predicate TightBase(world: World, file: FileId, base: Heritage, steps: seq<Step>, value: Lookup) {
    Tight(value, HasBase(world, EVERYTHING, false, file, base, steps),
          HasBase(world, NOTHING, true, file, base, steps))
  }

  /** A number for every declaration. */
  type Rank = Key -> nat

  ghost predicate BelowName(world: World, rank: Rank, level: nat, file: FileId, name: string) {
    match DeclForTypeName(world, file, name)
    case Resolved(target, found, _) => rank(Key(target, found)) < level
    case _ => true
  }

  ghost predicate BelowType(world: World, rank: Rank, level: nat, file: FileId, node: TypeNode)
    decreases node
  {
    match node
    case Literal(members) => forall m | m in members :: BelowMember(world, rank, level, file, m)
    case Parenthesized(inner) => BelowType(world, rank, level, file, inner)
    case Readonly(inner) => BelowType(world, rank, level, file, inner)
    case Intersection(parts) => forall p | p in parts :: BelowType(world, rank, level, file, p)
    case Union(parts) => forall p | p in parts :: BelowType(world, rank, level, file, p)
    case ArrayOf(element) => BelowType(world, rank, level, file, element)
    case Indexed(target, Some(_)) => BelowType(world, rank, level, file, target)
    case Indexed(_, None) => true
    case Reference(name, qualified, arguments) =>
      if name in PASSTHROUGH_WRAPPERS + ARRAY_NAMES && arguments != [] then
        BelowType(world, rank, level, file, arguments[0])
      else qualified || BelowName(world, rank, level, file, name)
    case Opaque(_) => true
  }

  ghost predicate BelowMember(world: World, rank: Rank, level: nat, file: FileId, member: Member)
    decreases member
  {
    match member
    case Property(_, _, Some(node)) => BelowType(world, rank, level, file, node)
    case _ => true
  }

  ghost predicate BelowBase(world: World, rank: Rank, level: nat, file: FileId, base: Heritage) {
    base.Base? ==> BelowName(world, rank, level, file, base.name)
  }

  ghost predicate AcyclicInterface(world: World, rank: Rank, key: Key, members: seq<Member>,
                                   heritage: seq<Heritage>)
  {
    && (forall m | m in members :: BelowMember(world, rank, rank(key), key.file, m))
    && forall base | base in heritage :: BelowBase(world, rank, rank(key), key.file, base)
  }

  ghost predicate AcyclicDecl(world: World, rank: Rank, key: Key, decl: Decl) {
    match decl
    case Enum => true
    case Class => true
    case Alias(body) => BelowType(world, rank, rank(key), key.file, body)
    case Interface(members, heritage) => AcyclicInterface(world, rank, key, members, heritage)
  }

  /** No declaration, as the walk reads it, refers back to itself. */
  ghost predicate AcyclicFor(world: World, mode: Mode, rank: Rank) {
    forall key | Declares(world, key).Some? ::
      AcyclicDecl(world, rank, key, Read(world, mode, key, Declares(world, key).value))
  }

  /** All its blocks counted. */
  ghost predicate AcyclicWorld(world: World, rank: Rank) {
    AcyclicFor(world, PRECISE, rank)
  }

  /** No name leads to a file that fails to load. */
  ghost predicate Loads(world: World) {
    forall file, name :: !DeclForTypeName(world, file, name).Throws?
  }

  /** A walk that ends: with an answer, unless it meets a file that fails to load. */
  ghost predicate Ends<T>(world: World, walk: Walk<T>) {
    walk != OutOfFuel && (Loads(world) ==> walk != Threw)
  }

  /** On such a world every walk ends, however many steps indexed access adds: each reference is to a lower rank. */
  lemma {:induction false} TypeFinishes(world: World, rank: Rank, mode: Mode, level: nat, file: FileId,
                                        node: TypeNode, steps: seq<Step>, seen: set<Guard>)
    returns (fuel: nat)
    requires AcyclicFor(world, mode, rank) && BelowType(world, rank, level, file, node)
    ensures Ends(world, LookupType(world, mode, fuel, file, node, steps, seen))
    decreases level, 1, node
  {
    if steps == [] {
      fuel := 0;
    } else {
      match PlanType(mode, node, steps) {
        case Decided(_) => fuel := 0;
        case Descend(inner, rest) => fuel := TypeFinishes(world, rank, mode, level, file, inner, rest, seen);
        case IntoMember(member) => fuel := MemberFinishes(world, rank, mode, level, file, member, steps, seen);
        case AllParts(parts, _) => fuel := PartsFinish(world, rank, mode, level, file, parts, steps, seen);
        case ByName(name) => fuel := NameFinishes(world, rank, mode, level, file, name, steps, seen);
      }
      fuel := fuel + 1;
    }
  }

  lemma {:induction false} MemberFinishes(world: World, rank: Rank, mode: Mode, level: nat, file: FileId,
                                          member: Member, steps: seq<Step>, seen: set<Guard>)
    returns (fuel: nat)
    requires AcyclicFor(world, mode, rank) && BelowMember(world, rank, level, file, member)
    requires member.Property? && steps != []
    ensures Ends(world, LookupMember(world, mode, fuel, file, member, steps, seen))
    decreases level, 1, member
  {
    if |steps| == 1 || member.annotation.None? {
      fuel := 0;
    } else {
      fuel := TypeFinishes(world, rank, mode, level, file, member.annotation.value, steps[1..], seen);
    }
  }

  lemma {:induction false} PartsFinish(world: World, rank: Rank, mode: Mode, level: nat, file: FileId,
                                       parts: seq<TypeNode>, steps: seq<Step>, seen: set<Guard>)
    returns (fuel: nat)
    requires AcyclicFor(world, mode, rank) && forall p | p in parts :: BelowType(world, rank, level, file, p)
    ensures Ends(world, LookupParts(world, mode, fuel, file, parts, steps, seen))
    decreases level, 1, parts
  {
    fuel := 0;
    if parts == [] {
    } else {
      fuel := TypeFinishes(world, rank, mode, level, file, parts[0], steps, seen);
      match LookupType(world, mode, fuel, file, parts[0], steps, seen) {
        case Done(_, after) =>
          var next := if mode.shared then after else seen;
          var rest := PartsFinish(world, rank, mode, level, file, parts[1..], steps, next);
          PartsEndJoin(world, mode, file, parts, steps, seen, next, fuel, rest);
          fuel := fuel + rest;
        case _ =>
      }
    }
  }

  lemma PartsEndJoin(world: World, mode: Mode, file: FileId, parts: seq<TypeNode>, steps: seq<Step>,
                     seen: set<Guard>, after: set<Guard>, first: nat, rest: nat)
    requires parts != [] && LookupType(world, mode, first, file, parts[0], steps, seen).Done?
    requires after == if mode.shared then LookupType(world, mode, first, file, parts[0], steps, seen).seen else seen
    requires Ends(world, LookupParts(world, mode, rest, file, parts[1..], steps, after))
    ensures Ends(world, LookupParts(world, mode, first + rest, file, parts, steps, seen))
  {
    TypeFuel(world, mode, first, first + rest, file, parts[0], steps, seen);
    PartsFuel(world, mode, rest, first + rest, file, parts[1..], steps, after);
  }

  lemma {:induction false} NameFinishes(world: World, rank: Rank, mode: Mode, level: nat, file: FileId, name: string,
                                        steps: seq<Step>, seen: set<Guard>)
    returns (fuel: nat)
    requires AcyclicFor(world, mode, rank) && BelowName(world, rank, level, file, name)
    ensures Ends(world, LookupName(world, mode, fuel, file, name, steps, seen))
    decreases level, 0, 0
  {
    fuel := 0;
    match DeclForTypeName(world, file, name)
    case Resolved(target, found, decl) =>
      fuel := DeclFinishes(world, rank, mode, Key(target, found), decl, steps, seen);
    case Throws => assert Loads(world) ==> !DeclForTypeName(world, file, name).Throws?;
    case OutOfReach =>
  }

  /** The same at a declaration. */
  lemma {:induction false} DeclFinishes(world: World, rank: Rank, mode: Mode, key: Key, decl: Decl, steps: seq<Step>,
                                        seen: set<Guard>)
    returns (fuel: nat)
    requires AcyclicFor(world, mode, rank) && Declares(world, key) == Some(decl)
    ensures Ends(world, LookupDecl(world, mode, fuel, key, decl, steps, seen))
    decreases rank(key), 3, 0
  {
    fuel := 0;
    var guard := Guard(key.file, key.name, |steps|);
    if steps == [] || decl.Enum? || decl.Class? || guard in seen {
    } else {
      match Read(world, mode, key, decl) {
        case Alias(body) => fuel := TypeFinishes(world, rank, mode, rank(key), key.file, body, steps, seen + {guard});
        case Interface(members, heritage) =>
          fuel := InterfaceFinishes(world, rank, mode, key, members, heritage, steps, seen + {guard});
      }
      fuel := fuel + 1;
    }
  }

  lemma {:induction false} InterfaceFinishes(world: World, rank: Rank, mode: Mode, key: Key, members: seq<Member>,
                                             heritage: seq<Heritage>, steps: seq<Step>, seen: set<Guard>)
    returns (fuel: nat)
    requires AcyclicFor(world, mode, rank) && AcyclicInterface(world, rank, key, members, heritage) && steps != []
    ensures Ends(world, LookupInterface(world, mode, fuel, key.file, members, heritage, steps, seen))
    decreases rank(key), 2, 0
  {
    fuel := 0;
    if steps[0].Field? {
      match FindMember(mode, members, steps[0].name)
      case Some(member) => fuel := MemberFinishes(world, rank, mode, rank(key), key.file, member, steps, seen);
      case None => fuel := BasesFinish(world, rank, mode, rank(key), key.file, heritage, steps, seen);
    }
  }

  lemma {:induction false} BaseFinishes(world: World, rank: Rank, mode: Mode, level: nat, file: FileId,
                                        base: Heritage, steps: seq<Step>, seen: set<Guard>)
    returns (fuel: nat)
    requires AcyclicFor(world, mode, rank) && BelowBase(world, rank, level, file, base)
    ensures Ends(world, LookupBase(world, mode, fuel, file, base, steps, seen))
    decreases level, 0, 1
  {
    match base
    case Base(name) => fuel := NameFinishes(world, rank, mode, level, file, name, steps, seen);
    case ComputedBase => fuel := 0;
  }

  lemma {:induction false} BasesFinish(world: World, rank: Rank, mode: Mode, level: nat, file: FileId,
                                       heritage: seq<Heritage>, steps: seq<Step>, seen: set<Guard>)
    returns (fuel: nat)
    requires AcyclicFor(world, mode, rank)
    requires forall base | base in heritage :: BelowBase(world, rank, level, file, base)
    ensures Ends(world, LookupBases(world, mode, fuel, file, heritage, steps, seen))
    decreases level, 0, 2 + |heritage|
  {
    fuel := 0;
    if heritage == [] {
    } else {
      fuel := BaseFinishes(world, rank, mode, level, file, heritage[0], steps, seen);
      match LookupBase(world, mode, fuel, file, heritage[0], steps, seen) {
        case Done(_, after) =>
          var next := if mode.shared then after else seen;
          var rest := BasesFinish(world, rank, mode, level, file, heritage[1..], steps, next);
          BasesEndJoin(world, mode, file, heritage, steps, seen, next, fuel, rest);
          fuel := fuel + rest;
        case _ =>
      }
    }
  }

  lemma BasesEndJoin(world: World, mode: Mode, file: FileId, heritage: seq<Heritage>, steps: seq<Step>,
                     seen: set<Guard>, after: set<Guard>, first: nat, rest: nat)
    requires heritage != [] && LookupBase(world, mode, first, file, heritage[0], steps, seen).Done?
    requires after == if mode.shared then LookupBase(world, mode, first, file, heritage[0], steps, seen).seen
                      else seen
    requires Ends(world, LookupBases(world, mode, rest, file, heritage[1..], steps, after))
    ensures Ends(world, LookupBases(world, mode, first + rest, file, heritage, steps, seen))
  {
    BaseFuel(world, mode, first, first + rest, file, heritage[0], steps, seen);
    BasesFuel(world, mode, rest, first + rest, file, heritage[1..], steps, after);
  }

  /** The guards set so far belong to declarations of no lower rank. */
  ghost predicate GuardsAbove(rank: Rank, level: nat, seen: set<Guard>) {
    forall guard | guard in seen :: level <= rank(Key(guard.file, guard.name))
  }

  ghost predicate AllTight(world: World, file: FileId, parts: seq<TypeNode>, steps: seq<Step>, results: seq<Lookup>) {
    |results| == |parts| && forall i | 0 <= i < |parts| :: TightType(world, file, parts[i], steps, results[i])
  }

  lemma TightAt(world: World, file: FileId, parts: seq<TypeNode>, steps: seq<Step>, results: seq<Lookup>, i: nat)
    requires AllTight(world, file, parts, steps, results) && i < |parts|
    ensures results[i] != Missing <==> HasType(world, EVERYTHING, false, file, parts[i], steps)
    ensures results[i] == Found <==> HasType(world, NOTHING, true, file, parts[i], steps)
  {
    assert TightType(world, file, parts[i], steps, results[i]);
  }

  lemma IntersectionIsTight(world: World, file: FileId, parts: seq<TypeNode>, steps: seq<Step>,
                            results: seq<Lookup>)
    requires steps != [] && AllTight(world, file, parts, steps, results)
    ensures TightType(world, file, Intersection(parts), steps, Combine(results))
  {
    forall i | 0 <= i < |parts|
      ensures results[i] in results
      ensures results[i] != Missing <==> HasType(world, EVERYTHING, false, file, parts[i], steps)
      ensures results[i] == Found <==> HasType(world, NOTHING, true, file, parts[i], steps)
    {
      TightAt(world, file, parts, steps, results, i);
    }
  }

  lemma UnionIsTight(world: World, file: FileId, parts: seq<TypeNode>, steps: seq<Step>, results: seq<Lookup>)
    requires steps != [] && AllTight(world, file, parts, steps, results)
    ensures TightType(world, file, Union(parts), steps, CombineUnion(results))
  {
    forall i | 0 <= i < |parts|
      ensures results[i] in results
      ensures results[i] != Missing <==> HasType(world, EVERYTHING, false, file, parts[i], steps)
      ensures results[i] == Found <==> HasType(world, NOTHING, true, file, parts[i], steps)
    {
      TightAt(world, file, parts, steps, results, i);
    }
    if parts != [] { assert results[0] in results; }
  }

  lemma {:induction false} TypePrecise(world: World, rank: Rank, level: nat, fuel: nat, file: FileId,
                                       node: TypeNode, steps: seq<Step>, seen: set<Guard>)
    requires AcyclicWorld(world, rank) && GuardsAbove(rank, level, seen)
    requires BelowType(world, rank, level, file, node)
    requires LookupType(world, PRECISE, fuel, file, node, steps, seen).Done?
    ensures TightType(world, file, node, steps, LookupType(world, PRECISE, fuel, file, node, steps, seen).value)
    decreases fuel, 0, 0
  {
    if steps == [] {
    } else {
      match PlanType(PRECISE, node, steps)
      case Decided(value) =>
      case Descend(inner, rest) => TypePrecise(world, rank, level, fuel - 1, file, inner, rest, seen);
      case IntoMember(member) => MemberPrecise(world, rank, level, fuel - 1, file, member, steps, seen);
      case AllParts(parts, union) =>
        PartsPrecise(world, rank, level, fuel - 1, file, parts, steps, seen);
        var results := LookupParts(world, PRECISE, fuel - 1, file, parts, steps, seen).value;
        IntersectionIsTight(world, file, parts, steps, results);
        UnionIsTight(world, file, parts, steps, results);
      case ByName(name) =>
        NamePrecise(world, rank, level, fuel - 1, file, name, AtType(file, node), steps, seen);
    }
  }

  lemma {:induction false} MemberPrecise(world: World, rank: Rank, level: nat, fuel: nat, file: FileId,
                                         member: Member, steps: seq<Step>, seen: set<Guard>)
    requires AcyclicWorld(world, rank) && GuardsAbove(rank, level, seen)
    requires BelowMember(world, rank, level, file, member)
    requires member.Property? && steps != [] && LookupMember(world, PRECISE, fuel, file, member, steps, seen).Done?
    ensures TightMember(world, file, member, steps,
                        LookupMember(world, PRECISE, fuel, file, member, steps, seen).value)
    decreases fuel, 1, 0
  {
    if |steps| == 1 || member.annotation.None? {
    } else {
      TypePrecise(world, rank, level, fuel, file, member.annotation.value, steps[1..], seen);
    }
  }

  lemma {:induction false} PartsPrecise(world: World, rank: Rank, level: nat, fuel: nat, file: FileId,
                                        parts: seq<TypeNode>, steps: seq<Step>, seen: set<Guard>)
    requires AcyclicWorld(world, rank) && GuardsAbove(rank, level, seen)
    requires forall p | p in parts :: BelowType(world, rank, level, file, p)
    requires LookupParts(world, PRECISE, fuel, file, parts, steps, seen).Done?
    ensures AllTight(world, file, parts, steps, LookupParts(world, PRECISE, fuel, file, parts, steps, seen).value)
    decreases fuel, 1, |parts|
  {
    if parts == [] {
    } else {
      TypePrecise(world, rank, level, fuel, file, parts[0], steps, seen);
      PartsPrecise(world, rank, level, fuel, file, parts[1..], steps, seen);
    }
  }

  lemma {:induction false} NamePrecise(world: World, rank: Rank, level: nat, fuel: nat, file: FileId, name: string,
                                       site: Site, steps: seq<Step>, seen: set<Guard>)
    requires AcyclicWorld(world, rank) && GuardsAbove(rank, level, seen)
    requires BelowName(world, rank, level, file, name)
    requires LookupName(world, PRECISE, fuel, file, name, steps, seen).Done?
    ensures TightName(world, file, name, site, steps,
                      LookupName(world, PRECISE, fuel, file, name, steps, seen).value)
    decreases fuel, 3, 0
  {
    match DeclForTypeName(world, file, name)
    case Resolved(target, found, decl) => DeclPrecise(world, rank, fuel, Key(target, found), decl, steps, seen);
    case _ =>
  }

  /** A declaration below all that is guarded. */
  lemma {:induction false} DeclPrecise(world: World, rank: Rank, fuel: nat, key: Key, decl: Decl, steps: seq<Step>,
                                       seen: set<Guard>)
    requires AcyclicWorld(world, rank) && GuardsAbove(rank, rank(key) + 1, seen)
    requires Declares(world, key) == Some(decl)
    requires LookupDecl(world, PRECISE, fuel, key, decl, steps, seen).Done?
    ensures TightDecl(world, key, Merged(world, key, decl), steps,
                      LookupDecl(world, PRECISE, fuel, key, decl, steps, seen).value)
    decreases fuel, 2, 0
  {
    var guard := Guard(key.file, key.name, |steps|);
    assert guard !in seen;
    assert AcyclicDecl(world, rank, key, Merged(world, key, decl));
    if steps == [] || decl.Enum? || decl.Class? {
    } else {
      var more := seen + {guard};
      assert GuardsAbove(rank, rank(key), more);
      match Merged(world, key, decl)
      case Alias(body) => TypePrecise(world, rank, rank(key), fuel - 1, key.file, body, steps, more);
      case Interface(members, heritage) =>
        InterfacePrecise(world, rank, fuel - 1, key, members, heritage, steps, more);
    }
  }

  lemma {:induction false} InterfacePrecise(world: World, rank: Rank, fuel: nat, key: Key, members: seq<Member>,
                                            heritage: seq<Heritage>, steps: seq<Step>, seen: set<Guard>)
    requires AcyclicWorld(world, rank) && GuardsAbove(rank, rank(key), seen) && steps != []
    requires AcyclicInterface(world, rank, key, members, heritage)
    requires LookupInterface(world, PRECISE, fuel, key.file, members, heritage, steps, seen).Done?
    ensures TightDecl(world, key, Interface(members, heritage), steps,
                      LookupInterface(world, PRECISE, fuel, key.file, members, heritage, steps, seen).value)
    decreases fuel, 5, 0
  {
    if steps[0].Element? {
    } else {
      match KeyMember(members, steps[0].name)
      case Some(member) => MemberPrecise(world, rank, rank(key), fuel, key.file, member, steps, seen);
      case None =>
        BasesPrecise(world, rank, rank(key), fuel, key.file, heritage, steps, seen);
        BasesAreTight(world, key, members, heritage, steps,
                      LookupBases(world, PRECISE, fuel, key.file, heritage, steps, seen).value);
    }
  }

  lemma BasesAreTight(world: World, key: Key, members: seq<Member>, heritage: seq<Heritage>, steps: seq<Step>,
                      results: seq<Lookup>)
    requires steps != [] && steps[0].Field? && |results| == |heritage|
    requires KeyMember(members, steps[0].name).None?
    requires forall i | 0 <= i < |heritage| :: TightBase(world, key.file, heritage[i], steps, results[i])
    ensures TightDecl(world, key, Interface(members, heritage), steps,
                      Beside(PRECISE, members, steps, Combine(results)))
  {
    assert forall i | 0 <= i < |heritage| ::
             results[i] in results && TightBase(world, key.file, heritage[i], steps, results[i]);
    if Found in results {
      var i :| 0 <= i < |results| && results[i] == Found;
      assert TightBase(world, key.file, heritage[i], steps, results[i]);
    } else if Unknown in results {
      var i :| 0 <= i < |results| && results[i] == Unknown;
      assert TightBase(world, key.file, heritage[i], steps, results[i]);
    }
  }

  lemma {:induction false} BasePrecise(world: World, rank: Rank, level: nat, fuel: nat, file: FileId, base: Heritage,
                                       steps: seq<Step>, seen: set<Guard>)
    requires AcyclicWorld(world, rank) && GuardsAbove(rank, level, seen)
    requires BelowBase(world, rank, level, file, base)
    requires LookupBase(world, PRECISE, fuel, file, base, steps, seen).Done?
    ensures TightBase(world, file, base, steps, LookupBase(world, PRECISE, fuel, file, base, steps, seen).value)
    decreases fuel, 4, 0
  {
    match base
    case Base(name) => NamePrecise(world, rank, level, fuel, file, name, AtBase(file, base), steps, seen);
    case ComputedBase =>
  }

  lemma {:induction false} BasesPrecise(world: World, rank: Rank, level: nat, fuel: nat, file: FileId,
                                        heritage: seq<Heritage>, steps: seq<Step>, seen: set<Guard>)
    requires AcyclicWorld(world, rank) && GuardsAbove(rank, level, seen)
    requires forall base | base in heritage :: BelowBase(world, rank, level, file, base)
    requires LookupBases(world, PRECISE, fuel, file, heritage, steps, seen).Done?
    ensures var results := LookupBases(world, PRECISE, fuel, file, heritage, steps, seen).value;
            forall i | 0 <= i < |heritage| :: TightBase(world, file, heritage[i], steps, results[i])
    decreases fuel, 4, 1 + |heritage|
  {
    if heritage == [] {
    } else {
      BasePrecise(world, rank, level, fuel, file, heritage[0], steps, seen);
      BasesPrecise(world, rank, level, fuel, file, heritage[1..], steps, seen);
    }
  }

  ghost predicate AlwaysHas(world: World, key: Key, decl: Decl, steps: seq<Step>) {
    forall oracle: Oracle, every: bool :: HasKey(world, oracle, every, key, decl, steps)
  }

  ghost predicate NeverHas(world: World, key: Key, decl: Decl, steps: seq<Step>) {
    forall oracle: Oracle, every: bool :: !HasKey(world, oracle, every, key, decl, steps)
  }

  /**
   * Exactness. Where no declaration refers back to itself, the repaired walk with unshared guards says found
   * exactly of the paths the type has under every interpretation and reading, and missing exactly of those it has
   * under none.
   */
  lemma DeclExact(world: World, rank: Rank, fuel: nat, key: Key, decl: Decl, steps: seq<Step>)
    requires AcyclicWorld(world, rank) && Declares(world, key) == Some(decl)
    requires LookupDecl(world, PRECISE, fuel, key, decl, steps, {}).Done?
    ensures var value := LookupDecl(world, PRECISE, fuel, key, decl, steps, {}).value;
            && (value == Found <==> AlwaysHas(world, key, decl, steps))
            && (value == Missing <==> NeverHas(world, key, decl, steps))
  {
    DeclPrecise(world, rank, fuel, key, decl, steps, {});
    assert TightDecl(world, key, Merged(world, key, decl), steps,
                     LookupDecl(world, PRECISE, fuel, key, decl, steps, {}).value);
    forall oracle: Oracle, every: bool
      ensures Sound(LookupDecl(world, PRECISE, fuel, key, decl, steps, {}).value,
                    HasKey(world, oracle, every, key, decl, steps))
    {
      DeclSound(world, oracle, every, PRECISE, fuel, key, decl, steps, {});
    }
    assert HasKey(world, EVERYTHING, false, key, decl, steps)
           == HasDecl(world, EVERYTHING, false, key, Merged(world, key, decl), steps);
    assert HasKey(world, NOTHING, true, key, decl, steps)
           == HasDecl(world, NOTHING, true, key, Merged(world, key, decl), steps);
  }

  /**
   * On every world without such cycles that walk ends, with an answer unless a file fails to load, and the script's
   * answer is right exactly when it leaves the path open or is that walk's.
   */
  lemma ScriptRightIff(world: World, rank: Rank, fuel: nat, key: Key, decl: Decl, steps: seq<Step>)
    returns (more: nat)
    requires AcyclicWorld(world, rank) && Declares(world, key) == Some(decl)
    requires LookupDecl(world, SCRIPT, fuel, key, decl, steps, {}).Done?
    ensures Ends(world, LookupDecl(world, PRECISE, more, key, decl, steps, {}))
    ensures var script := LookupDecl(world, SCRIPT, fuel, key, decl, steps, {}).value;
            var precise := LookupDecl(world, PRECISE, more, key, decl, steps, {});
            precise.Done? ==>
              (RightAtKey(world, key, decl, steps, script) <==> script == Unknown || script == precise.value)
  {
    var script := LookupDecl(world, SCRIPT, fuel, key, decl, steps, {}).value;
    more := DeclFinishes(world, rank, PRECISE, key, decl, steps, {});
    if LookupDecl(world, PRECISE, more, key, decl, steps, {}).Done? {
      DeclExact(world, rank, more, key, decl, steps);
      assert RightAtKey(world, key, decl, steps, script) && script == Found ==> AlwaysHas(world, key, decl, steps);
      assert RightAtKey(world, key, decl, steps, script) && script == Missing ==> NeverHas(world, key, decl, steps);
    }
  }

  lemma ListedReadsAlike(world: World, rank: Rank)
    requires AcyclicWorld(world, rank) && TidyWorld(Listed, world)
    ensures AcyclicFor(world, SPLIT, rank)
  {
    forall key | Declares(world, key).Some?
      ensures AcyclicDecl(world, rank, key, Read(world, SPLIT, key, Declares(world, key).value))
    {
      var decl := Declares(world, key).value;
      assert AcyclicDecl(world, rank, key, Read(world, PRECISE, key, decl));
      assert Merged(world, key, decl) == decl;
    }
  }

  /**
   * For the script itself, when all members are property signatures written as their keys and declared once: with
   * unshared guards it ends and is exact, and sharing them can only leave open what it would have decided.
   */
  lemma ScriptExact(world: World, rank: Rank, fuel: nat, key: Key, decl: Decl, steps: seq<Step>)
    returns (more: nat)
    requires AcyclicWorld(world, rank) && TidyWorld(Listed, world) && Declares(world, key) == Some(decl)
    ensures Ends(world, LookupDecl(world, SPLIT, more, key, decl, steps, {}))
    ensures var split := LookupDecl(world, SPLIT, more, key, decl, steps, {});
            split.Done? ==>
              && (split.value == Found <==> AlwaysHas(world, key, decl, steps))
              && (split.value == Missing <==> NeverHas(world, key, decl, steps))
    ensures var split := LookupDecl(world, SPLIT, more, key, decl, steps, {});
            var script := LookupDecl(world, SCRIPT, fuel, key, decl, steps, {});
            split.Done? && script.Done? ==> script.value == split.value || script.value == Unknown
  {
    ListedReadsAlike(world, rank);
    more := DeclFinishes(world, rank, SPLIT, key, decl, steps, {});
    if LookupDecl(world, SPLIT, more, key, decl, steps, {}).Done? {
      DeclHedges(Listed, world, PRECISE, more, key, decl, steps, {});
      DeclExact(world, rank, more, key, decl, steps);
      if LookupDecl(world, SCRIPT, fuel, key, decl, steps, {}).Done? {
        var both := fuel + more;
        DeclFuel(world, SCRIPT, fuel, both, key, decl, steps, {});
        DeclFuel(world, SPLIT, more, both, key, decl, steps, {});
        DeclSharing(world, both, key, decl, steps, {}, {});
      }
    }
  }
}
