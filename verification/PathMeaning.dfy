/** What a declared type has, and how far the schema-path walk tells the truth about it. */
module PathMeaning {
  import opened Options
  import opened Exports
  import opened PathLookup

  /** A place whose members the syntax does not determine. */
  datatype Site =
    | AtType(file: FileId, node: TypeNode)
    | AtDecl(key: Key)
    | AtMember(file: FileId, member: Member)
    | AtMembers(file: FileId, members: seq<Member>)
    | AtBase(file: FileId, base: Heritage)

  /** An arbitrary truth about every such place. */
  type Oracle = (Site, seq<Step>) -> bool

  /**
   * The declared type has a member at the path. This is the least fixpoint over the declarations: all
   * interface blocks of a name count as one, own members shadow heritage, open members may stand for any
   * path no property signature answers, an intersection has what some part has, and a union has what every
   * branch has, or, with `every` off, what some branch has.
   */
  least predicate HasType(world: World, oracle: Oracle, every: bool, file: FileId, node: TypeNode,
                          steps: seq<Step>)
  {
    steps == [] ||
    match node
    case Literal(members) =>
      if steps[0].Element? then oracle(AtType(file, node), steps)
      else
        (match KeyMember(members, steps[0].name)
         case Some(member) => HasMember(world, oracle, every, file, member, steps)
         case None => MayHold(oracle, file, members, steps))
    case Parenthesized(inner) => HasType(world, oracle, every, file, inner, steps)
    case Readonly(inner) => HasType(world, oracle, every, file, inner, steps)
    case Intersection(parts) =>
      exists i | 0 <= i < |parts| :: HasType(world, oracle, every, file, parts[i], steps)
    case Union(parts) =>
      if every then forall i | 0 <= i < |parts| :: HasType(world, oracle, every, file, parts[i], steps)
      else parts == [] || exists i | 0 <= i < |parts| :: HasType(world, oracle, every, file, parts[i], steps)
    case ArrayOf(element) =>
      if steps[0].Element? then HasType(world, oracle, every, file, element, steps[1..])
      else oracle(AtType(file, node), steps)
    case Indexed(target, Some(name)) => HasType(world, oracle, every, file, target, [Field(name)] + steps)
    case Indexed(_, None) => oracle(AtType(file, node), steps)
    case Reference(name, qualified, arguments) =>
      if name in PASSTHROUGH_WRAPPERS && arguments != [] then
        HasType(world, oracle, every, file, arguments[0], steps)
      else if name in ARRAY_NAMES && arguments != [] then
        if steps[0].Element? then HasType(world, oracle, every, file, arguments[0], steps[1..])
        else oracle(AtType(file, node), steps)
      else if qualified then oracle(AtType(file, node), steps)
      else HasName(world, oracle, every, file, name, AtType(file, node), steps)
    case Opaque(_) => oracle(AtType(file, node), steps)
  }

  /** A method of the list has the key, or an open member of it answers to the path. */
  ghost predicate MayHold(oracle: Oracle, file: FileId, members: seq<Member>, steps: seq<Step>)
    requires steps != [] && steps[0].Field?
  {
    var named := NamesMethod(members, steps[0].name);
    (named && |steps| == 1) || ((named || HasOpen(members)) && oracle(AtMembers(file, members), steps))
  }

  least predicate HasMember(world: World, oracle: Oracle, every: bool, file: FileId, member: Member,
                            steps: seq<Step>)
  {
    |steps| <= 1 ||
    match member
    case Property(_, _, Some(node)) => HasType(world, oracle, every, file, node, steps[1..])
    case _ => oracle(AtMember(file, member), steps)
  }

  least predicate HasName(world: World, oracle: Oracle, every: bool, file: FileId, name: string, site: Site,
                          steps: seq<Step>)
  {
    match DeclForTypeName(world, file, name)
    case Resolved(target, found, decl) =>
      HasDecl(world, oracle, every, Key(target, found), Merged(world, Key(target, found), decl), steps)
    case _ => oracle(site, steps)
  }

  least predicate HasDecl(world: World, oracle: Oracle, every: bool, key: Key, decl: Decl, steps: seq<Step>) {
    steps == [] ||
    match decl
    case Enum => oracle(AtDecl(key), steps)
    case Class => oracle(AtDecl(key), steps)
    case Alias(body) => HasType(world, oracle, every, key.file, body, steps)
    case Interface(members, heritage) =>
      if steps[0].Element? then oracle(AtDecl(key), steps)
      else
        match KeyMember(members, steps[0].name)
        case Some(member) => HasMember(world, oracle, every, key.file, member, steps)
        case None =>
          || MayHold(oracle, key.file, members, steps)
          || exists i | 0 <= i < |heritage| :: HasBase(world, oracle, every, key.file, heritage[i], steps)
  }

  least predicate HasBase(world: World, oracle: Oracle, every: bool, file: FileId, base: Heritage,
                          steps: seq<Step>)
  {
    match base
    case Base(name) => HasName(world, oracle, every, file, name, AtBase(file, base), steps)
    case ComputedBase => oracle(AtBase(file, base), steps)
  }

  /** The declared type behind a key. */
  ghost predicate HasKey(world: World, oracle: Oracle, every: bool, key: Key, decl: Decl, steps: seq<Step>) {
    HasDecl(world, oracle, every, key, Merged(world, key, decl), steps)
  }

  /** A definite answer tells the truth. */
  predicate Sound(value: Lookup, has: bool) {
    match value
    case Found => has
    case Missing => !has
    case Unknown => true
  }

  lemma PartsCombineSoundly(world: World, oracle: Oracle, every: bool, file: FileId, parts: seq<TypeNode>,
                            steps: seq<Step>, results: seq<Lookup>)
    requires steps != [] && |results| == |parts|
    requires forall i | 0 <= i < |parts| :: Sound(results[i], HasType(world, oracle, every, file, parts[i], steps))
    ensures Sound(Combine(results), HasType(world, oracle, every, file, Intersection(parts), steps))
    ensures Sound(CombineUnion(results), HasType(world, oracle, every, file, Union(parts), steps))
  {
    assert forall i | 0 <= i < |results| :: results[i] in results;
    if Found in results {
      var i :| 0 <= i < |results| && results[i] == Found;
      assert HasType(world, oracle, every, file, parts[i], steps);
    }
    if parts != [] { assert Sound(results[0], HasType(world, oracle, every, file, parts[0], steps)); }
  }

  /**
   * The repaired walk tells the truth on every world, for every interpretation of what it cannot see: it says
   * found only for a path the type has and missing only for one it lacks.
   */
  lemma {:induction false} TypeSound(world: World, oracle: Oracle, every: bool, mode: Mode, fuel: nat,
                                     file: FileId, node: TypeNode, steps: seq<Step>, seen: set<Guard>)
    requires mode.repaired && LookupType(world, mode, fuel, file, node, steps, seen).Done?
    ensures Sound(LookupType(world, mode, fuel, file, node, steps, seen).value,
                  HasType(world, oracle, every, file, node, steps))
    decreases fuel, 0, 0
  {
    if steps == [] {
    } else {
      match PlanType(mode, node, steps)
      case Decided(value) =>
      case Descend(inner, rest) => TypeSound(world, oracle, every, mode, fuel - 1, file, inner, rest, seen);
      case IntoMember(member) => MemberSound(world, oracle, every, mode, fuel - 1, file, member, steps, seen);
      case AllParts(parts, union) =>
        PartsSound(world, oracle, every, mode, fuel - 1, file, parts, steps, seen);
        PartsCombineSoundly(world, oracle, every, file, parts, steps,
                            LookupParts(world, mode, fuel - 1, file, parts, steps, seen).value);
      case ByName(name) =>
        NameSound(world, oracle, every, mode, fuel - 1, file, name, AtType(file, node), steps, seen);
    }
  }

  lemma {:induction false} MemberSound(world: World, oracle: Oracle, every: bool, mode: Mode, fuel: nat,
                                       file: FileId, member: Member, steps: seq<Step>, seen: set<Guard>)
    requires member.Property? && steps != []
    requires mode.repaired && LookupMember(world, mode, fuel, file, member, steps, seen).Done?
    ensures Sound(LookupMember(world, mode, fuel, file, member, steps, seen).value,
                  HasMember(world, oracle, every, file, member, steps))
    decreases fuel, 1, 0
  {
    if |steps| == 1 || member.annotation.None? {
    } else {
      TypeSound(world, oracle, every, mode, fuel, file, member.annotation.value, steps[1..], seen);
    }
  }

  lemma {:induction false} PartsSound(world: World, oracle: Oracle, every: bool, mode: Mode, fuel: nat,
                                      file: FileId, parts: seq<TypeNode>, steps: seq<Step>, seen: set<Guard>)
    requires mode.repaired && LookupParts(world, mode, fuel, file, parts, steps, seen).Done?
    ensures var results := LookupParts(world, mode, fuel, file, parts, steps, seen).value;
            forall i | 0 <= i < |parts| :: Sound(results[i], HasType(world, oracle, every, file, parts[i], steps))
    decreases fuel, 1, |parts|
  {
    if parts == [] {
    } else {
      TypeSound(world, oracle, every, mode, fuel, file, parts[0], steps, seen);
      var after := LookupType(world, mode, fuel, file, parts[0], steps, seen).seen;
      PartsSound(world, oracle, every, mode, fuel, file, parts[1..], steps, if mode.shared then after else seen);
    }
  }

  lemma {:induction false} NameSound(world: World, oracle: Oracle, every: bool, mode: Mode, fuel: nat,
                                     file: FileId, name: string, site: Site, steps: seq<Step>, seen: set<Guard>)
    requires mode.repaired && LookupName(world, mode, fuel, file, name, steps, seen).Done?
    ensures Sound(LookupName(world, mode, fuel, file, name, steps, seen).value,
                  HasName(world, oracle, every, file, name, site, steps))
    decreases fuel, 3, 0
  {
    match DeclForTypeName(world, file, name)
    case Resolved(target, found, decl) =>
      DeclSound(world, oracle, every, mode, fuel, Key(target, found), decl, steps, seen);
    case _ =>
  }

  /** The same at a declaration. */
  lemma {:induction false} DeclSound(world: World, oracle: Oracle, every: bool, mode: Mode, fuel: nat, key: Key,
                                     decl: Decl, steps: seq<Step>, seen: set<Guard>)
    requires mode.repaired && LookupDecl(world, mode, fuel, key, decl, steps, seen).Done?
    ensures Sound(LookupDecl(world, mode, fuel, key, decl, steps, seen).value,
                  HasKey(world, oracle, every, key, decl, steps))
    decreases fuel, 2, 0
  {
    var guard := Guard(key.file, key.name, |steps|);
    if steps == [] || decl.Enum? || decl.Class? || guard in seen {
    } else {
      match Merged(world, key, decl)
      case Alias(body) => TypeSound(world, oracle, every, mode, fuel - 1, key.file, body, steps, seen + {guard});
      case Interface(members, heritage) =>
        InterfaceSound(world, oracle, every, mode, fuel - 1, key, members, heritage, steps, seen + {guard});
    }
  }

  lemma {:induction false} InterfaceSound(world: World, oracle: Oracle, every: bool, mode: Mode, fuel: nat,
                                          key: Key, members: seq<Member>, heritage: seq<Heritage>,
                                          steps: seq<Step>, seen: set<Guard>)
    requires steps != [] && mode.repaired
    requires LookupInterface(world, mode, fuel, key.file, members, heritage, steps, seen).Done?
    ensures Sound(LookupInterface(world, mode, fuel, key.file, members, heritage, steps, seen).value,
                  HasDecl(world, oracle, every, key, Interface(members, heritage), steps))
    decreases fuel, 5, 0
  {
    if steps[0].Element? {
    } else {
      match KeyMember(members, steps[0].name)
      case Some(member) => MemberSound(world, oracle, every, mode, fuel, key.file, member, steps, seen);
      case None =>
        BasesSound(world, oracle, every, mode, fuel, key.file, heritage, steps, seen);
        BasesCombineSoundly(world, oracle, every, mode, key, members, heritage, steps,
                            LookupBases(world, mode, fuel, key.file, heritage, steps, seen).value);
    }
  }

  lemma BasesCombineSoundly(world: World, oracle: Oracle, every: bool, mode: Mode, key: Key,
                            members: seq<Member>, heritage: seq<Heritage>, steps: seq<Step>,
                            results: seq<Lookup>)
    requires mode.repaired && steps != [] && steps[0].Field? && |results| == |heritage|
    requires KeyMember(members, steps[0].name).None?
    requires forall i | 0 <= i < |heritage| ::
               Sound(results[i], HasBase(world, oracle, every, key.file, heritage[i], steps))
    ensures Sound(Beside(mode, members, steps, Combine(results)),
                  HasDecl(world, oracle, every, key, Interface(members, heritage), steps))
  {
    assert forall i | 0 <= i < |results| :: results[i] in results;
    if Found in results {
      var i :| 0 <= i < |results| && results[i] == Found;
      assert HasBase(world, oracle, every, key.file, heritage[i], steps);
    }
  }

  lemma {:induction false} BaseSound(world: World, oracle: Oracle, every: bool, mode: Mode, fuel: nat,
                                     file: FileId, base: Heritage, steps: seq<Step>, seen: set<Guard>)
    requires mode.repaired && LookupBase(world, mode, fuel, file, base, steps, seen).Done?
    ensures Sound(LookupBase(world, mode, fuel, file, base, steps, seen).value,
                  HasBase(world, oracle, every, file, base, steps))
    decreases fuel, 4, 0
  {
    match base
    case Base(name) => NameSound(world, oracle, every, mode, fuel, file, name, AtBase(file, base), steps, seen);
    case ComputedBase =>
  }

  lemma {:induction false} BasesSound(world: World, oracle: Oracle, every: bool, mode: Mode, fuel: nat,
                                      file: FileId, heritage: seq<Heritage>, steps: seq<Step>, seen: set<Guard>)
    requires mode.repaired && LookupBases(world, mode, fuel, file, heritage, steps, seen).Done?
    ensures var results := LookupBases(world, mode, fuel, file, heritage, steps, seen).value;
            forall i | 0 <= i < |heritage| ::
              Sound(results[i], HasBase(world, oracle, every, file, heritage[i], steps))
    decreases fuel, 4, 1 + |heritage|
  {
    if heritage == [] {
    } else {
      BaseSound(world, oracle, every, mode, fuel, file, heritage[0], steps, seen);
      var after := LookupBase(world, mode, fuel, file, heritage[0], steps, seen).seen;
      BasesSound(world, oracle, every, mode, fuel, file, heritage[1..], steps,
                 if mode.shared then after else seen);
    }
  }

  /**
   * What is known of the member lists: that property signatures are written the way their keys read, without
   * quotes or computed names, and every name has one declaration; or also that there are no members but property
   * signatures.
   */
  datatype Tidy = Plain | Listed

  predicate TidilyNamed(tidy: Tidy, member: Member) {
    match member
    case Property(written, key, _) => key == Some(written)
    case Signature => true
    case _ => tidy.Plain?
  }

  predicate TidyMembers(tidy: Tidy, members: seq<Member>) {
    forall member | member in members :: TidilyNamed(tidy, member)
  }

  ghost predicate TidyType(tidy: Tidy, node: TypeNode) {
    match node
    case Literal(members) => TidyMembers(tidy, members) && forall m | m in members :: TidyMember(tidy, m)
    case Parenthesized(inner) => TidyType(tidy, inner)
    case Readonly(inner) => TidyType(tidy, inner)
    case Intersection(parts) => forall p | p in parts :: TidyType(tidy, p)
    case Union(parts) => forall p | p in parts :: TidyType(tidy, p)
    case ArrayOf(element) => TidyType(tidy, element)
    case Indexed(target, _) => TidyType(tidy, target)
    case Reference(_, _, arguments) => forall a | a in arguments :: TidyType(tidy, a)
    case Opaque(_) => true
  }

  ghost predicate TidyMember(tidy: Tidy, member: Member) {
    match member
    case Property(_, _, Some(node)) => TidyType(tidy, node)
    case _ => true
  }

  ghost predicate TidyInterface(tidy: Tidy, members: seq<Member>) {
    TidyMembers(tidy, members) && forall m | m in members :: TidyMember(tidy, m)
  }

  ghost predicate TidyDecl(tidy: Tidy, decl: Decl) {
    match decl
    case Enum => true
    case Class => true
    case Alias(body) => TidyType(tidy, body)
    case Interface(members, _) => TidyInterface(tidy, members)
  }

  ghost predicate TidyWorld(tidy: Tidy, world: World) {
    forall key | Declares(world, key).Some? ::
      var decl := Declares(world, key).value;
      TidyDecl(tidy, decl) && Merged(world, key, decl) == decl
  }

  lemma {:induction false} TidyNamesAgree(tidy: Tidy, members: seq<Member>, name: string)
    requires TidyMembers(tidy, members)
    ensures OwnMember(members, name) == KeyMember(members, name)
    ensures tidy.Listed? ==> !HasOpen(members) && !NamesMethod(members, name)
  {
    if members == [] {
    } else {
      assert members[0] in members;
      TidyNamesAgree(tidy, members[1..], name);
      assert members == [members[0]] + members[1..];
    }
  }

  /** The interpretation under which everything the syntax leaves open is there. */
  const EVERYTHING: Oracle := (site, steps) => true

  /** What the repair may do to a definite answer: take back a `missing` that some interpretation refutes. */
  predicate Hedges(tidy: Tidy, script: Lookup, repaired: Lookup, has: bool) {
    match tidy
    case Plain => script == repaired || script.Unknown? || (script.Missing? && has)
    case Listed => script == repaired
  }

  predicate SameWalk<T(==)>(script: Walk<T>, repaired: Walk<T>) {
    if script.Done? then repaired.Done? && script.seen == repaired.seen else script == repaired
  }

  function Script(repaired: Mode): Mode {
    repaired.(repaired := false)
  }

  lemma PartsCombineHedges(tidy: Tidy, world: World, file: FileId, parts: seq<TypeNode>, steps: seq<Step>,
                           script: seq<Lookup>, repaired: seq<Lookup>)
    requires steps != [] && PartsHedged(tidy, world, file, parts, steps, script, repaired)
    ensures Hedges(tidy, Combine(script), Combine(repaired),
                   HasType(world, EVERYTHING, false, file, Intersection(parts), steps))
    ensures Hedges(tidy, CombineUnion(script), CombineUnion(repaired),
                   HasType(world, EVERYTHING, false, file, Union(parts), steps))
  {
    assert forall i | 0 <= i < |parts| :: script[i] in script && repaired[i] in repaired;
    if i :| 0 <= i < |parts| && script[i] != repaired[i] {
      assert Hedges(tidy, script[i], repaired[i], HasType(world, EVERYTHING, false, file, parts[i], steps));
    } else {
      assert script == repaired;
    }
  }

  /**
   * Between plain member lists the repair never redirects the walk: of definite answers it only takes back a
   * `missing`, and only one that some interpretation refutes.
   */
  lemma {:induction false} TypeHedges(tidy: Tidy, world: World, mode: Mode, fuel: nat, file: FileId,
                                      node: TypeNode, steps: seq<Step>, seen: set<Guard>)
    requires mode.repaired && TidyWorld(tidy, world) && TidyType(tidy, node)
    ensures var script := LookupType(world, Script(mode), fuel, file, node, steps, seen);
            var repaired := LookupType(world, mode, fuel, file, node, steps, seen);
            && SameWalk(script, repaired)
            && (script.Done? ==> Hedges(tidy, script.value, repaired.value,
                                        HasType(world, EVERYTHING, false, file, node, steps)))
    decreases fuel, 0, 0
  {
    if steps == [] || fuel == 0 {
    } else {
      if node.Literal? && steps[0].Field? { TidyNamesAgree(tidy, node.members, steps[0].name); }
      match PlanType(mode, node, steps)
      case Decided(value) =>
      case Descend(inner, rest) => TypeHedges(tidy, world, mode, fuel - 1, file, inner, rest, seen);
      case IntoMember(member) => MemberHedges(tidy, world, mode, fuel - 1, file, member, steps, seen);
      case AllParts(parts, union) =>
        PartsHedge(tidy, world, mode, fuel - 1, file, parts, steps, seen);
        var script := LookupParts(world, Script(mode), fuel - 1, file, parts, steps, seen);
        var repaired := LookupParts(world, mode, fuel - 1, file, parts, steps, seen);
        if script.Done? { PartsCombineHedges(tidy, world, file, parts, steps, script.value, repaired.value); }
      case ByName(name) =>
        NameHedges(tidy, world, mode, fuel - 1, file, name, AtType(file, node), steps, seen);
    }
  }

  lemma {:induction false} MemberHedges(tidy: Tidy, world: World, mode: Mode, fuel: nat, file: FileId,
                                        member: Member, steps: seq<Step>, seen: set<Guard>)
    requires member.Property? && steps != []
    requires mode.repaired && TidyWorld(tidy, world) && TidyMember(tidy, member)
    ensures var script := LookupMember(world, Script(mode), fuel, file, member, steps, seen);
            var repaired := LookupMember(world, mode, fuel, file, member, steps, seen);
            && SameWalk(script, repaired)
            && (script.Done? ==> Hedges(tidy, script.value, repaired.value,
                                        HasMember(world, EVERYTHING, false, file, member, steps)))
    decreases fuel, 1, 0
  {
    if |steps| == 1 || member.annotation.None? {
    } else {
      TypeHedges(tidy, world, mode, fuel, file, member.annotation.value, steps[1..], seen);
    }
  }

  ghost predicate PartsHedged(tidy: Tidy, world: World, file: FileId, parts: seq<TypeNode>, steps: seq<Step>,
                              script: seq<Lookup>, repaired: seq<Lookup>)
  {
    && |script| == |repaired| == |parts|
    && forall i | 0 <= i < |parts| ::
         Hedges(tidy, script[i], repaired[i], HasType(world, EVERYTHING, false, file, parts[i], steps))
  }

  lemma PartsHedgedCons(tidy: Tidy, world: World, file: FileId, parts: seq<TypeNode>, steps: seq<Step>,
                        first: Lookup, script: seq<Lookup>, other: Lookup, repaired: seq<Lookup>)
    requires parts != [] && PartsHedged(tidy, world, file, parts[1..], steps, script, repaired)
    requires Hedges(tidy, first, other, HasType(world, EVERYTHING, false, file, parts[0], steps))
    ensures PartsHedged(tidy, world, file, parts, steps, [first] + script, [other] + repaired)
  {
  }

  lemma {:induction false} PartsHedge(tidy: Tidy, world: World, mode: Mode, fuel: nat, file: FileId,
                                      parts: seq<TypeNode>, steps: seq<Step>, seen: set<Guard>)
    requires mode.repaired && TidyWorld(tidy, world) && forall p | p in parts :: TidyType(tidy, p)
    ensures var script := LookupParts(world, Script(mode), fuel, file, parts, steps, seen);
            var repaired := LookupParts(world, mode, fuel, file, parts, steps, seen);
            && SameWalk(script, repaired)
            && (script.Done? ==> PartsHedged(tidy, world, file, parts, steps, script.value, repaired.value))
    decreases fuel, 1, |parts|
  {
    if parts == [] {
    } else {
      TypeHedges(tidy, world, mode, fuel, file, parts[0], steps, seen);
      var first := LookupType(world, mode, fuel, file, parts[0], steps, seen);
      if first.Done? {
        var next := if mode.shared then first.seen else seen;
        PartsHedge(tidy, world, mode, fuel, file, parts[1..], steps, next);
        var script := LookupParts(world, Script(mode), fuel, file, parts[1..], steps, next);
        var repaired := LookupParts(world, mode, fuel, file, parts[1..], steps, next);
        if script.Done? {
          PartsHedgedCons(tidy, world, file, parts, steps,
                          LookupType(world, Script(mode), fuel, file, parts[0], steps, seen).value, script.value,
                          first.value, repaired.value);
        }
      }
    }
  }

  lemma {:induction false} NameHedges(tidy: Tidy, world: World, mode: Mode, fuel: nat, file: FileId,
                                      name: string, site: Site, steps: seq<Step>, seen: set<Guard>)
    requires mode.repaired && TidyWorld(tidy, world)
    ensures var script := LookupName(world, Script(mode), fuel, file, name, steps, seen);
            var repaired := LookupName(world, mode, fuel, file, name, steps, seen);
            && SameWalk(script, repaired)
            && (script.Done? ==> Hedges(tidy, script.value, repaired.value,
                                        HasName(world, EVERYTHING, false, file, name, site, steps)))
    decreases fuel, 3, 0
  {
    match DeclForTypeName(world, file, name)
    case Resolved(target, found, decl) =>
      DeclHedges(tidy, world, mode, fuel, Key(target, found), decl, steps, seen);
    case _ =>
  }

  lemma {:induction false} DeclHedges(tidy: Tidy, world: World, mode: Mode, fuel: nat, key: Key, decl: Decl,
                                      steps: seq<Step>, seen: set<Guard>)
    requires mode.repaired && Declares(world, key) == Some(decl) && TidyWorld(tidy, world)
    ensures var script := LookupDecl(world, Script(mode), fuel, key, decl, steps, seen);
            var repaired := LookupDecl(world, mode, fuel, key, decl, steps, seen);
            && SameWalk(script, repaired)
            && (script.Done? ==> Hedges(tidy, script.value, repaired.value,
                                        HasKey(world, EVERYTHING, false, key, decl, steps)))
    decreases fuel, 2, 0
  {
    var guard := Guard(key.file, key.name, |steps|);
    if steps == [] || decl.Enum? || decl.Class? || guard in seen || fuel == 0 {
    } else {
      match decl
      case Alias(body) => TypeHedges(tidy, world, mode, fuel - 1, key.file, body, steps, seen + {guard});
      case Interface(members, heritage) =>
        InterfaceHedges(tidy, world, mode, fuel - 1, key, members, heritage, steps, seen + {guard});
    }
  }

  lemma {:induction false} InterfaceHedges(tidy: Tidy, world: World, mode: Mode, fuel: nat, key: Key,
                                           members: seq<Member>, heritage: seq<Heritage>, steps: seq<Step>,
                                           seen: set<Guard>)
    requires steps != [] && mode.repaired
    requires TidyWorld(tidy, world) && TidyInterface(tidy, members)
    ensures var script := LookupInterface(world, Script(mode), fuel, key.file, members, heritage, steps, seen);
            var repaired := LookupInterface(world, mode, fuel, key.file, members, heritage, steps, seen);
            && SameWalk(script, repaired)
            && (script.Done? ==>
                  Hedges(tidy, script.value, repaired.value,
                         HasDecl(world, EVERYTHING, false, key, Interface(members, heritage), steps)))
    decreases fuel, 5, 0
  {
    if steps[0].Element? {
    } else {
      TidyNamesAgree(tidy, members, steps[0].name);
      match OwnMember(members, steps[0].name)
      case Some(member) => MemberHedges(tidy, world, mode, fuel, key.file, member, steps, seen);
      case None =>
        BasesHedge(tidy, world, mode, fuel, key.file, heritage, steps, seen);
        var script := LookupBases(world, Script(mode), fuel, key.file, heritage, steps, seen);
        var repaired := LookupBases(world, mode, fuel, key.file, heritage, steps, seen);
        if script.Done? {
          BasesCombineHedge(tidy, world, mode, key, members, heritage, steps, script.value, repaired.value);
        }
    }
  }

  lemma BasesCombineHedge(tidy: Tidy, world: World, mode: Mode, key: Key, members: seq<Member>,
                          heritage: seq<Heritage>, steps: seq<Step>, script: seq<Lookup>, repaired: seq<Lookup>)
    requires mode.repaired && steps != [] && steps[0].Field?
    requires KeyMember(members, steps[0].name).None?
    requires tidy.Listed? ==> !HasOpen(members) && !NamesMethod(members, steps[0].name)
    requires BasesHedged(tidy, world, key.file, heritage, steps, script, repaired)
    ensures Hedges(tidy, Combine(script), Beside(mode, members, steps, Combine(repaired)),
                   HasDecl(world, EVERYTHING, false, key, Interface(members, heritage), steps))
  {
    assert forall i | 0 <= i < |heritage| :: script[i] in script && repaired[i] in repaired;
    if i :| 0 <= i < |heritage| && script[i] != repaired[i] {
      assert Hedges(tidy, script[i], repaired[i],
                    HasBase(world, EVERYTHING, false, key.file, heritage[i], steps));
    } else {
      assert script == repaired;
    }
  }

  lemma {:induction false} BaseHedges(tidy: Tidy, world: World, mode: Mode, fuel: nat, file: FileId,
                                      base: Heritage, steps: seq<Step>, seen: set<Guard>)
    requires mode.repaired && TidyWorld(tidy, world)
    ensures var script := LookupBase(world, Script(mode), fuel, file, base, steps, seen);
            var repaired := LookupBase(world, mode, fuel, file, base, steps, seen);
            && SameWalk(script, repaired)
            && (script.Done? ==> Hedges(tidy, script.value, repaired.value,
                                        HasBase(world, EVERYTHING, false, file, base, steps)))
    decreases fuel, 4, 0
  {
    match base
    case Base(name) => NameHedges(tidy, world, mode, fuel, file, name, AtBase(file, base), steps, seen);
    case ComputedBase =>
  }

  ghost predicate BasesHedged(tidy: Tidy, world: World, file: FileId, heritage: seq<Heritage>, steps: seq<Step>,
                              script: seq<Lookup>, repaired: seq<Lookup>)
  {
    && |script| == |repaired| == |heritage|
    && forall i | 0 <= i < |heritage| ::
         Hedges(tidy, script[i], repaired[i], HasBase(world, EVERYTHING, false, file, heritage[i], steps))
  }

  lemma BasesHedgedCons(tidy: Tidy, world: World, file: FileId, heritage: seq<Heritage>, steps: seq<Step>,
                        first: Lookup, script: seq<Lookup>, other: Lookup, repaired: seq<Lookup>)
    requires heritage != [] && BasesHedged(tidy, world, file, heritage[1..], steps, script, repaired)
    requires Hedges(tidy, first, other, HasBase(world, EVERYTHING, false, file, heritage[0], steps))
    ensures BasesHedged(tidy, world, file, heritage, steps, [first] + script, [other] + repaired)
  {
  }

  lemma {:induction false} BasesHedge(tidy: Tidy, world: World, mode: Mode, fuel: nat, file: FileId,
                                      heritage: seq<Heritage>, steps: seq<Step>, seen: set<Guard>)
    requires mode.repaired && TidyWorld(tidy, world)
    ensures var script := LookupBases(world, Script(mode), fuel, file, heritage, steps, seen);
            var repaired := LookupBases(world, mode, fuel, file, heritage, steps, seen);
            && SameWalk(script, repaired)
            && (script.Done? ==> BasesHedged(tidy, world, file, heritage, steps, script.value, repaired.value))
    decreases fuel, 4, 1 + |heritage|
  {
    if heritage == [] {
    } else {
      BaseHedges(tidy, world, mode, fuel, file, heritage[0], steps, seen);
      var first := LookupBase(world, mode, fuel, file, heritage[0], steps, seen);
      if first.Done? {
        var next := if mode.shared then first.seen else seen;
        BasesHedge(tidy, world, mode, fuel, file, heritage[1..], steps, next);
        var script := LookupBases(world, Script(mode), fuel, file, heritage[1..], steps, next);
        var repaired := LookupBases(world, mode, fuel, file, heritage[1..], steps, next);
        if script.Done? {
          BasesHedgedCons(tidy, world, file, heritage, steps,
                          LookupBase(world, Script(mode), fuel, file, heritage[0], steps, seen).value, script.value,
                          first.value, repaired.value);
        }
      }
    }
  }

  /** Whatever the hidden members are and however a union is read, the answer is right. */
  ghost predicate RightAtType(world: World, file: FileId, node: TypeNode, steps: seq<Step>, value: Lookup) {
    forall oracle: Oracle, every: bool :: Sound(value, HasType(world, oracle, every, file, node, steps))
  }

  ghost predicate RightAtKey(world: World, key: Key, decl: Decl, steps: seq<Step>, value: Lookup) {
    forall oracle: Oracle, every: bool :: Sound(value, HasKey(world, oracle, every, key, decl, steps))
  }

  /** The walk with the repair its own promise asks for. */
  const REPAIRED := Mode(true, true)

  /**
   * When the script's answer at a declaration is right. On every world it is, if the repaired walk agrees; where
   * names are plain and declared once, only then; and where all members are property signatures as well, always.
   */
  lemma DeclTruth(world: World, fuel: nat, key: Key, decl: Decl, steps: seq<Step>, seen: set<Guard>)
    requires Declares(world, key) == Some(decl)
    requires LookupDecl(world, SCRIPT, fuel, key, decl, steps, seen).Done?
    ensures var script := LookupDecl(world, SCRIPT, fuel, key, decl, steps, seen).value;
            var repaired := LookupDecl(world, REPAIRED, fuel, key, decl, steps, seen);
            && (repaired.Done? && repaired.value == script ==> RightAtKey(world, key, decl, steps, script))
            && (TidyWorld(Plain, world) ==>
                  && repaired.Done?
                  && (RightAtKey(world, key, decl, steps, script)
                      <==> script == Unknown || repaired.value == script))
            && (TidyWorld(Listed, world) ==> RightAtKey(world, key, decl, steps, script))
  {
    var script := LookupDecl(world, SCRIPT, fuel, key, decl, steps, seen).value;
    var repaired := LookupDecl(world, REPAIRED, fuel, key, decl, steps, seen);
    if repaired.Done? {
      forall oracle: Oracle, every: bool
        ensures Sound(repaired.value, HasKey(world, oracle, every, key, decl, steps))
      {
        DeclSound(world, oracle, every, REPAIRED, fuel, key, decl, steps, seen);
      }
    }
    if TidyWorld(Plain, world) {
      DeclHedges(Plain, world, REPAIRED, fuel, key, decl, steps, seen);
      if RightAtKey(world, key, decl, steps, script) {
        assert Sound(script, HasKey(world, EVERYTHING, false, key, decl, steps));
      }
    }
    if TidyWorld(Listed, world) { DeclHedges(Listed, world, REPAIRED, fuel, key, decl, steps, seen); }
  }

  /** The same at any type node. */
  lemma TypeTruth(world: World, fuel: nat, file: FileId, node: TypeNode, steps: seq<Step>, seen: set<Guard>)
    requires LookupType(world, SCRIPT, fuel, file, node, steps, seen).Done?
    ensures var script := LookupType(world, SCRIPT, fuel, file, node, steps, seen).value;
            var repaired := LookupType(world, REPAIRED, fuel, file, node, steps, seen);
            && (repaired.Done? && repaired.value == script ==> RightAtType(world, file, node, steps, script))
            && (TidyWorld(Plain, world) && TidyType(Plain, node) ==>
                  && repaired.Done?
                  && (RightAtType(world, file, node, steps, script)
                      <==> script == Unknown || repaired.value == script))
            && (TidyWorld(Listed, world) && TidyType(Listed, node) ==>
                  RightAtType(world, file, node, steps, script))
  {
    var script := LookupType(world, SCRIPT, fuel, file, node, steps, seen).value;
    var repaired := LookupType(world, REPAIRED, fuel, file, node, steps, seen);
    if repaired.Done? {
      forall oracle: Oracle, every: bool
        ensures Sound(repaired.value, HasType(world, oracle, every, file, node, steps))
      {
        TypeSound(world, oracle, every, REPAIRED, fuel, file, node, steps, seen);
      }
    }
    if TidyWorld(Plain, world) && TidyType(Plain, node) {
      TypeHedges(Plain, world, REPAIRED, fuel, file, node, steps, seen);
      if RightAtType(world, file, node, steps, script) {
        assert Sound(script, HasType(world, EVERYTHING, false, file, node, steps));
      }
    }
    if TidyWorld(Listed, world) && TidyType(Listed, node) {
      TypeHedges(Listed, world, REPAIRED, fuel, file, node, steps, seen);
    }
  }

  /** The interpretation under which nothing the syntax leaves open is there. */
  const NOTHING: Oracle := (site, steps) => false

  /** One step into a type literal. */
  lemma LiteralStep(world: World, oracle: Oracle, every: bool, fuel: nat, file: FileId, members: seq<Member>,
                    name: string, seen: set<Guard>)
    requires fuel > 0
    ensures LookupType(world, SCRIPT, fuel, file, Literal(members), [Field(name)], seen)
            == Done(if OwnMember(members, name).Some? then Found else Missing, seen)
    ensures HasType(world, oracle, every, file, Literal(members), [Field(name)])
            <==> KeyMember(members, name).Some? || MayHold(oracle, file, members, [Field(name)])
  {
    assert PlanType(SCRIPT, Literal(members), [Field(name)]) == PlanList(SCRIPT, members, [Field(name)]);
    match KeyMember(members, name)
    case Some(member) => assert HasMember(world, oracle, every, file, member, [Field(name)]);
    case None =>
  }

  /** A property signature, a method or an accessor declares the key. */
  predicate DeclaresKey(members: seq<Member>, key: string) {
    KeyMember(members, key).Some? || NamesMethod(members, key)
  }

  /**
   * The guard at a member list, given what the script reads of it: what it finds is declared, or it finds nothing,
   * nothing is declared, and no member is open.
   */
  predicate ReadsRight(read: seq<Member>, members: seq<Member>, name: string) {
    if OwnMember(read, name).Some? then DeclaresKey(members, name)
    else !DeclaresKey(members, name) && !HasOpen(members)
  }

  /** At a type literal, with no condition on the rest of the world. */
  lemma LiteralRightIff(world: World, fuel: nat, file: FileId, members: seq<Member>, name: string,
                        seen: set<Guard>)
    requires fuel > 0
    ensures LookupType(world, SCRIPT, fuel, file, Literal(members), [Field(name)], seen).Done?
    ensures RightAtType(world, file, Literal(members), [Field(name)],
                        LookupType(world, SCRIPT, fuel, file, Literal(members), [Field(name)], seen).value)
            <==> ReadsRight(members, members, name)
  {
    var node, steps := Literal(members), [Field(name)];
    forall oracle: Oracle, every: bool
      ensures LookupType(world, SCRIPT, fuel, file, node, steps, seen)
              == Done(if OwnMember(members, name).Some? then Found else Missing, seen)
      ensures HasType(world, oracle, every, file, node, steps)
              <==> KeyMember(members, name).Some? || MayHold(oracle, file, members, steps)
    {
      LiteralStep(world, oracle, every, fuel, file, members, name, seen);
    }
    assert HasType(world, EVERYTHING, false, file, node, steps)
           <==> DeclaresKey(members, name) || HasOpen(members);
    assert HasType(world, NOTHING, false, file, node, steps) <==> DeclaresKey(members, name);
  }

  /** One step of the walk into an interface without bases. */
  lemma InterfaceStep(world: World, fuel: nat, key: Key, first: Decl, name: string)
    requires fuel > 0 && first.Interface? && first.heritage == []
    ensures LookupDecl(world, SCRIPT, fuel, key, first, [Field(name)], {})
            == Done(if OwnMember(first.members, name).Some? then Found else Missing,
                    {Guard(key.file, key.name, 1)})
  {
    var steps, guards := [Field(name)], {Guard(key.file, key.name, 1)};
    assert {} + guards == guards;
    var inner := LookupInterface(world, SCRIPT, fuel - 1, key.file, first.members, [], steps, guards);
    assert LookupDecl(world, SCRIPT, fuel, key, first, steps, {}) == inner;
    match OwnMember(first.members, name)
    case Some(member) =>
      assert inner == LookupMember(world, SCRIPT, fuel - 1, key.file, member, steps, guards) == Done(Found, guards);
    case None =>
      var none: seq<Lookup> := [];
      assert LookupBases(world, SCRIPT, fuel - 1, key.file, [], steps, guards) == Done(none, guards);
      assert inner == Done(Combine(none), guards);
  }

  /** One step of the meaning there. */
  lemma InterfaceHas(world: World, oracle: Oracle, every: bool, key: Key, members: seq<Member>, name: string)
    ensures HasDecl(world, oracle, every, key, Interface(members, []), [Field(name)])
            <==> KeyMember(members, name).Some? || MayHold(oracle, key.file, members, [Field(name)])
  {
    match KeyMember(members, name)
    case Some(member) => assert HasMember(world, oracle, every, key.file, member, [Field(name)]);
    case None =>
  }

  /** At interface blocks without bases: the walk reads the first block, the type is all of them. */
  lemma InterfaceRightIff(world: World, fuel: nat, key: Key, first: Decl, name: string)
    requires fuel > 0 && Declares(world, key) == Some(first) && first.Interface?
    requires Merged(world, key, first).heritage == first.heritage == []
    ensures LookupDecl(world, SCRIPT, fuel, key, first, [Field(name)], {}).Done?
    ensures var members := Merged(world, key, first).members;
            RightAtKey(world, key, first, [Field(name)],
                       LookupDecl(world, SCRIPT, fuel, key, first, [Field(name)], {}).value)
            <==> ReadsRight(first.members, members, name)
  {
    var steps, members := [Field(name)], Merged(world, key, first).members;
    InterfaceStep(world, fuel, key, first, name);
    assert Merged(world, key, first) == Interface(members, []);
    forall oracle: Oracle, every: bool
      ensures HasKey(world, oracle, every, key, first, steps)
              <==> KeyMember(members, name).Some? || MayHold(oracle, key.file, members, steps)
    {
      InterfaceHas(world, oracle, every, key, members, name);
    }
    assert HasKey(world, EVERYTHING, false, key, first, steps)
           <==> DeclaresKey(members, name) || HasOpen(members);
    assert HasKey(world, NOTHING, false, key, first, steps) <==> DeclaresKey(members, name);
  }

  /** A file declaring `Config` in the given interface blocks. */
  ghost function ConfigWorld(file: FileId, blocks: seq<Decl>): World {
    World(map[file := SourceFile(seq(|blocks|, i requires 0 <= i < |blocks| => NamedDecl("Config", blocks[i])),
                                 map[], [])], map[])
  }

  ghost predicate ReportsMissing(file: FileId, blocks: seq<Decl>, name: string) {
    var world, key := ConfigWorld(file, blocks), Key(file, "Config");
    && blocks != [] && Declares(world, key) == Some(blocks[0])
    && LookupDecl(world, SCRIPT, 1, key, blocks[0], [Field(name)], {}).Done?
    && LookupDecl(world, SCRIPT, 1, key, blocks[0], [Field(name)], {}).value == Missing
  }

  /** `interface Config { onEvent(x): void }` is reported to lack `onEvent`, but not to lack anything it does lack. */
  lemma MethodIsMissed(file: FileId, oracle: Oracle, every: bool)
    ensures var blocks := [Interface([Method(Some("onEvent"))], [])];
            && ReportsMissing(file, blocks, "onEvent")
            && HasKey(ConfigWorld(file, blocks), oracle, every, Key(file, "Config"), blocks[0], [Field("onEvent")])
            && !HasKey(ConfigWorld(file, blocks), oracle, every, Key(file, "Config"), blocks[0], [Field("port")])
  {
    var members := [Method(Some("onEvent"))];
    var block := Interface(members, []);
    var world, key := ConfigWorld(file, [block]), Key(file, "Config");
    assert "onEvent"[0] != "port"[0];
    InterfaceStep(world, 1, key, block, "onEvent");
    assert MergedMembers(world.files[file].decls, "Config") == members;
    assert MergedHeritage(world.files[file].decls, "Config") == [];
    InterfaceHas(world, oracle, every, key, members, "onEvent");
    InterfaceHas(world, oracle, every, key, members, "port");
    assert Method(Some("onEvent")) in members;
  }

  /** A key of the second of two blocks is reported missing, though the merged interface has it. */
  lemma SecondBlockIsMissed(file: FileId, oracle: Oracle, every: bool)
    ensures var blocks := [Interface([], []), Interface([Property("port", Some("port"), None)], [])];
            && ReportsMissing(file, blocks, "port")
            && HasKey(ConfigWorld(file, blocks), oracle, every, Key(file, "Config"), blocks[0], [Field("port")])
  {
    var port := Property("port", Some("port"), None);
    var blocks := [Interface([], []), Interface([port], [])];
    var world, key := ConfigWorld(file, blocks), Key(file, "Config");
    InterfaceStep(world, 1, key, blocks[0], "port");
    var decls := world.files[file].decls;
    var rest := [NamedDecl("Config", blocks[1])];
    assert decls[1..] == rest && rest[1..] == [];
    assert MergedMembers(decls, "Config") == [] + MergedMembers(rest, "Config") == [port];
    assert MergedHeritage(decls, "Config") == [] + MergedHeritage(rest, "Config") == [];
    InterfaceHas(world, oracle, every, key, [port], "port");
  }

  /** A key declared in quotes is reported missing: the name is compared with its quotes. */
  lemma QuotedNameIsMissed(file: FileId, oracle: Oracle, every: bool)
    ensures var blocks := [Interface([Property("'port'", Some("port"), None)], [])];
            && ReportsMissing(file, blocks, "port")
            && HasKey(ConfigWorld(file, blocks), oracle, every, Key(file, "Config"), blocks[0], [Field("port")])
  {
    var port := Property("'port'", Some("port"), None);
    var block := Interface([port], []);
    var world, key := ConfigWorld(file, [block]), Key(file, "Config");
    assert "'port'"[0] != "port"[0];
    InterfaceStep(world, 1, key, block, "port");
    assert MergedMembers(world.files[file].decls, "Config") == [port];
    assert MergedHeritage(world.files[file].decls, "Config") == [];
    InterfaceHas(world, oracle, every, key, [port], "port");
  }
}
