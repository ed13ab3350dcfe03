/** The three-valued schema-path walk of scripts/gen-config-catalog.ts over declared types. */
module PathLookup {
  import opened Options
  import opened Exports

  datatype Lookup = Found | Missing | Unknown

  datatype Step = Field(name: string) | Element

  /** Guard of one visit to a named declaration: the declaration and the steps left. */
  datatype Guard = Guard(file: FileId, name: string, left: nat)

  /** A finished walk threads its guard set; the other two outcomes leave the walk. */
  datatype Walk<+T> = Done(value: T, seen: set<Guard>) | Threw | OutOfFuel

  const PASSTHROUGH_WRAPPERS: set<string> := {"Partial", "Required", "Readonly", "NonNullable"}
  const ARRAY_NAMES: set<string> := {"Array", "ReadonlyArray"}

  /** One branch with the member suffices; without one, a branch nobody could read leaves it open. */
  function Combine(results: seq<Lookup>): Lookup {
    if Found in results then Found else if Unknown in results then Unknown else Missing
  }

  /** Branches of a union that differ leave the answer open. */
  function CombineUnion(results: seq<Lookup>): Lookup {
    if forall r | r in results :: r == Found then Found
    else if forall r | r in results :: r == Missing then Missing
    else Unknown
  }

  /** The first property signature written like the step. */
  function OwnMember(members: seq<Member>, name: string): (r: Option<Member>)
    ensures r.Some? ==> r.value.Property? && r.value in members
  {
    if members == [] then None
    else if members[0].Property? && members[0].written == name then Some(members[0])
    else OwnMember(members[1..], name)
  }

  /** The first property signature that declares the key. */
  function KeyMember(members: seq<Member>, key: string): (r: Option<Member>)
    ensures r.Some? ==> r.value.Property? && r.value in members
  {
    if members == [] then None
    else if members[0].Property? && members[0].key == Some(key) then Some(members[0])
    else KeyMember(members[1..], key)
  }

  /** A member whose keys its syntax does not list. */
  predicate IsOpen(member: Member) {
    match member
    case Property(_, key, _) => key.None?
    case Method(key) => key.None?
    case Signature => false
    case OpenMember => true
  }

  predicate HasOpen(members: seq<Member>) {
    exists member | member in members :: IsOpen(member)
  }

  /** A method or accessor of the list declares the key. */
  predicate NamesMethod(members: seq<Member>, key: string) {
    exists member | member in members :: member == Method(Some(key))
  }

  /** What one declaration adds to the interface of its name. A class may add any member. */
  function OwnMembers(decl: Decl): seq<Member> {
    match decl
    case Interface(members, _) => members
    case Class => [OpenMember]
    case _ => []
  }

  function MergedMembers(decls: seq<NamedDecl>, name: string): seq<Member> {
    if decls == [] then []
    else (if decls[0].name == name then OwnMembers(decls[0].decl) else []) + MergedMembers(decls[1..], name)
  }

  function MergedHeritage(decls: seq<NamedDecl>, name: string): seq<Heritage> {
    if decls == [] then []
    else
      (if decls[0].name == name && decls[0].decl.Interface? then decls[0].decl.heritage else [])
      + MergedHeritage(decls[1..], name)
  }

  /** The interface all blocks and classes of one name declare together. */
  function Merged(world: World, key: Key, decl: Decl): Decl {
    if decl.Interface? && key.file in world.files then
      var decls := world.files[key.file].decls;
      Interface(MergedMembers(decls, key.name), MergedHeritage(decls, key.name))
    else decl
  }

  /**
   * Two switches of the walk. `shared` threads one guard set through sibling branches; without it every
   * branch gets its own copy. `repaired` reads all blocks of an interface as one, finds a member by its key,
   * and leaves open what an open member may answer.
   */
  datatype Mode = Mode(shared: bool, repaired: bool)

  /** The walk as the script runs it. */
  const SCRIPT := Mode(true, false)

  function FindMember(mode: Mode, members: seq<Member>, name: string): (r: Option<Member>)
    ensures r.Some? ==> r.value.Property? && r.value in members
  {
    if mode.repaired then KeyMember(members, name) else OwnMember(members, name)
  }

  /** The declaration the walk reads for a key. */
  function Read(world: World, mode: Mode, key: Key, decl: Decl): (r: Decl)
    ensures r.Interface? <==> decl.Interface?
    ensures !r.Interface? ==> r == decl
  {
    if mode.repaired then Merged(world, key, decl) else decl
  }

  /**
   * The answer at a member list without a property signature for the first step, given what the rest answers. A
   * method has its key; what it holds is left open.
   */
  function Beside(mode: Mode, members: seq<Member>, steps: seq<Step>, rest: Lookup): Lookup
    requires steps != [] && steps[0].Field?
  {
    var named := NamesMethod(members, steps[0].name);
    if !mode.repaired then rest
    else if named && |steps| == 1 then Found
    else if (named || HasOpen(members)) && rest.Missing? then Unknown
    else rest
  }

  /** What the walk does at one type node, before any recursion. */
  datatype Plan =
    | Decided(value: Lookup)
    | Descend(node: TypeNode, steps: seq<Step>)
    | IntoMember(member: Member)
    | AllParts(parts: seq<TypeNode>, union: bool)
    | ByName(name: string)

  function PlanList(mode: Mode, members: seq<Member>, steps: seq<Step>): (plan: Plan)
    requires steps != []
    ensures plan.IntoMember? ==> plan.member.Property? && plan.member in members
  {
    if steps[0].Element? then Decided(Unknown)
    else
      match FindMember(mode, members, steps[0].name)
      case Some(member) => IntoMember(member)
      case None => Decided(Beside(mode, members, steps, Missing))
  }

  function PlanType(mode: Mode, node: TypeNode, steps: seq<Step>): (plan: Plan)
    requires steps != []
    ensures plan.IntoMember? ==> plan.member.Property?
  {
    var step := steps[0];
    match node
    case Literal(members) => PlanList(mode, members, steps)
    case Parenthesized(inner) => Descend(inner, steps)
    case Readonly(inner) => Descend(inner, steps)
    case Intersection(parts) => AllParts(parts, false)
    case Union(parts) => AllParts(parts, true)
    case ArrayOf(element) => if step.Element? then Descend(element, steps[1..]) else Decided(Unknown)
    case Indexed(target, Some(name)) => Descend(target, [Field(name)] + steps)
    case Indexed(_, None) => Decided(Unknown)
    case Reference(name, qualified, arguments) =>
      if name in PASSTHROUGH_WRAPPERS && arguments != [] then Descend(arguments[0], steps)
      else if name in ARRAY_NAMES && arguments != [] then
        if step.Element? then Descend(arguments[0], steps[1..]) else Decided(Unknown)
      else if qualified then Decided(Unknown)
      else ByName(name)
    case Opaque(_) => Decided(Unknown)
  }

  /** The walk. `fuel` bounds the call depth: an exhausted walk has no answer. */
  function LookupType(world: World, mode: Mode, fuel: nat, file: FileId, node: TypeNode,
                      steps: seq<Step>, seen: set<Guard>): (r: Walk<Lookup>)
    ensures r.Done? ==> seen <= r.seen
    decreases fuel, 0, 0
  {
    if steps == [] then Done(Found, seen)
    else if fuel == 0 then OutOfFuel
    else
      match PlanType(mode, node, steps)
      case Decided(value) => Done(value, seen)
      case Descend(inner, rest) => LookupType(world, mode, fuel - 1, file, inner, rest, seen)
      case IntoMember(member) => LookupMember(world, mode, fuel - 1, file, member, steps, seen)
      case AllParts(parts, union) =>
        (match LookupParts(world, mode, fuel - 1, file, parts, steps, seen)
         case Done(results, after) => Done(if union then CombineUnion(results) else Combine(results), after)
         case Threw => Threw
         case OutOfFuel => OutOfFuel)
      case ByName(name) => LookupName(world, mode, fuel - 1, file, name, steps, seen)
  }

  function LookupMember(world: World, mode: Mode, fuel: nat, file: FileId, member: Member,
                        steps: seq<Step>, seen: set<Guard>): (r: Walk<Lookup>)
    requires member.Property? && steps != []
    ensures r.Done? ==> seen <= r.seen
    decreases fuel, 1, 0
  {
    if |steps| == 1 then Done(Found, seen)
    else
      match member.annotation
      case None => Done(Unknown, seen)
      case Some(node) => LookupType(world, mode, fuel, file, node, steps[1..], seen)
  }

  function LookupParts(world: World, mode: Mode, fuel: nat, file: FileId, parts: seq<TypeNode>,
                       steps: seq<Step>, seen: set<Guard>): (r: Walk<seq<Lookup>>)
    ensures r.Done? ==> |r.value| == |parts| && seen <= r.seen
    decreases fuel, 1, |parts|
  {
    if parts == [] then Done([], seen)
    else
      match LookupType(world, mode, fuel, file, parts[0], steps, seen)
      case Threw => Threw
      case OutOfFuel => OutOfFuel
      case Done(value, after) =>
        match LookupParts(world, mode, fuel, file, parts[1..], steps, if mode.shared then after else seen)
        case Done(rest, last) => Done([value] + rest, last)
        case Threw => Threw
        case OutOfFuel => OutOfFuel
  }

  /** A name in type position or in a heritage clause. */
  function LookupName(world: World, mode: Mode, fuel: nat, file: FileId, name: string,
                      steps: seq<Step>, seen: set<Guard>): (r: Walk<Lookup>)
    ensures r.Done? ==> seen <= r.seen
    decreases fuel, 3, 0
  {
    match DeclForTypeName(world, file, name)
    case OutOfReach => Done(Unknown, seen)
    case Throws => Threw
    case Resolved(target, found, decl) => LookupDecl(world, mode, fuel, Key(target, found), decl, steps, seen)
  }

  /** The walk at a declaration: guarded unless it is an enum. */
  function LookupDecl(world: World, mode: Mode, fuel: nat, key: Key, decl: Decl,
                      steps: seq<Step>, seen: set<Guard>): (r: Walk<Lookup>)
    ensures r.Done? ==> seen <= r.seen
    decreases fuel, 2, 0
  {
    if steps == [] then Done(Found, seen)
    else if decl.Enum? || decl.Class? then Done(Unknown, seen)
    else
      var guard := Guard(key.file, key.name, |steps|);
      if guard in seen then Done(Unknown, seen)
      else if fuel == 0 then OutOfFuel
      else
        match Read(world, mode, key, decl)
        case Alias(body) => LookupType(world, mode, fuel - 1, key.file, body, steps, seen + {guard})
        case Interface(members, heritage) =>
          LookupInterface(world, mode, fuel - 1, key.file, members, heritage, steps, seen + {guard})
  }

  /** Own members first, then the bases. */
  function LookupInterface(world: World, mode: Mode, fuel: nat, file: FileId, members: seq<Member>,
                           heritage: seq<Heritage>, steps: seq<Step>, seen: set<Guard>): (r: Walk<Lookup>)
    requires steps != []
    ensures r.Done? ==> seen <= r.seen
    decreases fuel, 5, 0
  {
    if steps[0].Element? then Done(Unknown, seen)
    else
      match FindMember(mode, members, steps[0].name)
      case Some(member) => LookupMember(world, mode, fuel, file, member, steps, seen)
      case None =>
        match LookupBases(world, mode, fuel, file, heritage, steps, seen)
        case Done(results, after) => Done(Beside(mode, members, steps, Combine(results)), after)
        case Threw => Threw
        case OutOfFuel => OutOfFuel
  }

  function LookupBase(world: World, mode: Mode, fuel: nat, file: FileId, base: Heritage,
                      steps: seq<Step>, seen: set<Guard>): (r: Walk<Lookup>)
    ensures r.Done? ==> seen <= r.seen
    decreases fuel, 4, 0
  {
    match base
    case Base(name) => LookupName(world, mode, fuel, file, name, steps, seen)
    case ComputedBase => Done(Unknown, seen)
  }

  function LookupBases(world: World, mode: Mode, fuel: nat, file: FileId, heritage: seq<Heritage>,
                       steps: seq<Step>, seen: set<Guard>): (r: Walk<seq<Lookup>>)
    ensures r.Done? ==> |r.value| == |heritage| && seen <= r.seen
    decreases fuel, 4, 1 + |heritage|
  {
    if heritage == [] then Done([], seen)
    else
      match LookupBase(world, mode, fuel, file, heritage[0], steps, seen)
      case Threw => Threw
      case OutOfFuel => OutOfFuel
      case Done(value, after) =>
        match LookupBases(world, mode, fuel, file, heritage[1..], steps, if mode.shared then after else seen)
        case Done(rest, last) => Done([value] + rest, last)
        case Threw => Threw
        case OutOfFuel => OutOfFuel
  }
}
