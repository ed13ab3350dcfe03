/** What key paths a schema holds, and when the walk of scripts/gen-config-catalog.ts sees them all. */
module SchemaMeaning {
  import opened Options
  import opened PathText
  import opened SchemaWalk

  /** Where in a schema a piece stands; the whole schema stands at the empty site. */
  type Site = seq<Segment>

  /** The paths the schemas of other packages hold. */
  type Others = (string, Path) -> bool

  /** The paths behind syntax that does not show them. */
  type Unread = Path -> bool

  function At(site: Site, key: string): Path {
    site + [Segment(key, 0)]
  }

  predicate Below(site: Site, path: Path) {
    site == [] ||
    var n := |site| - 1;
    && |site| < |path| && path[..n] == site[..n]
    && path[n].name == site[n].name && site[n].arrays <= path[n].arrays
  }

  /** Syntax at the site that shows no keys holds the path. */
  ghost predicate Hides(unread: Unread, site: Site, path: Path) {
    Below(site, path) && unread(path)
  }

  const NESTING: set<string> := {"object", "array"}
  const COMBINING: set<string> := {"intersect", "union"}

  /**
   * The properties of an `object` call hold their keys and what their values hold, at every depth alike. A computed
   * name, a spread and the value of a shorthand show nothing.
   */
  ghost predicate PropertyHas(property: SchemaProperty, site: Site, unread: Unread, path: Path)
    decreases property
  {
    match property
    case Assigned(_, Some(key), value) => path == At(site, key) || ValueHas(value, At(site, key), unread, path)
    case Assigned(_, None, _) => Hides(unread, site, path)
    case Shorthand(key) => path == At(site, key) || Hides(unread, At(site, key), path)
    case OtherProperty(_) => Hides(unread, site, path)
  }

  /**
   * Below a key, an `object` call holds its properties and an `array` call one hop of its element; a refinement holds
   * what it hangs off does. Other calls of the library are documented to contribute no paths. An `object` or `array`
   * call without an argument to read, and what is not built from the library in place, show nothing.
   */
  ghost predicate ValueHas(value: Schema, site: Path, unread: Unread, path: Path)
    decreases value
  {
    match value
    case Call(ObjectForm(properties), _) => exists p | p in properties :: PropertyHas(p, site, unread, path)
    case Call(ArrayForm(element), _) => ValueHas(element, Hopped(site), unread, path)
    case Call(OtherForm(name), base) =>
      if name == "object" || name == "array" then Hides(unread, site, path)
      else if name == "intersect" || name == "union" || base.Library? then false
      else if base.Of? then ValueHas(base.call, site, unread, path)
      else Hides(unread, site, path)
    case Call(_, _) => false
    case NotWalkable => Hides(unread, site, path)
  }

  /** A whole schema: an intersection and a union hold what some part holds, a refinement what it hangs off does. */
  ghost predicate Has(schema: Schema, others: Others, unread: Unread, path: Path)
    decreases schema
  {
    match schema
    case Call(ObjectForm(properties), _) => exists p | p in properties :: PropertyHas(p, [], unread, path)
    case Call(IntersectForm(parts), _) => exists p | p in parts :: PartHas(p, others, unread, path)
    case Call(UnionForm(parts), _) => exists p | p in parts :: PartHas(p, others, unread, path)
    case Call(OtherForm(name), Of(base)) =>
      if name == "object" || name == "array" || name == "intersect" || name == "union" then unread(path)
      else Has(base, others, unread, path)
    case _ => unread(path)
  }

  ghost predicate PartHas(part: Part, others: Others, unread: Unread, path: Path)
    decreases part
  {
    match part
    case Inline(schema) => Has(schema, others, unread, path)
    case Composed(specifier) => others(specifier, path)
    case OtherPart(_) => unread(path)
  }

  /**
   * What the syntax of a schema shows: the paths it declares, the packages it composes, where it hides something
   * without a violation of the walk, and the variants of unions the walk passes over.
   */
  datatype Account = Account(declared: seq<Path>, composed: seq<string>, thinned: seq<Site>, dropped: seq<Part>)

  const NOTHING_SHOWN := Account([], [], [], [])

  function Add(a: Account, b: Account): Account {
    Account(a.declared + b.declared, a.composed + b.composed, a.thinned + b.thinned, a.dropped + b.dropped)
  }

  function Thinned(site: Site): Account {
    NOTHING_SHOWN.(thinned := [site])
  }

  /** At the top the walk reports what is no plain key; below a key it does not. */
  function AccountProperty(property: SchemaProperty, site: Site): Account
    decreases property, 0
  {
    match property
    case Assigned(_, Some(key), value) =>
      Add(NOTHING_SHOWN.(declared := [At(site, key)]), AccountValue(value, At(site, key)))
    case Assigned(_, None, _) => Thinned(site)
    case Shorthand(key) => Add(NOTHING_SHOWN.(declared := [At(site, key)]), Thinned(At(site, key)))
    case OtherProperty(_) => if site == [] then NOTHING_SHOWN else Thinned(site)
  }

  function AccountProperties(properties: seq<SchemaProperty>, site: Site): Account
    decreases properties, 1
  {
    if properties == [] then NOTHING_SHOWN
    else
      var n := |properties| - 1;
      Add(AccountProperties(properties[..n], site), AccountProperty(properties[n], site))
  }

  function AccountValue(value: Schema, site: Path): Account
    decreases value, 0
  {
    match value
    case Call(ObjectForm(properties), _) => AccountProperties(properties, site)
    case Call(ArrayForm(element), _) => AccountValue(element, Hopped(site))
    case Call(OtherForm(name), base) =>
      if name in NESTING then Thinned(site)
      else if name in COMBINING || base.Library? then NOTHING_SHOWN
      else if base.Of? then AccountValue(base.call, site)
      else Thinned(site)
    case Call(_, _) => NOTHING_SHOWN
    case NotWalkable => Thinned(site)
  }

  function AccountOf(schema: Schema): Account
    decreases schema, 0
  {
    match schema
    case Call(ObjectForm(properties), _) => AccountProperties(properties, [])
    case Call(IntersectForm(parts), _) => AccountParts(parts, false)
    case Call(UnionForm(parts), _) => AccountParts(parts, true)
    case Call(OtherForm(name), Of(base)) =>
      if name in NESTING + COMBINING then Thinned([]) else AccountOf(base)
    case Call(_, Of(_)) => Thinned([])
    case _ => NOTHING_SHOWN
  }

  function AccountPart(part: Part, union: bool): Account
    decreases part, 0
  {
    match part
    case Inline(schema) => AccountOf(schema)
    case Composed(specifier) =>
      if union then NOTHING_SHOWN.(dropped := [part]) else NOTHING_SHOWN.(composed := [specifier])
    case OtherPart(_) => if union then NOTHING_SHOWN.(dropped := [part]) else NOTHING_SHOWN
  }

  function AccountParts(parts: seq<Part>, union: bool): Account
    decreases parts, 1
  {
    if parts == [] then NOTHING_SHOWN
    else
      var n := |parts| - 1;
      Add(AccountParts(parts[..n], union), AccountPart(parts[n], union))
  }

  ghost predicate ComposedHas(composes: seq<string>, others: Others, path: Path) {
    exists specifier | specifier in composes :: others(specifier, path)
  }

  ghost predicate DroppedHas(dropped: seq<Part>, others: Others, unread: Unread, path: Path) {
    exists part | part in dropped :: PartHas(part, others, unread, path)
  }

  ghost predicate ThinnedHas(thinned: seq<Site>, unread: Unread, path: Path) {
    exists site | site in thinned :: Hides(unread, site, path)
  }

  /** The path is declared, composed, hidden at a thinned site, or in a variant passed over. */
  ghost predicate Shown(account: Account, others: Others, unread: Unread, path: Path) {
    || path in account.declared
    || ComposedHas(account.composed, others, path)
    || ThinnedHas(account.thinned, unread, path)
    || DroppedHas(account.dropped, others, unread, path)
  }

  /** Or behind a violation. */
  ghost predicate Accounted(account: Account, reported: bool, others: Others, unread: Unread, path: Path) {
    Shown(account, others, unread, path) || (reported && unread(path))
  }

  lemma ShownAdd(a: Account, b: Account, others: Others, unread: Unread, path: Path)
    ensures Shown(Add(a, b), others, unread, path)
            <==> Shown(a, others, unread, path) || Shown(b, others, unread, path)
  {
    var both := Add(a, b);
    assert ComposedHas(both.composed, others, path)
           <==> ComposedHas(a.composed, others, path) || ComposedHas(b.composed, others, path) by {
      assert forall s :: s in both.composed <==> s in a.composed || s in b.composed;
    }
    assert ThinnedHas(both.thinned, unread, path)
           <==> ThinnedHas(a.thinned, unread, path) || ThinnedHas(b.thinned, unread, path) by {
      assert forall s :: s in both.thinned <==> s in a.thinned || s in b.thinned;
    }
    assert DroppedHas(both.dropped, others, unread, path)
           <==> DroppedHas(a.dropped, others, unread, path) || DroppedHas(b.dropped, others, unread, path) by {
      assert forall p :: p in both.dropped <==> p in a.dropped || p in b.dropped;
    }
  }

  lemma ThinnedIsShown(site: Site, others: Others, unread: Unread, path: Path)
    ensures Shown(Thinned(site), others, unread, path) <==> Hides(unread, site, path)
  {
    assert site in [site];
  }

  lemma DeclaredIsShown(declared: Path, others: Others, unread: Unread, path: Path)
    ensures Shown(NOTHING_SHOWN.(declared := [declared]), others, unread, path) <==> path == declared
  {
  }

  lemma {:induction false} PropertyShown(property: SchemaProperty, site: Site, others: Others, unread: Unread,
                                         path: Path)
    ensures PropertyHas(property, site, unread, path) <==>
              || Shown(AccountProperty(property, site), others, unread, path)
              || (site == [] && property.OtherProperty? && unread(path))
    decreases property, 0
  {
    match property
    case Assigned(_, Some(key), value) =>
      var declared := NOTHING_SHOWN.(declared := [At(site, key)]);
      DeclaredIsShown(At(site, key), others, unread, path);
      ValueShown(value, At(site, key), others, unread, path);
      ShownAdd(declared, AccountValue(value, At(site, key)), others, unread, path);
    case Shorthand(key) =>
      var declared := NOTHING_SHOWN.(declared := [At(site, key)]);
      DeclaredIsShown(At(site, key), others, unread, path);
      ThinnedIsShown(At(site, key), others, unread, path);
      ShownAdd(declared, Thinned(At(site, key)), others, unread, path);
    case _ => ThinnedIsShown(site, others, unread, path);
  }

  predicate AnyOther(properties: seq<SchemaProperty>) {
    exists p | p in properties :: p.OtherProperty?
  }

  lemma {:induction false} PropertiesShown(properties: seq<SchemaProperty>, site: Site, others: Others,
                                           unread: Unread, path: Path)
    ensures (exists p | p in properties :: PropertyHas(p, site, unread, path)) <==>
              || Shown(AccountProperties(properties, site), others, unread, path)
              || (site == [] && AnyOther(properties) && unread(path))
    decreases properties, 1
  {
    if properties == [] {
    } else {
      var n := |properties| - 1;
      PropertiesShown(properties[..n], site, others, unread, path);
      PropertyShown(properties[n], site, others, unread, path);
      ShownAdd(AccountProperties(properties[..n], site), AccountProperty(properties[n], site), others, unread, path);
      assert properties == properties[..n] + [properties[n]];
    }
  }

  lemma {:induction false} ValueShown(value: Schema, site: Path, others: Others, unread: Unread, path: Path)
    ensures ValueHas(value, site, unread, path) <==> Shown(AccountValue(value, site), others, unread, path)
    decreases value, 0
  {
    match value
    case Call(ObjectForm(properties), _) => PropertiesShown(properties, site, others, unread, path);
    case Call(ArrayForm(element), _) => ValueShown(element, Hopped(site), others, unread, path);
    case Call(OtherForm(name), base) =>
      ThinnedIsShown(site, others, unread, path);
      if base.Of? { ValueShown(base.call, site, others, unread, path); }
    case Call(_, _) =>
    case NotWalkable => ThinnedIsShown(site, others, unread, path);
  }

  lemma {:induction false} PartAccounted(part: Part, union: bool, others: Others, unread: Unread, path: Path)
    ensures PartHas(part, others, unread, path) <==>
              Accounted(AccountPart(part, union), WalkPart(part, union).violations != [], others, unread, path)
    decreases part, 0
  {
    match part
    case Inline(schema) => SchemaAccounted(schema, others, unread, path);
    case Composed(specifier) => assert specifier in [specifier] && part in [part];
    case OtherPart(_) => assert part in [part];
  }

  lemma {:induction false} PartsAccounted(parts: seq<Part>, union: bool, others: Others, unread: Unread, path: Path)
    ensures (exists p | p in parts :: PartHas(p, others, unread, path)) <==>
              Accounted(AccountParts(parts, union), WalkParts(parts, union).violations != [], others, unread, path)
    decreases parts, 1
  {
    if parts == [] {
    } else {
      var n := |parts| - 1;
      PartsAccounted(parts[..n], union, others, unread, path);
      PartAccounted(parts[n], union, others, unread, path);
      ShownAdd(AccountParts(parts[..n], union), AccountPart(parts[n], union), others, unread, path);
      assert parts == parts[..n] + [parts[n]];
    }
  }

  lemma {:induction false} OthersAreReported(properties: seq<SchemaProperty>)
    ensures WalkProperties(properties).violations != [] <==> AnyOther(properties)
  {
    if properties == [] {
    } else {
      var n := |properties| - 1;
      OthersAreReported(properties[..n]);
      assert properties == properties[..n] + [properties[n]];
    }
  }

  /**
   * Every path of a schema is declared in place, composed, behind a violation, at a site where the walk reads on
   * without one, or in a variant passed over; and each of these is of the schema.
   */
  lemma {:induction false} SchemaAccounted(schema: Schema, others: Others, unread: Unread, path: Path)
    ensures Has(schema, others, unread, path)
            <==> Accounted(AccountOf(schema), Walk(schema).violations != [], others, unread, path)
    decreases schema, 0
  {
    match schema
    case Call(ObjectForm(properties), _) =>
      PropertiesShown(properties, [], others, unread, path);
      OthersAreReported(properties);
    case Call(IntersectForm(parts), _) => PartsAccounted(parts, false, others, unread, path);
    case Call(UnionForm(parts), _) => PartsAccounted(parts, true, others, unread, path);
    case Call(OtherForm(name), Of(base)) =>
      ThinnedIsShown([], others, unread, path);
      if name !in NESTING + COMBINING { SchemaAccounted(base, others, unread, path); }
    case Call(ArrayForm(_), Of(_)) => ThinnedIsShown([], others, unread, path);
    case _ =>
  }

  /** Whatever other schemas and unread syntax hold, the collected and composed paths are those of the schema. */
  ghost predicate SeesAll(schema: Schema) {
    forall others: Others, unread: Unread, path: Path ::
      Has(schema, others, unread, path)
      <==> path in Walk(schema).keys || ComposedHas(Walk(schema).composes, others, path)
  }

  /**
   * No violation, nothing hidden where there is none, every variant passed over composed elsewhere, and the collected
   * keys, as they are written, the declared ones.
   */
  predicate NothingUnseen(schema: Schema) {
    var found, account := Walk(schema), AccountOf(schema);
    && found.violations == [] && account.thinned == []
    && (forall part | part in account.dropped :: part.Composed? && part.specifier in found.composes)
    && (forall path: Path | path in found.keys :: path in account.declared)
    && (forall path: Path | path in account.declared :: path in found.keys)
  }

  // A key no list of paths ends in.

  function Longest(keys: seq<Path>): (most: nat)
    ensures forall key: Path | key in keys :: |key[|key| - 1].name| <= most
  {
    if keys == [] then 0
    else
      var rest, first := Longest(keys[1..]), keys[0];
      if rest < |first[|first| - 1].name| then |first[|first| - 1].name| else rest
  }

  function Fresh(keys: seq<Path>): string {
    seq(Longest(keys) + 1, _ => 'x')
  }

  lemma FreshIsNew(site: Site, keys: seq<Path>)
    ensures At(site, Fresh(keys)) !in keys && Below(site, At(site, Fresh(keys)))
  {
    var path := At(site, Fresh(keys));
    assert path[|site|] == path[|path| - 1] == Segment(Fresh(keys), 0);
    assert |Fresh(keys)| == Longest(keys) + 1;
    if site != [] {
      var n := |site| - 1;
      assert path[..n] == site[..n] && path[n] == site[n];
    }
  }

  lemma {:induction false} DroppedAreNoCalls(schema: Schema)
    ensures forall part | part in AccountOf(schema).dropped :: !part.Inline?
    decreases schema, 0
  {
    match schema
    case Call(ObjectForm(properties), _) => PropertiesDropNothing(properties, []);
    case Call(IntersectForm(parts), _) => DroppedPartsAreNoCalls(parts, false);
    case Call(UnionForm(parts), _) => DroppedPartsAreNoCalls(parts, true);
    case Call(OtherForm(_), Of(base)) => DroppedAreNoCalls(base);
    case _ =>
  }

  lemma {:induction false} PropertiesDropNothing(properties: seq<SchemaProperty>, site: Site)
    ensures AccountProperties(properties, site).dropped == []
    decreases properties, 1
  {
    if properties == [] {
    } else {
      var n := |properties| - 1;
      PropertiesDropNothing(properties[..n], site);
      PropertyDropsNothing(properties[n], site);
    }
  }

  lemma {:induction false} PropertyDropsNothing(property: SchemaProperty, site: Site)
    ensures AccountProperty(property, site).dropped == []
    decreases property, 0
  {
    match property
    case Assigned(_, Some(key), value) => ValueDropsNothing(value, At(site, key));
    case _ =>
  }

  lemma {:induction false} ValueDropsNothing(value: Schema, site: Path)
    ensures AccountValue(value, site).dropped == []
    decreases value, 0
  {
    match value
    case Call(ObjectForm(properties), _) => PropertiesDropNothing(properties, site);
    case Call(ArrayForm(element), _) => ValueDropsNothing(element, Hopped(site));
    case Call(OtherForm(_), Of(base)) => ValueDropsNothing(base, site);
    case _ =>
  }

  lemma {:induction false} DroppedPartsAreNoCalls(parts: seq<Part>, union: bool)
    ensures forall part | part in AccountParts(parts, union).dropped :: !part.Inline?
    decreases parts, 1
  {
    if parts == [] {
    } else {
      var n := |parts| - 1;
      DroppedPartsAreNoCalls(parts[..n], union);
      DroppedPartIsNoCall(parts[n], union);
    }
  }

  lemma {:induction false} DroppedPartIsNoCall(part: Part, union: bool)
    ensures forall p | p in AccountPart(part, union).dropped :: !p.Inline?
    decreases part, 0
  {
    match part
    case Inline(schema) => DroppedAreNoCalls(schema);
    case _ =>
  }

  /** A walk that is not misled composes what the schema does. */
  lemma {:induction false} ComposesAgree(schema: Schema)
    requires AccountOf(schema).thinned == []
    ensures Walk(schema).composes == AccountOf(schema).composed
    decreases schema, 0
  {
    match schema
    case Call(ObjectForm(properties), _) => PropertiesComposeNothing(properties, []);
    case Call(IntersectForm(parts), _) => PartsComposesAgree(parts, false);
    case Call(UnionForm(parts), _) => PartsComposesAgree(parts, true);
    case Call(OtherForm(_), Of(base)) => ComposesAgree(base);
    case _ =>
  }

  lemma {:induction false} PartsComposesAgree(parts: seq<Part>, union: bool)
    requires AccountParts(parts, union).thinned == []
    ensures WalkParts(parts, union).composes == AccountParts(parts, union).composed
    decreases parts, 1
  {
    if parts == [] {
    } else {
      var n := |parts| - 1;
      PartsComposesAgree(parts[..n], union);
      PartComposesAgree(parts[n], union);
    }
  }

  lemma {:induction false} PartComposesAgree(part: Part, union: bool)
    requires AccountPart(part, union).thinned == []
    ensures WalkPart(part, union).composes == AccountPart(part, union).composed
    decreases part, 0
  {
    match part
    case Inline(schema) => ComposesAgree(schema);
    case _ =>
  }

  lemma {:induction false} PropertiesComposeNothing(properties: seq<SchemaProperty>, site: Site)
    ensures AccountProperties(properties, site).composed == [] && WalkProperties(properties).composes == []
    decreases properties, 1
  {
    if properties == [] {
    } else {
      var n := |properties| - 1;
      PropertiesComposeNothing(properties[..n], site);
      PropertyComposesNothing(properties[n], site);
    }
  }

  lemma {:induction false} PropertyComposesNothing(property: SchemaProperty, site: Site)
    ensures AccountProperty(property, site).composed == []
    decreases property, 0
  {
    match property
    case Assigned(_, Some(key), value) => ValueComposesNothing(value, At(site, key));
    case _ =>
  }

  lemma {:induction false} ValueComposesNothing(value: Schema, site: Path)
    ensures AccountValue(value, site).composed == []
    decreases value, 0
  {
    match value
    case Call(ObjectForm(properties), _) => PropertiesComposeNothing(properties, site);
    case Call(ArrayForm(element), _) => ValueComposesNothing(element, Hopped(site));
    case Call(OtherForm(_), Of(base)) => ValueComposesNothing(base, site);
    case _ =>
  }

  lemma NothingUnseenSeesAll(schema: Schema)
    requires NothingUnseen(schema)
    ensures SeesAll(schema)
  {
    ComposesAgree(schema);
    forall others: Others, unread: Unread, path: Path
      ensures Has(schema, others, unread, path)
              <==> path in Walk(schema).keys || ComposedHas(Walk(schema).composes, others, path)
    {
      SchemaAccounted(schema, others, unread, path);
    }
  }

  lemma SeenAt(schema: Schema, others: Others, unread: Unread, path: Path)
    requires SeesAll(schema)
    ensures Has(schema, others, unread, path)
            <==> path in Walk(schema).keys || ComposedHas(Walk(schema).composes, others, path)
  {
  }

  const NOBODY: Others := (s, p) => false
  const NOWHERE: Unread := p => false
  const ANYWHERE: Unread := p => true

  lemma SeesAllReportsNothing(schema: Schema)
    requires SeesAll(schema)
    ensures Walk(schema).violations == []
  {
    if Walk(schema).violations != [] {
      var path := At([], Fresh(Walk(schema).keys));
      FreshIsNew([], Walk(schema).keys);
      SchemaAccounted(schema, NOBODY, ANYWHERE, path);
      SeenAt(schema, NOBODY, ANYWHERE, path);
    }
  }

  lemma SeesAllThinsNothing(schema: Schema)
    requires SeesAll(schema)
    ensures AccountOf(schema).thinned == []
  {
    if AccountOf(schema).thinned != [] {
      var site := AccountOf(schema).thinned[0];
      var path := At(site, Fresh(Walk(schema).keys));
      FreshIsNew(site, Walk(schema).keys);
      SchemaAccounted(schema, NOBODY, ANYWHERE, path);
      assert Hides(ANYWHERE, site, path);
      SeenAt(schema, NOBODY, ANYWHERE, path);
    }
  }

  lemma SeesAllDropsNothing(schema: Schema)
    requires SeesAll(schema)
    ensures forall part | part in AccountOf(schema).dropped ::
              part.Composed? && part.specifier in Walk(schema).composes
  {
    DroppedAreNoCalls(schema);
    var path := At([], Fresh(Walk(schema).keys));
    FreshIsNew([], Walk(schema).keys);
    forall part | part in AccountOf(schema).dropped
      ensures part.Composed? && part.specifier in Walk(schema).composes
    {
      var others: Others := (s, p) => part.Composed? && s == part.specifier;
      SchemaAccounted(schema, others, ANYWHERE, path);
      assert PartHas(part, others, ANYWHERE, path);
      SeenAt(schema, others, ANYWHERE, path);
    }
  }

  lemma SeesAllCollectsDeclared(schema: Schema, path: Path)
    requires SeesAll(schema)
    ensures path in Walk(schema).keys <==> path in AccountOf(schema).declared
  {
    SeesAllReportsNothing(schema);
    DroppedAreNoCalls(schema);
    SchemaAccounted(schema, NOBODY, NOWHERE, path);
    SeenAt(schema, NOBODY, NOWHERE, path);
  }

  /** The exact condition. */
  lemma SeesAllIff(schema: Schema)
    ensures SeesAll(schema) <==> NothingUnseen(schema)
  {
    if SeesAll(schema) {
      SeesAllReportsNothing(schema);
      SeesAllThinsNothing(schema);
      SeesAllDropsNothing(schema);
      forall path: Path ensures path in Walk(schema).keys <==> path in AccountOf(schema).declared {
        SeesAllCollectsDeclared(schema, path);
      }
    }
    if NothingUnseen(schema) { NothingUnseenSeesAll(schema); }
  }

  // Inputs on which the walk misses something without a violation.

  lemma TwoParts(a: Part, b: Part, union: bool)
    ensures WalkParts([a, b], union) == Both(WalkPart(a, union), WalkPart(b, union))
    ensures AccountParts([a, b], union) == Add(AccountPart(a, union), AccountPart(b, union))
  {
    assert [a, b][..1] == [a] && [a][..0] == [];
    assert WalkParts([a], union) == Both(NOTHING_FOUND, WalkPart(a, union)) == WalkPart(a, union);
    assert AccountParts([a], union) == Add(NOTHING_SHOWN, AccountPart(a, union)) == AccountPart(a, union);
  }

  lemma OneProperty(property: SchemaProperty, site: Site)
    ensures WalkProperties([property]) == WalkProperty(property)
    ensures AccountProperties([property], site) == AccountProperty(property, site)
  {
    assert [property][..0] == [];
    assert WalkProperties([property]) == Both(NOTHING_FOUND, WalkProperty(property));
    assert AccountProperties([property], site) == Add(NOTHING_SHOWN, AccountProperty(property, site));
  }

  /** A union of another package's schema and an object: the first variant is lost without a violation. */
  lemma VariantIsPassedOver(specifier: string, key: string)
    ensures var variant := Call(ObjectForm([Assigned(key, Some(key), Call(OtherForm("string"), Library))]), Library);
            var schema := Call(UnionForm([Composed(specifier), Inline(variant)]), Library);
            Walk(schema).violations == [] && !SeesAll(schema)
  {
    var property := Assigned(key, Some(key), Call(OtherForm("string"), Library));
    var variant := Call(ObjectForm([property]), Library);
    var schema := Call(UnionForm([Composed(specifier), Inline(variant)]), Library);
    OneProperty(property, []);
    TwoParts(Composed(specifier), Inline(variant), true);
    assert AccountOf(schema).dropped == [Composed(specifier)] + AccountOf(variant).dropped;
    assert Composed(specifier) in AccountOf(schema).dropped;
    assert Walk(schema).composes == [];
    SeesAllIff(schema);
  }

  /** An object of one property. */
  function One(property: SchemaProperty): Schema {
    Call(ObjectForm([property]), Library)
  }

  lemma OneIsWalked(property: SchemaProperty)
    ensures Walk(One(property)) == WalkProperty(property)
  {
    OneProperty(property, []);
  }

  lemma OneHas(property: SchemaProperty, others: Others, unread: Unread, path: Path)
    ensures Has(One(property), others, unread, path) <==> PropertyHas(property, [], unread, path)
  {
    assert property in [property];
  }

  lemma KeyOnly(written: string, key: Option<string>, value: Schema)
    requires ValueMembers(value, TopPath(written)) == []
    ensures Walk(One(Assigned(written, key, value))) == NOTHING_FOUND.(keys := [At([], written)])
  {
    OneIsWalked(Assigned(written, key, value));
    assert TopPath(written) == At([], written);
    assert TopMembers(Assigned(written, key, value)) == [TopPath(written)] + [] == [TopPath(written)];
  }

  lemma SeesNot(schema: Schema, others: Others, unread: Unread, path: Path)
    requires Has(schema, others, unread, path) && path !in Walk(schema).keys
    requires !ComposedHas(Walk(schema).composes, others, path)
    ensures !SeesAll(schema)
  {
  }

  function NestedExample(a: string, b: string, rest: string): Schema {
    One(Assigned(a, Some(a), Call(ObjectForm([Shorthand(b), OtherProperty(rest)]), Library)))
  }

  lemma NestedHas(a: string, b: string, rest: string, others: Others, unread: Unread)
    ensures Has(NestedExample(a, b, rest), others, unread, At(At([], a), b))
  {
    var nested := Call(ObjectForm([Shorthand(b), OtherProperty(rest)]), Library);
    OneHas(Assigned(a, Some(a), nested), others, unread, At(At([], a), b));
    assert Shorthand(b) in [Shorthand(b), OtherProperty(rest)];
    assert PropertyHas(Shorthand(b), At([], a), unread, At(At([], a), b));
    assert ValueHas(nested, At([], a), unread, At(At([], a), b));
  }

  lemma NoAssignedMembers(b: string, rest: string, base: Path)
    ensures PropertiesMembers([Shorthand(b), OtherProperty(rest)], base) == []
  {
    var properties := [Shorthand(b), OtherProperty(rest)];
    assert properties[..1] == [Shorthand(b)] && properties[..1][..0] == [];
    assert PropertiesMembers(properties[..1], base) == [] + PropertyMembers(Shorthand(b), base) == [];
  }

  /** Below a key, a shorthand and a spread are skipped in silence, though the shorthand declares its key. */
  lemma NestedPropertiesArePassedOver(a: string, b: string, rest: string)
    ensures var schema := NestedExample(a, b, rest);
            && Walk(schema).violations == [] && Walk(schema).keys == [At([], a)]
            && (forall others, unread :: Has(schema, others, unread, At(At([], a), b)))
            && !SeesAll(schema)
  {
    var nested := Call(ObjectForm([Shorthand(b), OtherProperty(rest)]), Library);
    var schema := NestedExample(a, b, rest);
    NoAssignedMembers(b, rest, TopPath(a));
    KeyOnly(a, Some(a), nested);
    forall others, unread ensures Has(schema, others, unread, At(At([], a), b)) {
      NestedHas(a, b, rest, others, unread);
    }
    SeesNot(schema, NOBODY, NOWHERE, At(At([], a), b));
  }

  function ComputedExample(written: string): Schema {
    One(Assigned(written, None, Call(OtherForm("string"), Library)))
  }

  lemma ComputedHas(written: string, others: Others, key: string)
    ensures !Has(ComputedExample(written), others, NOWHERE, At([], key))
    ensures Has(ComputedExample(written), others, ANYWHERE, At([], key))
  {
    var property := Assigned(written, None, Call(OtherForm("string"), Library));
    OneHas(property, others, NOWHERE, At([], key));
    OneHas(property, others, ANYWHERE, At([], key));
  }

  /** A computed name is collected as it is written, which need not be a key, and the key it stands for is not. */
  lemma ComputedNameIsTakenAsWritten(written: string)
    ensures var schema := ComputedExample(written);
            && Walk(schema).violations == [] && Walk(schema).keys == [At([], written)]
            && (forall others, key :: !Has(schema, others, NOWHERE, At([], key)))
            && (forall others, key :: Has(schema, others, ANYWHERE, At([], key)))
            && !SeesAll(schema)
  {
    var schema := ComputedExample(written);
    KeyOnly(written, None, Call(OtherForm("string"), Library));
    forall others, key
      ensures !Has(schema, others, NOWHERE, At([], key)) && Has(schema, others, ANYWHERE, At([], key))
    {
      ComputedHas(written, others, key);
    }
    FreshIsNew([], Walk(schema).keys);
    SeesNot(schema, NOBODY, ANYWHERE, At([], Fresh(Walk(schema).keys)));
  }

  function NamedExample(a: string): Schema {
    One(Assigned(a, Some(a), NotWalkable))
  }

  lemma NamedHas(a: string, b: string, others: Others)
    ensures Has(NamedExample(a), others, ANYWHERE, At(At([], a), b))
  {
    OneHas(Assigned(a, Some(a), NotWalkable), others, ANYWHERE, At(At([], a), b));
    FreshIsNew(At([], a), []);
    assert At(At([], a), b)[..0] == At([], a)[..0] && At(At([], a), b)[0] == At([], a)[0];
    assert Hides(ANYWHERE, At([], a), At(At([], a), b));
  }

  /** A value that stands elsewhere may be an object, and no path below it is collected. */
  lemma NamedValueIsPassedOver(a: string, b: string)
    ensures var schema := NamedExample(a);
            && Walk(schema).violations == [] && Walk(schema).keys == [At([], a)]
            && (forall others :: Has(schema, others, ANYWHERE, At(At([], a), b)))
            && !SeesAll(schema)
  {
    var schema := NamedExample(a);
    KeyOnly(a, Some(a), NotWalkable);
    forall others ensures Has(schema, others, ANYWHERE, At(At([], a), b)) { NamedHas(a, b, others); }
    SeesNot(schema, NOBODY, ANYWHERE, At(At([], a), b));
  }
}
