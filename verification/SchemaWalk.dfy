/** `walkSchemaExpr` of scripts/gen-config-catalog.ts: the key paths of a schema, and what it cannot read of one. */
module SchemaWalk {
  import opened PathText
  import Sequences

  datatype Violation =
    | NoSchemaCall
    | BadProperty(text: string)
    | BadElement(text: string)
    | NoWalkableBase(name: string)

  /** What a walk collects. */
  datatype Findings = Findings(keys: seq<Path>, composes: seq<string>, violations: seq<Violation>)

  const NOTHING_FOUND := Findings([], [], [])

  function Both(a: Findings, b: Findings): Findings {
    Findings(a.keys + b.keys, a.composes + b.composes, a.violations + b.violations)
  }

  /** The name of a call the walk does not look into. */
  function FormName(form: Form): string
    requires form.ArrayForm? || form.OtherForm?
  {
    if form.ArrayForm? then "array" else form.name
  }

  function WalkProperty(property: SchemaProperty): Findings {
    match property
    case OtherProperty(text) => NOTHING_FOUND.(violations := [BadProperty(text)])
    case _ => NOTHING_FOUND.(keys := TopMembers(property))
  }

  function WalkProperties(properties: seq<SchemaProperty>): Findings {
    if properties == [] then NOTHING_FOUND
    else
      var n := |properties| - 1;
      Both(WalkProperties(properties[..n]), WalkProperty(properties[n]))
  }

  function Walk(schema: Schema): Findings
    decreases schema, 0
  {
    match schema
    case NotWalkable => NOTHING_FOUND.(violations := [NoSchemaCall])
    case Call(ObjectForm(properties), _) => WalkProperties(properties)
    case Call(IntersectForm(parts), _) => WalkParts(parts, false)
    case Call(UnionForm(parts), _) => WalkParts(parts, true)
    case Call(_, Of(base)) => Walk(base)
    case Call(form, _) => NOTHING_FOUND.(violations := [NoWalkableBase(FormName(form))])
  }

  function WalkPart(part: Part, union: bool): Findings
    decreases part, 0
  {
    match part
    case Inline(schema) => Walk(schema)
    case Composed(specifier) =>
      if union then NOTHING_FOUND else NOTHING_FOUND.(composes := [specifier])
    case OtherPart(text) =>
      if union then NOTHING_FOUND else NOTHING_FOUND.(violations := [BadElement(text)])
  }

  function WalkParts(parts: seq<Part>, union: bool): Findings
    decreases parts, 1
  {
    if parts == [] then NOTHING_FOUND
    else
      var n := |parts| - 1;
      Both(WalkParts(parts[..n], union), WalkPart(parts[n], union))
  }

  /** The three lists the closures of `walkSchemaExpr` push to. */
  datatype Lists = Lists(keys: seq<string>, composes: seq<string>, violations: seq<Violation>)

  function Push(lists: Lists, found: Findings): Lists {
    Lists(lists.keys + PrintAll(found.keys), lists.composes + found.composes, lists.violations + found.violations)
  }

  /** A violation names the call that has no walkable base. */
  lemma BaselessCallIsNamed(element: Schema, name: string, base: Base)
    requires !base.Of?
    ensures Walk(Call(ArrayForm(element), base)) == Findings([], [], [NoWalkableBase("array")])
    ensures Walk(Call(OtherForm(name), base)) == Findings([], [], [NoWalkableBase(name)])
  {
  }

  lemma PushedNothing(lists: Lists)
    ensures Push(lists, NOTHING_FOUND) == lists
  {
  }

  lemma PushedBoth(lists: Lists, a: Findings, b: Findings)
    ensures Push(Push(lists, a), b) == Push(lists, Both(a, b))
  {
    PrintAllJoins(a.keys, b.keys);
    Sequences.Associate(lists.keys, PrintAll(a.keys), PrintAll(b.keys));
    Sequences.Associate(lists.composes, a.composes, b.composes);
    Sequences.Associate(lists.violations, a.violations, b.violations);
  }

  lemma PushedProperty(lists: Lists, properties: seq<SchemaProperty>, i: nat)
    requires i < |properties|
    ensures Push(lists, WalkProperties(properties[..i + 1]))
            == Push(Push(lists, WalkProperties(properties[..i])), WalkProperty(properties[i]))
  {
    assert properties[..i + 1][..i] == properties[..i];
    PushedBoth(lists, WalkProperties(properties[..i]), WalkProperty(properties[i]));
  }

  lemma PushedPart(lists: Lists, parts: seq<Part>, union: bool, i: nat)
    requires i < |parts|
    ensures Push(lists, WalkParts(parts[..i + 1], union))
            == Push(Push(lists, WalkParts(parts[..i], union)), WalkPart(parts[i], union))
  {
    assert parts[..i + 1][..i] == parts[..i];
    PushedBoth(lists, WalkParts(parts[..i], union), WalkPart(parts[i], union));
  }

  lemma PushedKey(keys: seq<string>, key: string, rest: seq<Path>)
    ensures (keys + [key]) + PrintAll(rest) == keys + PrintAll([TopPath(key)] + rest)
  {
    PrintAllJoins([TopPath(key)], rest);
    assert PrintAll([TopPath(key)]) == [key];
    Sequences.Associate(keys, [key], PrintAll(rest));
  }

  class Walker {
    var keys: seq<string>
    var composes: seq<string>
    var violations: seq<Violation>

    constructor ()
      ensures Contents() == Lists([], [], [])
    {
      keys, composes, violations := [], [], [];
    }

    function Contents(): Lists
      reads this
    {
      Lists(keys, composes, violations)
    }

    method VisitProperty(property: SchemaProperty)
      modifies this
      ensures Contents() == Push(old(Contents()), WalkProperty(property))
    {
      match property {
        case Assigned(key, _, value) =>
          PushedKey(keys, key, ValueMembers(value, TopPath(key)));
          keys := CollectValuePaths(value, key, TopPath(key), keys + [key]);
        case Shorthand(key) =>
          PushedKey(keys, key, []);
          keys := keys + [key];
        case OtherProperty(text) => violations := violations + [BadProperty(text)];
      }
    }

    method VisitPart(part: Part, union: bool)
      modifies this
      ensures Contents() == Push(old(Contents()), WalkPart(part, union))
      decreases part, 0
    {
      match part {
        case Inline(schema) => Visit(schema);
        case Composed(specifier) => if !union { composes := composes + [specifier]; }
        case OtherPart(text) => if !union { violations := violations + [BadElement(text)]; }
      }
    }

    method VisitParts(parts: seq<Part>, union: bool)
      modifies this
      ensures Contents() == Push(old(Contents()), WalkParts(parts, union))
      decreases parts, 1
    {
      PushedNothing(Contents());
      for i := 0 to |parts|
        invariant Contents() == Push(old(Contents()), WalkParts(parts[..i], union))
      {
        PushedPart(old(Contents()), parts, union, i);
        VisitPart(parts[i], union);
      }
      assert parts[..|parts|] == parts;
    }

    method VisitProperties(properties: seq<SchemaProperty>)
      modifies this
      ensures Contents() == Push(old(Contents()), WalkProperties(properties))
    {
      PushedNothing(Contents());
      for i := 0 to |properties|
        invariant Contents() == Push(old(Contents()), WalkProperties(properties[..i]))
      {
        PushedProperty(old(Contents()), properties, i);
        VisitProperty(properties[i]);
      }
      assert properties[..|properties|] == properties;
    }

    method Visit(schema: Schema)
      modifies this
      ensures Contents() == Push(old(Contents()), Walk(schema))
      decreases schema, 0
    {
      match schema {
        case NotWalkable => violations := violations + [NoSchemaCall];
        case Call(ObjectForm(properties), _) => VisitProperties(properties);
        case Call(IntersectForm(parts), _) => VisitParts(parts, false);
        case Call(UnionForm(parts), _) => VisitParts(parts, true);
        case Call(_, Of(base)) => Visit(base);
        case Call(form, _) => violations := violations + [NoWalkableBase(FormName(form))];
      }
    }
  }

  method WalkSchemaExpr(schema: Schema)
    returns (keys: seq<string>, composes: seq<string>, violations: seq<Violation>)
    ensures keys == PrintAll(Walk(schema).keys)
    ensures composes == Walk(schema).composes && violations == Walk(schema).violations
  {
    var walker := new Walker();
    walker.Visit(schema);
    keys, composes, violations := walker.keys, walker.composes, walker.violations;
  }
}
