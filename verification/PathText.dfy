/** Schema key paths as text: `parsePath` against the paths `collectValuePaths` prints. */
module PathText {
  import opened Options
  import opened PathLookup
  import Sequences
  import Splitting

  /** A member and the array hops after it. */
  datatype Segment = Segment(name: string, arrays: nat)

  function Hops(n: nat): seq<Step> {
    if n == 0 then [] else [Element] + Hops(n - 1)
  }

  function Steps(path: seq<Segment>): seq<Step> {
    if path == [] then [] else [Field(path[0].name)] + (Hops(path[0].arrays) + Steps(path[1..]))
  }

  function Brackets(n: nat): string {
    if n == 0 then "" else Brackets(n - 1) + "[]"
  }

  /** Each `array` call appends brackets to its base path. */
  function PrintSegment(segment: Segment): string {
    segment.name + Brackets(segment.arrays)
  }

  function PrintSegments(path: seq<Segment>): seq<string> {
    if path == [] then [] else [PrintSegment(path[0])] + PrintSegments(path[1..])
  }

  /** A path has a first key. */
  type Path = path: seq<Segment> | path != [] witness [Segment("", 0)]

  /** Each object property appends a dot and its key. */
  function Print(path: Path): string {
    Splitting.Join(PrintSegments(path), '.')
  }

  predicate EndsInBrackets(s: string) {
    |s| >= 2 && s[|s| - 2] == '[' && s[|s| - 1] == ']'
  }

  /** The inner loop of `parsePath`. */
  function Strip(s: string, arrays: nat): Segment {
    if EndsInBrackets(s) then Strip(s[..|s| - 2], arrays + 1) else Segment(s, arrays)
  }

  function ParseAll(parts: seq<string>): seq<Segment> {
    if parts == [] then [] else ParseAll(parts[..|parts| - 1]) + [Strip(parts[|parts| - 1], 0)]
  }

  function Parse(text: string): seq<Segment> {
    ParseAll(Splitting.Split(text, '.'))
  }

  method ParsePath(text: string) returns (steps: seq<Step>)
    ensures steps == Steps(Parse(text))
  {
    steps := [];
    var parts := Splitting.Split(text, '.');
    for i := 0 to |parts|
      invariant steps == Steps(ParseAll(parts[..i]))
    {
      var name, arrays: nat := parts[i], 0;
      while EndsInBrackets(name)
        invariant Strip(name, arrays) == Strip(parts[i], 0)
        decreases |name|
      {
        name := name[..|name| - 2];
        arrays := arrays + 1;
      }
      assert parts[..i + 1][..i] == parts[..i];
      StepsSnoc(ParseAll(parts[..i]), Segment(name, arrays));
      steps := steps + [Field(name)];
      ghost var before := steps;
      for k := 0 to arrays
        invariant steps == before + Hops(k)
      {
        HopsSnoc(k);
        steps := steps + [Element];
      }
    }
    assert parts[..|parts|] == parts;
  }

  lemma {:induction false} HopsSnoc(n: nat)
    ensures Hops(n + 1) == Hops(n) + [Element]
  {
    if n == 0 {
    } else {
      HopsSnoc(n - 1);
    }
  }

  lemma {:induction false} StepsSnoc(path: seq<Segment>, last: Segment)
    ensures Steps(path + [last]) == (Steps(path) + [Field(last.name)]) + Hops(last.arrays)
  {
    if path == [] {
      assert path + [last] == [last];
    } else {
      assert (path + [last])[1..] == path[1..] + [last];
      StepsSnoc(path[1..], last);
    }
  }

  /** A key the path syntax can carry. */
  predicate IsKey(name: string) {
    '.' !in name && !EndsInBrackets(name)
  }

  lemma StripOnce(s: string, extra: nat)
    ensures Strip(s + "[]", extra) == Strip(s, extra + 1)
  {
    assert (s + "[]")[..|s + "[]"| - 2] == s;
  }

  lemma {:induction false} StripPrinted(name: string, n: nat, extra: nat)
    ensures Strip(name + Brackets(n), extra) == Strip(name, extra + n)
  {
    if n == 0 {
      assert name + Brackets(n) == name;
    } else {
      Sequences.Associate(name, Brackets(n - 1), "[]");
      StripOnce(name + Brackets(n - 1), extra);
      StripPrinted(name, n - 1, extra + 1);
    }
  }

  lemma {:induction false} StripNeverEndsInBrackets(s: string, arrays: nat)
    ensures !EndsInBrackets(Strip(s, arrays).name)
  {
    if !EndsInBrackets(s) {
    } else {
      StripNeverEndsInBrackets(s[..|s| - 2], arrays + 1);
    }
  }

  lemma {:induction false} BracketsHaveNoDot(n: nat)
    ensures '.' !in Brackets(n)
  {
    if n == 0 {
    } else {
      BracketsHaveNoDot(n - 1);
    }
  }

  lemma {:induction false} PrintedIsFree(path: seq<Segment>)
    ensures |PrintSegments(path)| == |path|
    ensures Splitting.Free(PrintSegments(path), '.') <==> forall segment | segment in path :: '.' !in segment.name
  {
    if path == [] {
    } else {
      PrintedIsFree(path[1..]);
      BracketsHaveNoDot(path[0].arrays);
      assert path == [path[0]] + path[1..];
      Splitting.FreeCons(PrintSegment(path[0]), PrintSegments(path[1..]), '.');
    }
  }

  lemma {:induction false} ParseAllSnoc(parts: seq<string>, first: string)
    ensures ParseAll([first] + parts) == [Strip(first, 0)] + ParseAll(parts)
  {
    if parts == [] {
      assert [first] + parts == [first];
    } else {
      var n := |parts| - 1;
      assert ([first] + parts)[..n + 1] == [first] + parts[..n];
      ParseAllSnoc(parts[..n], first);
    }
  }

  lemma {:induction false} PartsParse(path: seq<Segment>)
    ensures ParseAll(PrintSegments(path)) == path <==> forall segment | segment in path :: !EndsInBrackets(segment.name)
  {
    if path == [] {
    } else {
      var first, rest := path[0], path[1..];
      assert path == [first] + rest;
      PartsParse(rest);
      ParseAllSnoc(PrintSegments(rest), PrintSegment(first));
      StripPrinted(first.name, first.arrays, 0);
      StripNeverEndsInBrackets(first.name, first.arrays);
    }
  }

  lemma {:induction false} ParsedNamesHaveNoDot(parts: seq<string>)
    requires Splitting.Free(parts, '.')
    ensures forall segment | segment in ParseAll(parts) :: '.' !in segment.name
  {
    if parts == [] {
    } else {
      var n := |parts| - 1;
      ParsedNamesHaveNoDot(parts[..n]);
      StripKeepsFree(parts[n], 0);
    }
  }

  lemma {:induction false} StripKeepsFree(s: string, arrays: nat)
    requires '.' !in s
    ensures '.' !in Strip(s, arrays).name
  {
    if !EndsInBrackets(s) {
    } else {
      StripKeepsFree(s[..|s| - 2], arrays + 1);
    }
  }

  /** A printed path parses back exactly when every key is free of dots and does not end in brackets. */
  lemma PathRoundTrip(path: Path)
    ensures Parse(Print(path)) == path <==> forall segment | segment in path :: IsKey(segment.name)
  {
    var parts := PrintSegments(path);
    PrintedIsFree(path);
    PartsParse(path);
    if Splitting.Free(parts, '.') {
      Splitting.SplitOfJoin(parts, '.');
    } else {
      Splitting.JoinOfSplit(Print(path), '.');
      ParsedNamesHaveNoDot(Splitting.Split(Print(path), '.'));
    }
  }

  /** A schema expression, unwrapped: a method call with what it hangs off, or anything that is no method call. */
  datatype Schema = Call(form: Form, base: Base) | NotWalkable

  /** A call hangs off the schema library, off another call, or off anything else. The walk sees only calls. */
  datatype Base = Library | Elsewhere | Of(call: Schema)

  /** A method with an argument of the shape the walk looks into; any other call is `OtherForm`. */
  datatype Form =
    | ObjectForm(properties: seq<SchemaProperty>)
    | ArrayForm(element: Schema)
    | IntersectForm(parts: seq<Part>)
    | UnionForm(parts: seq<Part>)
    | OtherForm(name: string)

  /** An assigned property carries its name as the walk reads it, and its key, which a computed name does not show. */
  datatype SchemaProperty =
    | Assigned(written: string, key: Option<string>, value: Schema)
    | Shorthand(name: string)
    | OtherProperty(text: string)

  /** An element of a part list: `X.Config` of an imported package, a call, or anything else. */
  datatype Part = Composed(specifier: string) | Inline(schema: Schema) | OtherPart(text: string)

  function Deeper(base: Path, key: string): Path {
    base + [Segment(key, 0)]
  }

  function Hopped(base: Path): Path {
    var n := |base| - 1;
    base[..n] + [Segment(base[n].name, base[n].arrays + 1)]
  }

  /** The member paths below a schema value standing at `base`, each array call being one hop. */
  function ValueMembers(value: Schema, base: Path): seq<Path>
    decreases value, 0
  {
    match value
    case Call(ObjectForm(properties), _) => PropertiesMembers(properties, base)
    case Call(ArrayForm(element), _) => ValueMembers(element, Hopped(base))
    case Call(_, Of(inner)) => ValueMembers(inner, base)
    case _ => []
  }

  function PropertyMembers(property: SchemaProperty, base: Path): seq<Path>
    decreases property, 0
  {
    match property
    case Assigned(key, _, value) => [Deeper(base, key)] + ValueMembers(value, Deeper(base, key))
    case _ => []
  }

  function PropertiesMembers(properties: seq<SchemaProperty>, base: Path): seq<Path>
    decreases properties, 1
  {
    if properties == [] then []
    else
      var n := |properties| - 1;
      PropertiesMembers(properties[..n], base) + PropertyMembers(properties[n], base)
  }

  lemma PrintOne(segment: Segment)
    ensures Print([segment]) == PrintSegment(segment)
  {
    assert PrintSegments([segment]) == [PrintSegment(segment)];
  }

  lemma PlainSegment(key: string)
    ensures PrintSegment(Segment(key, 0)) == key
  {
    assert Brackets(0) == "";
  }

  function TopPath(key: string): (path: Path)
    ensures Print(path) == key
  {
    PlainSegment(key);
    PrintOne(Segment(key, 0));
    [Segment(key, 0)]
  }

  /** The member paths of a property of the whole schema, where a shorthand is a key as well. */
  function TopMembers(property: SchemaProperty): seq<Path> {
    match property
    case Assigned(key, _, value) => [TopPath(key)] + ValueMembers(value, TopPath(key))
    case Shorthand(key) => [TopPath(key)]
    case OtherProperty(_) => []
  }

  function PrintAll(paths: seq<Path>): (texts: seq<string>)
    ensures |texts| == |paths| && forall i | 0 <= i < |paths| :: texts[i] == Print(paths[i])
  {
    if paths == [] then [] else [Print(paths[0])] + PrintAll(paths[1..])
  }

  lemma PrintAllJoins(a: seq<Path>, b: seq<Path>)
    ensures PrintAll(a + b) == PrintAll(a) + PrintAll(b)
  {
    forall i | 0 <= i < |a + b| ensures PrintAll(a + b)[i] == (PrintAll(a) + PrintAll(b))[i] {
    }
  }

  lemma {:induction false} PrintSegmentsSnoc(path: seq<Segment>, last: Segment)
    ensures PrintSegments(path + [last]) == PrintSegments(path) + [PrintSegment(last)]
  {
    if path == [] {
      assert path + [last] == [last];
    } else {
      assert (path + [last])[1..] == path[1..] + [last];
      PrintSegmentsSnoc(path[1..], last);
    }
  }

  lemma PrintSnoc(path: Path, last: Segment)
    ensures Print(path + [last]) == Print(path) + ("." + PrintSegment(last))
  {
    PrintSegmentsSnoc(path, last);
    Splitting.JoinSnoc(PrintSegments(path), PrintSegment(last), '.');
  }

  /** A property appends a dot and its key to the printed base. */
  lemma PrintDeeper(base: Path, key: string)
    ensures Print(Deeper(base, key)) == (Print(base) + ".") + key
  {
    PrintSnoc(base, Segment(key, 0));
    PlainSegment(key);
    Sequences.Associate(Print(base), ".", key);
  }

  lemma HoppedSegment(segment: Segment)
    ensures PrintSegment(Segment(segment.name, segment.arrays + 1)) == PrintSegment(segment) + "[]"
  {
    Sequences.Associate(segment.name, Brackets(segment.arrays), "[]");
  }

  /** An array call appends brackets to it. */
  lemma PrintHopped(base: Path)
    ensures Print(Hopped(base)) == Print(base) + "[]"
  {
    var n := |base| - 1;
    var last := base[n];
    var hop := Segment(last.name, last.arrays + 1);
    HoppedSegment(last);
    assert base == base[..n] + [last];
    if n == 0 {
      assert base == [last] && Hopped(base) == [hop];
      PrintOne(last);
      PrintOne(hop);
    } else {
      PrintSnoc(base[..n], last);
      PrintSnoc(base[..n], hop);
      Sequences.Associate(".", PrintSegment(last), "[]");
      Sequences.Associate(Print(base[..n]), "." + PrintSegment(last), "[]");
    }
  }

  /** Pushing a key and then the keys below it. */
  lemma Pushed(keys: seq<string>, done: seq<Path>, first: Path, rest: seq<Path>)
    ensures ((keys + PrintAll(done)) + [Print(first)]) + PrintAll(rest) == keys + PrintAll(done + ([first] + rest))
  {
    PrintAllJoins([first], rest);
    PrintAllJoins(done, [first] + rest);
    assert PrintAll([first]) == [Print(first)];
    Sequences.Regroup(keys, PrintAll(done), [Print(first)], PrintAll(rest));
  }

  lemma PropertiesSnoc(properties: seq<SchemaProperty>, base: Path, i: nat)
    requires i < |properties|
    ensures PropertiesMembers(properties[..i + 1], base)
            == PropertiesMembers(properties[..i], base) + PropertyMembers(properties[i], base)
  {
    assert properties[..i + 1][..i] == properties[..i];
  }

  /** `collectValuePaths`: the printed base is all it knows of where it stands. */
  method CollectValuePaths(value: Schema, base: string, ghost path: Path, keys: seq<string>)
    returns (more: seq<string>)
    requires base == Print(path)
    ensures more == keys + PrintAll(ValueMembers(value, path))
    decreases value, 0
  {
    more := keys;
    match value {
      case Call(ObjectForm(properties), _) =>
        more := CollectPropertyPaths(properties, base, path, keys);
      case Call(ArrayForm(element), _) =>
        PrintHopped(path);
        more := CollectValuePaths(element, base + "[]", Hopped(path), keys);
      case Call(_, Of(inner)) =>
        more := CollectValuePaths(inner, base, path, keys);
      case _ =>
    }
  }

  /** Its loop over the properties of an `object` call. */
  method CollectPropertyPaths(properties: seq<SchemaProperty>, base: string, ghost path: Path, keys: seq<string>)
    returns (more: seq<string>)
    requires base == Print(path)
    ensures more == keys + PrintAll(PropertiesMembers(properties, path))
    decreases properties, 1
  {
    more := keys;
    for i := 0 to |properties|
      invariant more == keys + PrintAll(PropertiesMembers(properties[..i], path))
    {
      PropertiesSnoc(properties, path, i);
      match properties[i] {
        case Assigned(key, _, inner) =>
          ghost var deeper := Deeper(path, key);
          PrintDeeper(path, key);
          Pushed(keys, PropertiesMembers(properties[..i], path), deeper, ValueMembers(inner, deeper));
          more := CollectValuePaths(inner, base + "." + key, deeper, more + [base + "." + key]);
        case _ =>
      }
    }
    assert properties[..|properties|] == properties;
  }
}
