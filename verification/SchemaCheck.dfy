/** The schema-path check of scripts/gen-config-catalog.ts: schema keys, folded, parsed and looked up. */
module SchemaCheck {
  import opened Options
  import opened Exports
  import opened PathLookup
  import opened PathMeaning
  import opened PathPrecision
  import opened PathSharing
  import opened PathTermination
  import opened PathText
  import opened SchemaFold
  import SchemaWalk

  /** The lookup of one printed key at the config type. */
  function Verdict(world: World, mode: Mode, fuel: nat, config: Key, decl: Decl, text: string): Walk<Lookup> {
    LookupDecl(world, mode, fuel, config, decl, Steps(Parse(text)), {})
  }

  /** What the lookup answers to each printed key. */
  type Judge = string -> Walk<Lookup>

  function JudgeAt(world: World, fuel: nat, config: Key, decl: Decl): Judge {
    text => Verdict(world, SCRIPT, fuel, config, decl, text)
  }

  predicate SaysMissing(judge: Judge, key: string) {
    judge(key).Done? && judge(key).value == Missing
  }

  function Reported(judge: Judge, keys: seq<string>): seq<string> {
    if keys == [] then []
    else
      var n := |keys| - 1;
      Reported(judge, keys[..n]) + if SaysMissing(judge, keys[n]) then [keys[n]] else []
  }

  lemma {:induction false} ReportedAre(judge: Judge, keys: seq<string>, key: string)
    ensures key in Reported(judge, keys) <==> key in keys && SaysMissing(judge, key)
  {
    if keys == [] {
    } else {
      var n := |keys| - 1;
      assert keys == keys[..n] + [keys[n]];
      ReportedAre(judge, keys[..n], key);
    }
  }

  /** The loop over the folded keys. A lookup that does not end with an answer ends the check. */
  method ReportKeys(judge: Judge, keys: seq<string>) returns (reported: Option<seq<string>>)
    ensures reported.Some? <==> forall key | key in keys :: judge(key).Done?
    ensures reported.Some? ==> forall key :: key in reported.value <==> key in keys && SaysMissing(judge, key)
    ensures reported.Some? ==> reported.value == Reported(judge, keys)
  {
    var violations := [];
    for i := 0 to |keys|
      invariant forall k | 0 <= k < i :: judge(keys[k]).Done?
      invariant violations == Reported(judge, keys[..i])
    {
      assert keys[..i + 1][..i] == keys[..i];
      var walk := judge(keys[i]);
      if !walk.Done? {
        assert keys[i] in keys;
        return None;
      }
      if walk.value == Missing { violations := violations + [keys[i]]; }
    }
    assert keys[..|keys|] == keys;
    reported := Some(violations);
    forall key ensures key in violations <==> key in keys && SaysMissing(judge, key) {
      ReportedAre(judge, keys, key);
    }
  }

  datatype Report = Report(uncollected: seq<string>, missing: seq<string>)

  /**
   * The check of one package: of all folded keys it reports exactly those the lookup says the config type lacks,
   * and it names exactly the packages composed in vain.
   */
  method CheckEntry(judge: Judge, catalog: Catalog, name: string) returns (report: Option<Report>)
    requires name in catalog
    ensures report.Some? <==> forall key | FoldsKey(catalog, name, key) :: judge(key).Done?
    ensures report.Some? ==>
              forall key :: key in report.value.missing <==> FoldsKey(catalog, name, key) && SaysMissing(judge, key)
    ensures report.Some? ==>
              forall composed :: composed in report.value.uncollected <==> ComposesInVain(catalog, name, composed)
  {
    var keys, uncollected;
    ghost var order;
    keys, uncollected, order := FoldEntry(catalog, name);
    var missing := ReportKeys(judge, keys);
    report := match missing case Some(texts) => Some(Report(uncollected, texts)) case None => None;
  }

  /**
   * From schema to verdict: the key printed for a path of the schema is looked up as that path, so what the check
   * says of it is right of the path, under the conditions of the walk.
   */
  lemma SchemaKeyIsJudged(world: World, fuel: nat, config: Key, decl: Decl, schema: Schema, i: nat)
    requires Declares(world, config) == Some(decl) && i < |SchemaWalk.Walk(schema).keys|
    requires forall segment | segment in SchemaWalk.Walk(schema).keys[i] :: IsKey(segment.name)
    requires JudgeAt(world, fuel, config, decl)(PrintAll(SchemaWalk.Walk(schema).keys)[i]).Done?
    ensures var path, text := SchemaWalk.Walk(schema).keys[i], PrintAll(SchemaWalk.Walk(schema).keys)[i];
            var script := JudgeAt(world, fuel, config, decl)(text).value;
            && (TidyWorld(Listed, world) ==> RightAtKey(world, config, decl, Steps(path), script))
            && (TidyWorld(Plain, world) ==>
                  && Verdict(world, REPAIRED, fuel, config, decl, text).Done?
                  && (RightAtKey(world, config, decl, Steps(path), script)
                      <==> script == Unknown || Verdict(world, REPAIRED, fuel, config, decl, text).value == script))
  {
    var path := SchemaWalk.Walk(schema).keys[i];
    PathRoundTrip(path);
    DeclTruth(world, fuel, config, decl, Steps(path), {});
  }

  /** Where no declaration refers back to itself, the repaired walk decides when that is so. */
  lemma SchemaKeyIsRightIff(world: World, rank: Rank, fuel: nat, config: Key, decl: Decl, schema: Schema, i: nat)
    returns (more: nat)
    requires AcyclicWorld(world, rank) && Declares(world, config) == Some(decl)
    requires i < |SchemaWalk.Walk(schema).keys|
    requires forall segment | segment in SchemaWalk.Walk(schema).keys[i] :: IsKey(segment.name)
    requires JudgeAt(world, fuel, config, decl)(PrintAll(SchemaWalk.Walk(schema).keys)[i]).Done?
    ensures Ends(world, Verdict(world, PRECISE, more, config, decl, PrintAll(SchemaWalk.Walk(schema).keys)[i]))
    ensures var path, text := SchemaWalk.Walk(schema).keys[i], PrintAll(SchemaWalk.Walk(schema).keys)[i];
            var script := JudgeAt(world, fuel, config, decl)(text).value;
            var precise := Verdict(world, PRECISE, more, config, decl, text);
            precise.Done? ==>
              (RightAtKey(world, config, decl, Steps(path), script)
               <==> script == Unknown || script == precise.value)
  {
    var path := SchemaWalk.Walk(schema).keys[i];
    PathRoundTrip(path);
    more := ScriptRightIff(world, rank, fuel, config, decl, Steps(path));
  }

  /** The verdict on a printed path is the script's lookup of the path itself. */
  lemma JudgeLooksUpThePath(world: World, fuel: nat, config: Key, decl: Decl, path: Path)
    requires forall segment | segment in path :: IsKey(segment.name)
    ensures JudgeAt(world, fuel, config, decl)(Print(path))
            == LookupDecl(world, SCRIPT, fuel, config, decl, Steps(path), {})
  {
    PathRoundTrip(path);
  }

  /**
   * Where the script's walk decides, the check reports a schema's path exactly if the config type has it under no
   * interpretation.
   */
  lemma ReportsWhatIsNeverHad(world: World, rank: Rank, config: Key, decl: Decl, path: Path) returns (fuel: nat)
    requires forall segment | segment in path :: IsKey(segment.name)
    requires AcyclicWorld(world, rank) && TidyWorld(Listed, world) && Loads(world)
    requires Declares(world, config) == Some(decl) && AcyclicFor(world, SPLIT, rank)
    requires MeetsOnce(world, rank, false, config, decl)
    ensures JudgeAt(world, fuel, config, decl)(Print(path)).Done?
    ensures SaysMissing(JudgeAt(world, fuel, config, decl), Print(path)) <==>
              NeverHas(world, config, decl, Steps(path))
  {
    fuel := ScriptDecides(world, rank, config, decl, Steps(path));
    JudgeLooksUpThePath(world, fuel, config, decl, path);
  }
}
