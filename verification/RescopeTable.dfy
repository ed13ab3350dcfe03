/** The repository's own rename table meets what the round trip and idempotence need, in every file. */
module RescopeTable {
  import opened Options
  import opened RescopeCells
  import opened RescopeRules
  import opened RescopeLine
  import opened RescopeText
  import opened RescopeFile
  import Splitting

  const RENAMES: seq<Rename> := [
    Rename("cordis", "@deepseek-ai/cordis"),
    Rename("cosmokit", "@deepseek-ai/cosmokit"),
    Rename("schemastery", "@deepseek-ai/schemastery"),
    Rename("@cordisjs/plugin-loader", "@deepseek-ai/cordis-plugin-loader"),
    Rename("@cordisjs/plugin-include", "@deepseek-ai/cordis-plugin-include"),
    Rename("@cordisjs/plugin-group", "@deepseek-ai/cordis-plugin-group"),
    Rename("@cordisjs/plugin-timer", "@deepseek-ai/cordis-plugin-timer"),
    Rename("@cordisjs/plugin-hmr", "@deepseek-ai/cordis-plugin-hmr"),
    Rename("@cordisjs/plugin-logger-console", "@deepseek-ai/cordis-plugin-logger-console")
  ]

  predicate Word(c: char) {
    'a' <= c <= 'z' || c == '-' || c == '@' || c == '/'
  }

  /** Plain letters, and a slash only at the end of a scope that is not itself the length of a name. */
  predicate Plain(name: string) {
    name != "" && |name| !in {9, 12} && forall i | 0 <= i < |name| :: Word(name[i]) && (name[i] == '/' ==> i in {9, 12})
  }

  lemma PlainIsName(name: string)
    requires Plain(name)
    ensures IsName(name)
  {
    assert forall c | c in name :: Word(c);
  }

  lemma PlainApart(x: string, y: string)
    requires Plain(x) && Plain(y) && x != y
    ensures Apart(x, y)
  {
    NoLongerPath(x, y);
    NoLongerPath(y, x);
  }

  lemma NoLongerPath(x: string, y: string)
    requires Plain(x) && Plain(y)
    ensures !StartsWith(y, x + "/")
  {
    if |x| < |y| {
      assert (x + "/")[|x|] == '/';
      assert y[|x|] != '/';
      assert y[..|x| + 1][|x|] == y[|x|];
    }
  }

  lemma UpstreamNamesArePlain()
    ensures Plain("cordis")
    ensures Plain("cosmokit")
    ensures Plain("schemastery")
    ensures Plain("@cordisjs/plugin-loader")
    ensures Plain("@cordisjs/plugin-include")
  {
  }

  lemma UpstreamPluginsArePlain()
    ensures Plain("@cordisjs/plugin-group")
    ensures Plain("@cordisjs/plugin-timer")
    ensures Plain("@cordisjs/plugin-hmr")
    ensures Plain("@cordisjs/plugin-logger-console")
  {
  }

  lemma ScopedFrameworkIsPlain()
    ensures Plain("@deepseek-ai/cordis")
    ensures Plain("@deepseek-ai/cosmokit")
    ensures Plain("@deepseek-ai/schemastery")
  {
  }

  lemma ScopedPluginsArePlain()
    ensures Plain("@deepseek-ai/cordis-plugin-loader")
    ensures Plain("@deepseek-ai/cordis-plugin-include")
    ensures Plain("@deepseek-ai/cordis-plugin-group")
  {
  }

  lemma ScopedToolsArePlain()
    ensures Plain("@deepseek-ai/cordis-plugin-timer")
    ensures Plain("@deepseek-ai/cordis-plugin-hmr")
    ensures Plain("@deepseek-ai/cordis-plugin-logger-console")
  {
  }

  lemma NamesArePlain(i: nat)
    requires i < |RENAMES|
    ensures Plain(RENAMES[i].upstream) && Plain(RENAMES[i].scoped)
  {
    UpstreamNamesArePlain();
    UpstreamPluginsArePlain();
    ScopedFrameworkIsPlain();
    ScopedPluginsArePlain();
    ScopedToolsArePlain();
  }

  lemma NamesDiffer(i: nat, j: nat)
    requires i < |RENAMES| && j < |RENAMES|
    ensures RENAMES[i].upstream != RENAMES[j].scoped
    ensures i != j ==> RENAMES[i].upstream != RENAMES[j].upstream && RENAMES[i].scoped != RENAMES[j].scoped
  {
  }

  lemma TableNamesApart(i: nat, j: nat)
    requires i < |RENAMES| && j < |RENAMES|
    ensures Apart(RENAMES[i].upstream, RENAMES[j].scoped)
    ensures i != j ==> Apart(RENAMES[i].upstream, RENAMES[j].upstream) && Apart(RENAMES[i].scoped, RENAMES[j].scoped)
  {
    NamesArePlain(i);
    NamesArePlain(j);
    NamesDiffer(i, j);
    PlainApart(RENAMES[i].upstream, RENAMES[j].scoped);
    if i != j {
      PlainApart(RENAMES[i].upstream, RENAMES[j].upstream);
      PlainApart(RENAMES[i].scoped, RENAMES[j].scoped);
    }
  }

  /** No name of the repository's table is another of its names, or a path prefix of it. */
  lemma TableIsSeparated()
    ensures Separated(RENAMES)
  {
    forall i | 0 <= i < |RENAMES| ensures IsName(RENAMES[i].upstream) && IsName(RENAMES[i].scoped) {
      NamesArePlain(i);
      PlainIsName(RENAMES[i].upstream);
      PlainIsName(RENAMES[i].scoped);
    }
    forall i, j | 0 <= i < |RENAMES| && 0 <= j < |RENAMES| ensures NamesApart(RENAMES, i, j) {
      TableNamesApart(i, j);
    }
  }

  /** `--apply` then `--apply --reverse` is the identity on every file without scoped names. */
  lemma TableRoundTrip(text: string, file: string, skips: seq<GenericSkip>)
    requires HoldsNone(text, file, ScopedNames(RENAMES))
    ensures AllValid(Active(file, Patterns(RENAMES, false), skips))
            && AllValid(Active(file, Patterns(RENAMES, true), skips))
    ensures var forward := FileRewritten(text, file, Active(file, Patterns(RENAMES, false), skips));
      FileRewritten(forward, file, Active(file, Patterns(RENAMES, true), skips)) == text
  {
    TableIsSeparated();
    SeparatedRoundTrip(text, file, RENAMES, skips);
  }

  /** Two tokens of one name with a quote between them. */
  const SHARED_LINE := "'cordis'cordis'"

  lemma SharedLineIsShared()
    ensures SharedQuote(SHARED_LINE, "cordis")
  {
    var tail := "'cordis'";
    assert SHARED_LINE[1..] == "cordis'cordis'";
    assert SHARED_LINE[1..][..6] == "cordis" && SHARED_LINE[1..][6..] == "'cordis'";
    assert TokenMatch(SHARED_LINE, "cordis") == Some(8);
    assert SHARED_LINE[7..] == tail;
    assert tail[1..] == "cordis'" && tail[1..][..6] == "cordis" && tail[1..][6..] == "'";
    assert TokenMatch(tail, "cordis") == Some(8);
  }

  lemma CordisIsActive(file: string, skips: seq<GenericSkip>)
    requires !Skipped(file, Pattern("cordis", "cordis", "@deepseek-ai/cordis"), skips)
    ensures "cordis" in Sources(Active(file, Patterns(RENAMES, false), skips))
  {
    var all := Orient(RENAMES, false);
    var rule := Rule("cordis", "@deepseek-ai/cordis");
    assert all[0] == Pattern("cordis", "cordis", "@deepseek-ai/cordis");
    assert rule in Bag(all, file, skips, false);
    BagOfSorted(all, file, skips, false);
    BagOfActive(Patterns(RENAMES, false), file, skips);
    assert rule in multiset(Active(file, Patterns(RENAMES, false), skips));
  }

  lemma SharedLineIsUnsettled(file: string, names: set<string>)
    requires !EndsWith(file, ".md") && "cordis" in names
    ensures !SharesNoQuote(SHARED_LINE, file, names)
  {
    Splitting.SplitOfJoin([SHARED_LINE], '\n');
    SharedLineIsShared();
    var lines := Lines(SHARED_LINE);
    assert lines == [SHARED_LINE] && Eligible(lines, file, 0);
  }

  /** With the repository's own table, a second run changes what the first one left of the shared quote. */
  lemma SecondRunChanges(file: string, skips: seq<GenericSkip>)
    requires !EndsWith(file, ".md")
    requires !Skipped(file, Pattern("cordis", "cordis", "@deepseek-ai/cordis"), skips)
    ensures AllValid(Active(file, Patterns(RENAMES, false), skips)) && SharedQuote(SHARED_LINE, "cordis")
    ensures var rules := Active(file, Patterns(RENAMES, false), skips);
            var once := FileRewritten(SHARED_LINE, file, rules);
            FileRewritten(once, file, rules) != once
  {
    var rules := Active(file, Patterns(RENAMES, false), skips);
    TableIsSeparated();
    SeparatedIsCompatible(RENAMES, file, skips, false);
    SharedLineIsShared();
    CordisIsActive(file, skips);
    SharedLineIsUnsettled(file, Sources(rules));
    FileIdempotent(SHARED_LINE, file, rules);
  }
}
