/** `rewriteMarkdown` of scripts/project-doc-site.ts: the scanned destinations of a text's links, replaced. */
module MarkdownRewrite {
  import opened Options
  import opened MarkdownDestination
  import opened MarkdownSplice

  /** A node to be rewritten: its slice of the text, and the destination it is to have. */
  datatype Link = Link(start: nat, end: nat, definition: bool, value: string)

  function Raw(source: string, link: Link): string
    requires link.start <= link.end <= |source|
  {
    source[link.start..link.end]
  }

  predicate InText(source: string, links: seq<Link>) {
    forall k | 0 <= k < |links| :: links[k].start <= links[k].end <= |source|
  }

  function Scan(source: string, link: Link): Scan
    requires link.start <= link.end <= |source|
  {
    Scanned(Raw(source, link), link.definition)
  }

  /** `markdownDestination` and the value pushed with it. */
  function Found(source: string, link: Link): Replacement
    requires link.start <= link.end <= |source| && Scan(source, link).Range?
  {
    Replacement(link.start + Scan(source, link).start, link.start + Scan(source, link).end, link.value)
  }

  /** The first links all have a destination to scan. */
  predicate ScanUpTo(source: string, links: seq<Link>, n: nat)
    requires InText(source, links) && n <= |links|
  {
    forall k | 0 <= k < n :: Scan(source, links[k]).Range?
  }

  predicate AllScan(source: string, links: seq<Link>)
    requires InText(source, links)
  {
    ScanUpTo(source, links, |links|)
  }

  function FoundUpTo(source: string, links: seq<Link>, n: nat): (found: seq<Replacement>)
    requires InText(source, links) && n <= |links| && ScanUpTo(source, links, n)
    ensures |found| == n
  {
    if n == 0 then [] else FoundUpTo(source, links, n - 1) + [Found(source, links[n - 1])]
  }

  function Replacements(source: string, links: seq<Link>): (found: seq<Replacement>)
    requires InText(source, links) && AllScan(source, links)
    ensures |found| == |links|
  {
    FoundUpTo(source, links, |links|)
  }

  /** `markdownDestination` for one node; `None` is the error of a scan that finds no destination. */
  method Locate(source: string, link: Link) returns (found: Option<Replacement>)
    requires link.start <= link.end <= |source|
    ensures found.Some? <==> Scan(source, link).Range?
    ensures found.Some? ==> found.value == Found(source, link)
  {
    var range := DestinationRange(source[link.start..link.end], link.definition);
    if !range.Range? { return None; }
    found := Some(Replacement(link.start + range.start, link.start + range.end, link.value));
  }

  lemma FoundNext(source: string, links: seq<Link>, i: nat)
    requires InText(source, links) && i < |links| && ScanUpTo(source, links, i) && Scan(source, links[i]).Range?
    ensures ScanUpTo(source, links, i + 1)
    ensures FoundUpTo(source, links, i + 1) == FoundUpTo(source, links, i) + [Found(source, links[i])]
  {
  }

  /** What visiting the nodes collects. */
  method Collect(source: string, links: seq<Link>) returns (replacements: Option<seq<Replacement>>)
    requires InText(source, links)
    ensures replacements.Some? <==> AllScan(source, links)
    ensures replacements.Some? ==> replacements.value == Replacements(source, links)
  {
    var all: seq<Replacement> := [];
    for i := 0 to |links|
      invariant ScanUpTo(source, links, i) && all == FoundUpTo(source, links, i)
    {
      var found := Locate(source, links[i]);
      if found.None? { return None; }
      FoundNext(source, links, i);
      all := all + [found.value];
    }
    replacements := Some(all);
  }

  method RewriteMarkdown(source: string, links: seq<Link>) returns (projected: Option<string>)
    requires InText(source, links)
    ensures projected.Some? <==> AllScan(source, links)
    ensures projected.Some? ==> projected.value == ReplaceAll(source, BackToFront(Replacements(source, links)))
  {
    var replacements := Collect(source, links);
    if replacements.None? { return None; }
    var text := Project(source, replacements.value);
    projected := Some(text);
  }

  lemma {:induction false} AngleFromForward(s: string, i: nat)
    ensures AngleFrom(s, i).Some? ==> i <= AngleFrom(s, i).value < |s|
    decreases |s| - i
  {
    if i >= |s| || s[i] == '>' {
    } else {
      AngleFromForward(s, if s[i] == '\\' then i + 2 else i + 1);
    }
  }

  lemma DestinationIsInside(s: string, start: nat)
    requires start <= |s| && DestinationFrom(s, start).Range?
    ensures var r := DestinationFrom(s, start); start <= r.start <= r.end <= |s|
  {
    if start < |s| && s[start] == '<' {
      AngleFromForward(s, start + 1);
    } else {
      BareGoesForward(s, start, 0);
    }
  }

  lemma {:induction false} IndexIsInside(s: string, c: char, i: nat)
    requires i <= |s|
    ensures IndexFrom(s, c, i).Some? ==> i <= IndexFrom(s, c, i).value < |s|
    decreases |s| - i
  {
    if i == |s| || s[i] == c {
    } else {
      IndexIsInside(s, c, i + 1);
    }
  }

  /** What the scanner returns lies in the slice, behind the label. */
  lemma ScanIsBehindLabel(raw: string, definition: bool)
    requires Scanned(raw, definition).Range?
    ensures LabelEndOf(raw).Some?
    ensures var r := Scanned(raw, definition); LabelEndOf(raw).value < r.start <= r.end <= |raw|
  {
    var closing := LabelEndOf(raw).value;
    if definition {
      IndexIsInside(raw, ':', closing + 1);
      DestinationIsInside(raw, SkipSpace(raw, IndexFrom(raw, ':', closing + 1).value + 1));
    } else {
      DestinationIsInside(raw, SkipSpace(raw, closing + 2));
    }
  }

  /** A node inside the label of another, as the scanner delimits it. */
  predicate InLabel(source: string, inner: Link, outer: Link)
    requires outer.start <= outer.end <= |source|
  {
    && LabelEndOf(Raw(source, outer)).Some?
    && inner.end <= outer.start + LabelEndOf(Raw(source, outer)).value
  }

  /** Parsed nodes are disjoint, or one stands in the other's label. */
  predicate Nested(source: string, a: Link, b: Link)
    requires a.start <= a.end <= |source| && b.start <= b.end <= |source|
  {
    a.end <= b.start || b.end <= a.start || InLabel(source, a, b) || InLabel(source, b, a)
  }

  predicate AllNested(source: string, links: seq<Link>)
    requires InText(source, links)
  {
    forall i, j | 0 <= i < j < |links| :: Nested(source, links[i], links[j])
  }

  /** The destinations of such nodes start apart and do not overlap. */
  lemma NestedAreClear(source: string, a: Link, b: Link)
    requires a.start <= a.end <= |source| && b.start <= b.end <= |source| && Nested(source, a, b)
    requires Scan(source, a).Range? && Scan(source, b).Range?
    ensures Clear(Found(source, a), Found(source, b))
  {
    ScanIsBehindLabel(Raw(source, a), a.definition);
    ScanIsBehindLabel(Raw(source, b), b.definition);
  }

  lemma {:induction false} FoundAt(source: string, links: seq<Link>, n: nat, i: nat)
    requires InText(source, links) && n <= |links| && ScanUpTo(source, links, n) && i < n
    ensures FoundUpTo(source, links, n)[i] == Found(source, links[i])
  {
    if i == n - 1 {
    } else {
      FoundAt(source, links, n - 1, i);
    }
  }

  lemma {:induction false} PairsAreClear(all: seq<Replacement>)
    requires forall i, j | 0 <= i < j < |all| :: Clear(all[i], all[j])
    ensures AllClear(all)
  {
    if all == [] {
    } else {
      forall q | q in all[1..] ensures Clear(all[0], q) {
        var k :| 0 <= k < |all[1..]| && all[1..][k] == q;
        assert Clear(all[0], all[k + 1]);
      }
      PairsAreClear(all[1..]);
    }
  }

  lemma FoundAreClear(source: string, links: seq<Link>)
    requires InText(source, links) && AllScan(source, links) && AllNested(source, links)
    ensures AllClear(Replacements(source, links)) && Inside(Replacements(source, links), |source|)
  {
    var found := Replacements(source, links);
    forall i, j | 0 <= i < j < |found| ensures Clear(found[i], found[j]) {
      FoundAt(source, links, |links|, i);
      FoundAt(source, links, |links|, j);
      NestedAreClear(source, links[i], links[j]);
    }
    PairsAreClear(found);
    forall r | r in found ensures r.start <= r.end <= |source| {
      var i :| 0 <= i < |found| && found[i] == r;
      FoundAt(source, links, |links|, i);
      ScanIsBehindLabel(Raw(source, links[i]), links[i].definition);
    }
  }

  /**
   * The law of the splice holds of whatever the scanner finds: for nodes that are disjoint or stand in each
   * other's labels, the text comes out with every scanned range replaced at once and the rest as it was.
   */
  lemma RewriteSubstitutes(source: string, links: seq<Link>) returns (m: Marked)
    requires InText(source, links) && AllScan(source, links) && AllNested(source, links)
    ensures Original(m) == source && multiset(Ranges(m, 0)) == multiset(Replacements(source, links))
    ensures ReplaceAll(source, BackToFront(Replacements(source, links))) == Substituted(m)
  {
    FoundAreClear(source, links);
    m := ProjectSubstitutes(source, Replacements(source, links));
  }

  /** A link of the text is a node of the syntax, printed. */
  predicate Writes(source: string, link: Link, n: Node) {
    && link.start <= link.end <= |source| && IsNode(n) && link.definition == n.Definition?
    && Prints(n, Raw(source, link))
  }

  /** Where the destination of a written node stands in the text. */
  function Written(link: Link, n: Node): Replacement {
    Replacement(link.start + UrlAt(n), link.start + UrlAt(n) + |Url(n.dest)|, link.value)
  }

  /** Exactly the nodes the scanner is right about have their own destination replaced. */
  lemma WrittenIsReplaced(source: string, link: Link, n: Node)
    requires Writes(source, link, n)
    ensures Scan(source, link).Range? && Found(source, link) == Written(link, n) <==> Survives(n)
  {
    DestinationRecovered(n, Raw(source, link));
  }

  /** If every link is written as the scanner reads it, the ranges replaced are the links' own destinations. */
  lemma OwnDestinationsAreReplaced(source: string, links: seq<Link>, nodes: seq<Node>)
    requires |nodes| == |links| && forall i | 0 <= i < |links| :: Writes(source, links[i], nodes[i])
    requires forall i | 0 <= i < |links| :: Survives(nodes[i])
    ensures InText(source, links) && AllScan(source, links)
    ensures forall i | 0 <= i < |links| :: Replacements(source, links)[i] == Written(links[i], nodes[i])
  {
    forall i | 0 <= i < |links|
      ensures Scan(source, links[i]).Range? && Found(source, links[i]) == Written(links[i], nodes[i])
    {
      WrittenIsReplaced(source, links[i], nodes[i]);
    }
    forall i | 0 <= i < |links| ensures Replacements(source, links)[i] == Written(links[i], nodes[i]) {
      FoundAt(source, links, |links|, i);
    }
  }
}
