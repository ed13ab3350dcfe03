/** `split` at a character, and `join` with it. */
module Splitting {
  import Sequences

  function Split(text: string, sep: char): (parts: seq<string>)
    ensures parts != []
  {
    if text == "" then [""]
    else
      var rest := Split(text[1..], sep);
      if text[0] == sep then [""] + rest else [[text[0]] + rest[0]] + rest[1..]
  }

  function Join(parts: seq<string>, sep: char): string
    requires parts != []
  {
    if |parts| == 1 then parts[0] else parts[0] + ([sep] + Join(parts[1..], sep))
  }

  lemma {:induction false} JoinSnoc(parts: seq<string>, last: string, sep: char)
    requires parts != []
    ensures Join(parts + [last], sep) == Join(parts, sep) + ([sep] + last)
  {
    var more := parts + [last];
    if |parts| == 1 {
      assert more[1..] == [last];
    } else {
      assert more[1..] == parts[1..] + [last];
      JoinSnoc(parts[1..], last, sep);
      Sequences.Regroup(parts[0], [sep], Join(parts[1..], sep), [sep] + last);
    }
  }

  predicate Free(parts: seq<string>, sep: char) {
    forall part | part in parts :: sep !in part
  }

  lemma FreeCons(first: string, rest: seq<string>, sep: char)
    ensures Free([first] + rest, sep) <==> sep !in first && Free(rest, sep)
  {
    var parts := [first] + rest;
    assert first in parts && forall part | part in rest :: part in parts;
  }

  lemma {:induction false} JoinOfSplit(text: string, sep: char)
    ensures Join(Split(text, sep), sep) == text && Free(Split(text, sep), sep)
  {
    if text == "" {
    } else {
      var first, rest := text[0], Split(text[1..], sep);
      JoinOfSplit(text[1..], sep);
      assert text == [first] + text[1..];
      if first == sep {
        AfterSeparator(rest, sep);
        assert Split(text, sep) == [""] + rest;
      } else {
        GrownPart(first, rest, sep);
        assert Split(text, sep) == [[first] + rest[0]] + rest[1..];
      }
    }
  }

  lemma AfterSeparator(rest: seq<string>, sep: char)
    requires rest != []
    ensures Join([""] + rest, sep) == [sep] + Join(rest, sep)
    ensures Free(rest, sep) ==> Free([""] + rest, sep)
  {
    assert ([""] + rest)[1..] == rest;
    assert "" + ([sep] + Join(rest, sep)) == [sep] + Join(rest, sep);
    FreeCons("", rest, sep);
  }

  lemma GrownPart(c: char, rest: seq<string>, sep: char)
    requires rest != [] && c != sep && Free(rest, sep)
    ensures Join([[c] + rest[0]] + rest[1..], sep) == [c] + Join(rest, sep)
    ensures Free([[c] + rest[0]] + rest[1..], sep)
  {
    var grown := [[c] + rest[0]] + rest[1..];
    assert grown[1..] == rest[1..];
    assert rest == [rest[0]] + rest[1..];
    FreeCons(rest[0], rest[1..], sep);
    FreeCons([c] + rest[0], rest[1..], sep);
    if |rest| > 1 { Sequences.Associate([c], rest[0], [sep] + Join(rest[1..], sep)); }
  }

  lemma {:induction false} SplitOfJoin(parts: seq<string>, sep: char)
    requires parts != [] && Free(parts, sep)
    ensures Split(Join(parts, sep), sep) == parts
    decreases |parts|
  {
    var first := parts[0];
    assert first in parts && first + "" == first;
    if |parts| == 1 {
      OnePart(first, "", sep);
    } else {
      assert forall part | part in parts[1..] :: part in parts;
      SplitOfJoin(parts[1..], sep);
      var tail := [sep] + Join(parts[1..], sep);
      OnePart(first, tail, sep);
      assert tail[1..] == Join(parts[1..], sep);
      assert Split(tail, sep) == [""] + parts[1..];
      assert parts == [first] + parts[1..];
    }
  }

  lemma {:induction false} OnePart(part: string, tail: string, sep: char)
    requires sep !in part
    ensures Split(part + tail, sep) == [part + Split(tail, sep)[0]] + Split(tail, sep)[1..]
  {
    var first, rest := Split(tail, sep)[0], Split(tail, sep)[1..];
    if part == "" {
      assert part + tail == tail && "" + first == first;
      assert Split(tail, sep) == [first] + rest;
    } else {
      assert (part + tail)[1..] == part[1..] + tail;
      assert part[0] in part;
      OnePart(part[1..], tail, sep);
      Sequences.Associate([part[0]], part[1..], first);
      assert part == [part[0]] + part[1..];
    }
  }

  /** Splitting a joined list gives it back exactly when no part holds the separator. */
  lemma SplitUndoesJoin(parts: seq<string>, sep: char)
    requires parts != []
    ensures Split(Join(parts, sep), sep) == parts <==> Free(parts, sep)
  {
    if Free(parts, sep) { SplitOfJoin(parts, sep); }
    JoinOfSplit(Join(parts, sep), sep);
  }
}
