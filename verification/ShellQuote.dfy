/** The copyable command line of scripts/publish-npm-baseline.ts, read back by POSIX quoting rules. */
module ShellQuote {
  import opened Options

  predicate IsSafe(c: char) {
    'a' <= c <= 'z' || 'A' <= c <= 'Z' || '0' <= c <= '9'
    || c == '_' || c == '.' || c == '/' || c == ':' || c == '@' || c == '=' || c == '+' || c == '-'
  }

  predicate AllSafe(value: string) {
    forall c | c in value :: IsSafe(c)
  }

  /** Word characters, by their codes, and the eight signs of the script's pattern. */
  lemma SafeCharacters(c: char)
    ensures IsSafe(c) <==>
              48 <= c as int <= 57 || 65 <= c as int <= 90 || 97 <= c as int <= 122 || c == '_' || c in "./:@=+-"
  {
  }

  /** Every single quote leaves the quotes, is quoted by double quotes, and re-enters them. */
  function EscapeQuotes(value: string): string {
    if value == "" then ""
    else (if value[0] == '\'' then "'\"'\"'" else [value[0]]) + EscapeQuotes(value[1..])
  }

  function QuoteShellArgument(value: string): string {
    if value != "" && AllSafe(value) then value else "'" + EscapeQuotes(value) + "'"
  }

  /** An argument is left bare exactly if it is not empty and has no other characters. */
  lemma BareIffSafe(value: string)
    ensures QuoteShellArgument(value) == value <==> value != "" && forall c | c in value :: IsSafe(c)
  {
    if !(value != "" && AllSafe(value)) {
      EscapeLengthens(value);
      assert |QuoteShellArgument(value)| > |value|;
    }
  }

  lemma {:induction false} EscapeLengthens(value: string)
    ensures |EscapeQuotes(value)| >= |value|
  {
    if value == "" {
    } else {
      EscapeLengthens(value[1..]);
    }
  }

  function QuoteAll(arguments: seq<string>): string {
    if arguments == [] then ""
    else if |arguments| == 1 then QuoteShellArgument(arguments[0])
    else QuoteShellArgument(arguments[0]) + " " + QuoteAll(arguments[1..])
  }

  function FormatCopyableCommand(command: string, arguments: seq<string>): string {
    QuoteAll([command] + arguments)
  }

  /** Unquoted characters that start an operator, an expansion, a pattern, a comment or a new line. */
  predicate IsActive(c: char) {
    || c == '|' || c == '&' || c == ';' || c == '<' || c == '>' || c == '(' || c == ')' || c == '$' || c == '`'
    || c == '*' || c == '?' || c == '[' || c == ']' || c == '#' || c == '~' || c == '%' || c == '!'
      || c == '{' || c == '}'
    || c == '^' || c == '\n'
  }

  predicate EscapesInDouble(c: char) {
    c == '$' || c == '`' || c == '"' || c == '\\'
  }

  datatype Mode = Plain | Single | Double

  function Append(word: Option<string>, text: string): Option<string> {
    match word
    case None => Some(text)
    case Some(w) => Some(w + text)
  }

  /**
   * Field recognition under sections 2.2.1 to 2.2.3 of the POSIX.1-2017 Shell Command Language.
   * `word` is the field being built, if one has begun. A character that would start an operator, an
   * expansion or a pattern makes the line unreadable here rather than an ordinary character.
   */
  function Words(line: string, mode: Mode, word: Option<string>): Option<seq<string>>
    decreases |line|
  {
    if line == "" then
      if mode != Plain then None else if word.None? then Some([]) else Some([word.value])
    else
      var c, rest := line[0], line[1..];
      match mode
      case Single => if c == '\'' then Words(rest, Plain, word) else Words(rest, Single, Append(word, [c]))
      case Double =>
        if c == '"' then Words(rest, Plain, word)
        else if c == '$' || c == '`' then None
        else if c == '\\' && rest != "" && EscapesInDouble(rest[0])
          then Words(rest[1..], Double, Append(word, [rest[0]]))
        else if c == '\\' && rest != "" && rest[0] == '\n' then Words(rest[1..], Double, word)
        else Words(rest, Double, Append(word, [c]))
      case Plain =>
        if c == ' ' || c == '\t' then
          if word.None? then Words(rest, Plain, None) else Prepend(word.value, Words(rest, Plain, None))
        else if c == '\'' then Words(rest, Single, Append(word, ""))
        else if c == '"' then Words(rest, Double, Append(word, ""))
        else if c == '\\' then
          if rest == "" then None
          else if rest[0] == '\n' then Words(rest[1..], Plain, word)
          else Words(rest[1..], Plain, Append(word, [rest[0]]))
        else if IsActive(c) then None
        else Words(rest, Plain, Append(word, [c]))
  }

  function Prepend(word: string, words: Option<seq<string>>): Option<seq<string>> {
    match words
    case None => None
    case Some(rest) => Some([word] + rest)
  }

  lemma {:induction false} SafeWordReads(value: string, rest: string, word: string)
    requires AllSafe(value)
    ensures Words(value + rest, Plain, Some(word)) == Words(rest, Plain, Some(word + value))
  {
    if value == "" {
      assert value + rest == rest && word + value == word;
    } else {
      assert IsSafe(value[0]);
      assert (value + rest)[1..] == value[1..] + rest;
      assert word + value == (word + [value[0]]) + value[1..];
      SafeWordReads(value[1..], rest, word + [value[0]]);
    }
  }

  lemma {:induction false} EscapedReads(value: string, rest: string, word: string)
    ensures Words(EscapeQuotes(value) + "'" + rest, Single, Some(word)) == Words(rest, Plain, Some(word + value))
  {
    var line := EscapeQuotes(value) + "'" + rest;
    if value == "" {
      assert line[1..] == rest && word + value == word;
    } else {
      var tail := EscapeQuotes(value[1..]) + "'" + rest;
      assert word + value == (word + [value[0]]) + value[1..];
      EscapedReads(value[1..], rest, word + [value[0]]);
      if value[0] == '\'' {
        assert line == "'\"'\"'" + tail;
        QuoteInsideQuotes(tail, word);
      } else {
        assert line == [value[0]] + tail;
      }
    }
  }

  lemma QuoteInsideQuotes(tail: string, word: string)
    ensures Words("'\"'\"'" + tail, Single, Some(word)) == Words(tail, Single, Some(word + "'"))
  {
    assert ("'\"'\"'" + tail)[1..] == "\"'\"'" + tail;
    assert ("\"'\"'" + tail)[1..] == "'\"'" + tail;
    assert ("'\"'" + tail)[1..] == "\"'" + tail;
    assert ("\"'" + tail)[1..] == "'" + tail;
    assert ("'" + tail)[1..] == tail;
    assert word + "" == word && (word + "'") + "" == word + "'";
    assert Words("\"'\"'" + tail, Plain, Some(word)) == Words("'\"'" + tail, Double, Some(word));
    assert Words("'\"'" + tail, Double, Some(word)) == Words("\"'" + tail, Double, Some(word + "'"));
    assert Words("\"'" + tail, Double, Some(word + "'")) == Words("'" + tail, Plain, Some(word + "'"));
  }

  lemma OpeningQuoteReads(tail: string)
    ensures Words("'" + tail, Plain, None) == Words(tail, Single, Some(""))
  {
    assert ("'" + tail)[1..] == tail;
  }

  lemma SafeStartReads(c: char, tail: string)
    requires IsSafe(c)
    ensures Words([c] + tail, Plain, None) == Words(tail, Plain, Some([c]))
  {
    assert ([c] + tail)[1..] == tail;
  }

  lemma ArgumentReads(value: string, rest: string)
    ensures Words(QuoteShellArgument(value) + rest, Plain, None) == Words(rest, Plain, Some(value))
  {
    if value != "" && AllSafe(value) {
      assert value[0] in value;
      assert value + rest == [value[0]] + (value[1..] + rest);
      SafeStartReads(value[0], value[1..] + rest);
      SafeWordReads(value[1..], rest, [value[0]]);
      assert [value[0]] + value[1..] == value;
    } else {
      var tail := EscapeQuotes(value) + "'" + rest;
      assert QuoteShellArgument(value) + rest == "'" + tail;
      OpeningQuoteReads(tail);
      EscapedReads(value, rest, "");
      assert "" + value == value;
    }
  }

  /** Reading back the printed line yields the original fields, for every argument list. */
  lemma {:induction false} QuoteRoundTrip(arguments: seq<string>)
    ensures Words(QuoteAll(arguments), Plain, None) == Some(arguments)
  {
    if arguments == [] {
    } else {
      var first, tail := arguments[0], arguments[1..];
      if tail == [] {
        ArgumentReads(first, "");
        assert QuoteShellArgument(first) + "" == QuoteAll(arguments);
        assert arguments == [first];
      } else {
        var rest := " " + QuoteAll(tail);
        ArgumentReads(first, rest);
        assert QuoteAll(arguments) == QuoteShellArgument(first) + rest;
        assert rest[1..] == QuoteAll(tail);
        QuoteRoundTrip(tail);
        assert Words(rest, Plain, Some(first)) == Prepend(first, Words(QuoteAll(tail), Plain, None));
      }
      assert [first] + tail == arguments;
    }
  }

  lemma CommandRoundTrip(command: string, arguments: seq<string>)
    ensures Words(FormatCopyableCommand(command, arguments), Plain, None) == Some([command] + arguments)
  {
    QuoteRoundTrip([command] + arguments);
  }
}
