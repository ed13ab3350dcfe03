/** Worker counts from the environment: `publintConcurrency` and `concurrencyFromEnv`. */
module Concurrency {
  import opened JavaScript
  import opened Options
  import opened WorkerPool

  predicate IsDigit(c: char) {
    '0' <= c <= '9'
  }

  lemma TenDigits(c: char)
    ensures IsDigit(c) <==> c in "0123456789"
  {
  }

  predicate AllDigits(s: string) {
    forall c | c in s :: IsDigit(c)
  }

  function SkipSpaces(s: string): string {
    if s != [] && IsSpace(s[0]) then SkipSpaces(s[1..]) else s
  }

  /** The digits a text starts with. */
  function LeadingDigits(s: string): (digits: string)
    ensures AllDigits(digits) && digits <= s
    ensures digits == s || !IsDigit(s[|digits|])
  {
    if s != [] && IsDigit(s[0]) then [s[0]] + LeadingDigits(s[1..]) else []
  }

  function ValueOf(digits: string): nat
    requires AllDigits(digits)
  {
    if digits == [] then 0
    else
      var n := |digits| - 1;
      assert digits[n] in digits;
      10 * ValueOf(digits[..n]) + (digits[n] as int - '0' as int)
  }

  /** `Number.parseInt(s, 10)`; `None` is NaN. */
  function ParseInt(s: string): Option<int> {
    var text := SkipSpaces(s);
    var signed := text != [] && (text[0] == '+' || text[0] == '-');
    var digits := LeadingDigits(if signed then text[1..] else text);
    var value: int := ValueOf(digits);
    if digits == [] then None else Some(if signed && text[0] == '-' then -value else value)
  }

  /** `String(n)` of a safe integer that is not negative. */
  function DecimalText(n: nat): (text: string)
    ensures text != [] && AllDigits(text)
  {
    if n < 10 then ['0' + n as char] else DecimalText(n / 10) + ['0' + (n % 10) as char]
  }

  lemma {:induction false} TextHasValue(n: nat)
    ensures ValueOf(DecimalText(n)) == n
  {
    if n < 10 {
      assert DecimalText(n)[..0] == "";
    } else {
      var last := ['0' + (n % 10) as char];
      TextHasValue(n / 10);
      assert (DecimalText(n / 10) + last)[..|DecimalText(n / 10)|] == DecimalText(n / 10);
    }
  }

  lemma {:induction false} DigitsLead(digits: string)
    requires AllDigits(digits)
    ensures LeadingDigits(digits) == digits
  {
    if digits == [] {
    } else {
      DigitsLead(digits[1..]);
    }
  }

  /** Parsing undoes printing. */
  lemma ParseOfDecimal(n: nat)
    ensures ParseInt(DecimalText(n)) == Some(n)
  {
    var text := DecimalText(n);
    assert IsDigit(text[0]) && !IsSpace(text[0]);
    DigitsLead(text);
    TextHasValue(n);
  }

  // What `parseInt` reads, whatever the text.

  /** White space, a sign or none, digits, and then no digit. */
  ghost predicate IsNumeral(s: string, spaces: string, sign: string, digits: string, rest: string) {
    && s == spaces + (sign + (digits + rest)) && AllSpace(spaces) && (sign == "" || sign == "+" || sign == "-")
    && digits != "" && AllDigits(digits) && (rest == "" || !IsDigit(rest[0]))
  }

  ghost function Signed(sign: string, digits: string): int
    requires AllDigits(digits)
  {
    var value: int := ValueOf(digits);
    if sign == "-" then -value else value
  }

  /** The text starts with this number. */
  ghost predicate StartsWithNumber(s: string, value: int) {
    exists spaces, sign, digits, rest ::
      IsNumeral(s, spaces, sign, digits, rest) && value == Signed(sign, digits)
  }

  lemma {:induction false} SpacesAreSkipped(spaces: string, text: string)
    requires AllSpace(spaces) && (text == "" || !IsSpace(text[0]))
    ensures SkipSpaces(spaces + text) == text
  {
    if spaces == "" {
      assert spaces + text == text;
    } else {
      assert spaces[0] in spaces && (spaces + text)[1..] == spaces[1..] + text;
      assert forall c | c in spaces[1..] :: c in spaces;
      SpacesAreSkipped(spaces[1..], text);
    }
  }

  lemma {:induction false} SkippedAreSpaces(s: string) returns (spaces: string)
    ensures s == spaces + SkipSpaces(s) && AllSpace(spaces)
    ensures SkipSpaces(s) == "" || !IsSpace(SkipSpaces(s)[0])
  {
    spaces := "";
    if s != "" && IsSpace(s[0]) {
      var more := SkippedAreSpaces(s[1..]);
      spaces := [s[0]] + more;
    }
  }

  lemma {:induction false} LeadingDigitsAre(digits: string, rest: string)
    requires AllDigits(digits) && (rest == "" || !IsDigit(rest[0]))
    ensures LeadingDigits(digits + rest) == digits
  {
    if digits == "" {
      assert digits + rest == rest;
    } else {
      assert (digits + rest)[1..] == digits[1..] + rest;
      LeadingDigitsAre(digits[1..], rest);
    }
  }

  lemma NumeralIsParsed(s: string, spaces: string, sign: string, digits: string, rest: string)
    requires IsNumeral(s, spaces, sign, digits, rest)
    ensures ParseInt(s) == Some(Signed(sign, digits))
  {
    hide ValueOf, AllSpace, AllDigits, SkipSpaces, LeadingDigits;
    HeadOfNumeral(sign, digits, rest);
    SpacesAreSkipped(spaces, sign + (digits + rest));
    LeadingDigitsAre(digits, rest);
  }

  lemma HeadOfNumeral(sign: string, digits: string, rest: string)
    requires (sign == "" || sign == "+" || sign == "-") && digits != "" && AllDigits(digits)
    ensures var text := sign + (digits + rest);
            && text != "" && !IsSpace(text[0])
            && (sign == "" ==> text == digits + rest && text[0] != '+' && text[0] != '-')
            && (sign != "" ==> text[1..] == digits + rest && text[0] == sign[0])
  {
    assert digits[0] in digits;
  }

  lemma ParsedIsNumeral(s: string)
    requires ParseInt(s).Some?
    ensures StartsWithNumber(s, ParseInt(s).value)
  {
    hide ValueOf, SkipSpaces, LeadingDigits, AllSpace;
    var spaces := SkippedAreSpaces(s);
    var text := SkipSpaces(s);
    var sign := SignOf(text);
    var tail := text[|sign|..];
    var digits := LeadingDigits(tail);
    assert tail == digits + tail[|digits|..];
    assert IsNumeral(s, spaces, sign, digits, tail[|digits|..]);
  }

  function SignOf(text: string): (sign: string)
    ensures |sign| <= |text| && text == sign + text[|sign|..] && (sign == "" || sign == "+" || sign == "-")
  {
    if text != "" && text[0] == '+' then "+" else if text != "" && text[0] == '-' then "-" else ""
  }

  /** `parseInt` reads the number a text starts with, sign included, and is NaN if there is none. */
  lemma ParseIntReads(s: string, value: int)
    ensures ParseInt(s) == Some(value) <==> StartsWithNumber(s, value)
  {
    if ParseInt(s).Some? { ParsedIsNumeral(s); }
    if StartsWithNumber(s, value) {
      var spaces, sign, digits, rest :|
        IsNumeral(s, spaces, sign, digits, rest) && value == Signed(sign, digits);
      NumeralIsParsed(s, spaces, sign, digits, rest);
    }
  }

  /** Leading zeros do not count. */
  lemma {:induction false} ZeroLeads(digits: string)
    requires AllDigits(digits)
    ensures AllDigits("0" + digits) && ValueOf("0" + digits) == ValueOf(digits)
  {
    var more := "0" + digits;
    if digits == "" {
      assert more[..0] == "" && more == "0";
    } else {
      var n := |digits| - 1;
      assert more[..n + 1] == "0" + digits[..n] && more[n + 1] == digits[n];
      assert forall c | c in digits[..n] :: c in digits;
      ZeroLeads(digits[..n]);
    }
  }

  /** A text stands for a positive count that a number holds exactly. */
  predicate IsCount(text: string, n: nat) {
    1 <= n <= MAX_SAFE_INTEGER && text == DecimalText(n)
  }

  /**
   * The count `publint-all` runs with: never more than there are targets, and otherwise what the environment says
   * or, if it says nothing, the processors. It accepts exactly the plain decimal texts of positive safe integers.
   */
  method PublintConcurrency(raw: Option<string>, total: nat, available: nat) returns (count: Option<nat>)
    ensures total == 0 ==> count == Some(0)
    ensures total > 0 && (raw.None? || raw.value == "") ==>
              count == Some(if total <= available then total else available)
    ensures total > 0 && raw.Some? && raw.value != "" ==>
              (count.Some? <==> exists n :: IsCount(raw.value, n))
    ensures total > 0 && raw.Some? ==>
              forall n | IsCount(raw.value, n) :: count == Some(if total <= n then total else n)
  {
    if total == 0 { return Some(0); }
    if raw.Some? && raw.value != "" {
      forall n: nat | raw.value == DecimalText(n) ensures ParseInt(raw.value) == Some(n) { ParseOfDecimal(n); }
      var parsed := ParseInt(raw.value);
      if parsed.None? || !(1 <= parsed.value <= MAX_SAFE_INTEGER) || DecimalText(parsed.value) != raw.value {
        return None;
      }
      assert IsCount(raw.value, parsed.value);
      return Some(if parsed.value < total then parsed.value else total);
    }
    count := Some(if available < total then available else total);
  }

  datatype Lint = BadCount | Lint(outcome: Outcome)

  /** The two together: whatever the environment, no result is ever missing. */
  method LintAll(raw: Option<string>, total: nat, available: nat, lint: nat -> Report) returns (r: Lint)
    requires available >= 1
    ensures r.BadCount? <==> total > 0 && raw.Some? && raw.value != "" && !exists n :: IsCount(raw.value, n)
    ensures !r.BadCount? ==> r.outcome == Reports(Expected(total, lint))
  {
    var count := PublintConcurrency(raw, total, available);
    if count.None? { return BadCount; }
    var outcome;
    ghost var taken, moments;
    outcome, taken, moments := RunAll(total, lint, count.value);
    r := Lint(outcome);
  }

  /** The count `run-gates` runs with: the check that the text is that number is missing here. */
  method ConcurrencyFromEnv(raw: Option<string>, fallback: nat) returns (count: Option<nat>)
    ensures raw.None? || raw.value == "" ==> count == Some(fallback)
    ensures raw.Some? && raw.value != "" ==>
              (count.Some? <==> exists n :: 1 <= n <= MAX_SAFE_INTEGER && StartsWithNumber(raw.value, n))
    ensures raw.Some? && raw.value != "" && count.Some? ==>
              1 <= count.value <= MAX_SAFE_INTEGER && StartsWithNumber(raw.value, count.value)
  {
    if raw.None? || raw.value == "" { return Some(fallback); }
    var parsed := ParseInt(raw.value);
    forall n ensures parsed == Some(n) <==> StartsWithNumber(raw.value, n) { ParseIntReads(raw.value, n); }
    if parsed.None? || !(1 <= parsed.value <= MAX_SAFE_INTEGER) { return None; }
    count := Some(parsed.value);
  }

  /** What follows the digits is dropped, so `run-gates` takes texts that `publint-all` refuses. */
  lemma SuffixIsDropped(n: nat, c: char, rest: string)
    requires !IsDigit(c)
    ensures ParseInt(DecimalText(n) + ([c] + rest)) == Some(n)
    ensures forall m :: !IsCount(DecimalText(n) + ([c] + rest), m)
  {
    var text := DecimalText(n) + ([c] + rest);
    assert IsDigit(text[0]) && !IsSpace(text[0]);
    DigitsStopAt(DecimalText(n), c, rest);
    TextHasValue(n);
    assert text[|DecimalText(n)|] == c && c in text;
  }

  lemma {:induction false} DigitsStopAt(digits: string, c: char, rest: string)
    requires AllDigits(digits) && !IsDigit(c)
    ensures LeadingDigits(digits + ([c] + rest)) == digits
  {
    if digits == [] {
      assert digits + ([c] + rest) == [c] + rest;
    } else {
      assert (digits + ([c] + rest))[1..] == digits[1..] + ([c] + rest);
      DigitsStopAt(digits[1..], c, rest);
    }
  }
}
