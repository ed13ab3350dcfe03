/** Facts about JavaScript that several models share. */
module JavaScript {

  const MAX_SAFE_INTEGER := 0x1F_FFFF_FFFF_FFFF

  /** Where `^` and `$` match under the `m` flag, and what `.` does not match. */
  predicate IsTerminator(c: char) {
    c == '\n' || c == '\r' || c == '\U{2028}' || c == '\U{2029}'
  }

  /** `\s` other than a terminator. */
  predicate IsBlank(c: char) {
    || c == ' ' || c == '\t' || c == '\U{000B}' || c == '\U{000C}' || c == '\U{00A0}' || c == '\U{1680}'
    || '\U{2000}' <= c <= '\U{200A}' || c == '\U{202F}' || c == '\U{205F}' || c == '\U{3000}' || c == '\U{FEFF}'
  }

  /** `\s`. */
  predicate IsSpace(c: char) {
    IsBlank(c) || IsTerminator(c)
  }

  /** Both by their code points: the white space and line terminators of sections 12.2 and 12.3 of ECMA-262. */
  lemma SpaceCodes(c: char)
    ensures IsTerminator(c) <==> c as int == 10 || c as int == 13 || c as int == 0x2028 || c as int == 0x2029
    ensures var n := c as int;
            IsSpace(c) <==>
              || 9 <= n <= 13 || n == 32 || n == 0xA0 || n == 0x1680 || 0x2000 <= n <= 0x200A
              || n == 0x2028 || n == 0x2029 || n == 0x202F || n == 0x205F || n == 0x3000 || n == 0xFEFF
  {
  }

  predicate AllSpace(s: string) {
    forall c | c in s :: IsSpace(c)
  }
}
