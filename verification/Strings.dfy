// Strings as the emitter and the resolvers take them apart.
module Strings {
  // `is_non_printable`: outside `c-printable` (YAML 1.2.2, section 5.1), so never raw in a scalar.
  predicate IsNonPrintable(c: char) {
    var n := c as int;
    if n == 0x09 || n == 0x0a || n == 0x0d then false
    else n <= 0x1f || n == 0x7f || (0x80 <= n <= 0x9f && n != 0x85) || n == 0xfffe || n == 0xffff
  }

  const BYTE_ORDER_MARK: char := '\U{feff}'

  // `c-printable` (YAML 1.2.2, section 5.1).
  predicate IsPrintable(c: char) {
    var n := c as int;
    || n in {0x09, 0x0a, 0x0d, 0x85} || 0x20 <= n <= 0x7e || 0xa0 <= n <= 0xd7ff
    || 0xe000 <= n <= 0xfffd || 0x1_0000 <= n <= 0x10_ffff
  }

  lemma NonPrintableExactly(c: char)
    ensures IsNonPrintable(c) <==> !IsPrintable(c)
  {
  }

  // `nb-char` (section 5.4): neither a break nor the byte order mark.
  predicate IsLineChar(c: char) { IsPrintable(c) && c != '\n' && c != '\r' && c != BYTE_ORDER_MARK }

  function Repeat(c: char, n: nat): (s: string)
    ensures |s| == n && forall i | 0 <= i < n :: s[i] == c
  {
    if n == 0 then "" else [c] + Repeat(c, n - 1)
  }

  function Spaces(n: nat): string { Repeat(' ', n) }

  // `str::split`.
  function Split(s: string, mark: char): (parts: seq<string>)
    ensures |parts| >= 1
  {
    if s == "" then [""]
    else
      var rest := Split(s[1..], mark);
      if s[0] == mark then [""] + rest else [[s[0]] + rest[0]] + rest[1..]
  }
}
