// Digits and numerals: how the library writes numbers, and what a run of digits means.
module Text {
  const DIGITS: string := "0123456789"

  predicate IsBlank(c: char) { c == ' ' || c == '\t' }

  predicate IsDigit(c: char) { '0' <= c <= '9' }

  predicate AllDigits(s: string) { forall i | 0 <= i < |s| :: IsDigit(s[i]) }

  // `char::to_digit`, with 16 for a character that is no hexadecimal digit.
  function DigitValue(c: char): (d: nat)
    ensures d <= 16
    ensures IsDigit(c) <==> d < 10
  {
    if '0' <= c <= '9' then c as int - '0' as int
    else if 'a' <= c <= 'f' then c as int - 'a' as int + 10
    else if 'A' <= c <= 'F' then c as int - 'A' as int + 10
    else 16
  }

  // The number that a run of decimal digits denotes.
  function Number(s: string): (n: int)
    ensures AllDigits(s) ==> n >= 0
  {
    NumberOfFirst(s, |s|)
  }

  // The number that the first `n` characters of `s` denote.
  function NumberOfFirst(s: string, n: nat): (r: int)
    requires n <= |s|
    ensures (forall i | 0 <= i < n :: IsDigit(s[i])) ==> r >= 0
  {
    if n == 0 then 0 else 10 * NumberOfFirst(s, n - 1) + (s[n - 1] as int - '0' as int)
  }

  lemma {:induction false} NumberOfPrefix(s: string, t: string, n: nat)
    requires n <= |s| && n <= |t| && forall i | 0 <= i < n :: s[i] == t[i]
    ensures NumberOfFirst(s, n) == NumberOfFirst(t, n)
  {
    if n > 0 {
      NumberOfPrefix(s, t, n - 1);
    }
  }

  // The decimal numeral of a number, without leading zeros.
  function Decimal(n: nat): (s: string)
    ensures s != "" && AllDigits(s)
    ensures n > 0 ==> s[0] != '0'
  {
    if n < 10 then [DIGITS[n]] else Decimal(n / 10) + [DIGITS[n % 10]]
  }

  function SignedDecimal(n: int): string {
    if n < 0 then "-" + Decimal(-n) else Decimal(n)
  }

  // The numeral filled up with zeros to a width (`{:02}` and its like).
  function Padded(n: nat, width: nat): (s: string)
    ensures AllDigits(s) && |s| >= width && s != ""
  {
    ZeroFilled(Decimal(n), width)
  }

  function ZeroFilled(s: string, width: nat): (r: string)
    ensures |r| == if |s| < width then width else |s|
    ensures AllDigits(s) ==> AllDigits(r)
    decreases width - |s|
  {
    if |s| < width then ZeroFilled("0" + s, width) else s
  }

  lemma {:induction false} DecimalNumber(n: nat)
    ensures Number(Decimal(n)) == n
  {
    if n >= 10 {
      DecimalNumber(n / 10);
      NumberOfPrefix(Decimal(n), Decimal(n / 10), |Decimal(n)| - 1);
    }
  }

  lemma {:induction false} LeadingZero(s: string, n: nat)
    requires n <= |s|
    ensures NumberOfFirst("0" + s, n + 1) == NumberOfFirst(s, n)
  {
    if n > 0 {
      LeadingZero(s, n - 1);
    }
  }

  lemma {:induction false} ZeroFilledNumber(s: string, width: nat)
    ensures Number(ZeroFilled(s, width)) == Number(s)
    decreases width - |s|
  {
    if |s| < width {
      LeadingZero(s, |s|);
      ZeroFilledNumber("0" + s, width);
    }
  }

  // A padded numeral still denotes its number, so two different numbers never share one.
  lemma PaddedNumber(n: nat, width: nat)
    ensures Number(Padded(n, width)) == n
  {
    DecimalNumber(n);
    ZeroFilledNumber(Decimal(n), width);
  }

  function Pow10(n: nat): (p: nat)
    ensures p > 0
  {
    if n == 0 then 1 else 10 * Pow10(n - 1)
  }

  lemma {:induction false} DecimalLength(n: nat, width: nat)
    requires width > 0 && n < Pow10(width)
    ensures |Decimal(n)| <= width
  {
    if n >= 10 {
      DecimalLength(n / 10, width - 1);
    }
  }

  // A number of at most `width` digits fills exactly `width` columns.
  lemma PaddedLength(n: nat, width: nat)
    requires width > 0 && n < Pow10(width)
    ensures |Padded(n, width)| == width
  {
    DecimalLength(n, width);
  }

  // Bytes of a character in UTF-8 (section 3 of RFC 3629).
  function Utf8Width(c: char): nat {
    if c as int < 0x80 then 1 else if c as int < 0x800 then 2 else if c as int < 0x1_0000 then 3 else 4
  }

  // One byte for ASCII, two below U+0800, three below U+10000, four above.
  lemma WidthsExactly(c: char)
    ensures '\0' <= c <= '\U{7f}' ==> Utf8Width(c) == 1
    ensures '\U{80}' <= c <= '\U{7ff}' ==> Utf8Width(c) == 2
    ensures '\U{800}' <= c <= '\U{ffff}' ==> Utf8Width(c) == 3
    ensures '\U{10000}' <= c ==> Utf8Width(c) == 4
  {
  }
}
