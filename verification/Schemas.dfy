// What the schemas make of words, quoted text and core tags (src/resolver/yaml12.rs and
// yaml11.rs), word by word, and the values that come of it (src/decode/mod.rs).
module Schemas {
  import opened Wrappers
  import opened Strings
  import opened Text
  import opened Values
  import opened Resolver
  import opened Events
  import Timestamps

  // ----- The words -----

  predicate IsNullWord(v: string) { v == "" || v in {"~", "null", "Null", "NULL"} }

  predicate IsTrueWord(schema: Schema, v: string) {
    || v in {"true", "True", "TRUE"}
    || (schema != Yaml12 && v in {"yes", "Yes", "YES", "on", "On", "ON"})
    || (schema == Yaml11 && v in {"y", "Y"})
  }

  predicate IsFalseWord(schema: Schema, v: string) {
    || v in {"false", "False", "FALSE"}
    || (schema != Yaml12 && v in {"no", "No", "NO", "off", "Off", "OFF"})
    || (schema == Yaml11 && v in {"n", "N"})
  }

  // The three special floats, by their bits in IEEE 754 binary64.
  function SpecialBits(v: string): Option<nat> {
    if v in {".inf", ".Inf", ".INF", "+.inf", "+.Inf", "+.INF"} then Some(0x7ff0_0000_0000_0000)
    else if v in {"-.inf", "-.Inf", "-.INF"} then Some(0xfff0_0000_0000_0000)
    else if v in {".nan", ".NaN", ".NAN"} then Some(0x7ff8_0000_0000_0000)
    else None
  }

  lemma WordsDiffer(v: string)
    ensures IsNullWord(v) ==> !IsTrueWord(Yaml11, v) && !IsFalseWord(Yaml11, v) && v != "<<"
    ensures IsTrueWord(Yaml11, v) ==> !IsFalseWord(Yaml11, v) && v != "<<"
    ensures IsFalseWord(Yaml11, v) ==> v != "<<"
  {
  }

  // No word begins like a number.
  lemma WordsAreLetters(v: string)
    requires v != "" && (IsDigit(v[0]) || v[0] in {'-', '+', '.', '_'})
    ensures !IsNullWord(v) && !IsTrueWord(Yaml11, v) && !IsFalseWord(Yaml11, v) && v != "<<"
  {
  }

  lemma BoolWords11(v: string, pyyaml: bool)
    ensures var schema := if pyyaml then Yaml11PyYaml else Yaml11;
            TryParseBool11(v, pyyaml) ==
              if IsTrueWord(schema, v) then Some(true) else if IsFalseWord(schema, v) then Some(false) else None
  {
    WordsDiffer(v);
  }

  // ----- Plain scalars -----

  // Which plain scalars are null, a boolean or a merge key, under each schema.
  lemma WordsExactly(schema: Schema, f: Floats, v: string)
    ensures var kind := Classify(schema, f, v, Plain, None);
            && (kind == NullKind <==> v == "" || v in {"~", "null", "Null", "NULL"})
            && (kind == BoolKind(true) <==> IsTrueWord(schema, v))
            && (kind == BoolKind(false) <==> IsFalseWord(schema, v))
            && (kind == MergeKind <==> v == "<<")
  {
    if schema == Yaml12 {
      WordsExactly12(f, v);
    } else {
      WordsExactly11(f, v, schema == Yaml11PyYaml);
    }
    hide ClassifyPlain12, ClassifyPlain11, IsTrueWord, IsFalseWord;
  }

  lemma WordsExactly12(f: Floats, v: string)
    ensures var kind := ClassifyPlain12(f, v);
            && (kind == NullKind <==> v == "" || v in {"~", "null", "Null", "NULL"})
            && (kind == BoolKind(true) <==> IsTrueWord(Yaml12, v))
            && (kind == BoolKind(false) <==> IsFalseWord(Yaml12, v))
            && (kind == MergeKind <==> v == "<<")
  {
    hide ClassifyNumber12;
    NumberKinds12(f, v);
    WordsDiffer(v);
  }

  lemma WordsExactly11(f: Floats, v: string, pyyaml: bool)
    ensures var kind, schema := ClassifyPlain11(f, v, pyyaml), if pyyaml then Yaml11PyYaml else Yaml11;
            && (kind == NullKind <==> v == "" || v in {"~", "null", "Null", "NULL"})
            && (kind == BoolKind(true) <==> IsTrueWord(schema, v))
            && (kind == BoolKind(false) <==> IsFalseWord(schema, v))
            && (kind == MergeKind <==> v == "<<")
  {
    hide ClassifyNumber11, TryParseBool11;
    NumberKinds11(f, v, pyyaml);
    BoolWords11(v, pyyaml);
    WordsDiffer(v);
  }

  predicate IsNumberOrText(kind: ScalarKind) { kind.IntKind? || kind.BigIntKind? || kind.FloatKind? || kind.StrKind? }

  lemma NumberKinds12(f: Floats, v: string)
    ensures IsNumberOrText(ClassifyNumber12(f, v))
  {
  }

  lemma NumberKinds11(f: Floats, v: string, pyyaml: bool)
    ensures IsNumberOrText(ClassifyNumber11(f, v, pyyaml))
  {
  }

  // Which plain scalars are floats under 1.2, and which bits they have: the special ones, and
  // what the reader of floats takes of a text that begins like a number, has a point or an
  // exponent, and is no integer.
  lemma FloatsExactly12(f: Floats, v: string, bits: nat)
    ensures Classify(Yaml12, f, v, Plain, None) == FloatKind(bits) <==>
            if SpecialBits(v).Some? then SpecialBits(v) == Some(bits)
            else
              && v != "" && (IsDigit(v[0]) || v[0] in {'-', '+', '.'}) && ('.' in v || 'e' in v || 'E' in v)
              && Numeral12(v) == None && f.parse(v) == Some(bits)
  {
    if v != "" && (IsDigit(v[0]) || v[0] in {'-', '+', '.'}) {
      WordsAreLetters(v);
      NumberIsExact12(f, v);
      if SpecialBits(v).Some? {
        SpecialIsNoNumeral(v);
      }
      hide SpecialFloat, SpecialBits, Numeral12, IsNullWord, IsTrueWord, IsFalseWord, TryParseInt12, IsBigInt12;
      SpecialIs(v);
    } else {
      SpecialStarts(v);
    }
  }

  lemma SpecialIs(v: string)
    ensures SpecialFloat(v) == SpecialBits(v)
  {
  }

  lemma SpecialStarts(v: string)
    ensures SpecialBits(v).Some? ==> |v| > 3 && v[0] in {'-', '+', '.'} && (v[0] == '.' || v[1] == '.') && '.' in v
  {
    if SpecialBits(v).Some? {
      assert v[0] == '.' || v[1] == '.';
    }
  }

  lemma SpecialIsNoNumeral(v: string)
    requires SpecialBits(v).Some?
    ensures Numeral12(v) == None
  {
    SpecialStarts(v);
    hide SpecialBits;
    var rest := SplitSign(v).value.rest;
    assert rest[0] == '.';
    assert DigitValue(rest[0]) == 16;
  }

  // Under 1.1 the underscores go first; base-60 floats have a reader of their own, and PyYAML
  // takes neither a leading underscore, nor a float without a point or with an unsigned exponent.
  lemma FloatsExactly11(f: Floats, v: string, bits: nat, pyyaml: bool)
    ensures var clean := StripUnderscores(v);
            ClassifyPlain11(f, v, pyyaml) == FloatKind(bits) <==>
            if SpecialBits(v).Some? then SpecialBits(v) == Some(bits)
            else
              && v != "" && (IsDigit(v[0]) || v[0] in {'-', '+', '.', '_'}) && ('.' in clean || 'e' in clean || 'E' in clean)
              && !IsIntegerForm11(v)
              && if ':' in clean && '.' in clean then !(pyyaml && StartsUnderscored(v)) && f.sexagesimal(clean) == Some(bits)
                 else (pyyaml ==> !StartsUnderscored(v) && IsPyYamlFloat(clean)) && f.parse(clean) == Some(bits)
  {
    hide SpecialFloat, SpecialBits, ClassifyPlain11, IsIntegerForm11, StripUnderscores, PyYamlFloatShape, IsPyYamlFloat;
    hide StartsUnderscored, LeadingUnderscore;
    StartsUnderscoredExactly(v);
    ShapeExactly(StripUnderscores(v));
    SpecialIs(v);
    SpecialStarts(v);
    SpecialIsNoForm(v);
    FloatOfText11(f, v, bits, pyyaml);
  }

  lemma FloatOfText11(f: Floats, v: string, bits: nat, pyyaml: bool)
    ensures ClassifyPlain11(f, v, pyyaml) == FloatKind(bits) <==>
            && v != "" && (IsDigit(v[0]) || v[0] in {'-', '+', '.', '_'}) && !IsIntegerForm11(v)
            && !(pyyaml && LeadingUnderscore(v)) && TryParseFloat11(f, v, pyyaml) == Some(bits)
  {
    hide IsIntegerForm11, TryParseInt11, IsBigInt11, TryParseFloat11, LeadingUnderscore;
    if v != "" && (IsDigit(v[0]) || v[0] in {'-', '+', '.', '_'}) {
      NumberIsForm11(f, v, pyyaml);
    }
  }

  predicate StartsUnderscored(v: string) { "_" <= v || "-_" <= v || "+_" <= v }

  // A point, and a sign behind the first exponent mark.
  predicate IsPyYamlFloat(s: string) {
    '.' in s && forall i | 0 <= i < |s| && s[i] in {'e', 'E'} && 'e' !in s[..i] && 'E' !in s[..i] ::
                  i + 1 < |s| && s[i + 1] in {'+', '-'}
  }

  lemma StartsUnderscoredExactly(v: string)
    ensures LeadingUnderscore(v) <==> StartsUnderscored(v)
  {
  }

  lemma ShapeExactly(s: string)
    ensures PyYamlFloatShape(s) <==> IsPyYamlFloat(s)
  {
    forall i | 0 <= i < |s| && s[i] in {'e', 'E'}
      ensures FirstExponent(s) == i <==> 'e' !in s[..i] && 'E' !in s[..i]
    {
      FirstIsFirst(s, i);
    }
  }

  lemma {:induction false} FirstIsFirst(s: string, i: nat)
    requires i < |s| && s[i] in {'e', 'E'}
    ensures FirstExponent(s) == i <==> 'e' !in s[..i] && 'E' !in s[..i]
  {
    if i > 0 {
      assert s[..i] == [s[0]] + s[1..][..i - 1];
      FirstIsFirst(s[1..], i - 1);
    }
  }

  lemma NumberIsForm11(f: Floats, v: string, pyyaml: bool)
    requires v != "" && (IsDigit(v[0]) || v[0] in {'-', '+', '.', '_'})
    ensures ClassifyPlain11(f, v, pyyaml) == ClassifyNumber11(f, v, pyyaml)
    ensures IsInteger(ClassifyNumber11(f, v, pyyaml)) <==> IsIntegerForm11(v) && !(pyyaml && LeadingUnderscore(v))
  {
    hide ClassifyNumber11, IsIntegerForm11, LeadingUnderscore, TryParseBool11;
    WordsAreLetters(v);
    BoolWords11(v, pyyaml);
    IntegersAreForms11(f, v, pyyaml);
  }

  lemma SpecialIsNoForm(v: string)
    ensures SpecialBits(v).Some? ==> !IsIntegerForm11(v) && !StartsUnderscored(v)
  {
    SpecialStarts(v);
    hide SpecialBits, AreSegments;
    if SpecialBits(v).Some? {
      var rest := SplitSign(v).value.rest;
      StripKeepsFirst(rest);
      assert DigitValue('.') == 16;
      if IsBase60(v) {
        Base60HasNone(v, '.');
      }
    }
  }

  // ----- Numbers as they are written -----

  lemma {:induction false} DigitsCount(n: nat)
    ensures RadixValue(Decimal(n), |Decimal(n)|, 10) == n
  {
    if n < 10 {
      assert RadixValue(Decimal(n), 0, 10) == 0;
    } else {
      var s := Decimal(n);
      DigitsCount(n / 10);
      SamePrefix(s, Decimal(n / 10), |s| - 1, 10);
    }
  }

  lemma {:induction false} SamePrefix(s: string, t: string, n: nat, radix: nat)
    requires n <= |s| && n <= |t| && s[..n] == t[..n]
    ensures RadixValue(s, n, radix) == RadixValue(t, n, radix)
  {
    if n > 0 {
      assert s[..n - 1] == s[..n][..n - 1] && t[..n - 1] == t[..n][..n - 1];
      assert s[n - 1] == s[..n][n - 1] && t[n - 1] == t[..n][n - 1];
      SamePrefix(s, t, n - 1, radix);
    }
  }

  // A decimal numeral is its number under every schema, with either sign.
  lemma NumeralsCount(schema: Schema, f: Floats, n: nat, sign: string)
    requires sign in {"", "+", "-"}
    ensures var i: int := n;
            Classify(schema, f, sign + Decimal(n), Plain, None) ==
            if n > 0x7fff_ffff_ffff_ffff then BigIntKind else IntKind(if sign == "-" then -i else i)
  {
    DigitsCount(n);
    DecimalIsNumeral(n);
    UnsignedNumeral(Decimal(n));
    hide Decimal, RadixValue, Classify, Unsigned11, Unsigned12, InRadix;
    LiteralCounts(schema, f, sign, Decimal(n), Numeral(sign == "-", 10, Decimal(n)));
  }

  lemma NumeralOf(sign: string, n: nat)
    requires sign in {"", "+", "-"}
    ensures var numeral := Numeral(sign == "-", 10, Decimal(n));
            Numeral12(sign + Decimal(n)) == Some(numeral) == Numeral11(sign + Decimal(n)) && Magnitude(numeral) == n
  {
    DigitsCount(n);
    DecimalIsNumeral(n);
    UnsignedNumeral(Decimal(n));
    SignSplits(sign, Decimal(n));
    hide Decimal, RadixValue, SplitSign, Unsigned11, StripUnderscores;
  }

  // An integer literal without its sign, under 1.2.
  function Unsigned12(negative: bool, rest: string): Option<Numeral> {
    if HasPrefix(rest, 'x', 'X') then AsNumeral(negative, 16, rest[2..])
    else if HasPrefix(rest, 'o', 'O') then AsNumeral(negative, 8, rest[2..])
    else if |rest| > 1 && rest[0] == '0' then None
    else AsNumeral(negative, 10, rest)
  }

  lemma LiteralCounts(schema: Schema, f: Floats, sign: string, rest: string, n: Numeral)
    requires sign in {"", "+", "-"} && rest != "" && IsDigit(rest[0])
    requires Some(n) == if schema == Yaml12 then Unsigned12(sign == "-", rest)
                        else Unsigned11(sign == "-", StripUnderscores(rest))
    ensures Classify(schema, f, sign + rest, Plain, None) == IntegerKind(n)
  {
    SignSplits(sign, rest);
    hide Unsigned11, SplitSign, IntegerKind, LeadingUnderscore;
    if schema == Yaml12 {
      assert Numeral12(sign + rest) == Some(n);
      hide ClassifyPlain12, Numeral12;
      IntegersAreExact12(f, sign + rest);
    } else {
      assert Numeral11(sign + rest) == Some(n);
      hide ClassifyPlain11, Numeral11;
      IntegersAreExact11(f, sign + rest, schema == Yaml11PyYaml);
    }
  }

  lemma UnsignedNumeral(d: string)
    requires d != "" && InRadix(d, 10) && !(d[0] == '0' && |d| > 1)
    ensures StripUnderscores(d) == d
    ensures forall negative :: Unsigned12(negative, d) == Some(Numeral(negative, 10, d)) == Unsigned11(negative, d)
  {
    assert DigitValue('_') == 16;
    Strips(d);
  }

  // A radix mark and digits of that radix. Only 1.2 knows `0o`, and only 1.1 `0b` and the
  // bare leading zero.
  predicate IsMarkOf(schema: Schema, mark: string, radix: nat) {
    || (radix == 16 && mark in {"0x", "0X"})
    || (radix == 8 && schema == Yaml12 && mark in {"0o", "0O"})
    || (radix == 8 && schema != Yaml12 && mark == "0")
    || (radix == 2 && schema != Yaml12 && mark in {"0b", "0B"})
  }

  lemma MarkedNumeralsCount(schema: Schema, f: Floats, sign: string, mark: string, digits: string, radix: nat)
    requires sign in {"", "+", "-"} && IsMarkOf(schema, mark, radix) && digits != "" && InRadix(digits, radix)
    ensures Classify(schema, f, sign + (mark + digits), Plain, None) == IntegerKind(Numeral(sign == "-", radix, digits))
  {
    hide Classify, IsMarkOf, InRadix, IntegerKind;
    MarkedNumeral(schema, mark, digits, radix, sign == "-");
    LiteralCounts(schema, f, sign, mark + digits, Numeral(sign == "-", radix, digits));
  }

  lemma MarkedNumeral(schema: Schema, mark: string, digits: string, radix: nat, negative: bool)
    requires IsMarkOf(schema, mark, radix) && digits != "" && InRadix(digits, radix)
    ensures var rest := mark + digits;
            && rest != "" && rest[0] == '0' && StripUnderscores(rest) == rest
            && Some(Numeral(negative, radix, digits)) ==
                 if schema == Yaml12 then Unsigned12(negative, rest) else Unsigned11(negative, rest)
  {
    var rest := mark + digits;
    assert rest[|mark|..] == digits;
    assert DigitValue('_') == 16 && DigitValue('x') == 16 && DigitValue('X') == 16;
    if mark == "0" {
      assert rest[1] == digits[0] && DigitValue('b') == 11 && DigitValue('B') == 11;
    }
    assert '_' !in mark && '_' !in digits;
    Strips(rest);
  }

  lemma SignSplits(sign: string, d: string)
    requires sign in {"", "+", "-"} && d != "" && IsDigit(d[0])
    ensures SplitSign(sign + d) == Some(Signed(sign == "-", d)) && !LeadingUnderscore(sign + d)
  {
    if sign == "" {
      assert sign + d == d;
    } else {
      assert (sign + d)[1..] == d;
    }
  }

  lemma DecimalIsNumeral(n: nat)
    ensures var d := Decimal(n);
            && !HasPrefix(d, 'x', 'X') && !HasPrefix(d, 'o', 'O') && !HasPrefix(d, 'b', 'B')
            && d != "" && IsDigit(d[0]) && !(d[0] == '0' && |d| > 1) && InRadix(d, 10)
  {
    DigitsAreRadixTen(Decimal(n));
    assert forall i | 0 <= i < |Decimal(n)| :: IsDigit(Decimal(n)[i]);
    assert n == 0 ==> Decimal(n) == "0";
  }

  // What the digits are worth.
  lemma DigitsAreWorth(s: string, c: char, radix: nat)
    ensures RadixValue([c], 1, radix) == DigitValue(c)
    ensures RadixValue(s + [c], |s| + 1, radix) == RadixValue(s, |s|, radix) * radix + DigitValue(c)
  {
    assert RadixValue([c], 0, radix) == 0;
    SamePrefix(s + [c], s, |s|, radix);
  }

  lemma {:induction false} Strips(s: string)
    requires '_' !in s
    ensures StripUnderscores(s) == s
  {
    if s != "" {
      Strips(s[1..]);
      assert s == [s[0]] + s[1..];
    }
  }

  // Under 1.1 `h:mm` is h times 60 and mm, if mm is below 60; else it is text.
  lemma ClockCounts(f: Floats, h: nat, mm: string, pyyaml: bool)
    requires h > 0 && |mm| == 2 && AllDigits(mm)
    ensures var m := 10 * DigitValue(mm[0]) + DigitValue(mm[1]);
            ClassifyPlain11(f, Decimal(h) + ([':'] + mm), pyyaml) ==
              if m < 60 && 60 * h + m <= 0x7fff_ffff_ffff_ffff then IntKind(60 * h + m) else StrKind
  {
    var hours, m := Decimal(h), 10 * DigitValue(mm[0]) + DigitValue(mm[1]);
    var v := hours + ([':'] + mm);
    ClockText(hours, mm);
    DigitsCount(h);
    ClockSegments(hours, mm, h);
    hide Decimal, ClassifyPlain11, StripUnderscores, IsBase60, Base60Value, SplitSign, LeadingUnderscore, AllDigits;
    if m < 60 {
      Base60IsExactOrText(f, v, pyyaml);
    } else {
      NoClock(f, v, pyyaml);
    }
  }

  lemma ClockText(hours: string, mm: string)
    requires AllDigits(hours) && AllDigits(mm) && hours != ""
    ensures var v := hours + ([':'] + mm);
            && v != "" && IsDigit(v[0]) && !LeadingUnderscore(v) && SplitSign(v) == Some(Signed(false, v))
            && ':' in v && '.' !in v && 'e' !in v && 'E' !in v && StripUnderscores(v) == v
  {
    var v := hours + ([':'] + mm);
    assert forall i | 0 <= i < |v| :: IsDigit(v[i]) || v[i] == ':';
    assert v[|hours|] == ':';
    ClockCharacters(v);
    Strips(v);
  }

  lemma ClockCharacters(v: string)
    requires forall i | 0 <= i < |v| :: IsDigit(v[i]) || v[i] == ':'
    ensures '.' !in v && 'e' !in v && 'E' !in v && '_' !in v && '-' !in v && '+' !in v
  {
  }

  lemma ClockSegments(hours: string, mm: string, h: nat)
    requires AllDigits(hours) && hours != "" && hours[0] != '0' && RadixValue(hours, |hours|, 10) == h
    requires |mm| == 2 && AllDigits(mm)
    requires var v := hours + ([':'] + mm); SplitSign(v) == Some(Signed(false, v)) && StripUnderscores(v) == v
    ensures var v, m := hours + ([':'] + mm), 10 * DigitValue(mm[0]) + DigitValue(mm[1]);
            && (IsBase60(v) <==> m < 60)
            && (m < 60 ==> Base60Value(v) == 60 * h + m)
  {
    SplitTwo(hours, mm, ':');
    TwoDigits(mm);
    TwoSegments(hours, mm, h, 10 * DigitValue(mm[0]) + DigitValue(mm[1]));
    hide StripUnderscores, Split, RadixValue, AreSegments, Base60, SplitSign, AllDigits;
  }

  lemma TwoDigits(mm: string)
    requires |mm| == 2
    ensures RadixValue(mm, 2, 10) == 10 * DigitValue(mm[0]) + DigitValue(mm[1])
  {
    assert RadixValue(mm, 1, 10) == RadixValue(mm, 0, 10) * 10 + DigitValue(mm[0]);
  }

  lemma TwoSegments(hours: string, mm: string, h: nat, m: nat)
    requires AllDigits(hours) && hours != "" && hours[0] != '0' && RadixValue(hours, |hours|, 10) == h
    requires |mm| == 2 && AllDigits(mm) && RadixValue(mm, 2, 10) == m
    ensures AreSegments([hours, mm]) <==> m < 60
    ensures Base60([hours, mm], 2) == 60 * h + m
  {
    hide RadixValue;
    var parts := [hours, mm];
    assert Base60(parts, 1) == Base60(parts, 0) * 60 + h;
    assert IsSegment(parts[0], true) && (IsSegment(parts[1], false) <==> m < 60);
  }

  lemma {:induction false} SplitTwo(a: string, b: string, mark: char)
    requires mark !in a && mark !in b
    ensures Split(a + ([mark] + b), mark) == [a, b]
  {
    if a == "" {
      assert a + ([mark] + b) == [mark] + b && ([mark] + b)[1..] == b;
      SplitNone(b, mark);
    } else {
      assert (a + ([mark] + b))[1..] == a[1..] + ([mark] + b);
      SplitTwo(a[1..], b, mark);
      assert [a[0]] + a[1..] == a;
    }
  }

  lemma {:induction false} SplitNone(s: string, mark: char)
    requires mark !in s
    ensures Split(s, mark) == [s]
  {
    if s != "" {
      SplitNone(s[1..], mark);
      assert [s[0]] + s[1..] == s;
    }
  }

  lemma NoClock(f: Floats, v: string, pyyaml: bool)
    requires v != "" && IsDigit(v[0]) && SplitSign(v) == Some(Signed(false, v)) && StripUnderscores(v) == v && !IsBase60(v)
    requires ':' in v && '.' !in v && 'e' !in v && 'E' !in v
    ensures ClassifyPlain11(f, v, pyyaml) == StrKind
  {
    hide IsBase60, StripUnderscores, TryParseInt11, IsBigInt11, Numeral11, TryParseBool11, SpecialFloat,
        ClassifyNumber11, SplitSign;
    ColonIsNoNumeral(v);
    BoolWords11(v, pyyaml);
    WordsAreLetters(v);
    NumberIsForm11(f, v, pyyaml);
    NumberKinds11(f, v, pyyaml);
    if ClassifyPlain11(f, v, pyyaml).FloatKind? {
      SpecialFloatsHaveDot(v);
      FloatOfText11(f, v, ClassifyPlain11(f, v, pyyaml).bits, pyyaml);
    }
  }

  lemma HexDigits()
    ensures DigitValue('0') == 0 && DigitValue('1') == 1 && DigitValue('2') == 2 && DigitValue('3') == 3 && DigitValue('4') == 4
    ensures DigitValue('5') == 5 && DigitValue('6') == 6 && DigitValue('7') == 7 && DigitValue('8') == 8 && DigitValue('9') == 9
    ensures DigitValue('a') == DigitValue('A') == 10 && DigitValue('b') == DigitValue('B') == 11
    ensures DigitValue('c') == DigitValue('C') == 12 && DigitValue('d') == DigitValue('D') == 13
    ensures DigitValue('e') == DigitValue('E') == 14 && DigitValue('f') == DigitValue('F') == 15
  {
  }

  // Quoted and block scalars are text, unless a tag says otherwise.
  lemma QuotedIsText(schema: Schema, f: Floats, v: string, style: ScalarStyle)
    requires style != Plain
    ensures Classify(schema, f, v, style, None) == StrKind
  {
  }

  // ----- Core tags -----

  predicate IsCore(tag: string, name: string) { tag == "!!" + name || tag == "tag:yaml.org,2002:" + name }

  // The tag's own type, where the text conforms to it, and text elsewhere. The style of the
  // scalar does not matter.
  lemma TaggedWords(schema: Schema, f: Floats, v: string, style: ScalarStyle, tag: string)
    ensures var kind := Classify(schema, f, v, style, Some(tag));
            && (IsCore(tag, "null") ==> kind == if IsNullWord(v) then NullKind else StrKind)
            && (IsCore(tag, "bool") ==>
                  kind == if IsTrueWord(schema, v) then BoolKind(true)
                          else if IsFalseWord(schema, v) then BoolKind(false) else StrKind)
            && (IsCore(tag, "merge") ==> kind == if schema == Yaml12 then StrKind else MergeKind)
            && (IsCore(tag, "str") ==> kind == StrKind)
  {
    TagNames(tag);
    hide IsCore;
    WordsDiffer(v);
    BoolWords11(v, schema == Yaml11PyYaml);
  }

  // The names of the core tags spelled out; no tag is two of them.
  lemma TagNames(tag: string)
    ensures IsCore(tag, "null") <==> tag in {"!!null", "tag:yaml.org,2002:null"}
    ensures IsCore(tag, "bool") <==> tag in {"!!bool", "tag:yaml.org,2002:bool"}
    ensures IsCore(tag, "int") <==> tag in {"!!int", "tag:yaml.org,2002:int"}
    ensures IsCore(tag, "float") <==> tag in {"!!float", "tag:yaml.org,2002:float"}
    ensures IsCore(tag, "merge") <==> tag in {"!!merge", "tag:yaml.org,2002:merge"}
    ensures IsCore(tag, "str") <==> tag in {"!!str", "tag:yaml.org,2002:str"}
  {
    assert "!!" + "null" == "!!null" && "tag:yaml.org,2002:" + "null" == "tag:yaml.org,2002:null";
    assert "!!" + "bool" == "!!bool" && "tag:yaml.org,2002:" + "bool" == "tag:yaml.org,2002:bool";
    assert "!!" + "int" == "!!int" && "tag:yaml.org,2002:" + "int" == "tag:yaml.org,2002:int";
    assert "!!" + "float" == "!!float" && "tag:yaml.org,2002:" + "float" == "tag:yaml.org,2002:float";
    assert "!!" + "merge" == "!!merge" && "tag:yaml.org,2002:" + "merge" == "tag:yaml.org,2002:merge";
    assert "!!" + "str" == "!!str" && "tag:yaml.org,2002:" + "str" == "tag:yaml.org,2002:str";
  }

  lemma TaggedInts12(f: Floats, v: string, style: ScalarStyle, tag: string)
    requires IsCore(tag, "int")
    ensures Classify(Yaml12, f, v, style, Some(tag)) ==
            if Numeral12(v).Some? then IntegerKind(Numeral12(v).value) else StrKind
  {
    TagNames(tag);
    ParsesExactly12(v);
    hide Numeral12, TryParseInt12, IsBigInt12, IsCore;
  }

  // Under 1.1 base-60 integers that fit are integers as well.
  lemma TaggedInts11(f: Floats, v: string, style: ScalarStyle, tag: string, schema: Schema)
    requires IsCore(tag, "int") && schema != Yaml12
    ensures Numeral11(v).Some? ==> Classify(schema, f, v, style, Some(tag)) == IntegerKind(Numeral11(v).value)
    ensures IsBase60InRange(v) ==> Classify(schema, f, v, style, Some(tag)) == IntKind(Base60Value(v))
    ensures !IsIntegerForm11(v) ==> Classify(schema, f, v, style, Some(tag)) == StrKind
  {
    TagNames(tag);
    hide IsCore;
    assert Classify(schema, f, v, style, Some(tag)) ==
           if TryParseInt11(v).Some? then IntKind(TryParseInt11(v).value) else if IsBigInt11(v) then BigIntKind else StrKind;
    IntegerForms11(v);
  }

  lemma IntegerForms11(v: string)
    ensures Numeral11(v).Some? ==>
              IntegerKind(Numeral11(v).value) ==
                if TryParseInt11(v).Some? then IntKind(TryParseInt11(v).value) else if IsBigInt11(v) then BigIntKind else StrKind
    ensures IsBase60InRange(v) ==> TryParseInt11(v) == Some(Base60Value(v))
    ensures !IsIntegerForm11(v) ==> TryParseInt11(v) == None && !IsBigInt11(v)
  {
    if SplitSign(v).Some? {
      BigExactly11(v);
      if IsBase60(v) {
        Base60IsInt(v);
      }
      if ':' in StripUnderscores(SplitSign(v).value.rest) {
        ColonIsNoNumeral(v);
        if TryParseInt11(v).Some? {
          SexagesimalIsBase60(v);
        }
      } else {
        ParsesExactly11(v);
      }
    }
  }

  // A tagged float needs no point: what the reader of floats takes.
  lemma TaggedFloats(schema: Schema, f: Floats, v: string, style: ScalarStyle, tag: string)
    requires IsCore(tag, "float")
    ensures Classify(schema, f, v, style, Some(tag)) ==
            var clean := StripUnderscores(v);
            var bits := if SpecialBits(v).Some? then SpecialBits(v)
                        else if schema == Yaml12 then f.parse(v)
                        else if ':' in clean then f.sexagesimal(clean) else f.parse(clean);
            if bits.Some? then FloatKind(bits.value) else StrKind
  {
    TagNames(tag);
    hide IsCore, StripUnderscores;
    SpecialIs(v);
  }

  // Any other tag makes text.
  lemma OtherTagsMakeText(schema: Schema, f: Floats, v: string, style: ScalarStyle, tag: string)
    requires !IsCore(tag, "null") && !IsCore(tag, "bool") && !IsCore(tag, "int") && !IsCore(tag, "float") && !IsCore(tag, "merge")
    ensures Classify(schema, f, v, style, Some(tag)) == StrKind
  {
    TagNames(tag);
    hide IsCore;
  }

  // ----- The values -----

  // A plain scalar without a tag, as a value.
  lemma PlainValues(c: Config, v: string)
    ensures var r := ScalarValue(c, v, Plain, None);
            && (r.value == Null <==> IsNullWord(v))
            && (r.value == Bool(true) <==> IsTrueWord(c.schema, v))
            && (r.value == Bool(false) <==> IsFalseWord(c.schema, v))
            && (r.value == Tagged("tag:yaml.org,2002:merge", Str("<<")) <==> v == "<<")
            && (r.merges <==> v == "<<")
  {
    WordsExactly(c.schema, c.floats, v);
    hide IsTrueWord, IsFalseWord, Classify;
  }

  // A quoted or block scalar without a tag is its text.
  lemma QuotedValues(c: Config, v: string, style: ScalarStyle)
    requires style != Plain
    ensures ScalarValue(c, v, style, None) == Resolved(Str(v), false)
  {
    QuotedIsText(c.schema, c.floats, v, style);
  }

  // What is no number and no word is its text, or a timestamp where those are resolved.
  lemma TextValues(c: Config, v: string)
    requires Classify(c.schema, c.floats, v, Plain, None) == StrKind
    ensures ScalarValue(c, v, Plain, None) ==
            if c.resolveTimestamps && Timestamps.Parsed(v).Some? then Resolved(Stamp(Timestamps.Parsed(v).value), false)
            else Resolved(Str(v), false)
  {
  }

  // An integer of 1.2 is its number, and past 64 bits its digits.
  lemma IntegerValues12(c: Config, v: string)
    requires c.schema == Yaml12 && Numeral12(v).Some?
    ensures var n := Numeral12(v).value;
            var size: int := Magnitude(n);
            ScalarValue(c, v, Plain, None) ==
              if size <= 0x7fff_ffff_ffff_ffff then Resolved(Int(if n.negative then -size else size), false)
              else Resolved(BigInt(BigPayload(v)), false)
  {
    IntegersAreExact12(c.floats, v);
    hide Numeral12, Magnitude, ClassifyPlain12;
  }

  lemma FloatValues12(c: Config, v: string, bits: nat)
    requires c.schema == Yaml12
    ensures ScalarValue(c, v, Plain, None).value == Float(bits) <==> Classify(Yaml12, c.floats, v, Plain, None) == FloatKind(bits)
  {
    hide Classify;
  }

  // A core tag on a node that is not there.
  lemma EmptyValues(c: Config, tag: string)
    ensures IsCore(tag, "null") ==> EmptyValue(c, tag) == Resolved(Null, false)
    ensures IsCore(tag, "str") || IsCore(tag, "bool") || IsCore(tag, "int") ==> EmptyValue(c, tag) == Resolved(Str(""), false)
    ensures IsCore(tag, "float") ==>
              EmptyValue(c, tag) == Resolved(if c.floats.parse("").Some? then Float(c.floats.parse("").value) else Str(""), false)
    ensures IsCore(tag, "merge") ==>
              EmptyValue(c, tag) == if c.schema == Yaml12 then Resolved(Str(""), false)
                                    else Resolved(Tagged("tag:yaml.org,2002:merge", Str("<<")), true)
  {
    TagNames(tag);
    TaggedWords(c.schema, c.floats, "", Plain, tag);
    assert SpecialBits("") == None && StripUnderscores("") == "" && Numeral12("") == None && !IsIntegerForm11("");
    if IsCore(tag, "float") {
      TaggedFloats(c.schema, c.floats, "", Plain, tag);
    }
    if IsCore(tag, "int") {
      if c.schema == Yaml12 {
        TaggedInts12(c.floats, "", Plain, tag);
      } else {
        TaggedInts11(c.floats, "", Plain, tag, c.schema);
      }
    }
    hide Classify, IsCore;
  }
}
