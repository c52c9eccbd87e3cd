// Scalar resolution (src/resolver/mod.rs, yaml12.rs, yaml11.rs). Reading a float is left
// to an oracle; integers are exact at any size.
module Resolver {
  import opened Wrappers
  import opened Seqs
  import opened Strings
  import opened Text

  datatype Schema = Yaml12 | Yaml11 | Yaml11PyYaml

  datatype ScalarStyle = Plain | SingleQuoted | DoubleQuoted | Literal | Folded

  datatype ScalarKind =
    | NullKind | BoolKind(b: bool) | IntKind(i: int) | BigIntKind | FloatKind(bits: nat) | StrKind | MergeKind

  // How float literals and base-60 floats read, as bit patterns.
  datatype Floats = Floats(parse: string -> Option<nat>, sexagesimal: string -> Option<nat>)

  const I64_MAX: int := 0x7fff_ffff_ffff_ffff
  const INFINITY_BITS: nat := 0x7ff0_0000_0000_0000
  const NEG_INFINITY_BITS: nat := 0xfff0_0000_0000_0000
  const NAN_BITS: nat := 0x7ff8_0000_0000_0000

  // ----- Digits in a radix -----

  predicate InRadix(s: string, radix: nat) { forall i | 0 <= i < |s| :: DigitValue(s[i]) < radix }

  // The number that the first `n` digits of `s` denote.
  function RadixValue(s: string, n: nat, radix: nat): nat
    requires n <= |s|
  {
    if n == 0 then 0 else RadixValue(s, n - 1, radix) * radix + DigitValue(s[n - 1])
  }

  // `i64::from_str_radix` on a body that may not carry a sign of its own.
  function FromRadixUnsigned(body: string, radix: nat): Option<int> {
    if body == "" || !InRadix(body, radix) then None
    else if RadixValue(body, |body|, radix) > I64_MAX then None
    else Some(RadixValue(body, |body|, radix))
  }

  datatype Signed = Signed(negative: bool, rest: string)

  function SplitSign(value: string): Option<Signed> {
    if value == "" then None
    else
      var rest := if value[0] == '-' || value[0] == '+' then value[1..] else value;
      if rest == "" then None else Some(Signed(value[0] == '-', rest))
  }

  predicate HasPrefix(s: string, lower: char, upper: char) {
    |s| >= 2 && s[0] == '0' && (s[1] == lower || s[1] == upper)
  }

  function Negated(negative: bool, n: int): int { if negative then -n else n }

  function StripUnderscores(s: string): (r: string)
    ensures '_' !in r
  {
    if s == "" then "" else (if s[0] == '_' then "" else [s[0]]) + StripUnderscores(s[1..])
  }

  // ----- YAML 1.2 -----

  predicate IsNull(value: string) { value in {"", "~", "null", "Null", "NULL"} }

  function SpecialFloat(value: string): Option<nat> {
    if value in {".inf", ".Inf", ".INF", "+.inf", "+.Inf", "+.INF"} then Some(INFINITY_BITS)
    else if value in {"-.inf", "-.Inf", "-.INF"} then Some(NEG_INFINITY_BITS)
    else if value in {".nan", ".NaN", ".NAN"} then Some(NAN_BITS)
    else None
  }

  predicate HasFloatMark(s: string) { '.' in s || 'e' in s || 'E' in s }

  function TryParseInt12(value: string): Option<int> {
    var s :- SplitSign(value);
    var n :-
      if HasPrefix(s.rest, 'x', 'X') then FromRadixUnsigned(s.rest[2..], 16)
      else if HasPrefix(s.rest, 'o', 'O') then FromRadixUnsigned(s.rest[2..], 8)
      else if s.rest[0] == '0' then (if |s.rest| == 1 then Some(0) else None)
      else FromRadixUnsigned(s.rest, 10);
    Some(Negated(s.negative, n))
  }

  predicate IsBigDecimalInt(value: string) {
    match SplitSign(value)
    case None => false
    case Some(s) => AllDigits(s.rest) && (s.rest == "0" || s.rest[0] != '0')
  }

  predicate IsBigInt12(value: string) {
    match SplitSign(value)
    case None => false
    case Some(s) =>
      if HasPrefix(s.rest, 'x', 'X') then s.rest[2..] != "" && InRadix(s.rest[2..], 16)
      else if HasPrefix(s.rest, 'o', 'O') then s.rest[2..] != "" && InRadix(s.rest[2..], 8)
      else IsBigDecimalInt(value)
  }

  function TryParseFloat12(f: Floats, value: string): Option<nat> {
    if SpecialFloat(value).Some? then SpecialFloat(value)
    else if !HasFloatMark(value) then None
    else f.parse(value)
  }

  function ClassifyPlain12(f: Floats, value: string): ScalarKind {
    if IsNull(value) then NullKind
    else if value == "<<" then MergeKind
    else if value in {"true", "True", "TRUE"} then BoolKind(true)
    else if value in {"false", "False", "FALSE"} then BoolKind(false)
    else if !(IsDigit(value[0]) || value[0] in {'-', '+', '.'}) then StrKind
    else ClassifyNumber12(f, value)
  }

  function ClassifyNumber12(f: Floats, value: string): ScalarKind {
    if TryParseInt12(value).Some? then IntKind(TryParseInt12(value).value)
    else if IsBigInt12(value) then BigIntKind
    else if TryParseFloat12(f, value).Some? then FloatKind(TryParseFloat12(f, value).value)
    else StrKind
  }

  function ClassifyTagged12(f: Floats, value: string, tag: string): ScalarKind {
    if tag in {"!!null", "tag:yaml.org,2002:null"} then
      if IsNull(value) then NullKind else StrKind
    else if tag in {"!!bool", "tag:yaml.org,2002:bool"} then
      if value in {"true", "True", "TRUE"} then BoolKind(true)
      else if value in {"false", "False", "FALSE"} then BoolKind(false)
      else StrKind
    else if tag in {"!!int", "tag:yaml.org,2002:int"} then
      if TryParseInt12(value).Some? then IntKind(TryParseInt12(value).value)
      else if IsBigInt12(value) then BigIntKind
      else StrKind
    else if tag in {"!!float", "tag:yaml.org,2002:float"} then
      var bits := if SpecialFloat(value).Some? then SpecialFloat(value) else f.parse(value);
      if bits.Some? then FloatKind(bits.value) else StrKind
    else StrKind
  }

  // ----- YAML 1.1 -----

  function TryParseBool11(value: string, pyyaml: bool): Option<bool> {
    if !pyyaml && value in {"y", "Y"} then Some(true)
    else if !pyyaml && value in {"n", "N"} then Some(false)
    else if value in {"yes", "Yes", "YES", "true", "True", "TRUE", "on", "On", "ON"} then Some(true)
    else if value in {"no", "No", "NO", "false", "False", "FALSE", "off", "Off", "OFF"} then Some(false)
    else None
  }

  // One segment of a base-60 integer: the first starts with 1-9, a later one is below 60.
  predicate IsSegment(part: string, first: bool) {
    && part != "" && AllDigits(part)
    && if first then part[0] != '0' else |part| <= 2 && RadixValue(part, |part|, 10) < 60
  }

  predicate AreSegments(parts: seq<string>) {
    forall i | 0 <= i < |parts| :: IsSegment(parts[i], i == 0)
  }

  // The first `n` segments, each worth 60 of the next.
  function Base60(parts: seq<string>, n: nat): nat
    requires n <= |parts|
  {
    if n == 0 then 0
    else Base60(parts, n - 1) * 60 + RadixValue(parts[n - 1], |parts[n - 1]|, 10)
  }

  // A base-60 integer that fits; one that does not is no integer at all.
  function Sexagesimal(value: string): Option<int> {
    var parts := Split(value, ':');
    if AreSegments(parts) && Base60(parts, |parts|) <= I64_MAX then Some(Base60(parts, |parts|)) else None
  }

  function TryParseInt11(value: string): Option<int> {
    var s :- SplitSign(value);
    var n :- ParseUnsigned11(StripUnderscores(s.rest));
    Some(Negated(s.negative, n))
  }

  function ParseUnsigned11(clean: string): Option<int> {
    if clean == "" then None
    else if HasPrefix(clean, 'x', 'X') then FromRadixUnsigned(clean[2..], 16)
    else if HasPrefix(clean, 'b', 'B') then FromRadixUnsigned(clean[2..], 2)
    else if clean[0] == '0' && |clean| > 1 && AllDigits(clean) then FromRadixUnsigned(clean[1..], 8)
    else if ':' in clean then Sexagesimal(clean)
    else FromRadixUnsigned(clean, 10)
  }

  predicate IsBigInt11(value: string) {
    match SplitSign(value)
    case None => false
    case Some(s) =>
      var clean := StripUnderscores(s.rest);
      if HasPrefix(clean, 'x', 'X') then clean[2..] != "" && InRadix(clean[2..], 16)
      else if HasPrefix(clean, 'b', 'B') then clean[2..] != "" && InRadix(clean[2..], 2)
      else if |clean| > 1 && clean[0] == '0' then InRadix(clean[1..], 8)
      else clean != "" && AllDigits(clean) && (clean == "0" || clean[0] != '0')
  }

  // PyYAML wants a point, and a signed exponent.
  predicate PyYamlFloatShape(s: string) {
    '.' in s && forall i | 0 <= i < |s| && s[i] in {'e', 'E'} && FirstExponent(s) == i ::
                  i + 1 < |s| && s[i + 1] in {'+', '-'}
  }

  function FirstExponent(s: string): (n: nat)
    ensures n <= |s|
  {
    if s == "" || s[0] in {'e', 'E'} then 0 else 1 + FirstExponent(s[1..])
  }

  function TryParseFloat11(f: Floats, value: string, pyyaml: bool): Option<nat> {
    var clean := StripUnderscores(value);
    if SpecialFloat(value).Some? then SpecialFloat(value)
    else if !HasFloatMark(clean) then None
    else if ':' in clean && '.' in clean then f.sexagesimal(clean)
    else if pyyaml && !PyYamlFloatShape(clean) then None
    else f.parse(clean)
  }

  predicate LeadingUnderscore(value: string) {
    var after := if value != "" && (value[0] == '-' || value[0] == '+') then value[1..] else value;
    after != "" && after[0] == '_'
  }

  function ClassifyPlain11(f: Floats, value: string, pyyaml: bool): ScalarKind {
    if IsNull(value) then NullKind
    else if value == "<<" then MergeKind
    else if TryParseBool11(value, pyyaml).Some? then BoolKind(TryParseBool11(value, pyyaml).value)
    else if !(IsDigit(value[0]) || value[0] in {'-', '+', '.', '_'}) then StrKind
    else ClassifyNumber11(f, value, pyyaml)
  }

  function ClassifyNumber11(f: Floats, value: string, pyyaml: bool): ScalarKind {
    if pyyaml && LeadingUnderscore(value) then StrKind
    else if TryParseInt11(value).Some? then IntKind(TryParseInt11(value).value)
    else if IsBigInt11(value) then BigIntKind
    else if TryParseFloat11(f, value, pyyaml).Some? then FloatKind(TryParseFloat11(f, value, pyyaml).value)
    else StrKind
  }

  function ClassifyTagged11(f: Floats, value: string, tag: string, pyyaml: bool): ScalarKind {
    if tag in {"!!null", "tag:yaml.org,2002:null"} then
      if IsNull(value) then NullKind else StrKind
    else if tag in {"!!bool", "tag:yaml.org,2002:bool"} then
      var b := TryParseBool11(value, pyyaml);
      if b.Some? then BoolKind(b.value) else StrKind
    else if tag in {"!!int", "tag:yaml.org,2002:int"} then
      if TryParseInt11(value).Some? then IntKind(TryParseInt11(value).value)
      else if IsBigInt11(value) then BigIntKind
      else StrKind
    else if tag in {"!!float", "tag:yaml.org,2002:float"} then
      var clean := StripUnderscores(value);
      var bits := if SpecialFloat(value).Some? then SpecialFloat(value)
                  else if ':' in clean then f.sexagesimal(clean)
                  else f.parse(clean);
      if bits.Some? then FloatKind(bits.value) else StrKind
    else if tag in {"!!merge", "tag:yaml.org,2002:merge"} then MergeKind
    else StrKind
  }

  // `Schema::classify`.
  function Classify(schema: Schema, f: Floats, value: string, style: ScalarStyle, tag: Option<string>): ScalarKind {
    var pyyaml := schema == Yaml11PyYaml;
    if tag.Some? then
      if schema == Yaml12 then ClassifyTagged12(f, value, tag.value)
      else ClassifyTagged11(f, value, tag.value, pyyaml)
    else if style != Plain then StrKind
    else if schema == Yaml12 then ClassifyPlain12(f, value)
    else ClassifyPlain11(f, value, pyyaml)
  }

  // ----- Integer literals, and what they denote -----

  // An integer literal that is not base-60: a sign, a radix and digits of that radix.
  datatype Numeral = Numeral(negative: bool, radix: nat, digits: string)

  // The integer forms of YAML 1.2.
  function Numeral12(value: string): Option<Numeral> {
    var s :- SplitSign(value);
    if HasPrefix(s.rest, 'x', 'X') then AsNumeral(s.negative, 16, s.rest[2..])
    else if HasPrefix(s.rest, 'o', 'O') then AsNumeral(s.negative, 8, s.rest[2..])
    else if s.rest[0] == '0' && |s.rest| > 1 then None
    else AsNumeral(s.negative, 10, s.rest)
  }

  // Those of YAML 1.1: underscores are ignored, and a leading zero means octal.
  function Numeral11(value: string): Option<Numeral> {
    var s :- SplitSign(value);
    Unsigned11(s.negative, StripUnderscores(s.rest))
  }

  function Unsigned11(negative: bool, clean: string): Option<Numeral> {
    if HasPrefix(clean, 'x', 'X') then AsNumeral(negative, 16, clean[2..])
    else if HasPrefix(clean, 'b', 'B') then AsNumeral(negative, 2, clean[2..])
    else if |clean| > 1 && clean[0] == '0' then AsNumeral(negative, 8, clean[1..])
    else AsNumeral(negative, 10, clean)
  }

  function AsNumeral(negative: bool, radix: nat, digits: string): Option<Numeral> {
    if digits != "" && InRadix(digits, radix) then Some(Numeral(negative, radix, digits)) else None
  }

  function Magnitude(n: Numeral): nat { RadixValue(n.digits, |n.digits|, n.radix) }

  // What a schema must make of an integer literal: exact when it fits, else a big integer.
  function IntegerKind(n: Numeral): ScalarKind {
    if Magnitude(n) <= I64_MAX then IntKind(Negated(n.negative, Magnitude(n))) else BigIntKind
  }

  predicate IsInteger(kind: ScalarKind) { kind.IntKind? || kind.BigIntKind? }

  lemma DigitsAreRadixTen(s: string)
    ensures AllDigits(s) <==> InRadix(s, 10)
  {
  }

  lemma ParsesExactly12(value: string)
    ensures TryParseInt12(value).Some? <==> Numeral12(value).Some? && Magnitude(Numeral12(value).value) <= I64_MAX
    ensures TryParseInt12(value).Some? ==> IntKind(TryParseInt12(value).value) == IntegerKind(Numeral12(value).value)
    ensures IsBigInt12(value) <==> Numeral12(value).Some?
  {
    var s := SplitSign(value);
    if s.Some? {
      DigitsAreRadixTen(s.value.rest);
      if s.value.rest == "0" {
        assert RadixValue("0", 1, 10) == 0;
      }
    }
  }

  // A word of the schema does not start like a number.
  lemma NumbersAreNoWords12(value: string)
    requires value != "" && (IsDigit(value[0]) || value[0] in {'-', '+'})
    ensures !IsNull(value) && value !in {"<<", "true", "True", "TRUE", "false", "False", "FALSE"}
  {
  }

  lemma NumeralsStartLikeNumbers(value: string)
    ensures Numeral12(value).Some? ==> value != "" && (IsDigit(value[0]) || value[0] in {'-', '+'})
  {
  }

  // A plain scalar is an integer under 1.2 exactly when it is one of the integer forms, and
  // then it is exact: -2^63 and everything past the 64-bit range is a big integer.
  lemma IntegersAreExact12(f: Floats, value: string)
    ensures IsInteger(ClassifyPlain12(f, value)) <==> Numeral12(value).Some?
    ensures Numeral12(value).Some? ==> ClassifyPlain12(f, value) == IntegerKind(Numeral12(value).value)
  {
    NumberIsExact12(f, value);
    NumeralsStartLikeNumbers(value);
    if Numeral12(value).Some? {
      NumbersAreNoWords12(value);
    }
  }

  lemma NumberIsExact12(f: Floats, value: string)
    ensures IsInteger(ClassifyNumber12(f, value)) <==> Numeral12(value).Some?
    ensures Numeral12(value).Some? ==> ClassifyNumber12(f, value) == IntegerKind(Numeral12(value).value)
  {
    ParsesExactly12(value);
  }

  lemma UnsignedParsesExactly(negative: bool, clean: string)
    requires ':' !in clean
    ensures var n := Unsigned11(negative, clean);
            ParseUnsigned11(clean) == if n.Some? && Magnitude(n.value) <= I64_MAX then Some(Magnitude(n.value)) else None
  {
    DigitsAreRadixTen(clean);
    if |clean| > 1 && clean[0] == '0' {
      assert forall i | 1 <= i < |clean| :: clean[i] == clean[1..][i - 1];
    }
  }

  lemma ParsesExactly11(value: string)
    requires SplitSign(value).Some? ==> ':' !in StripUnderscores(SplitSign(value).value.rest)
    ensures TryParseInt11(value).Some? <==> Numeral11(value).Some? && Magnitude(Numeral11(value).value) <= I64_MAX
    ensures TryParseInt11(value).Some? ==> IntKind(TryParseInt11(value).value) == IntegerKind(Numeral11(value).value)
  {
    var s := SplitSign(value);
    if s.Some? {
      UnsignedParsesExactly(s.value.negative, StripUnderscores(s.value.rest));
    }
  }

  lemma BigExactly11(value: string)
    ensures IsBigInt11(value) <==> Numeral11(value).Some?
  {
    var s := SplitSign(value);
    if s.Some? {
      DigitsAreRadixTen(StripUnderscores(s.value.rest));
    }
  }

  lemma ColonBreaksRadix(s: string, i: nat, k: nat, radix: nat)
    requires k <= i < |s| && s[i] == ':' && radix <= 16
    ensures !InRadix(s[k..], radix)
  {
    assert s[k..][i - k] == ':';
  }

  lemma ColonIsNoUnsigned(negative: bool, clean: string, i: nat)
    requires i < |clean| && clean[i] == ':'
    ensures Unsigned11(negative, clean) == None
  {
    ColonBreaksRadix(clean, i, 0, 10);
    assert clean[0..] == clean;
    if i >= 1 {
      ColonBreaksRadix(clean, i, 1, 8);
    }
    if i >= 2 {
      ColonBreaksRadix(clean, i, 2, 16);
      ColonBreaksRadix(clean, i, 2, 2);
    }
  }

  // A colon never belongs to an integer literal of another form.
  lemma ColonIsNoNumeral(value: string)
    requires SplitSign(value).Some? && ':' in StripUnderscores(SplitSign(value).value.rest)
    ensures Numeral11(value) == None
  {
    var clean := StripUnderscores(SplitSign(value).value.rest);
    var i: nat :| i < |clean| && clean[i] == ':';
    ColonIsNoUnsigned(SplitSign(value).value.negative, clean, i);
  }

  // The same for 1.1 and its PyYAML variant, where a leading underscore is text instead.
  lemma IntegersAreExact11(f: Floats, value: string, pyyaml: bool)
    requires Numeral11(value).Some?
    ensures ClassifyPlain11(f, value, pyyaml) ==
            if pyyaml && LeadingUnderscore(value) then StrKind else IntegerKind(Numeral11(value).value)
  {
    var rest := SplitSign(value).value.rest;
    if ':' in StripUnderscores(rest) {
      ColonIsNoNumeral(value);
    }
    ParsesExactly11(value);
    BigExactly11(value);
    StripKeepsFirst(rest);
    assert IsDigit(StripUnderscores(rest)[0]);
    assert value[0] == rest[0] || value[0] in {'-', '+'};
    NumbersAreNoWords11(value, pyyaml);
  }

  // A word of the schema does not start like a number.
  lemma NumbersAreNoWords11(value: string, pyyaml: bool)
    requires value != "" && (IsDigit(value[0]) || value[0] in {'-', '+', '_'})
    ensures !IsNull(value) && value != "<<" && TryParseBool11(value, pyyaml) == None
  {
  }

  lemma StripKeepsFirst(s: string)
    requires s != ""
    ensures s[0] != '_' ==> StripUnderscores(s) != "" && StripUnderscores(s)[0] == s[0]
  {
  }

  // ----- Base-60 integers -----

  predicate AllRunsOfDigits(parts: seq<string>) { forall i | 0 <= i < |parts| :: AllDigits(parts[i]) }

  predicate DigitsAnd(s: string, mark: char) { forall i | 0 <= i < |s| :: IsDigit(s[i]) || s[i] == mark }

  lemma {:induction false} SplitIntoDigits(s: string, mark: char)
    requires AllRunsOfDigits(Split(s, mark))
    ensures DigitsAnd(s, mark)
  {
    if s != "" {
      SplitTail(s, mark);
      SplitIntoDigits(s[1..], mark);
      forall i | 0 <= i < |s| ensures IsDigit(s[i]) || s[i] == mark {
        assert i > 0 ==> s[i] == s[1..][i - 1];
      }
    }
  }

  lemma SplitTail(s: string, mark: char)
    requires s != "" && AllRunsOfDigits(Split(s, mark))
    ensures AllRunsOfDigits(Split(s[1..], mark)) && (IsDigit(s[0]) || s[0] == mark)
  {
    var all, rest := Split(s, mark), Split(s[1..], mark);
    if s[0] == mark {
      assert forall i | 0 <= i < |rest| :: rest[i] == all[i + 1];
    } else {
      assert all[0] == [s[0]] + rest[0] && AllDigits(all[0]);
      assert all[0][0] == s[0] && forall i | 0 <= i < |rest[0]| :: rest[0][i] == all[0][i + 1];
      assert forall i | 1 <= i < |rest| :: rest[i] == all[i];
    }
  }

  lemma {:induction false} SplitNeedsMark(s: string, mark: char)
    ensures mark in s <==> |Split(s, mark)| > 1
  {
    if s != "" {
      SplitNeedsMark(s[1..], mark);
    }
  }

  // A base-60 literal: two segments or more.
  predicate IsBase60(value: string) {
    SplitSign(value).Some? &&
    var parts := Split(StripUnderscores(SplitSign(value).value.rest), ':');
    |parts| > 1 && AreSegments(parts)
  }

  function Base60Value(value: string): int
    requires IsBase60(value)
  {
    var parts := Split(StripUnderscores(SplitSign(value).value.rest), ':');
    Negated(SplitSign(value).value.negative, Base60(parts, |parts|))
  }

  // A base-60 integer that fits is exact, and one that does not is a string, never a
  // big integer or a float.
  lemma Base60IsExactOrText(f: Floats, value: string, pyyaml: bool)
    requires IsBase60(value)
    ensures ClassifyPlain11(f, value, pyyaml) ==
            if pyyaml && LeadingUnderscore(value) then StrKind
            else if -I64_MAX <= Base60Value(value) <= I64_MAX then IntKind(Base60Value(value)) else StrKind
  {
    var rest := SplitSign(value).value.rest;
    var clean := StripUnderscores(rest);
    SplitNeedsMark(clean, ':');
    Base60StartsWithDigit(clean);
    Base60IsInt(value);
    ColonIsNoNumeral(value);
    BigExactly11(value);
    StripKeepsFirst(rest);
    Base60IsNoFloat(f, value, pyyaml);
    assert value[0] == rest[0] || value[0] in {'-', '+'};
    NumbersAreNoWords11(value, pyyaml);
  }

  lemma Base60StartsWithDigit(clean: string)
    requires AreSegments(Split(clean, ':'))
    ensures clean != "" && '1' <= clean[0] <= '9' && DigitsAnd(clean, ':')
  {
    SplitIntoDigits(clean, ':');
    assert IsSegment(Split(clean, ':')[0], true);
  }

  lemma Base60IsInt(value: string)
    requires IsBase60(value)
    ensures TryParseInt11(value) ==
            if -I64_MAX <= Base60Value(value) <= I64_MAX then Some(Base60Value(value)) else None
  {
    var clean := StripUnderscores(SplitSign(value).value.rest);
    SplitNeedsMark(clean, ':');
    Base60StartsWithDigit(clean);
  }

  lemma {:induction false} StripKeepsOthers(s: string, c: char)
    requires c != '_'
    ensures c in s <==> c in StripUnderscores(s)
  {
    if s != "" {
      StripKeepsOthers(s[1..], c);
      assert s == [s[0]] + s[1..];
    }
  }

  lemma SpecialFloatsHaveDot(value: string)
    requires '.' !in value
    ensures SpecialFloat(value) == None
  {
    assert value != "" ==> value[0] != '.';
    assert |value| > 1 ==> value[1] != '.';
  }

  lemma Base60HasNone(value: string, c: char)
    requires IsBase60(value) && c in {'.', 'e', 'E', '-'} && (c == '-' ==> IsDigit(value[0]))
    ensures c !in StripUnderscores(value) && c !in value
  {
    var rest := SplitSign(value).value.rest;
    Base60StartsWithDigit(StripUnderscores(rest));
    StripKeepsOthers(rest, c);
    StripKeepsOthers(value, c);
    assert c in value ==> c in rest;
  }

  lemma Base60IsNoFloat(f: Floats, value: string, pyyaml: bool)
    requires IsBase60(value)
    ensures TryParseFloat11(f, value, pyyaml) == None
  {
    Base60HasNone(value, '.');
    Base60HasNone(value, 'e');
    Base60HasNone(value, 'E');
    SpecialFloatsHaveDot(value);
  }

  predicate IsBase60InRange(value: string) {
    IsBase60(value) && -I64_MAX <= Base60Value(value) <= I64_MAX
  }

  // The integer forms of 1.1, base-60 ones included.
  predicate IsIntegerForm11(value: string) { Numeral11(value).Some? || IsBase60InRange(value) }

  // What base-60 text a value parses as an integer, it has in segments.
  lemma SexagesimalIsBase60(value: string)
    requires SplitSign(value).Some? && ':' in StripUnderscores(SplitSign(value).value.rest)
    requires TryParseInt11(value).Some?
    ensures IsBase60InRange(value)
  {
    var clean := StripUnderscores(SplitSign(value).value.rest);
    SplitNeedsMark(clean, ':');
    var i: nat :| i < |clean| && clean[i] == ':';
    ColonIsNoUnsigned(false, clean, i);
    ColonIsNoRadix(clean, i);
  }

  lemma ColonIsNoRadix(clean: string, i: nat)
    requires i < |clean| && clean[i] == ':' && ParseUnsigned11(clean).Some?
    ensures Sexagesimal(clean) == ParseUnsigned11(clean)
  {
    if i >= 2 {
      ColonBreaksRadix(clean, i, 2, 16);
      ColonBreaksRadix(clean, i, 2, 2);
    }
    assert !AllDigits(clean);
  }

  // Under 1.1 a plain scalar is an integer exactly when it is one of the integer forms, and
  // under the PyYAML variant has no leading underscore.
  lemma IntegersAreForms11(f: Floats, value: string, pyyaml: bool)
    ensures IsInteger(ClassifyPlain11(f, value, pyyaml)) <==>
            IsIntegerForm11(value) && !(pyyaml && LeadingUnderscore(value))
  {
    if Numeral11(value).Some? {
      IntegersAreExact11(f, value, pyyaml);
    } else if IsBase60(value) {
      Base60IsExactOrText(f, value, pyyaml);
    } else if SplitSign(value).Some? {
      BigExactly11(value);
      if ':' in StripUnderscores(SplitSign(value).value.rest) {
        if TryParseInt11(value).Some? {
          SexagesimalIsBase60(value);
        }
      } else {
        ParsesExactly11(value);
      }
    }
  }

  // The text of a float under 1.1, apart from the words for infinity and no number.
  predicate IsFloatText11(f: Floats, value: string, pyyaml: bool) {
    var clean := StripUnderscores(value);
    && HasFloatMark(clean)
    && if ':' in clean && '.' in clean then f.sexagesimal(clean).Some?
       else (pyyaml ==> PyYamlFloatShape(clean)) && f.parse(clean).Some?
  }

  lemma {:induction false} Base60Grows(parts: seq<string>, m: nat, n: nat)
    requires m <= n <= |parts|
    ensures Base60(parts, m) <= Base60(parts, n)
  {
    if m < n {
      Base60Grows(parts, m, n - 1);
    }
  }

  // `parse_sexagesimal_int`: checked arithmetic gives up as soon as a prefix is too large.
  method ParseSexagesimalInt(value: string) returns (r: Option<int>)
    ensures r == Sexagesimal(value)
  {
    var parts := Split(value, ':');
    var result := 0;
    for i := 0 to |parts|
      invariant forall k | 0 <= k < i :: IsSegment(parts[k], k == 0)
      invariant result == Base60(parts, i) <= I64_MAX
    {
      var part := parts[i];
      DigitsAreRadixTen(part);
      Base60Grows(parts, i + 1, |parts|);
      var n := FromRadixUnsigned(part, 10);
      if n.None? {
        return None;
      }
      if i == 0 {
        if part[0] == '0' {
          return None;
        }
      } else if |part| > 2 || !(0 <= n.value < 60) {
        return None;
      }
      if result * 60 > I64_MAX || result * 60 + n.value > I64_MAX {
        return None;
      }
      result := result * 60 + n.value;
    }
    return Some(result);
  }

  // ----- Any radix to decimal -----

  // `char::to_digit(radix)`, or zero.
  function DigitOrZero(c: char, radix: nat): (d: nat)
    requires radix > 0
    ensures d < radix
  {
    if DigitValue(c) < radix then DigitValue(c) else 0
  }

  function LenientValue(s: string, n: nat, radix: nat): nat
    requires n <= |s| && radix > 0
  {
    if n == 0 then 0 else LenientValue(s, n - 1, radix) * radix + DigitOrZero(s[n - 1], radix)
  }

  lemma {:induction false} LenientOnDigits(s: string, n: nat, radix: nat)
    requires n <= |s| && radix > 0 && InRadix(s, radix)
    ensures LenientValue(s, n, radix) == RadixValue(s, n, radix)
  {
    if n > 0 {
      LenientOnDigits(s, n - 1, radix);
    }
  }

  // Decimal digits with the lowest first, as the accumulator holds them.
  predicate IsDecimal(ds: seq<nat>) { forall i | 0 <= i < |ds| :: ds[i] < 10 }

  function ValueOf(ds: seq<nat>): nat {
    if ds == [] then 0 else ds[0] + 10 * ValueOf(ds[1..])
  }

  function LowDigits(n: nat): seq<nat> {
    if n == 0 then [] else [n % 10] + LowDigits(n / 10)
  }

  // What a slot comes to.
  function Scaled(slot: nat, radix: nat, carry: nat): nat { slot * radix + carry }

  // Digits times the radix plus a carry, digit by digit.
  function MulAdd(ds: seq<nat>, radix: nat, carry: nat): seq<nat> {
    if ds == [] then LowDigits(carry)
    else
      var v := Scaled(ds[0], radix, carry);
      [v % 10] + MulAdd(ds[1..], radix, v / 10)
  }

  lemma {:induction false} LowDigitsValue(n: nat)
    ensures ValueOf(LowDigits(n)) == n && IsDecimal(LowDigits(n))
    ensures n > 0 ==> LowDigits(n) != [] && LowDigits(n)[|LowDigits(n)| - 1] != 0
  {
    if n > 0 {
      LowDigitsValue(n / 10);
      assert LowDigits(n)[1..] == LowDigits(n / 10);
    }
  }

  lemma {:induction false} MulAddValue(ds: seq<nat>, radix: nat, carry: nat)
    ensures ValueOf(MulAdd(ds, radix, carry)) == ValueOf(ds) * radix + carry
    ensures IsDecimal(MulAdd(ds, radix, carry))
  {
    if ds == [] {
      LowDigitsValue(carry);
    } else {
      var v := ds[0] * radix + carry;
      var rest := MulAdd(ds[1..], radix, v / 10);
      MulAddValue(ds[1..], radix, v / 10);
      assert MulAdd(ds, radix, carry)[1..] == rest;
      calc {
        v % 10 + 10 * ValueOf(rest);
        v + 10 * (ValueOf(ds[1..]) * radix);
        { Distribute(ds[0], ValueOf(ds[1..]), radix); }
        ValueOf(ds) * radix + carry;
      }
    }
  }

  lemma Distribute(d: nat, rest: nat, radix: nat)
    ensures d * radix + 10 * (rest * radix) == (d + 10 * rest) * radix
  {
  }

  predicate NoLeadingZero(ds: seq<nat>) { ds != [] && ds[|ds| - 1] != 0 }

  lemma {:induction false} MulAddKeepsTop(ds: seq<nat>, radix: nat, carry: nat)
    requires NoLeadingZero(ds) && radix > 0
    ensures NoLeadingZero(MulAdd(ds, radix, carry))
  {
    var v := ds[0] * radix + carry;
    if |ds| == 1 {
      assert v >= ds[0] > 0 by { Product(ds[0], radix); }
      LowDigitsValue(v / 10);
      assert ds[1..] == [];
    } else {
      MulAddKeepsTop(ds[1..], radix, v / 10);
    }
  }

  lemma Product(a: nat, b: nat)
    requires b > 0
    ensures a * b >= a
  {
  }

  // The accumulator holds a numeral: zero alone, or no leading zero.
  predicate IsNumeral(ds: seq<nat>) { IsDecimal(ds) && (ds == [0] || NoLeadingZero(ds)) }

  lemma MulAddIsNumeral(ds: seq<nat>, radix: nat, carry: nat)
    requires IsNumeral(ds) && radix > 0
    ensures IsNumeral(MulAdd(ds, radix, carry))
  {
    MulAddValue(ds, radix, carry);
    if ds == [0] {
      LowDigitsValue(carry / 10);
      assert ds[1..] == [];
    } else {
      MulAddKeepsTop(ds, radix, carry);
    }
  }

  // The digits written highest first.
  function Written(ds: seq<nat>): string
    requires IsDecimal(ds)
  {
    if ds == [] then "" else Written(ds[1..]) + [DIGITS[ds[0]]]
  }

  lemma {:induction false} TopIsPositive(ds: seq<nat>)
    requires NoLeadingZero(ds)
    ensures ValueOf(ds) > 0
  {
    if |ds| > 1 {
      TopIsPositive(ds[1..]);
    }
  }

  // A numeral of the accumulator, written out, is the decimal numeral of its value.
  lemma {:induction false} WrittenIsDecimal(ds: seq<nat>)
    requires IsNumeral(ds)
    ensures Written(ds) == Decimal(ValueOf(ds))
  {
    if |ds| == 1 {
      assert ds[1..] == [] && Written(ds) == "" + [DIGITS[ds[0]]];
    } else {
      TopIsPositive(ds[1..]);
      WrittenIsDecimal(ds[1..]);
      DecimalStep(ds[0], ValueOf(ds[1..]));
    }
  }

  lemma DecimalStep(d: nat, n: nat)
    requires d < 10 && n > 0
    ensures Decimal(d + 10 * n) == Decimal(n) + [DIGITS[d]]
  {
    assert (d + 10 * n) / 10 == n && (d + 10 * n) % 10 == d;
  }

  // The loop over one input digit, with `i` slots of the accumulator done.
  ghost predicate Multiplying(before: seq<nat>, now: seq<nat>, i: nat, radix: nat, digit: nat, carry: nat) {
    && i <= |before| == |now|
    && now[i..] == before[i..]
    && now[..i] + MulAdd(before[i..], radix, carry) == MulAdd(before, radix, digit)
  }

  // One more slot is final.
  lemma SlotDone(now: seq<nat>, i: nat, slot: nat, rest: seq<nat>)
    requires i < |now|
    ensures now[i := slot][..i + 1] + rest == now[..i] + ([slot] + rest)
    ensures now[i := slot][i + 1..] == now[i..][1..]
  {
    assert now[i := slot][..i + 1] == now[..i] + [slot];
  }

  lemma TakeOff(ds: seq<nat>, i: nat)
    requires i < |ds|
    ensures ds[i..][0] == ds[i] && ds[i..][1..] == ds[i + 1..]
  {
  }

  // `radix_to_decimal`: multiply and add over a vector of decimal digits, one input digit
  // at a time. The carry stays below the radix, so no `u32` overflows.
  method RadixToDecimal(body: string, radix: nat) returns (text: string)
    requires 2 <= radix <= 16
    ensures text == Decimal(LenientValue(body, |body|, radix))
    ensures InRadix(body, radix) ==> text == Decimal(RadixValue(body, |body|, radix))
  {
    var digits: seq<nat> := [0];
    for j := 0 to |body|
      invariant IsNumeral(digits)
      invariant ValueOf(digits) == LenientValue(body, j, radix)
    {
      var digit := DigitOrZero(body[j], radix);
      digits := Accumulate(digits, radix, digit);
    }
    if InRadix(body, radix) {
      LenientOnDigits(body, |body|, radix);
    }
    text := WriteDigits(digits);
  }

  method Accumulate(digits: seq<nat>, radix: nat, digit: nat) returns (out: seq<nat>)
    requires IsNumeral(digits) && digit < radix <= 16
    ensures IsNumeral(out) && ValueOf(out) == ValueOf(digits) * radix + digit
  {
    MulAddIsNumeral(digits, radix, digit);
    MulAddValue(digits, radix, digit);
    var carry: nat;
    out, carry := MultiplySlots(digits, radix, digit);
    out := PushCarry(out, carry);
  }

  method MultiplySlots(digits: seq<nat>, radix: nat, digit: nat) returns (out: seq<nat>, carry: nat)
    requires IsDecimal(digits) && digit < radix <= 16
    ensures carry < radix && out + LowDigits(carry) == MulAdd(digits, radix, digit)
  {
    out, carry := digits, digit;
    for i := 0 to |digits|
      invariant Multiplying(digits, out, i, radix, digit, carry)
      invariant carry < radix
    {
      var v := Scaled(out[i], radix, carry);
      assert out[i] == out[i..][0] == digits[i];
      CarryStaysBelow(out[i], radix, carry);
      TakeOff(digits, i);
      SlotDone(out, i, v % 10, MulAdd(digits[i + 1..], radix, v / 10));
      out, carry := out[i := v % 10], v / 10;
    }
    TakeAll(out);
    assert digits[|digits|..] == [];
  }

  method PushCarry(digits: seq<nat>, carry: nat) returns (out: seq<nat>)
    ensures out == digits + LowDigits(carry)
  {
    out := digits;
    var left := carry;
    while left > 0
      invariant out + LowDigits(left) == digits + LowDigits(carry)
    {
      assert out + LowDigits(left) == out + [left % 10] + LowDigits(left / 10);
      out, left := out + [left % 10], left / 10;
    }
    assert out + LowDigits(left) == out;
  }

  lemma CarryStaysBelow(slot: nat, radix: nat, carry: nat)
    requires slot < 10 && carry < radix
    ensures Scaled(slot, radix, carry) / 10 < radix
  {
    Bound(slot, radix);
  }

  lemma Bound(slot: nat, radix: nat)
    requires slot < 10
    ensures slot * radix <= 9 * radix
  {
  }

  method WriteDigits(digits: seq<nat>) returns (text: string)
    requires IsNumeral(digits)
    ensures text == Decimal(ValueOf(digits))
  {
    text := "";
    var i := |digits|;
    while i > 0
      invariant 0 <= i <= |digits| && text == Written(digits[i..])
    {
      i := i - 1;
      assert digits[i..][1..] == digits[i + 1..];
      text := text + [DIGITS[digits[i]]];
    }
    assert digits[0..] == digits;
    WrittenIsDecimal(digits);
  }

  // The text a literal is rewritten to, or nothing when it is decimal already.
  function DecimalText(n: Numeral): Option<string> {
    if n.radix == 10 then None
    else Some((if n.negative then "-" else "") + Decimal(Magnitude(n)))
  }

  lemma StripIsIdentity(s: string)
    requires '_' !in s
    ensures StripUnderscores(s) == s
  {
    if s != "" {
      StripIsIdentity(s[1..]);
    }
  }

  // The radix and body that `big_int_to_decimal` sees, sign and underscores removed.
  function RadixOf(rest: string): Option<Numeral> {
    if HasPrefix(rest, 'x', 'X') then Some(Numeral(false, 16, rest[2..]))
    else if HasPrefix(rest, 'o', 'O') then Some(Numeral(false, 8, rest[2..]))
    else if HasPrefix(rest, 'b', 'B') then Some(Numeral(false, 2, rest[2..]))
    else if |rest| > 1 && rest[0] == '0' && AllDigits(rest) then Some(Numeral(false, 8, rest[1..]))
    else None
  }

  lemma RadixOfNumeral12(value: string)
    requires Numeral12(value).Some?
    ensures StripUnderscores(SplitSign(value).value.rest) == SplitSign(value).value.rest
    ensures var n := Numeral12(value).value;
            RadixOf(SplitSign(value).value.rest) ==
              if n.radix == 10 then None else Some(Numeral(false, n.radix, n.digits))
  {
    var rest := SplitSign(value).value.rest;
    assert forall i | 2 <= i < |rest| :: rest[i] == rest[2..][i - 2];
    StripIsIdentity(rest);
  }

  lemma RadixOfNumeral11(value: string)
    requires Numeral11(value).Some?
    ensures var n := Numeral11(value).value;
            RadixOf(StripUnderscores(SplitSign(value).value.rest)) ==
              if n.radix == 10 then None else Some(Numeral(false, n.radix, n.digits))
  {
    var clean := StripUnderscores(SplitSign(value).value.rest);
    if |clean| > 1 && clean[0] == '0' {
      assert clean[1] == clean[1..][0];
      assert forall i | 1 <= i < |clean| :: clean[i] == clean[1..][i - 1];
    }
  }

  // What `big_int_to_decimal` gives: the number in decimal, or nothing for a text that is
  // not written in another radix.
  function DecimalForm(value: string): (r: Option<string>)
    ensures r.Some? ==> ';' !in r.value
  {
    match SplitSign(value)
    case None => None
    case Some(s) =>
      match RadixOf(StripUnderscores(s.rest))
      case None => None
      case Some(n) =>
        Some((if s.negative then "-" else "") + Decimal(LenientValue(n.digits, |n.digits|, n.radix)))
  }

  lemma NumeralKeepsSign12(value: string)
    requires Numeral12(value).Some?
    ensures Numeral12(value).value.negative == SplitSign(value).value.negative
    ensures InRadix(Numeral12(value).value.digits, Numeral12(value).value.radix)
    ensures Numeral12(value).value.radix > 0
  {
  }

  lemma NumeralKeepsSign11(value: string)
    requires Numeral11(value).Some?
    ensures Numeral11(value).value.negative == SplitSign(value).value.negative
    ensures InRadix(Numeral11(value).value.digits, Numeral11(value).value.radix)
    ensures Numeral11(value).value.radix > 0
  {
  }

  // On an integer literal of 1.2, the exact number.
  lemma DecimalFormIsExact12(value: string)
    requires Numeral12(value).Some?
    ensures DecimalForm(value) == DecimalText(Numeral12(value).value)
  {
    var n := Numeral12(value).value;
    RadixOfNumeral12(value);
    NumeralKeepsSign12(value);
    LenientOnDigits(n.digits, |n.digits|, n.radix);
  }

  // And on one of 1.1.
  lemma DecimalFormIsExact11(value: string)
    requires Numeral11(value).Some?
    ensures DecimalForm(value) == DecimalText(Numeral11(value).value)
  {
    var n := Numeral11(value).value;
    RadixOfNumeral11(value);
    NumeralKeepsSign11(value);
    LenientOnDigits(n.digits, |n.digits|, n.radix);
  }

  // `big_int_to_decimal`.
  method BigIntToDecimal(value: string) returns (r: Option<string>)
    ensures r == DecimalForm(value)
  {
    var s := SplitSign(value);
    if s.None? {
      return None;
    }
    var n := RadixOf(StripUnderscores(s.value.rest));
    if n.None? {
      return None;
    }
    var decimal := RadixToDecimal(n.value.digits, n.value.radix);
    return Some((if s.value.negative then "-" else "") + decimal);
  }

  lemma NoMarkInDigits(s: string, k: nat, radix: nat)
    requires k <= |s| && radix <= 16 && InRadix(s[k..], radix)
    ensures forall i | k <= i < |s| :: s[i] != ';'
  {
    assert forall i | k <= i < |s| :: s[i] == s[k..][i - k];
  }

  lemma UnsignedHasNoMark(negative: bool, clean: string)
    requires Unsigned11(negative, clean).Some?
    ensures ';' !in clean
  {
    if HasPrefix(clean, 'x', 'X') {
      NoMarkInDigits(clean, 2, 16);
    } else if HasPrefix(clean, 'b', 'B') {
      NoMarkInDigits(clean, 2, 2);
    } else if |clean| > 1 && clean[0] == '0' {
      NoMarkInDigits(clean, 1, 8);
    } else {
      assert clean[0..] == clean;
      NoMarkInDigits(clean, 0, 10);
    }
  }

  // The text of a big integer holds no semicolon, so a key signature may end with one.
  lemma BigIntHasNoMark(schema: Schema, f: Floats, value: string, style: ScalarStyle, tag: Option<string>)
    requires Classify(schema, f, value, style, tag) == BigIntKind
    ensures ';' !in value
  {
    if schema == Yaml12 {
      ParsesExactly12(value);
      assert Numeral12(value).Some?;
      var rest := SplitSign(value).value.rest;
      if HasPrefix(rest, 'x', 'X') || HasPrefix(rest, 'o', 'O') {
        NoMarkInDigits(rest, 2, 16);
      } else {
        assert rest[0..] == rest;
        NoMarkInDigits(rest, 0, 10);
      }
    } else {
      BigExactly11(value);
      assert Numeral11(value).Some?;
      var s := SplitSign(value).value;
      UnsignedHasNoMark(s.negative, StripUnderscores(s.rest));
      StripKeepsOthers(s.rest, ';');
    }
  }

  // ----- The payload of a big integer -----

  // The text that a big integer carries: rewritten to decimal, or kept.
  function BigPayload(value: string): string {
    match DecimalForm(value) case Some(decimal) => decimal case None => value
  }

  lemma {:induction false} DigitsAreDecimal(s: string, n: nat)
    requires 0 < n <= |s| && InRadix(s, 10) && s[0] != '0'
    ensures RadixValue(s, n, 10) > 0 && Decimal(RadixValue(s, n, 10)) == s[..n]
  {
    var d := DigitValue(s[n - 1]);
    assert DIGITS[d] == s[n - 1];
    if n == 1 {
      assert RadixValue(s, 1, 10) == d && s[..1] == [s[0]];
    } else {
      DigitsAreDecimal(s, n - 1);
      DecimalStep(d, RadixValue(s, n - 1, 10));
      TakeMore(s, n - 1);
    }
  }

  lemma SignsCompare(digits: string)
    requires digits != "" && IsDigit(digits[0])
    ensures "+" + digits != digits && "+" + digits != "-" + digits
  {
    assert ("+" + digits)[0] == '+' && ("-" + digits)[0] == '-';
  }

  // A text with a sign split off, and back together.
  lemma SignAndRest(value: string)
    requires SplitSign(value).Some?
    ensures var s := SplitSign(value).value;
            value == (if s.negative then "-" else if value[0] == '+' then "+" else "") + s.rest
  {
    assert value == [value[0]] + value[1..];
  }

  // What a decimal literal of 1.1 comes to, once it is too large for 64 bits.
  lemma LargeDecimal(value: string)
    requires Numeral11(value).Some? && Numeral11(value).value.radix == 10
    requires Magnitude(Numeral11(value).value) > I64_MAX
    ensures var clean := StripUnderscores(SplitSign(value).value.rest);
            Numeral11(value).value.digits == clean && clean != "" && AllDigits(clean)
            && Decimal(Magnitude(Numeral11(value).value)) == clean
  {
    var clean := StripUnderscores(SplitSign(value).value.rest);
    DigitsAreRadixTen(clean);
    if |clean| == 1 {
      assert RadixValue(clean, 1, 10) == RadixValue(clean, 0, 10) * 10 + DigitValue(clean[0]);
    }
    assert clean[0] != '0';
    DigitsAreDecimal(clean, |clean|);
    TakeAll(clean);
  }

  lemma KeptPayload(value: string)
    requires Numeral11(value).Some? && Magnitude(Numeral11(value).value) > I64_MAX && Numeral11(value).value.radix == 10
    ensures var n := Numeral11(value).value;
            BigPayload(value) == SignedDecimal(Negated(n.negative, Magnitude(n))) <==> '_' !in value && value[0] != '+'
  {
    DecimalFormIsExact11(value);
    NumeralKeepsSign11(value);
    LargeDecimal(value);
    SignAndRest(value);
    KeptExactly(value, SplitSign(value).value, Magnitude(Numeral11(value).value));
  }

  lemma RewrittenPayload(value: string)
    requires Numeral11(value).Some? && Magnitude(Numeral11(value).value) > I64_MAX && Numeral11(value).value.radix != 10
    ensures var n := Numeral11(value).value; BigPayload(value) == SignedDecimal(Negated(n.negative, Magnitude(n)))
  {
    DecimalFormIsExact11(value);
    SignedText(Numeral11(value).value.negative, Magnitude(Numeral11(value).value));
  }

  lemma SignedText(negative: bool, n: nat)
    requires n > 0
    ensures (if negative then "-" else "") + Decimal(n) == SignedDecimal(Negated(negative, n))
  {
  }

  // The payload is meant to be decimal. It is the number's own numeral exactly when the
  // literal is in another radix, or has neither an underscore nor a plus sign to keep.
  lemma PayloadIsDecimalExactly(value: string)
    requires Numeral11(value).Some? && Magnitude(Numeral11(value).value) > I64_MAX
    ensures var n := Numeral11(value).value;
            BigPayload(value) == SignedDecimal(Negated(n.negative, Magnitude(n))) <==>
            (n.radix != 10 || ('_' !in value && value[0] != '+'))
  {
    if Numeral11(value).value.radix == 10 {
      KeptPayload(value);
    } else {
      RewrittenPayload(value);
    }
  }

  lemma FourDigitsMore(s: string, n: nat, v: nat, a: nat, b: nat, c: nat, d: nat)
    requires n + 4 <= |s| && RadixValue(s, n, 10) == v
    requires DigitValue(s[n]) == a && DigitValue(s[n + 1]) == b && DigitValue(s[n + 2]) == c && DigitValue(s[n + 3]) == d
    ensures RadixValue(s, n + 4, 10) == v * 10000 + a * 1000 + b * 100 + c * 10 + d
  {
    assert RadixValue(s, n + 1, 10) == v * 10 + a;
    assert RadixValue(s, n + 2, 10) == v * 100 + a * 10 + b;
    assert RadixValue(s, n + 3, 10) == v * 1000 + a * 100 + b * 10 + c;
  }

  const TWO_TO_63: string := "9223372036854775808"

  predicate HasDigitsAt(s: string, n: nat, a: nat, b: nat, c: nat, d: nat) {
    n + 4 <= |s| && DigitValue(s[n]) == a && DigitValue(s[n + 1]) == b && DigitValue(s[n + 2]) == c && DigitValue(s[n + 3]) == d
  }

  // Four digits at a time.
  lemma ValueByFours(s: string)
    requires |s| == 19 && HasDigitsAt(s, 0, 9, 2, 2, 3) && HasDigitsAt(s, 4, 3, 7, 2, 0) && HasDigitsAt(s, 8, 3, 6, 8, 5)
    requires HasDigitsAt(s, 12, 4, 7, 7, 5) && HasDigitsAt(s, 15, 5, 8, 0, 8)
    ensures RadixValue(s, 19, 10) == 9223372036854775808
  {
    FourDigitsMore(s, 0, 0, 9, 2, 2, 3);
    FourDigitsMore(s, 4, 9223, 3, 7, 2, 0);
    FourDigitsMore(s, 8, 92233720, 3, 6, 8, 5);
    assert RadixValue(s, 13, 10) == 9223372036854;
    assert RadixValue(s, 14, 10) == 92233720368547;
    assert RadixValue(s, 15, 10) == 922337203685477;
    FourDigitsMore(s, 15, 922337203685477, 5, 8, 0, 8);
  }

  predicate IsTwoTo63(digits: string) {
    |digits| == 19 && AllDigits(digits) && digits[0] == '9' && RadixValue(digits, 19, 10) == 9223372036854775808
  }

  lemma TwoTo63()
    ensures IsTwoTo63(TWO_TO_63)
  {
    ValueByFours(TWO_TO_63);
  }

  lemma MarkedPayload(value: string, digits: string)
    requires SplitSign(value).Some? && !SplitSign(value).value.negative
    requires StripUnderscores(SplitSign(value).value.rest) == digits && IsTwoTo63(digits)
    requires '_' in value || value[0] == '+'
    ensures BigPayload(value) != SignedDecimal(9223372036854775808)
  {
    DigitsAreRadixTen(digits);
    assert Numeral11(value) == Some(Numeral(false, 10, digits));
    PayloadIsDecimalExactly(value);
  }

  lemma {:induction false} StripOne(before: string, after: string)
    requires '_' !in before && '_' !in after
    ensures StripUnderscores(before + "_" + after) == before + after
  {
    if before == "" {
      assert before + "_" + after == ['_'] + after && (['_'] + after)[1..] == after;
      StripIsIdentity(after);
      assert "" + after == after;
    } else {
      assert (before + "_" + after)[1..] == before[1..] + "_" + after;
      StripOne(before[1..], after);
      assert before + after == [before[0]] + (before[1..] + after);
    }
  }

  // Both kinds of literal are real: 2^63 keeps a plus sign, and an underscore.
  lemma SomePayloadsKeepMarks()
    ensures BigPayload("+" + TWO_TO_63) != SignedDecimal(9223372036854775808)
    ensures BigPayload(TWO_TO_63[..1] + "_" + TWO_TO_63[1..]) != SignedDecimal(9223372036854775808)
  {
    TwoTo63();
    PlusIsKept(TWO_TO_63);
    UnderscoreIsKept(TWO_TO_63);
  }

  lemma PlusIsKept(digits: string)
    requires IsTwoTo63(digits)
    ensures BigPayload("+" + digits) != SignedDecimal(9223372036854775808)
  {
    PlusIsSplit(digits);
    MarkedPayload("+" + digits, digits);
  }

  lemma PlusIsSplit(digits: string)
    requires digits != "" && '_' !in digits
    ensures SplitSign("+" + digits) == Some(Signed(false, digits)) && StripUnderscores(digits) == digits
  {
    StripIsIdentity(digits);
    assert ("+" + digits)[1..] == digits;
  }

  lemma UnderscoreIsKept(digits: string)
    requires IsTwoTo63(digits)
    ensures BigPayload(digits[..1] + "_" + digits[1..]) != SignedDecimal(9223372036854775808)
  {
    PartIsSplit(digits);
    MarkedPayload(digits[..1] + "_" + digits[1..], digits);
  }

  lemma PartIsSplit(digits: string)
    requires digits != "" && AllDigits(digits)
    ensures var value := digits[..1] + "_" + digits[1..];
            '_' in value && SplitSign(value) == Some(Signed(false, value)) && StripUnderscores(value) == digits
  {
    var value := digits[..1] + "_" + digits[1..];
    assert value[1] == '_' && value[0] == digits[0];
    StripOne(digits[..1], digits[1..]);
    assert digits[..1] + digits[1..] == digits;
  }

  // The same for the literals of 1.2, which hold no underscores.
  lemma PayloadIsDecimalExactly12(value: string)
    requires Numeral12(value).Some? && Magnitude(Numeral12(value).value) > I64_MAX
    ensures var n := Numeral12(value).value;
            BigPayload(value) == SignedDecimal(Negated(n.negative, Magnitude(n))) <==> (n.radix != 10 || value[0] != '+')
  {
    var n := Numeral12(value).value;
    if n.radix == 10 {
      LargeDecimal12(value);
      PayloadIsDecimalExactly(value);
    } else {
      DecimalFormIsExact12(value);
      SignedText(n.negative, Magnitude(n));
    }
  }

  // A large decimal literal of 1.2 is the same literal under 1.1.
  lemma LargeDecimal12(value: string)
    requires Numeral12(value).Some? && Numeral12(value).value.radix == 10
    requires Magnitude(Numeral12(value).value) > I64_MAX
    ensures Numeral11(value) == Numeral12(value) && '_' !in value
  {
    var rest := SplitSign(value).value.rest;
    DigitsAreRadixTen(rest);
    assert '_' !in rest;
    StripIsIdentity(rest);
    SignAndRest(value);
  }

  lemma KeptExactly(value: string, s: Signed, n: nat)
    requires value != "" && n > 0 && Decimal(n) == StripUnderscores(s.rest)
    requires value == (if s.negative then "-" else if value[0] == '+' then "+" else "") + s.rest
    ensures value == SignedDecimal(Negated(s.negative, n)) <==> '_' !in value && value[0] != '+'
  {
    if '_' in value {
      assert '_' !in SignedDecimal(Negated(s.negative, n));
    } else {
      assert '_' !in s.rest;
      StripIsIdentity(s.rest);
      SignsCompare(s.rest);
    }
  }
}
