// Whether a string may stand plain (src/encode/mod.rs, `needs_quoting`), and why that
// agrees with how plain scalars resolve.
module Quoting {
  import opened Wrappers
  import opened Strings
  import opened Text
  import opened Resolver
  import Timestamps

  // The words quoted whatever the schema.
  predicate IsKeyword(value: string) {
    || value in {"null", "Null", "NULL", "~"}
    || value in {"true", "True", "TRUE", "false", "False", "FALSE"}
    || value in {".inf", ".Inf", ".INF", "-.inf", "-.Inf", "-.INF", "+.inf", "+.Inf", "+.INF"}
    || value in {".nan", ".NaN", ".NAN"}
    || value in {"yes", "Yes", "YES", "no", "No", "NO", "on", "On", "ON", "off", "Off", "OFF"}
    || value in {"...", "<<"}
  }

  predicate IsSingleLetterBool(value: string) { value in {"y", "Y", "n", "N"} }

  predicate IsIndicator(c: char) {
    c in {'-', '?', ':', ',', '[', ']', '{', '}', '#', '&', '*', '!', '|', '>', '\'', '"', '%', '@', '`'}
  }

  // A colon before a space or the end, or a hash after a space.
  predicate HasStructureAt(value: string, i: nat)
    requires i < |value|
  {
    || (value[i] == ':' && (i + 1 == |value| || value[i + 1] == ' '))
    || (value[i] == '#' && i > 0 && value[i - 1] == ' ')
  }

  predicate IsUnsafe(c: char) { c as int < 0x20 || IsNonPrintable(c) }

  // Text that is no plain scalar, or not this one, whatever it resolves to.
  predicate CannotStandPlain(value: string)
    requires value != ""
  {
    || value[0] == '\U{feff}'
    || (|value| > 3 && value[..3] == "..." && value[3] in {' ', '\t'})
    || IsIndicator(value[0])
    || value[0] in {' ', '\t'}
    || value[|value| - 1] in {' ', '\t'}
    || (exists i: nat | i < |value| :: HasStructureAt(value, i))
    || (exists i | 0 <= i < |value| :: IsUnsafe(value[i]))
  }

  predicate IsNumber(kind: ScalarKind) { kind.IntKind? || kind.BigIntKind? || kind.FloatKind? }

  // `resolves_to_number`.
  predicate ResolvesToNumber(f: Floats, value: string, schema: Schema) {
    IsNumber(Classify(schema, f, value, Plain, None))
  }

  predicate StartsLikeNumber(value: string, schema: Schema)
    requires value != ""
  {
    IsDigit(value[0]) || value[0] in {'+', '-', '.'} || (value[0] == '_' && schema != Yaml12)
  }

  // `needs_quoting`.
  predicate NeedsQuoting(f: Floats, value: string, schema: Schema) {
    if value == "" || IsKeyword(value) then true
    else if schema == Yaml11 && IsSingleLetterBool(value) then true
    else if CannotStandPlain(value) then true
    else if !StartsLikeNumber(value, schema) then false
    else if ResolvesToNumber(f, value, Yaml12) then true
    else if schema == Yaml12 then ':' !in value && ResolvesToNumber(f, value, Yaml11)
    else ResolvesToNumber(f, value, schema) || Timestamps.LooksLike(value)
  }

  // ----- Plain means string -----

  lemma NoKeyword12(f: Floats, value: string)
    requires value != "" && !IsKeyword(value)
    ensures ClassifyPlain12(f, value) == StrKind || IsNumber(ClassifyPlain12(f, value))
    ensures !(IsDigit(value[0]) || value[0] in {'-', '+', '.'}) ==> ClassifyPlain12(f, value) == StrKind
  {
  }

  lemma NoKeyword11(f: Floats, value: string, pyyaml: bool)
    requires value != "" && !IsKeyword(value) && (pyyaml || !IsSingleLetterBool(value))
    ensures ClassifyPlain11(f, value, pyyaml) == StrKind || IsNumber(ClassifyPlain11(f, value, pyyaml))
    ensures !(IsDigit(value[0]) || value[0] in {'-', '+', '.', '_'}) ==> ClassifyPlain11(f, value, pyyaml) == StrKind
  {
  }

  // A string that `needs_quoting` leaves plain is a string under the schema it is written
  // for, and under 1.2, however floats are read.
  lemma PlainStringsStayStrings(f: Floats, value: string, schema: Schema)
    requires !NeedsQuoting(f, value, schema)
    ensures Classify(schema, f, value, Plain, None) == StrKind
    ensures Classify(Yaml12, f, value, Plain, None) == StrKind
  {
    NoKeyword12(f, value);
    if schema != Yaml12 {
      NoKeyword11(f, value, schema == Yaml11PyYaml);
    }
  }

  // A number of 1.1, by its text and the reading of floats alone.
  predicate IsNumberText11(f: Floats, value: string, pyyaml: bool)
    requires value != ""
  {
    && !(pyyaml && LeadingUnderscore(value))
    && (IsIntegerForm11(value) || (StartsLikeNumber(value, Yaml11) && IsFloatText11(f, value, pyyaml)))
  }

  lemma NumbersAreTexts11(f: Floats, value: string, pyyaml: bool)
    requires value != "" && !IsKeyword(value) && (pyyaml || !IsSingleLetterBool(value))
    ensures IsNumber(ClassifyPlain11(f, value, pyyaml)) <==> IsNumberText11(f, value, pyyaml)
  {
    IntegersAreForms11(f, value, pyyaml);
    assert SpecialFloat(value) == None;
    assert !IsNull(value) && value != "<<" && TryParseBool11(value, pyyaml) == None;
  }

  // A literal without a colon is no base-60 integer.
  lemma Base60HasColon(value: string)
    requires IsBase60InRange(value)
    ensures ':' in value
  {
    var rest := SplitSign(value).value.rest;
    SplitNeedsMark(StripUnderscores(rest), ':');
    StripKeepsOthers(rest, ':');
  }

  lemma NumeralHasNoColon(value: string)
    requires Numeral11(value).Some?
    ensures ':' !in value
  {
    var rest := SplitSign(value).value.rest;
    StripKeepsOthers(rest, ':');
    if ':' in value {
      assert ':' in rest;
      ColonIsNoNumeral(value);
    }
  }

  // What the 1.2 default leaves plain and 1.1 reads as a number: a base-60 integer that
  // fits, an integer behind an underscore, or a float with a colon or behind an underscore.
  predicate FlipsUnder11(f: Floats, value: string)
    requires value != ""
  {
    || IsBase60InRange(value)
    || (value[0] == '_' && Numeral11(value).Some?)
    || (value[0] == '_' && IsFloatText11(f, value, false))
    || (':' in value && StartsLikeNumber(value, Yaml12) && IsFloatText11(f, value, false))
  }

  // What the 1.2 default leaves plain is a string under 1.1 too, except exactly for that and
  // for bare `y` and `n`.
  lemma DefaultUnder11(f: Floats, value: string)
    requires !NeedsQuoting(f, value, Yaml12)
    ensures Classify(Yaml11, f, value, Plain, None) == StrKind <==>
            !IsSingleLetterBool(value) && !FlipsUnder11(f, value)
  {
    hide ClassifyPlain12, IsFloatText11, IsBase60InRange, Numeral11, CannotStandPlain;
    if IsSingleLetterBool(value) {
      assert TryParseBool11(value, false).Some?;
    } else {
      NoKeyword11(f, value, false);
      NumbersAreTexts11(f, value, false);
      if IsBase60InRange(value) {
        Base60HasColon(value);
      }
      if Numeral11(value).Some? {
        NumeralHasNoColon(value);
        NumeralStarts11(value);
      }
    }
  }

  lemma NumeralStarts11(value: string)
    requires Numeral11(value).Some? || IsBase60(value)
    ensures value != "" && StartsLikeNumber(value, Yaml11)
  {
    var rest := SplitSign(value).value.rest;
    StripKeepsFirst(rest);
    if IsBase60(value) {
      Base60StartsWithDigit(StripUnderscores(rest));
    }
  }

  // A number under the PyYAML variant is one under 1.1.
  lemma PyYamlNumbers(f: Floats, value: string)
    requires value != "" && !IsKeyword(value) && !IsSingleLetterBool(value)
    requires IsNumber(ClassifyPlain11(f, value, true))
    ensures IsNumber(ClassifyPlain11(f, value, false)) && !LeadingUnderscore(value)
  {
  }

  // Under the PyYAML variant only a base-60 integer or a float, each with a colon in it, is
  // at stake.
  lemma DefaultUnderPyYaml(f: Floats, value: string)
    requires !NeedsQuoting(f, value, Yaml12)
    ensures Classify(Yaml11PyYaml, f, value, Plain, None) == StrKind <==>
            LeadingUnderscore(value) ||
            !(IsBase60InRange(value)
              || (':' in value && StartsLikeNumber(value, Yaml12) && IsFloatText11(f, value, true)))
  {
    hide ClassifyPlain11, ClassifyPlain12, IsFloatText11, IsBase60InRange, Numeral11, CannotStandPlain;
    NoKeyword11(f, value, true);
    NumbersAreTexts11(f, value, true);
    if IsBase60InRange(value) {
      Base60HasColon(value);
    }
    if Numeral11(value).Some? {
      NumeralHasNoColon(value);
      NumeralStarts11(value);
    }
    if !IsSingleLetterBool(value) && IsNumber(ClassifyPlain11(f, value, true)) {
      PyYamlNumbers(f, value);
    }
  }

  // ----- Timestamps left plain -----

  // Four digits and a dash, and nothing in the text that no timestamp has.
  predicate IsStamp(value: string) {
    |value| > 4 && AllDigits(value[..4]) && value[4] == '-' && Timestamps.IsStampText(value)
  }

  lemma StampHasNone(value: string, c: char)
    requires Timestamps.IsStampText(value) && !Timestamps.IsStampCharacter(c)
    ensures c !in value
  {
    forall i: nat | i < |value| ensures value[i] != c {
      assert Timestamps.IsStampAt(value, i);
    }
  }

  lemma StampStartsWithDigit(value: string)
    requires IsStamp(value)
    ensures IsDigit(value[0]) && IsDigit(value[1])
  {
    assert value[..4][0] == value[0] && value[..4][1] == value[1];
  }

  lemma DigitsAreNoWords(value: string)
    requires value != "" && IsDigit(value[0])
    ensures !IsKeyword(value) && !IsSingleLetterBool(value) && SpecialFloat(value) == None
  {
  }

  // A dash behind digits makes no integer of either schema.
  lemma StampIsNoInteger(value: string)
    requires IsStamp(value)
    ensures Numeral12(value) == None && !IsIntegerForm11(value) && '_' !in value
  {
    StampStartsWithDigit(value);
    StampHasNone(value, '_');
    hide Timestamps.IsStampText;
    assert SplitSign(value) == Some(Signed(false, value));
    StripIsIdentity(value);
    DashIsNoNumeral(value);
    hide Numeral11, Numeral12, StripUnderscores;
    if IsBase60(value) {
      Base60HasNone(value, '-');
    }
  }

  lemma DashIsNoNumeral(value: string)
    requires |value| > 4 && IsDigit(value[0]) && IsDigit(value[1]) && value[4] == '-'
    requires StripUnderscores(value) == value && SplitSign(value) == Some(Signed(false, value))
    ensures Numeral12(value) == None && Numeral11(value) == None
  {
    hide StripUnderscores, SplitSign;
    assert value[4] == value[1..][3];
  }

  lemma StampMarksFloat(value: string)
    requires Timestamps.IsStampText(value)
    ensures HasFloatMark(value) <==> '.' in value
  {
    StampHasNone(value, 'e');
    StampHasNone(value, 'E');
  }

  // It is a number of 1.2 exactly when it has a point and the reader of floats takes it.
  lemma StampIsNumber12(f: Floats, value: string)
    requires IsStamp(value)
    ensures ResolvesToNumber(f, value, Yaml12) <==> '.' in value && f.parse(value).Some?
  {
    StampStartsWithDigit(value);
    StampMarksFloat(value);
    DigitsAreNoWords(value);
    StampIsNoInteger(value);
    IntegersAreExact12(f, value);
    NumbersAreNoWords12(value);
    hide IsStamp, SpecialFloat, HasFloatMark, IsNull, Numeral12, IsKeyword, TryParseInt12, IsBigInt12;
  }

  // One of 1.1, when it has a point and the reader of base-60 floats does.
  lemma StampIsNumber11(f: Floats, value: string, pyyaml: bool)
    requires IsStamp(value) && ':' in value
    ensures IsNumber(ClassifyPlain11(f, value, pyyaml)) <==> '.' in value && f.sexagesimal(value).Some?
  {
    StampStartsWithDigit(value);
    StampMarksFloat(value);
    DigitsAreNoWords(value);
    StampIsNoInteger(value);
    StripIsIdentity(value);
    NumbersAreTexts11(f, value, pyyaml);
    hide IsStamp, HasFloatMark, IsKeyword, ClassifyPlain11, IsIntegerForm11, PyYamlFloatShape;
  }

  lemma StampStandsPlain(value: string)
    requires IsStamp(value)
    ensures CannotStandPlain(value) <==> IsBlank(value[|value| - 1]) || '\t' in value
  {
    StampStartsWithDigit(value);
    assert value[..3][0] == value[0];
    forall i: nat | i < |value| ensures !HasStructureAt(value, i) {
      assert Timestamps.IsStampAt(value, i);
    }
    StampIsSafe(value);
  }

  lemma StampIsSafe(value: string)
    requires IsStamp(value)
    ensures (exists i | 0 <= i < |value| :: IsUnsafe(value[i])) <==> '\t' in value
  {
    forall i | 0 <= i < |value| ensures IsUnsafe(value[i]) <==> value[i] == '\t' {
      assert Timestamps.IsStampAt(value, i);
    }
  }

  // Written for a 1.1 reader, a text with a timestamp's shape is left plain exactly when it
  // ends in the lowercase zone that the recognizer misses, holds no tab, and is no float.
  lemma TimestampsStayPlainExactly(f: Floats, value: string, schema: Schema)
    requires schema != Yaml12 && Timestamps.Shape(value).Some?
    ensures !NeedsQuoting(f, value, schema) <==>
            && value != "" && value[|value| - 1] == 'z' && '\t' !in value
            && ('.' in value ==> f.parse(value) == None && f.sexagesimal(value) == None)
  {
    hide Timestamps.Shape, Timestamps.LooksLike, Timestamps.IsStampText, CannotStandPlain;
    hide IsKeyword, IsSingleLetterBool, ClassifyPlain11, ClassifyPlain12;
    Timestamps.RecognizedExactly(value);
    Timestamps.ShapeIsStampText(value);
    StampStandsPlain(value);
    StampStartsWithDigit(value);
    DigitsAreNoWords(value);
    hide IsStamp;
    StampIsNumber12(f, value);
    if value[|value| - 1] == 'z' {
      StampIsNumber11(f, value, schema == Yaml11PyYaml);
    }
  }

  // Such a text: a 1.1 reader takes it for a timestamp, and it is written bare.
  lemma TimestampStaysPlain(f: Floats, value: string, schema: Schema)
    requires schema != Yaml12 && value == "2001-01-01T00:00:00z"
    ensures !NeedsQuoting(f, value, schema)
    ensures Timestamps.Parsed(value) ==
            Some(Timestamps.DateTime(2001, 1, 1, 0, 0, 0, 0, Some(0)))
  {
    hide Timestamps.Shape, NeedsQuoting;
    assert |value| == 20 && value[19] == 'z' && '\t' !in value && '.' !in value;
    Timestamps.RecognizerMisses(value);
    TimestampsStayPlainExactly(f, value, schema);
  }

  predicate IsWordCharacter(c: char) { IsDigit(c) || 'a' <= c <= 'z' || c == '_' }

  lemma WordsStandPlain(value: string)
    requires value != "" && forall i | 0 <= i < |value| :: IsWordCharacter(value[i])
    ensures !CannotStandPlain(value)
  {
    assert IsWordCharacter(value[0]) && IsWordCharacter(value[|value| - 1]);
    forall i: nat | i < |value| ensures !HasStructureAt(value, i) {
      assert IsWordCharacter(value[i]);
    }
    assert forall i | 0 <= i < |value| :: IsWordCharacter(value[i]) ==> !IsUnsafe(value[i]);
    assert value[0] != '.' && (|value| > 3 ==> value[..3][0] == value[0]);
  }

  // The exceptions are real: `y` and `_5` stay plain by default, and flip under 1.1.
  lemma SomeDefaultsFlip(f: Floats)
    ensures !NeedsQuoting(f, "y", Yaml12) && Classify(Yaml11, f, "y", Plain, None) == BoolKind(true)
    ensures !NeedsQuoting(f, "_5", Yaml12) && Classify(Yaml11, f, "_5", Plain, None) == IntKind(5)
  {
    WordsStandPlain("y");
    WordsStandPlain("_5");
    assert !IsKeyword("y") && !IsKeyword("_5");
    UnderscoreFive();
    IntegersAreExact11(f, "_5", false);
  }

  // So is the colon: `1:30` stays plain by default, and is ninety under 1.1 and its variant.
  lemma ColonFlips(f: Floats, value: string)
    requires value == "1:30"
    ensures !NeedsQuoting(f, value, Yaml12)
    ensures Classify(Yaml11, f, value, Plain, None) == IntKind(90)
    ensures Classify(Yaml11PyYaml, f, value, Plain, None) == IntKind(90)
  {
    ColonStandsPlain();
    NinetyInBase60(value);
    Base60IsExactOrText(f, value, false);
    Base60IsExactOrText(f, value, true);
    ColonIsNoNumber12(f, value);
  }

  lemma ColonIsNoNumber12(f: Floats, value: string)
    requires value == "1:30"
    ensures !ResolvesToNumber(f, value, Yaml12)
  {
    assert value[1] == ':' && value[0] == '1';
    IntegersAreExact12(f, value);
    assert TryParseFloat12(f, value) == None;
  }

  lemma ColonStandsPlain()
    ensures !CannotStandPlain("1:30") && !IsKeyword("1:30")
  {
    var value := "1:30";
    forall i: nat | i < |value| ensures !HasStructureAt(value, i) {
      assert i == 0 || i == 1 || i == 2 || i == 3;
    }
    assert forall i | 0 <= i < |value| :: !IsUnsafe(value[i]);
  }

  lemma SplitAtMark(before: string, after: string)
    requires ':' !in before && ':' !in after
    ensures Split(before + ":" + after, ':') == [before, after]
  {
    SplitNone(after);
    SplitBefore(before, after);
  }

  lemma {:induction false} SplitNone(s: string)
    requires ':' !in s
    ensures Split(s, ':') == [s]
  {
    if s != "" {
      SplitNone(s[1..]);
      assert [s[0]] + s[1..] == s;
    }
  }

  lemma {:induction false} SplitBefore(before: string, after: string)
    requires ':' !in before && Split(after, ':') == [after]
    ensures Split(before + ":" + after, ':') == [before, after]
  {
    var s := before + ":" + after;
    if before == "" {
      assert s[1..] == after && s[0] == ':';
      assert [""] + [after] == ["", after];
    } else {
      assert s[1..] == before[1..] + ":" + after && s[0] == before[0];
      SplitBefore(before[1..], after);
      assert [s[0]] + before[1..] == before;
      assert [before[1..], after][1..] == [after];
    }
  }

  lemma OneAndThirty(one: string, thirty: string)
    requires one == "1" && thirty == "30"
    ensures RadixValue(one, 1, 10) == 1 && RadixValue(thirty, 2, 10) == 30
  {
    assert RadixValue(one, 0, 10) == 0 == RadixValue(thirty, 0, 10);
    assert RadixValue(thirty, 1, 10) == 3;
  }

  lemma NinetyInBase60(value: string)
    requires value == "1:30"
    ensures IsBase60(value) && Base60Value(value) == 90 && !LeadingUnderscore(value)
  {
    var before, after := "1", "30";
    assert value == before + ":" + after && value[0] == '1';
    StripIsIdentity(value);
    SplitAtMark(before, after);
    var parts := [before, after];
    OneAndThirty(before, after);
    hide RadixValue;
    assert Base60(parts, 0) == 0 && Base60(parts, 1) == 1 && Base60(parts, 2) == 90;
  }

  lemma UnderscoreFive()
    ensures Numeral11("_5") == Some(Numeral(false, 10, "5")) && Magnitude(Numeral11("_5").value) == 5
  {
    assert "_5"[1..] == "5" && "5"[1..] == "" && StripUnderscores("5") == "5";
    assert "" + StripUnderscores("5") == "5" && StripUnderscores("_5") == "5";
    assert RadixValue("5", 0, 10) == 0 && RadixValue("5", 1, 10) == 5;
  }

  // Quotes are never written without a reason: the text cannot stand plain, or it is no
  // string under 1.2 or under the schema at hand (1.1 for the default), or it is a timestamp.
  lemma QuotedForAReason(f: Floats, value: string, schema: Schema)
    requires NeedsQuoting(f, value, schema) && value != "" && value != "..." && !CannotStandPlain(value)
    ensures Classify(Yaml12, f, value, Plain, None) != StrKind
            || Classify(if schema == Yaml12 then Yaml11 else schema, f, value, Plain, None) != StrKind
            || (schema != Yaml12 && Timestamps.LooksLike(value))
  {
    if IsKeyword(value) {
      KeywordsAreNoStrings(f, value, schema == Yaml11PyYaml);
    } else if schema == Yaml11 && IsSingleLetterBool(value) {
      assert TryParseBool11(value, false).Some?;
    }
  }

  lemma KeywordsAreNoStrings(f: Floats, value: string, pyyaml: bool)
    requires IsKeyword(value) && value != "..."
    ensures ClassifyPlain12(f, value) != StrKind || ClassifyPlain11(f, value, pyyaml) != StrKind
  {
    if value in {"null", "Null", "NULL", "~", "<<"} {
    } else if value in {"true", "True", "TRUE", "false", "False", "FALSE"} {
    } else if SpecialFloat(value).Some? {
      assert !IsNull(value);
    } else {
      assert TryParseBool11(value, pyyaml).Some?;
    }
  }
}
