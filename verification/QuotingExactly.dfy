// When a string is quoted (src/encode/mod.rs, `needs_quoting`): exactly when it cannot stand
// plain, or would not be a string then.
module QuotingExactly {
  import opened Wrappers
  import opened Strings
  import opened Text
  import opened Resolver
  import opened Quoting
  import opened Schemas
  import Timestamps

  // Text that may stand plain: it begins with no indicator, blank or byte order mark, ends with
  // no blank, and is printable on one line; a colon is followed by something other than a space,
  // a hash does not follow a space, and it does not open like a document end.
  predicate MayStandPlain(value: string) {
    && value != ""
    && value[0] !in "-?:,[]{}#&*!|>'\"%@` \t\U{FEFF}"
    && value[|value| - 1] !in " \t"
    && (forall c <- value :: IsPrintable(c) && c !in "\t\n\r")
    && (forall i | 0 <= i < |value| && value[i] == ':' :: i + 1 < |value| && value[i + 1] != ' ')
    && (forall i | 0 < i < |value| && value[i] == '#' :: value[i - 1] != ' ')
    && !("... " <= value) && !("...\t" <= value)
  }

  lemma IndicatorsExactly(c: char)
    ensures c in "-?:,[]{}#&*!|>'\"%@` \t\U{FEFF}" <==> IsIndicator(c) || c in {' ', '\t', '\U{feff}'}
  {
    var s := "-?:,[]{}#&*!|>'\"%@` \t\U{FEFF}";
    assert s[0] == '-' && s[1] == '?' && s[2] == ':' && s[3] == ',' && s[4] == '[' && s[5] == ']' && s[6] == '{' && s[7] == '}';
    assert s[8] == '#' && s[9] == '&' && s[10] == '*' && s[11] == '!' && s[12] == '|' && s[13] == '>' && s[14] == '\'';
    assert s[15] == '"' && s[16] == '%' && s[17] == '@' && s[18] == '`' && s[19] == ' ' && s[20] == '\t' && s[21] == '\U{feff}';
  }

  lemma SafeExactly(c: char)
    ensures IsUnsafe(c) <==> !IsPrintable(c) || c in "\t\n\r"
  {
    NonPrintableExactly(c);
    assert "\t\n\r"[0] == '\t' && "\t\n\r"[1] == '\n' && "\t\n\r"[2] == '\r';
  }

  lemma DotsExactly(value: string)
    requires value != ""
    ensures (|value| > 3 && value[..3] == "..." && value[3] in {' ', '\t'}) <==> "... " <= value || "...\t" <= value
  {
    if |value| > 3 {
      assert value[..4] == value[..3] + [value[3]];
      assert "... " == "..." + [' '] && "...\t" == "..." + ['\t'];
    }
  }

  lemma StandsPlainExactly(value: string)
    requires value != ""
    ensures MayStandPlain(value) <==> !CannotStandPlain(value)
  {
    IndicatorsExactly(value[0]);
    IndicatorsExactly(value[|value| - 1]);
    DotsExactly(value);
    assert " \t"[0] == ' ' && " \t"[1] == '\t';
    assert (forall c <- value :: IsPrintable(c) && c !in "\t\n\r") <==> !exists i | 0 <= i < |value| :: IsUnsafe(value[i]) by {
      forall i | 0 <= i < |value| ensures IsUnsafe(value[i]) <==> !IsPrintable(value[i]) || value[i] in "\t\n\r" {
        SafeExactly(value[i]);
      }
    }
    StructureExactly(value);
    hide IsIndicator, IsUnsafe, IsPrintable, HasStructureAt;
  }

  lemma StructureExactly(value: string)
    requires value != ""
    ensures !(exists i: nat | i < |value| :: HasStructureAt(value, i)) <==>
              && (forall i | 0 <= i < |value| && value[i] == ':' :: i + 1 < |value| && value[i + 1] != ' ')
              && (forall i | 0 < i < |value| && value[i] == '#' :: value[i - 1] != ' ')
  {
    if forall i: nat | i < |value| :: !HasStructureAt(value, i) {
      forall i | 0 <= i < |value| && value[i] == ':' ensures i + 1 < |value| && value[i + 1] != ' ' {
        assert !HasStructureAt(value, i);
      }
      forall i | 0 < i < |value| && value[i] == '#' ensures value[i - 1] != ' ' {
        assert !HasStructureAt(value, i);
      }
    }
  }

  // A text that is no word is a number or a string, and numbers show by their first character.
  lemma NoWord12(f: Floats, value: string)
    requires value != "" && !IsKeyword(value)
    ensures Classify(Yaml12, f, value, Plain, None) != StrKind <==> ResolvesToNumber(f, value, Yaml12)
    ensures ResolvesToNumber(f, value, Yaml12) ==> StartsLikeNumber(value, Yaml12)
  {
    NumberKinds12(f, value);
    WordsExactly(Yaml12, f, value);
    hide ClassifyNumber12;
  }

  lemma NoWord11(f: Floats, value: string, schema: Schema)
    requires value != "" && !IsKeyword(value) && schema != Yaml12 && !(schema == Yaml11 && IsSingleLetterBool(value))
    ensures Classify(schema, f, value, Plain, None) != StrKind <==> ResolvesToNumber(f, value, schema)
    ensures ResolvesToNumber(f, value, schema) ==> StartsLikeNumber(value, schema)
  {
    NumberKinds11(f, value, schema == Yaml11PyYaml);
    WordsExactly(schema, f, value);
    hide ClassifyNumber11;
  }

  lemma StampsStartLikeNumbers(value: string, schema: Schema)
    requires Timestamps.LooksLike(value)
    ensures value != "" && StartsLikeNumber(value, schema)
  {
  }

  // Under 1.1 and its variant: quoted exactly when it cannot stand plain, would be no string
  // under that schema or under 1.2, or looks like a timestamp.
  lemma QuotedExactly11(f: Floats, value: string, schema: Schema)
    requires schema != Yaml12
    ensures NeedsQuoting(f, value, schema) <==>
              || value == "..." || !MayStandPlain(value)
              || Classify(Yaml12, f, value, Plain, None) != StrKind || Classify(schema, f, value, Plain, None) != StrKind
              || Timestamps.LooksLike(value)
  {
    if value != "" {
      StandsPlainExactly(value);
      hide MayStandPlain, CannotStandPlain, Timestamps.LooksLike, Classify, IsKeyword, IsSingleLetterBool, StartsLikeNumber;
      if Timestamps.LooksLike(value) {
        StampsStartLikeNumbers(value, schema);
      }
      if value == "..." {
        DotsAreKeyword();
      } else if IsKeyword(value) {
        KeywordIsNoString(f, value, schema);
      } else if schema == Yaml11 && IsSingleLetterBool(value) {
        LetterIsNoString(f, value);
      } else {
        NoWord12(f, value);
        NoWord11(f, value, schema);
      }
    }
  }

  lemma LetterIsNoString(f: Floats, value: string)
    requires IsSingleLetterBool(value)
    ensures Classify(Yaml11, f, value, Plain, None) != StrKind
  {
    WordsExactly(Yaml11, f, value);
    hide Classify;
  }

  lemma DotsAreKeyword()
    ensures IsKeyword("...")
  {
  }

  lemma KeywordIsNoString(f: Floats, value: string, schema: Schema)
    requires IsKeyword(value) && value != "..." && schema != Yaml12
    ensures Classify(Yaml12, f, value, Plain, None) != StrKind || Classify(schema, f, value, Plain, None) != StrKind
  {
    hide IsKeyword;
    KeywordsAreNoStrings(f, value, schema == Yaml11PyYaml);
  }

  // By default: when it cannot stand plain, would be no string under 1.2, is a word for a boolean
  // under PyYAML, or is a number under 1.1 with no colon that does not begin with an underscore.
  lemma QuotedExactly12(f: Floats, value: string)
    ensures NeedsQuoting(f, value, Yaml12) <==>
              || value == "..." || !MayStandPlain(value)
              || Classify(Yaml12, f, value, Plain, None) != StrKind
              || IsTrueWord(Yaml11PyYaml, value) || IsFalseWord(Yaml11PyYaml, value)
              || (':' !in value && value[0] != '_' && ResolvesToNumber(f, value, Yaml11))
  {
    if value != "" {
      StandsPlainExactly(value);
      hide MayStandPlain, CannotStandPlain;
      KeywordsExactly(f, value);
      if !IsKeyword(value) {
        NoWord12(f, value);
        if ResolvesToNumber(f, value, Yaml11) {
          Numbers11Start(f, value);
        }
      }
      hide Classify, IsKeyword, IsTrueWord, IsFalseWord;
    }
  }

  lemma Numbers11Start(f: Floats, value: string)
    requires value != "" && ResolvesToNumber(f, value, Yaml11)
    ensures value[0] != '_' ==> StartsLikeNumber(value, Yaml12)
  {
    hide ClassifyNumber11;
  }

  lemma KeywordsExactly(f: Floats, value: string)
    requires value != ""
    ensures IsKeyword(value) && value != "..." ==>
              Classify(Yaml12, f, value, Plain, None) != StrKind || IsTrueWord(Yaml11PyYaml, value)
                  || IsFalseWord(Yaml11PyYaml, value)
    ensures IsTrueWord(Yaml11PyYaml, value) || IsFalseWord(Yaml11PyYaml, value) ==> IsKeyword(value)
  {
    WordsExactly(Yaml12, f, value);
    if SpecialFloat(value).Some? {
      SpecialIs(value);
      FloatsExactly12(f, value, SpecialFloat(value).value);
    }
    hide Classify;
  }
}
