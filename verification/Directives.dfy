// The text of a directive (src/decode/mod.rs, `validate_directive` and `tag_directive_handle`).
module Directives {
  import opened Wrappers
  import opened Strings
  import opened Text

  // What a directive says: `%YAML` with a good or a bad version, a well-formed `%TAG`, or
  // anything else.
  datatype DirectiveKind = YamlVersion(valid: bool) | TagPrefix(handle: string, prefix: string) | OtherDirective

  // `char::is_whitespace`.
  predicate IsWhitespace(c: char) {
    var n := c as int;
    0x09 <= n <= 0x0d || 0x2000 <= n <= 0x200a || n in {0x20, 0x85, 0xa0, 0x1680, 0x2028, 0x2029, 0x202f, 0x205f, 0x3000}
  }

  function WordEnd(s: string): (n: nat)
    ensures n <= |s| && (forall i | 0 <= i < n :: !IsWhitespace(s[i])) && (n < |s| ==> IsWhitespace(s[n]))
  {
    if s == "" || IsWhitespace(s[0]) then 0 else 1 + WordEnd(s[1..])
  }

  // `str::split_whitespace`.
  function Words(s: string): seq<string> {
    if s == "" then []
    else if IsWhitespace(s[0]) then Words(s[1..])
    else [s[..WordEnd(s)]] + Words(s[WordEnd(s)..])
  }

  // The words in front of a comment.
  function BeforeComment(words: seq<string>): seq<string> {
    if words == [] || "#" <= words[0] then [] else [words[0]] + BeforeComment(words[1..])
  }

  predicate IsNumeral(s: string) { s != "" && AllDigits(s) }

  // `major.minor`.
  predicate IsVersion(word: string) {
    var parts := Split(word, '.');
    |parts| == 2 && IsNumeral(parts[0]) && IsNumeral(parts[1])
  }

  predicate IsHandle(word: string) { word != "" && word[0] == '!' && word[|word| - 1] == '!' }

  function KindOf(text: string): DirectiveKind {
    var words, all := BeforeComment(Words(text)), Words(text);
    if words != [] && words[0] == "YAML" then YamlVersion(|words| == 2 && IsVersion(words[1]))
    else if |all| >= 3 && all[0] == "TAG" && IsHandle(all[1]) then TagPrefix(all[1], all[2])
    else OtherDirective
  }

  // ----- What is written is what is declared -----

  predicate IsWord(s: string) { s != "" && forall i | 0 <= i < |s| :: !IsWhitespace(s[i]) }

  lemma {:induction false} WordStops(word: string, rest: string)
    requires (forall i | 0 <= i < |word| :: !IsWhitespace(word[i])) && (rest == "" || IsWhitespace(rest[0]))
    ensures WordEnd(word + rest) == |word|
  {
    if word == "" {
      assert word + rest == rest;
    } else {
      assert (word + rest)[1..] == word[1..] + rest;
      WordStops(word[1..], rest);
    }
  }

  lemma OneWord(word: string, rest: string)
    requires IsWord(word) && (rest == "" || IsWhitespace(rest[0]))
    ensures Words(word + rest) == [word] + Words(rest)
  {
    WordStops(word, rest);
    assert (word + rest)[..|word|] == word && (word + rest)[|word|..] == rest;
  }

  lemma NoWords()
    ensures Words("") == []
  {
  }

  lemma SpacedWord(word: string, rest: string)
    requires IsWord(word) && (rest == "" || IsWhitespace(rest[0]))
    ensures Words([' '] + (word + rest)) == [word] + Words(rest)
  {
    assert ([' '] + (word + rest))[1..] == word + rest;
    OneWord(word, rest);
  }

  lemma {:induction false} SplitNumerals(major: string, minor: string)
    requires AllDigits(major) && AllDigits(minor)
    ensures Split(major + ("." + minor), '.') == [major, minor]
  {
    if major == "" {
      assert major + ("." + minor) == ['.'] + minor && (['.'] + minor)[1..] == minor;
      SplitDigits(minor);
      assert [""] + [minor] == [major, minor];
    } else {
      var s := major + ("." + minor);
      assert s[1..] == major[1..] + ("." + minor) && s[0] == major[0];
      SplitNumerals(major[1..], minor);
      assert [s[0]] + major[1..] == major && [major[1..], minor][1..] == [minor];
    }
  }

  lemma {:induction false} SplitDigits(s: string)
    requires AllDigits(s)
    ensures Split(s, '.') == [s]
  {
    if s != "" {
      SplitDigits(s[1..]);
      assert [s[0]] + s[1..] == s;
    }
  }

  // `%YAML major.minor` declares a good version, with or without a comment behind it.
  lemma VersionReads(yaml: string, major: string, minor: string, comment: string)
    requires yaml == "YAML" && IsNumeral(major) && IsNumeral(minor) && (comment == "" || " #" <= comment)
    ensures KindOf(yaml + ([' '] + ((major + ("." + minor)) + comment))) == YamlVersion(true)
  {
    hide Words;
    var version := major + ("." + minor);
    var text := yaml + ([' '] + (version + comment));
    OneWord(yaml, [' '] + (version + comment));
    SpacedWord(version, comment);
    SplitNumerals(major, minor);
    var words := Words(text);
    assert words == [yaml] + ([version] + Words(comment));
    NoComment(yaml, version, comment);
  }

  lemma NoComment(yaml: string, version: string, comment: string)
    requires yaml == "YAML" && version != "" && IsDigit(version[0]) && (comment == "" || " #" <= comment)
    ensures BeforeComment([yaml] + ([version] + Words(comment))) == [yaml, version]
  {
    if comment != "" {
      assert comment[0] == ' ' && comment[1..][0] == comment[1] == '#';
      var after := comment[1..];
      assert Words(comment) == Words(after) && after != "" && WordEnd(after) >= 1;
      assert after[..WordEnd(after)][0] == '#';
    }
    var rest := Words(comment);
    assert BeforeComment(rest) == [];
    assert ([version] + rest)[1..] == rest;
    assert BeforeComment([version] + rest) == [version] + [];
    assert ([yaml] + ([version] + rest))[1..] == [version] + rest;
  }

  // `%TAG handle prefix` declares just that.
  lemma TagReads(tag: string, handle: string, prefix: string)
    requires tag == "TAG" && IsWord(handle) && IsHandle(handle) && IsWord(prefix)
    ensures KindOf(tag + ([' '] + (handle + ([' '] + (prefix + ""))))) == TagPrefix(handle, prefix)
  {
    hide Words;
    OneWord(tag, [' '] + (handle + ([' '] + (prefix + ""))));
    SpacedWord(handle, [' '] + (prefix + ""));
    SpacedWord(prefix, "");
    NoWords();
    var all := Words(tag + ([' '] + (handle + ([' '] + (prefix + "")))));
    assert all == [tag, handle, prefix];
  }

  // ----- What any line of words declares -----

  // Digits, a point and digits.
  ghost predicate IsVersionText(word: string) {
    exists i :: 0 < i < |word| - 1 && word[i] == '.' && AllDigits(word[..i]) && AllDigits(word[i + 1..])
  }

  // The first part ends at the first mark, and the rest is split likewise.
  lemma {:induction false} SplitAt(s: string, mark: char, i: nat)
    requires i <= |s| && mark !in s[..i] && (i < |s| ==> s[i] == mark)
    ensures Split(s, mark) == if i == |s| then [s] else [s[..i]] + Split(s[i + 1..], mark)
  {
    if i == 0 {
      assert s[..0] == "" && (s == "" ==> [s] == [""]);
    } else {
      var t := s[1..];
      assert s[..i] == [s[0]] + t[..i - 1] && s[0] in s[..i];
      assert forall c <- t[..i - 1] :: c in s[..i];
      SplitAt(t, mark, i - 1);
      assert i < |s| ==> t[i - 1 + 1..] == s[i + 1..];
      hide Split;
      SplitOne(s, mark);
      if i < |s| {
        var more := Split(s[i + 1..], mark);
        assert ([t[..i - 1]] + more)[0] == t[..i - 1] && ([t[..i - 1]] + more)[1..] == more;
      } else {
        assert [t][1..] == [] && [s[0]] + t == s;
      }
    }
  }

  lemma SplitOne(s: string, mark: char)
    requires s != "" && s[0] != mark
    ensures Split(s, mark) == [[s[0]] + Split(s[1..], mark)[0]] + Split(s[1..], mark)[1..]
  {
  }

  // Where the first mark is, or the end.
  function FirstAt(s: string, mark: char): (i: nat)
    ensures i <= |s| && mark !in s[..i] && (i < |s| ==> s[i] == mark)
  {
    if s == "" || s[0] == mark then 0
    else
      var i := 1 + FirstAt(s[1..], mark);
      assert s[..i] == [s[0]] + s[1..][..i - 1];
      i
  }

  lemma VersionExactly(word: string)
    ensures IsVersion(word) <==> IsVersionText(word)
  {
    hide Split;
    var i := FirstAt(word, '.');
    SplitAt(word, '.', i);
    if i < |word| {
      var rest := word[i + 1..];
      var k := FirstAt(rest, '.');
      SplitAt(rest, '.', k);
      VersionParts(word, i, k);
    } else {
      NoPoint(word);
    }
  }

  lemma NoPoint(word: string)
    requires '.' !in word[..|word|]
    ensures !IsVersionText(word)
  {
    assert word[..|word|] == word;
  }

  // With the first point at `i`, and the next one, or the end, `k` behind it.
  lemma VersionParts(word: string, i: nat, k: nat)
    requires i < |word| && word[i] == '.' && '.' !in word[..i]
    requires k <= |word| - i - 1 && '.' !in word[i + 1..][..k] && (i + 1 + k < |word| ==> word[i + 1..][k] == '.')
    ensures IsVersionText(word) <==> i + 1 + k == |word| && IsNumeral(word[..i]) && IsNumeral(word[i + 1..])
  {
    assert i + 1 + k < |word| ==> word[i + 1 + k] == word[i + 1..][k];
    if IsVersionText(word) {
      var n :| 0 < n < |word| - 1 && word[n] == '.' && AllDigits(word[..n]) && AllDigits(word[n + 1..]);
      OnlyPoint(word, n);
    }
  }

  lemma OnlyPoint(word: string, n: nat)
    requires n < |word| && AllDigits(word[..n]) && AllDigits(word[n + 1..])
    ensures forall i: nat | i < |word| && word[i] == '.' :: i == n
  {
    assert forall i: nat | i < n :: word[i] == word[..n][i];
    assert forall i: nat | n < i < |word| :: word[i] == word[n + 1..][i - n - 1];
  }

  function Spaced(words: seq<string>): string {
    if words == [] then "" else [' '] + (words[0] + Spaced(words[1..]))
  }

  predicate AreWords(words: seq<string>) { forall i | 0 <= i < |words| :: IsWord(words[i]) }

  lemma {:induction false} SpacedWords(words: seq<string>)
    requires AreWords(words)
    ensures Words(Spaced(words)) == words
  {
    if words == [] {
      NoWords();
    } else {
      SpacedWords(words[1..]);
      hide Words;
      SpacedWord(words[0], Spaced(words[1..]));
      assert words == [words[0]] + words[1..];
    }
  }

  // `%YAML` is good with one version and at most a comment behind it, and bad otherwise. `%TAG`
  // declares a handle and a prefix where it has both. Anything else is ignored.
  lemma KindExactly(name: string, words: seq<string>)
    requires IsWord(name) && AreWords(words)
    ensures KindOf(name + Spaced(words)) ==
            if name == "YAML" then
              YamlVersion(|words| >= 1 && IsVersionText(words[0]) && (|words| == 1 || words[1][0] == '#'))
            else if name == "TAG" && |words| >= 2 && words[0][0] == '!' && words[0][|words[0]| - 1] == '!' then
              TagPrefix(words[0], words[1])
            else OtherDirective
  {
    SpacedWords(words);
    OneWord(name, Spaced(words));
    BeforeSecond(words);
    WithName(name, words);
    if words != [] {
      VersionExactly(words[0]);
      VersionIsNoComment(words[0]);
    }
    hide Words, IsVersion, IsVersionText, BeforeComment, Spaced;
  }

  lemma WithName(name: string, words: seq<string>)
    requires IsWord(name)
    ensures var all := [name] + words;
            && |all| == 1 + |words| && all[0] == name
            && (|words| >= 1 ==> all[1] == words[0]) && (|words| >= 2 ==> all[2] == words[1])
            && BeforeComment(all) == if name[0] == '#' then [] else [name] + BeforeComment(words)
  {
    assert ([name] + words)[1..] == words;
  }

  lemma VersionIsNoComment(word: string)
    ensures IsVersionText(word) ==> word != "" && word[0] != '#'
  {
    if IsVersionText(word) {
      var i :| 0 < i < |word| - 1 && word[i] == '.' && AllDigits(word[..i]) && AllDigits(word[i + 1..]);
      assert IsDigit(word[..i][0]);
    }
  }

  lemma BeforeSecond(words: seq<string>)
    requires AreWords(words)
    ensures |BeforeComment(words)| == 1 <==> words != [] && words[0][0] != '#' && (|words| == 1 || words[1][0] == '#')
    ensures words != [] && words[0][0] != '#' ==> BeforeComment(words) != [] && BeforeComment(words)[0] == words[0]
  {
    if |words| > 1 {
      var rest := words[1..];
      assert rest[0] == words[1];
      assert BeforeComment(rest) == if "#" <= rest[0] then [] else [rest[0]] + BeforeComment(rest[1..]);
    }
  }
}
