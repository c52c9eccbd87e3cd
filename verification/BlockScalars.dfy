// Literal block scalars (src/emit_util.rs, `use_literal_block` and `push_block_scalar`),
// against a reader written from YAML 1.2.2: section 8.1.1.1 (the indentation is detected
// from the first line that is not empty), 8.1.1.2 (chomping) and 8.1.2 (the literal style).
module BlockScalars {
  import opened Wrappers
  import opened Seqs
  import opened Strings
  import opened Text
  import Quotes

  // ----- Writing -----

  function FirstContent(lines: seq<string>): (first: Option<string>)
    ensures first.Some? ==> first.value != ""
  {
    if lines == [] then None
    else if lines[0] != "" then Some(lines[0])
    else FirstContent(lines[1..])
  }

  predicate IsPlainText(s: string) { forall i | 0 <= i < |s| :: s[i] != '\r' && !IsNonPrintable(s[i]) }

  // `use_literal_block`.
  predicate UseLiteralBlock(value: string) {
    && '\n' in value
    && IsPlainText(value)
    && var first := FirstContent(Split(value, '\n'));
       first.Some? ==> !IsBlank(first.value[0])
  }

  // It has a line break, no carriage return and only printable text, and the first character
  // behind any leading breaks is no blank.
  lemma UseLiteralExactly(value: string)
    ensures UseLiteralBlock(value) <==>
              && '\n' in value && '\r' !in value && (forall c <- value :: IsPrintable(c))
              && forall i | 0 <= i < |value| && value[i] != '\n' && (forall k | 0 <= k < i :: value[k] == '\n') ::
                  value[i] !in {' ', '\t'}
  {
    assert IsPlainText(value) <==> '\r' !in value && forall c <- value :: IsPrintable(c) by {
      forall i | 0 <= i < |value| ensures IsNonPrintable(value[i]) <==> !IsPrintable(value[i]) {
        NonPrintableExactly(value[i]);
      }
    }
    FirstCharacter(value, 0);
    hide IsPlainText, FirstContent, Split, IsPrintable;
  }

  // The first content begins with the first character that is no break.
  lemma {:induction false} FirstCharacter(value: string, from: nat)
    requires from <= |value| && forall k | 0 <= k < from :: value[k] == '\n'
    ensures var first := FirstContent(Split(value[from..], '\n'));
            (first.Some? ==> !IsBlank(first.value[0])) <==>
            forall i | 0 <= i < |value| && value[i] != '\n' && (forall k | 0 <= k < i :: value[k] == '\n') ::
                value[i] !in {' ', '\t'}
    decreases |value| - from
  {
    var s := value[from..];
    if s != "" {
      assert s[0] == value[from] && s[1..] == value[from + 1..];
      if s[0] == '\n' {
        FirstCharacter(value, from + 1);
        assert Split(s, '\n') == [""] + Split(s[1..], '\n') && ([""] + Split(s[1..], '\n'))[1..] == Split(s[1..], '\n');
      } else {
        var rest := Split(s[1..], '\n');
        assert Split(s, '\n')[0] == [s[0]] + rest[0];
        assert FirstContent(Split(s, '\n')) == Some([s[0]] + rest[0]);
        assert forall i | from < i < |value| :: value[i] != '\n' ==> !forall k | 0 <= k < i :: value[k] == '\n';
      }
    } else {
      assert FirstContent([""]) == FirstContent([""][1..]);
    }
  }

  function TrailingBreaks(value: string): (n: nat)
    ensures n <= |value| && forall i | |value| - n <= i < |value| :: value[i] == '\n'
    ensures n < |value| ==> value[|value| - n - 1] != '\n'
  {
    if value == "" || value[|value| - 1] != '\n' then 0 else 1 + TrailingBreaks(value[..|value| - 1])
  }

  // `trim_end_matches('\n')`.
  function Trimmed(value: string): string { value[..|value| - TrailingBreaks(value)] }

  // The chomping indicator, worked out from the trailing breaks.
  function Chomping(value: string): string {
    if TrailingBreaks(value) == 0 then "-"
    else if TrailingBreaks(value) == 1 && Trimmed(value) != "" then ""
    else "+"
  }

  function Indented(line: string, indent: nat): string {
    if line == "" then "\n" else Spaces(indent) + line + "\n"
  }

  function IndentedLines(lines: seq<string>, indent: nat): string {
    if lines == [] then "" else Indented(lines[0], indent) + IndentedLines(lines[1..], indent)
  }

  function NoLines(n: nat): (lines: seq<string>)
    ensures |lines| == n && forall i | 0 <= i < n :: lines[i] == ""
  {
    if n == 0 then [] else [""] + NoLines(n - 1)
  }

  // The lines of the body, the blank ones at its end included.
  function BodyLines(value: string): seq<string> {
    Split(Trimmed(value), '\n') + NoLines(if TrailingBreaks(value) == 0 then 0 else TrailingBreaks(value) - 1)
  }

  // A literal scalar (`|`).
  function BlockScalar(value: string, indent: nat): string { MarkedScalar('|', value, indent) }

  function MarkedScalar(marker: char, value: string, indent: nat): string {
    [marker] + Chomping(value) + "\n" + IndentedLines(BodyLines(value), indent)
  }

  // `push_block_scalar_header`.
  method PushHeader(buf: string, value: string, marker: char) returns (out: string)
    ensures out == buf + [marker] + Chomping(value)
  {
    var trailing := TrailingBreaks(value);
    out := buf + [marker];
    if trailing == 0 {
      out := out + "-";
    } else if trailing != 1 || Trimmed(value) == "" {
      out := out + "+";
    }
  }

  lemma {:induction false} LinesConcat(a: seq<string>, b: seq<string>, indent: nat)
    ensures IndentedLines(a + b, indent) == IndentedLines(a, indent) + IndentedLines(b, indent)
  {
    if a == [] {
      assert a + b == b;
    } else {
      assert (a + b)[1..] == a[1..] + b;
      LinesConcat(a[1..], b, indent);
    }
  }

  method PushLines(buf: string, lines: seq<string>, indent: nat) returns (out: string)
    ensures out == buf + IndentedLines(lines, indent)
  {
    hide Repeat, Spaces;
    out := buf;
    for i := 0 to |lines|
      invariant out + IndentedLines(lines[i..], indent) == buf + IndentedLines(lines, indent)
    {
      ghost var before := out;
      assert lines[i..][1..] == lines[i + 1..];
      if lines[i] == "" {
        out := out + "\n";
      } else {
        out := out + Spaces(indent) + lines[i] + "\n";
      }
      assert out == before + Indented(lines[i], indent);
      Regroup(before, Indented(lines[i], indent), IndentedLines(lines[i + 1..], indent));
    }
  }

  method PushBreaks(buf: string, n: nat) returns (out: string)
    ensures out == buf + Repeat('\n', n)
  {
    out := buf;
    for k := 0 to n
      invariant out + Repeat('\n', n - k) == buf + Repeat('\n', n)
    {
      Regroup(out, "\n", Repeat('\n', n - k - 1));
      out := out + "\n";
    }
  }

  lemma {:induction false} EmptyLines(n: nat, indent: nat)
    ensures IndentedLines(NoLines(n), indent) == Repeat('\n', n)
  {
    if n > 0 {
      assert NoLines(n)[1..] == NoLines(n - 1);
      EmptyLines(n - 1, indent);
    }
  }

  // `push_block_scalar_body`.
  method PushBody(buf: string, value: string, indent: nat) returns (out: string)
    ensures out == buf + ("\n" + IndentedLines(BodyLines(value), indent))
  {
    var trailing := TrailingBreaks(value);
    var extra: nat := if trailing == 0 then 0 else trailing - 1;
    var lines := Split(Trimmed(value), '\n');
    out := PushLines(buf + "\n", lines, indent);
    out := PushBreaks(out, extra);
    LinesConcat(lines, NoLines(extra), indent);
    EmptyLines(extra, indent);
    ghost var written, breaks := IndentedLines(lines, indent), Repeat('\n', extra);
    Regroup(buf + "\n", written, breaks);
    Regroup(buf, "\n", written + breaks);
  }

  // `push_block_scalar`.
  method PushBlockScalar(buf: string, value: string, marker: char, indent: nat) returns (out: string)
    ensures out == buf + MarkedScalar(marker, value, indent)
  {
    hide IndentedLines, BodyLines, Chomping;
    out := PushHeader(buf, value, marker);
    out := PushBody(out, value, indent);
  }

  // ----- Reading -----

  datatype Chomp = Strip | Clip | Keep

  function LeadingSpaces(s: string): (n: nat)
    ensures n <= |s| && (forall i | 0 <= i < n :: s[i] == ' ') && (n < |s| ==> s[n] != ' ')
  {
    if s == "" || s[0] != ' ' then 0 else 1 + LeadingSpaces(s[1..])
  }

  // The end of the first line.
  function LineEnd(s: string): (n: nat)
    ensures n <= |s| && (forall i | 0 <= i < n :: !Quotes.IsBreak(s[i])) && (n < |s| ==> Quotes.IsBreak(s[n]))
  {
    if s == "" || Quotes.IsBreak(s[0]) then 0 else 1 + LineEnd(s[1..])
  }

  // The text from the second line on.
  function NextLine(s: string): (r: string)
    requires s != ""
    ensures |r| < |s|
  {
    if LineEnd(s) == |s| then "" else Quotes.AfterBreak(s[LineEnd(s)..])
  }

  datatype Indentation = Absent | Detected(n: nat) | Wrong

  // The indentation of the first line with content, deeper than the parent. The empty
  // lines before it may not be deeper than it.
  function Detect(s: string, parent: int, most: nat): Indentation
    decreases |s|
  {
    var k := LeadingSpaces(s);
    if k == |s| then Absent
    else if Quotes.IsBreak(s[k]) then Detect(NextLine(s), parent, if k > most then k else most)
    else if Quotes.IsMarker(s) || k <= parent then Absent
    else if most > k then Wrong
    else Detected(k)
  }

  // Content as it stands, before chomping, and what follows the scalar.
  datatype Content = Content(raw: string, rest: string)

  function WithLine(line: string, c: Content): Content { Content(line + "\n" + c.raw, c.rest) }

  function ReadLines(s: string, n: nat): Content
    decreases |s|
  {
    var k := LeadingSpaces(s);
    if s == "" then Content("", s)
    else if k < |s| && k <= n && Quotes.IsBreak(s[k]) then WithLine("", ReadLines(NextLine(s), n))
    else if Quotes.IsMarker(s) || k < n then Content("", s)
    else if LineEnd(s) <= n then WithLine("", ReadLines(NextLine(s), n))
    else WithLine(s[n..LineEnd(s)], ReadLines(NextLine(s), n))
  }

  function Chomped(raw: string, chomp: Chomp): string {
    match chomp
    case Strip => Trimmed(raw)
    case Clip => if Trimmed(raw) == "" then "" else Trimmed(raw) + "\n"
    case Keep => raw
  }

  // A literal block scalar under a parent of the given indentation (-1 at the root).
  function ReadLiteral(s: string, parent: int): Option<Quotes.Scalar>
    requires parent >= -1
  {
    if s == "" || s[0] != '|' then None
    else if |s| > 1 && s[1] == '-' then ReadBody(s[2..], parent, Strip)
    else if |s| > 1 && s[1] == '+' then ReadBody(s[2..], parent, Keep)
    else ReadBody(s[1..], parent, Clip)
  }

  function ReadBody(s: string, parent: int, chomp: Chomp): Option<Quotes.Scalar>
    requires parent >= -1
  {
    if s == "" || !Quotes.IsBreak(s[0]) then None
    else
      var text := Quotes.AfterBreak(s);
      match Detect(text, parent, 0)
      case Wrong => None
      case Absent => Literal(ReadLines(text, parent + 1), chomp)
      case Detected(n) => Literal(ReadLines(text, n), chomp)
  }

  // `l-nb-literal-text`, line by line.
  predicate IsLiteralText(raw: string) { forall i | 0 <= i < |raw| :: raw[i] == '\n' || IsLineChar(raw[i]) }

  function Literal(c: Content, chomp: Chomp): Option<Quotes.Scalar> {
    if !IsLiteralText(c.raw) then None
    else Some(Quotes.Scalar(Chomped(c.raw, chomp), c.rest))
  }

  // What may follow: nothing, a document marker, or a line of the parent or above it.
  predicate Ends(rest: string, parent: int) {
    rest == "" || Quotes.IsMarker(rest)
    || (LeadingSpaces(rest) <= parent && LeadingSpaces(rest) < |rest| && !Quotes.IsBreak(rest[LeadingSpaces(rest)]))
  }

  // ----- Reading what was written -----

  predicate IsLine(line: string) { forall i | 0 <= i < |line| :: !Quotes.IsBreak(line[i]) }

  predicate AreLines(lines: seq<string>) { forall i | 0 <= i < |lines| :: IsLine(lines[i]) }

  function Unlines(lines: seq<string>): string {
    if lines == [] then "" else lines[0] + "\n" + Unlines(lines[1..])
  }

  lemma {:induction false} SpacesLead(k: nat, rest: string)
    requires rest != "" && rest[0] != ' '
    ensures LeadingSpaces(Spaces(k) + rest) == k
  {
    if k == 0 {
      assert Spaces(k) + rest == rest;
    } else {
      assert (Spaces(k) + rest)[1..] == Spaces(k - 1) + rest;
      SpacesLead(k - 1, rest);
    }
  }

  lemma {:induction false} LineEndsAtBreak(line: string, rest: string)
    requires IsLine(line)
    ensures LineEnd(line + ("\n" + rest)) == |line|
  {
    var s := line + ("\n" + rest);
    assert s[|line|] == '\n';
    assert forall i | 0 <= i < |line| :: s[i] == line[i] && line[i] in line;
  }

  lemma NextLineIs(line: string, rest: string)
    requires IsLine(line)
    ensures NextLine(line + ("\n" + rest)) == rest
  {
    LineEndsAtBreak(line, rest);
    var s := line + ("\n" + rest);
    assert s[|line|..] == "\n" + rest;
    assert s[|line|..][1..] == rest;
  }

  lemma ReadOneLine(line: string, n: nat, rest: string)
    requires IsLine(line) && n >= 1
    ensures ReadLines(Indented(line, n) + rest, n) == WithLine(line, ReadLines(rest, n))
  {
    if line == "" {
      ReadEmptyLine(n, rest);
    } else {
      var full := Spaces(n) + line;
      var s := full + ("\n" + rest);
      assert Indented(line, n) + rest == s;
      NextLineIs(full, rest);
      LineEndsAtBreak(full, rest);
      assert s[n..|full|] == line;
      assert s[0] == ' ' && s[n] == line[0];
      LeadsAtLeast(s, n);
      assert !Quotes.IsMarker(s) by { assert s[..3][0] == ' '; }
    }
  }

  lemma ReadEmptyLine(n: nat, rest: string)
    ensures ReadLines("\n" + rest, n) == WithLine("", ReadLines(rest, n))
  {
    assert "\n" + rest == "" + ("\n" + rest);
    NextLineIs("", rest);
  }

  lemma LeadsAtLeast(s: string, n: nat)
    requires n < |s| && (forall i | 0 <= i < n :: s[i] == ' ') && !Quotes.IsBreak(s[n])
    ensures LeadingSpaces(s) >= n && (LeadingSpaces(s) <= n ==> LeadingSpaces(s) == n)
  {
  }

  lemma {:induction false} ReadAllLines(lines: seq<string>, n: nat, rest: string)
    requires AreLines(lines) && n >= 1
    ensures ReadLines(IndentedLines(lines, n) + rest, n) ==
            Content(Unlines(lines) + ReadLines(rest, n).raw, ReadLines(rest, n).rest)
  {
    if lines == [] {
      assert IndentedLines(lines, n) + rest == rest;
      assert "" + ReadLines(rest, n).raw == ReadLines(rest, n).raw;
    } else {
      var more := IndentedLines(lines[1..], n) + rest;
      Regroup(Indented(lines[0], n), IndentedLines(lines[1..], n), rest);
      assert IsLine(lines[0]);
      ReadOneLine(lines[0], n, more);
      ReadAllLines(lines[1..], n, rest);
      Regroup(lines[0] + "\n", Unlines(lines[1..]), ReadLines(rest, n).raw);
    }
  }

  lemma EndsTheLines(rest: string, parent: int, n: nat)
    requires Ends(rest, parent) && parent < n
    ensures ReadLines(rest, n) == Content("", rest)
  {
    if Quotes.IsMarker(rest) {
      assert rest[0] == rest[..3][0];
    }
  }

  predicate AllEmpty(lines: seq<string>) { forall i | 0 <= i < |lines| :: lines[i] == "" }

  lemma {:induction false} DetectsIndent(lines: seq<string>, n: nat, parent: int, rest: string)
    requires AreLines(lines) && n >= 1 && -1 <= parent < n && Ends(rest, parent)
    requires FirstContent(lines).Some? ==> !IsBlank(FirstContent(lines).value[0])
    ensures Detect(IndentedLines(lines, n) + rest, parent, 0) ==
            if FirstContent(lines).Some? then Detected(n) else Absent
  {
    if lines == [] {
      assert IndentedLines(lines, n) + rest == rest;
      DetectsNothing(rest, parent);
    } else {
      var more := IndentedLines(lines[1..], n) + rest;
      Regroup(Indented(lines[0], n), IndentedLines(lines[1..], n), rest);
      assert IsLine(lines[0]);
      if lines[0] == "" {
        DetectsPastEmpty(more, parent);
        DetectsIndent(lines[1..], n, parent, rest);
      } else {
        DetectsFirst(lines[0], n, parent, more);
      }
    }
  }

  lemma DetectsNothing(rest: string, parent: int)
    requires Ends(rest, parent)
    ensures Detect(rest, parent, 0) == Absent
  {
    if Quotes.IsMarker(rest) {
      assert rest[0] == rest[..3][0];
    }
  }

  lemma DetectsPastEmpty(more: string, parent: int)
    ensures Detect("\n" + more, parent, 0) == Detect(more, parent, 0)
  {
    assert "\n" + more == "" + ("\n" + more);
    NextLineIs("", more);
  }

  lemma DetectsAt(s: string, n: nat, parent: int)
    requires 1 <= n == LeadingSpaces(s) < |s| && !Quotes.IsBreak(s[n]) && parent < n
    ensures Detect(s, parent, 0) == Detected(n)
  {
    assert s[0] == ' ';
  }

  lemma DetectsFirst(line: string, n: nat, parent: int, more: string)
    requires IsLine(line) && line != "" && !IsBlank(line[0]) && n >= 1 && parent < n
    ensures Detect(Indented(line, n) + more, parent, 0) == Detected(n)
  {
    var tail := line + "\n" + more;
    assert Indented(line, n) + more == Spaces(n) + tail;
    SpacesLead(n, tail);
    assert (Spaces(n) + tail)[n] == line[0];
    DetectsAt(Spaces(n) + tail, n, parent);
  }

  lemma {:induction false} SplitLines(s: string)
    ensures Unlines(Split(s, '\n')) == s + "\n"
  {
    if s == "" {
      assert Split(s, '\n')[1..] == [];
    } else {
      SplitLines(s[1..]);
      UnlinesStep(s[0], Split(s[1..], '\n'));
      Regroup([s[0]], s[1..], "\n");
      assert s == [s[0]] + s[1..];
    }
  }

  lemma UnlinesStep(c: char, rest: seq<string>)
    requires rest != []
    ensures Unlines([""] + rest) == "\n" + Unlines(rest)
    ensures Unlines([[c] + rest[0]] + rest[1..]) == [c] + Unlines(rest)
  {
    UnlinesFirst("", rest);
    UnlinesFirst([c] + rest[0], rest[1..]);
    Regroup([c], rest[0], "\n");
    Regroup([c], rest[0] + "\n", Unlines(rest[1..]));
    assert "" + "\n" == "\n";
  }

  lemma UnlinesFirst(line: string, rest: seq<string>)
    ensures Unlines([line] + rest) == line + "\n" + Unlines(rest)
  {
    assert ([line] + rest)[1..] == rest;
  }

  predicate NoReturn(s: string) { forall i | 0 <= i < |s| :: s[i] != '\r' }

  lemma {:induction false} SplitMakesLines(s: string)
    requires NoReturn(s)
    ensures AreLines(Split(s, '\n'))
  {
    if s != "" {
      assert forall i | 0 <= i < |s| - 1 :: s[1..][i] == s[i + 1];
      SplitMakesLines(s[1..]);
      LinesStep(s[0], Split(s[1..], '\n'));
    }
  }

  lemma LinesStep(c: char, rest: seq<string>)
    requires rest != [] && AreLines(rest) && c != '\r'
    ensures AreLines([""] + rest)
    ensures c != '\n' ==> AreLines([[c] + rest[0]] + rest[1..])
  {
    assert IsLine(rest[0]);
  }

  lemma {:induction false} UnlinesConcat(a: seq<string>, b: seq<string>)
    ensures Unlines(a + b) == Unlines(a) + Unlines(b)
  {
    if a == [] {
      assert a + b == b;
    } else {
      assert (a + b)[1..] == a[1..] + b;
      UnlinesConcat(a[1..], b);
    }
  }

  lemma {:induction false} UnlinesOfNone(n: nat)
    ensures Unlines(NoLines(n)) == Repeat('\n', n)
  {
    if n > 0 {
      assert NoLines(n)[1..] == NoLines(n - 1);
      UnlinesOfNone(n - 1);
    }
  }

  lemma TrimmedAndBreaks(value: string)
    ensures value == Trimmed(value) + Repeat('\n', TrailingBreaks(value))
  {
  }

  lemma UnlinesBody(trimmed: string, extra: nat)
    ensures Unlines(Split(trimmed, '\n') + NoLines(extra)) == trimmed + Repeat('\n', 1 + extra)
  {
    SplitLines(trimmed);
    UnlinesConcat(Split(trimmed, '\n'), NoLines(extra));
    UnlinesOfNone(extra);
    Regroup(trimmed, "\n", Repeat('\n', extra));
  }

  // The lines of the body spell the value, with one break at the end if it has none.
  lemma BodySpellsValue(value: string)
    ensures Unlines(BodyLines(value)) == if TrailingBreaks(value) == 0 then value + "\n" else value
  {
    var t := TrailingBreaks(value);
    TrimmedAndBreaks(value);
    UnlinesBody(Trimmed(value), if t == 0 then 0 else t - 1);
    if t == 0 {
      assert Trimmed(value) == value && Repeat('\n', 1) == "\n";
    }
  }

  lemma {:induction false} FirstContentConcat(a: seq<string>, n: nat)
    ensures FirstContent(a + NoLines(n)) == FirstContent(a)
  {
    if a == [] {
      assert a + NoLines(n) == NoLines(n);
      if n > 0 {
        assert NoLines(n)[1..] == NoLines(n - 1) == [] + NoLines(n - 1);
        FirstContentConcat([], n - 1);
      }
    } else {
      assert (a + NoLines(n))[1..] == a[1..] + NoLines(n);
      FirstContentConcat(a[1..], n);
    }
  }

  lemma {:induction false} SplitBreaks(s: string, n: nat)
    ensures Split(s + Repeat('\n', n), '\n') == Split(s, '\n') + NoLines(n)
  {
    if s == "" {
      assert s + Repeat('\n', n) == Repeat('\n', n);
      if n == 0 {
        assert [""] + NoLines(0) == [""];
      } else {
        assert Repeat('\n', n)[1..] == Repeat('\n', n - 1) == "" + Repeat('\n', n - 1);
        SplitBreaks("", n - 1);
        assert [""] + ([""] + NoLines(n - 1)) == [""] + NoLines(n);
      }
    } else {
      assert (s + Repeat('\n', n))[1..] == s[1..] + Repeat('\n', n);
      SplitBreaks(s[1..], n);
    }
  }

  // Trailing breaks do not change which line comes first.
  lemma FirstOfBody(value: string)
    ensures FirstContent(BodyLines(value)) == FirstContent(Split(value, '\n'))
  {
    var t := TrailingBreaks(value);
    var extra: nat := if t == 0 then 0 else t - 1;
    TrimmedAndBreaks(value);
    SplitBreaks(Trimmed(value), t);
    FirstContentConcat(Split(Trimmed(value), '\n'), t);
    FirstContentConcat(Split(Trimmed(value), '\n'), extra);
  }

  lemma BodyIsLines(value: string)
    requires NoReturn(value)
    ensures AreLines(BodyLines(value))
  {
    SplitMakesLines(Trimmed(value));
  }

  lemma TrimOneMore(value: string)
    requires TrailingBreaks(value) == 0
    ensures Trimmed(value + "\n") == value
  {
    assert (value + "\n")[..|value|] == value;
  }

  lemma ChompingUndone(value: string)
    requires '\n' in value
    ensures Chomping(value) in {"-", "+", ""}
    ensures var raw := if TrailingBreaks(value) == 0 then value + "\n" else value;
            Chomped(raw, ChompOf(value)) == value
  {
    if TrailingBreaks(value) == 0 {
      TrimOneMore(value);
    } else if Chomping(value) == "" {
      assert value == Trimmed(value) + "\n";
    }
  }

  function ChompOf(value: string): Chomp {
    if Chomping(value) == "-" then Strip else if Chomping(value) == "+" then Keep else Clip
  }

  lemma ReadsHeader(chomping: string, text: string, parent: int)
    requires chomping in {"-", "+", ""} && parent >= -1
    ensures ReadLiteral("|" + chomping + "\n" + text, parent) ==
            ReadBody("\n" + text, parent,
                     if chomping == "-" then Strip else if chomping == "+" then Keep else Clip)
  {
    var s, tail := "|" + chomping + "\n" + text, "\n" + text;
    assert s == "|" + (chomping + tail);
    if chomping == "" {
      assert s[1..] == tail;
    } else {
      assert s[1] == chomping[0] && s[2..] == tail;
    }
  }

  lemma ReadsText(text: string, n: nat, parent: int, chomp: Chomp, value: string, rest: string, raw: string)
    requires parent >= -1 && ReadLines(text, n) == Content(raw, rest)
    requires Detect(text, parent, 0) == Detected(n) || (Detect(text, parent, 0) == Absent && n == parent + 1)
    requires Chomped(raw, chomp) == value
    ensures ReadBody("\n" + text, parent, chomp) == if IsLiteralText(raw) then Some(Quotes.Scalar(value, rest)) else None
  {
    assert ("\n" + text)[1..] == text;
  }

  // The indentation that the reader settles on.
  function BodyIndent(value: string, indent: nat, parent: int): nat
    requires parent >= -1
  {
    if FirstContent(BodyLines(value)).Some? then indent else parent + 1
  }

  function RawOf(value: string): string { if TrailingBreaks(value) == 0 then value + "\n" else value }

  lemma ReadsRaw(value: string, indent: nat, parent: int, rest: string)
    requires UseLiteralBlock(value) && indent >= 1 && -1 <= parent < indent && Ends(rest, parent)
    ensures ReadLines(IndentedLines(BodyLines(value), indent) + rest, BodyIndent(value, indent, parent)) ==
            Content(RawOf(value), rest)
  {
    var lines, n := BodyLines(value), BodyIndent(value, indent, parent);
    BodyIsLines(value);
    BodySpellsValue(value);
    EndsTheLines(rest, parent, n);
    assert Unlines(lines) + "" == Unlines(lines);
    if FirstContent(lines).Some? {
      ReadAllLines(lines, indent, rest);
    } else {
      EmptyWithoutContent(lines);
      assert lines == NoLines(|lines|);
      EmptyLines(|lines|, indent);
      UnlinesOfNone(|lines|);
      ReadEmptyLines(|lines|, n, rest);
    }
  }

  lemma {:induction false} EmptyWithoutContent(lines: seq<string>)
    requires FirstContent(lines).None?
    ensures AllEmpty(lines)
  {
    if lines != [] {
      EmptyWithoutContent(lines[1..]);
    }
  }

  lemma DetectsBody(value: string, indent: nat, parent: int, rest: string)
    requires UseLiteralBlock(value) && indent >= 1 && -1 <= parent < indent && Ends(rest, parent)
    ensures Detect(IndentedLines(BodyLines(value), indent) + rest, parent, 0) ==
            if FirstContent(BodyLines(value)).Some? then Detected(indent) else Absent
  {
    BodyIsLines(value);
    FirstOfBody(value);
    DetectsIndent(BodyLines(value), indent, parent, rest);
  }

  lemma WrittenApart(chomping: string, body: string, rest: string)
    ensures ("|" + chomping + "\n" + body) + rest == "|" + chomping + "\n" + (body + rest)
  {
  }

  // What the writer's guard lets through and the style does not is the byte order mark.
  lemma LiteralExactly(s: string)
    requires IsPlainText(s)
    ensures IsLiteralText(s) <==> BYTE_ORDER_MARK !in s
  {
    forall i | 0 <= i < |s| ensures (s[i] == '\n' || IsLineChar(s[i])) <==> s[i] != BYTE_ORDER_MARK {
      NonPrintableExactly(s[i]);
    }
  }

  lemma RawIsLiteral(value: string)
    requires UseLiteralBlock(value)
    ensures IsLiteralText(RawOf(value)) <==> BYTE_ORDER_MARK !in value
    ensures Chomped(RawOf(value), ChompOf(value)) == value
    ensures Chomping(value) in {"-", "+", ""}
  {
    ChompingUndone(value);
    LiteralExactly(RawOf(value));
  }

  // Block scalars undone: what `use_literal_block` accepts, all-newline values included,
  // reads back from what was written, and ends before whatever follows it, exactly if it
  // holds no byte order mark.
  lemma BlockReadsBack(value: string, indent: nat, parent: int, rest: string)
    requires UseLiteralBlock(value) && indent >= 1 && -1 <= parent < indent && Ends(rest, parent)
    ensures ReadLiteral(BlockScalar(value, indent) + rest, parent) == Some(Quotes.Scalar(value, rest))
            <==> BYTE_ORDER_MARK !in value
  {
    DetectsBody(value, indent, parent, rest);
    ReadsRaw(value, indent, parent, rest);
    RawIsLiteral(value);
    ReadsWritten(Chomping(value), IndentedLines(BodyLines(value), indent), BodyIndent(value, indent, parent), parent,
                 value, rest, RawOf(value));
  }

  lemma ReadsWritten(chomping: string, body: string, n: nat, parent: int, value: string, rest: string, raw: string)
    requires chomping in {"-", "+", ""} && parent >= -1
    requires ReadLines(body + rest, n) == Content(raw, rest)
    requires Detect(body + rest, parent, 0) == Detected(n)
             || (Detect(body + rest, parent, 0) == Absent && n == parent + 1)
    requires Chomped(raw, if chomping == "-" then Strip else if chomping == "+" then Keep else Clip) == value
    ensures ReadLiteral(("|" + chomping + "\n" + body) + rest, parent) ==
            if IsLiteralText(raw) then Some(Quotes.Scalar(value, rest)) else None
  {
    WrittenApart(chomping, body, rest);
    ReadsHeader(chomping, body + rest, parent);
    ReadsText(body + rest, n, parent,
              if chomping == "-" then Strip else if chomping == "+" then Keep else Clip, value, rest, raw);
  }

  // Such a string is real: it is written as a literal block, and is none of YAML 1.2.2.
  lemma MarkStaysLiteral(value: string)
    requires value == ['a', BYTE_ORDER_MARK, '\n', 'b']
    ensures UseLiteralBlock(value) && ReadLiteral(BlockScalar(value, 1), -1) != Some(Quotes.Scalar(value, ""))
  {
    assert value[1] == BYTE_ORDER_MARK && value[2] == '\n';
    MarkIsAccepted(value);
    BlockReadsBack(value, 1, -1, "");
    assert BlockScalar(value, 1) + "" == BlockScalar(value, 1);
  }

  lemma MarkIsAccepted(value: string)
    requires value == ['a', BYTE_ORDER_MARK, '\n', 'b']
    ensures UseLiteralBlock(value)
  {
    assert value[2] == '\n';
    FirstCharacterStays(value);
  }

  // The first line begins with the first character.
  lemma FirstCharacterStays(value: string)
    requires value != "" && value[0] != '\n'
    ensures var first := FirstContent(Split(value, '\n')); first.Some? && first.value[0] == value[0]
  {
  }

  // Without content no indentation matters.
  lemma {:induction false} ReadEmptyLines(k: nat, m: nat, rest: string)
    ensures ReadLines(Repeat('\n', k) + rest, m) ==
            Content(Repeat('\n', k) + ReadLines(rest, m).raw, ReadLines(rest, m).rest)
  {
    var raw := ReadLines(rest, m).raw;
    if k == 0 {
      assert Repeat('\n', k) + rest == rest && Repeat('\n', k) + raw == raw;
    } else {
      var more := Repeat('\n', k - 1) + rest;
      Regroup("\n", Repeat('\n', k - 1), rest);
      ReadEmptyLine(m, more);
      ReadEmptyLines(k - 1, m, rest);
      assert "" + "\n" == "\n";
      Regroup("\n", Repeat('\n', k - 1), raw);
    }
  }
}
