// Width folding (src/emit_util.rs, `push_folded` and `current_column`): a greedy loop that
// turns isolated spaces into line breaks. Columns are counted in bytes.
module Folding {
  import opened Seqs
  import opened Strings
  import opened Text
  import opened Quotes
  import K = KeySig

  // ----- Columns -----

  // The column after the first `n` characters of a text begun at column `start`.
  function Column(start: nat, text: string, n: nat): nat
    requires n <= |text|
  {
    if n == 0 then start
    else if text[n - 1] == '\n' then 0
    else Column(start, text, n - 1) + Utf8Width(text[n - 1])
  }

  function ColumnAfter(start: nat, text: string): nat { Column(start, text, |text|) }

  // The bytes of `text[i..j]`.
  function Width(text: string, i: nat, j: nat): nat
    requires i <= j <= |text|
  {
    if i == j then 0 else Width(text, i, j - 1) + Utf8Width(text[j - 1])
  }

  predicate OneLine(text: string) { forall i | 0 <= i < |text| :: text[i] != '\n' }

  lemma {:induction false} ColumnConcat(start: nat, a: string, b: string, n: nat)
    requires n <= |b|
    ensures Column(start, a + b, |a| + n) == Column(ColumnAfter(start, a), b, n)
  {
    if n == 0 {
      ColumnPrefix(start, a, b, |a|);
    } else {
      ColumnConcat(start, a, b, n - 1);
    }
  }

  lemma ColumnAfterConcat(start: nat, a: string, b: string)
    ensures ColumnAfter(start, a + b) == ColumnAfter(ColumnAfter(start, a), b)
  {
    ColumnConcat(start, a, b, |b|);
    assert |a + b| == |a| + |b|;
  }

  lemma {:induction false} ColumnPrefix(start: nat, a: string, b: string, n: nat)
    requires n <= |a|
    ensures Column(start, a + b, n) == Column(start, a, n)
  {
    if n > 0 {
      ColumnPrefix(start, a, b, n - 1);
    }
  }

  lemma {:induction false} ColumnOfRun(start: nat, text: string, i: nat, j: nat, n: nat)
    requires OneLine(text) && i <= j <= |text| && n <= j - i
    ensures Column(start, text[i..j], n) == start + Width(text, i, i + n)
  {
    if n > 0 {
      ColumnOfRun(start, text, i, j, n - 1);
    }
  }

  lemma {:induction false} ColumnOfSpaces(start: nat, k: nat, n: nat)
    requires n <= k
    ensures Column(start, Spaces(k), n) == start + n
  {
    if n > 0 {
      ColumnOfSpaces(start, k, n - 1);
    }
  }

  lemma ColumnOfBreak(start: nat, indent: nat)
    ensures ColumnAfter(start, LineBreak(indent)) == indent
  {
    ColumnConcat(start, "\n", Spaces(indent), indent);
    ColumnOfSpaces(0, indent, indent);
    assert Column(start, "\n", 1) == 0;
  }

  lemma {:induction false} WidthIsBytes(text: string, i: nat, j: nat)
    requires i <= j <= |text|
    ensures Width(text, i, j) == K.ByteLength(text[i..j])
  {
    if i < j {
      WidthIsBytes(text, i, j - 1);
      BytesOfMore(text[i..j - 1], text[j - 1]);
      assert text[i..j] == text[i..j - 1] + [text[j - 1]];
    }
  }

  lemma {:induction false} BytesOfMore(s: string, c: char)
    ensures K.ByteLength(s + [c]) == K.ByteLength(s) + Utf8Width(c)
  {
    if s == "" {
      assert s + [c] == [c] && [c][1..] == "";
    } else {
      assert (s + [c])[1..] == s[1..] + [c];
      BytesOfMore(s[1..], c);
    }
  }

  // The column is the bytes after the last line break, or what the text began at and all of it.
  lemma ColumnIsBytes(start: nat, before: string, line: string)
    requires OneLine(line)
    ensures ColumnAfter(start, line) == start + K.ByteLength(line)
    ensures ColumnAfter(start, before + "\n" + line) == K.ByteLength(line)
  {
    ColumnOfRun(start, line, 0, |line|, |line|);
    ColumnOfRun(0, line, 0, |line|, |line|);
    WidthIsBytes(line, 0, |line|);
    assert line[0..|line|] == line;
    ColumnAfterConcat(start, before + "\n", line);
    assert ColumnAfter(start, before + "\n") == 0;
  }

  // `current_column`: the bytes after the last line break.
  method CurrentColumn(buf: string) returns (col: nat)
    ensures col == ColumnAfter(0, buf)
  {
    col := 0;
    var i := |buf|;
    while i > 0 && buf[i - 1] != '\n'
      invariant 0 <= i <= |buf| && ColumnAfter(0, buf) == Column(0, buf, i) + col
    {
      i := i - 1;
      col := col + Utf8Width(buf[i]);
    }
  }

  // ----- Where the loop folds -----

  function NextBreak(content: string, from: nat): (brk: nat)
    requires from <= |content|
    ensures from <= brk <= |content| && (brk < |content| ==> Breakable(content, brk))
    ensures forall k | from <= k < brk :: !Breakable(content, k)
    decreases |content| - from
  {
    if from == |content| || Breakable(content, from) then from else NextBreak(content, from + 1)
  }

  // Whether the next piece would pass the width.
  predicate TooLong(content: string, pos: nat, col: nat, width: nat)
    requires pos <= |content| && NextBreak(content, pos) < |content|
  {
    var brk := NextBreak(content, pos);
    col + Width(content, pos, brk) + 1 + Width(content, brk + 1, NextBreak(content, brk + 1)) > width
  }

  function NextColumn(content: string, pos: nat, col: nat, indent: nat, width: nat): nat
    requires pos <= |content| && NextBreak(content, pos) < |content|
  {
    if TooLong(content, pos, col, width) then indent
    else col + Width(content, pos, NextBreak(content, pos)) + 1
  }

  // The spaces that become breaks, from `pos` on.
  function FoldsAt(content: string, pos: nat, col: nat, indent: nat, width: nat): (at: set<nat>)
    requires pos <= |content|
    ensures AreBreakable(content, at) && forall i <- at :: pos <= i
    decreases |content| - pos
  {
    var brk := NextBreak(content, pos);
    if brk == |content| then {}
    else
      (if TooLong(content, pos, col, width) then {brk} else {})
      + FoldsAt(content, brk + 1, NextColumn(content, pos, col, indent, width), indent, width)
  }

  function FoldedFrom(content: string, pos: nat, col: nat, indent: nat, width: nat): string
    requires pos <= |content|
  {
    Broken(content, pos, FoldsAt(content, pos, col, indent, width), indent)
  }

  function Separator(content: string, pos: nat, col: nat, indent: nat, width: nat): string
    requires pos <= |content| && NextBreak(content, pos) < |content|
  {
    if TooLong(content, pos, col, width) then LineBreak(indent) else " "
  }

  lemma {:induction false} BrokenSame(b: string, i: nat, at: set<nat>, more: set<nat>, indent: nat)
    requires i <= |b| && forall k: nat | i <= k :: k in at <==> k in more
    ensures Broken(b, i, at, indent) == Broken(b, i, more, indent)
    decreases |b| - i
  {
    if i < |b| {
      BrokenSame(b, i + 1, at, more, indent);
    }
  }

  // One round of the loop: a piece, then a space or a break.
  lemma FoldOne(content: string, pos: nat, col: nat, indent: nat, width: nat)
    requires pos <= |content| && NextBreak(content, pos) < |content|
    ensures var brk := NextBreak(content, pos);
            FoldedFrom(content, pos, col, indent, width) ==
              content[pos..brk]
              + (Separator(content, pos, col, indent, width)
                 + FoldedFrom(content, brk + 1, NextColumn(content, pos, col, indent, width), indent, width))
  {
    var brk := NextBreak(content, pos);
    var at := FoldsAt(content, pos, col, indent, width);
    var rest := FoldsAt(content, brk + 1, NextColumn(content, pos, col, indent, width), indent, width);
    BrokenPiece(content, pos, brk, at, indent);
    BrokenSame(content, brk + 1, at, rest, indent);
  }

  lemma FoldLast(content: string, pos: nat, col: nat, indent: nat, width: nat)
    requires pos <= |content| && NextBreak(content, pos) == |content|
    ensures FoldedFrom(content, pos, col, indent, width) == content[pos..]
  {
    BrokenPiece(content, pos, |content|, {}, indent);
  }

  // ----- The bound -----

  // A space between two pieces on one line.
  predicate Flanked(out: string, i: int) {
    0 < i < |out| - 1 && out[i] == ' ' && out[i - 1] !in {' ', '\n'} && out[i + 1] !in {' ', '\n'}
  }

  predicate SameLine(out: string, i: int, j: int) {
    0 <= i <= j <= |out| && forall k | i <= k < j :: out[k] != '\n'
  }

  // A line on which two pieces stand ends within the width.
  ghost predicate Fits(start: nat, out: string, width: nat) {
    forall i, j | Flanked(out, i) && i < j && SameLine(out, i, j) :: Column(start, out, j) <= width
  }

  lemma FirstPiece(content: string, pos: nat, col: nat, indent: nat, width: nat)
    requires pos <= |content|
    ensures content[pos..NextBreak(content, pos)] <= FoldedFrom(content, pos, col, indent, width)
  {
    if NextBreak(content, pos) == |content| {
      FoldLast(content, pos, col, indent, width);
    } else {
      FoldOne(content, pos, col, indent, width);
    }
  }

  lemma {:induction false} WidthGrows(text: string, i: nat, m: nat, n: nat)
    requires i <= m <= n <= |text|
    ensures Width(text, i, m) <= Width(text, i, n)
  {
    if m < n {
      WidthGrows(text, i, m, n - 1);
    }
  }

  // The first line of what follows a space that was kept.
  lemma FirstLineFits(content: string, pos: nat, col: nat, indent: nat, width: nat, j: nat)
    requires OneLine(content) && pos <= |content|
    requires col + Width(content, pos, NextBreak(content, pos)) <= width
    requires pos == 0 || Breakable(content, pos - 1)
    requires var out := FoldedFrom(content, pos, col, indent, width);
             Fits(col, out, width) && SameLine(out, 0, j)
    ensures Column(col, FoldedFrom(content, pos, col, indent, width), j) <= width
  {
    var out, brk := FoldedFrom(content, pos, col, indent, width), NextBreak(content, pos);
    var piece := content[pos..brk];
    FirstPiece(content, pos, col, indent, width);
    if j <= |piece| {
      ColumnPrefix(col, piece, out[|piece|..], j);
      assert out == piece + out[|piece|..];
      ColumnOfRun(col, content, pos, brk, j);
      WidthGrows(content, pos, pos + j, brk);
    } else {
      if brk == |content| {
        FoldLast(content, pos, col, indent, width);
        assert false;
      }
      LaterOnLine(content, pos, col, indent, width, j);
    }
  }

  lemma LaterOnLine(content: string, pos: nat, col: nat, indent: nat, width: nat, j: nat)
    requires OneLine(content) && pos <= |content| && NextBreak(content, pos) < |content|
    requires pos == 0 || Breakable(content, pos - 1)
    requires var out := FoldedFrom(content, pos, col, indent, width);
             Fits(col, out, width) && SameLine(out, 0, j) && j > NextBreak(content, pos) - pos
    ensures Column(col, FoldedFrom(content, pos, col, indent, width), j) <= width
  {
    hide FoldedFrom;
    var out, size := FoldedFrom(content, pos, col, indent, width), NextBreak(content, pos) - pos;
    FoldOne(content, pos, col, indent, width);
    PieceIsNotEmpty(content, pos);
    FlankedAfterPiece(content, pos, col, indent, width);
    assert SameLine(out, size, j);
  }

  lemma PieceIsNotEmpty(content: string, pos: nat)
    requires pos <= |content| && NextBreak(content, pos) < |content|
    requires pos == 0 || Breakable(content, pos - 1)
    ensures pos < NextBreak(content, pos)
  {
  }

  lemma FlankedAfterPiece(content: string, pos: nat, col: nat, indent: nat, width: nat)
    requires OneLine(content) && pos <= |content| && pos < NextBreak(content, pos) < |content|
    requires var out, p := FoldedFrom(content, pos, col, indent, width), NextBreak(content, pos) - pos;
             p < |out| && out[p] != '\n'
    ensures Flanked(FoldedFrom(content, pos, col, indent, width), NextBreak(content, pos) - pos)
  {
    var brk := NextBreak(content, pos);
    var next := NextColumn(content, pos, col, indent, width);
    FoldOne(content, pos, col, indent, width);
    FirstPiece(content, brk + 1, next, indent, width);
    NextPieceStarts(content, brk);
    var out, rest := FoldedFrom(content, pos, col, indent, width), FoldedFrom(content, brk + 1, next, indent, width);
    assert out[brk - pos] == Separator(content, pos, col, indent, width)[0];
    assert out == content[pos..brk] + (" " + rest);
    assert rest[0] == content[brk + 1];
    assert out[brk - pos - 1] == content[brk - 1];
    assert out[brk - pos + 1] == rest[0];
  }

  lemma NextPieceStarts(content: string, brk: nat)
    requires Breakable(content, brk)
    ensures brk + 1 < NextBreak(content, brk + 1)
  {
  }

  // Two pieces share a line only if the line stays within the width, and the column that
  // the loop tracks is the real one.
  lemma {:induction false} FoldingFits(content: string, pos: nat, col: nat, indent: nat, width: nat)
    requires OneLine(content) && pos <= |content|
    requires pos == 0 || Breakable(content, pos - 1)
    ensures Fits(col, FoldedFrom(content, pos, col, indent, width), width)
    decreases |content| - pos
  {
    var brk := NextBreak(content, pos);
    if brk == |content| {
      FoldLast(content, pos, col, indent, width);
      OnePieceFits(content, pos, col, width);
    } else {
      var next := NextColumn(content, pos, col, indent, width);
      FoldOne(content, pos, col, indent, width);
      FoldingFits(content, brk + 1, next, indent, width);
      forall i, j | Flanked(FoldedFrom(content, pos, col, indent, width), i) && i < j
                    && SameLine(FoldedFrom(content, pos, col, indent, width), i, j)
        ensures Column(col, FoldedFrom(content, pos, col, indent, width), j) <= width
      {
        RoundFits(content, pos, col, indent, width, i, j);
      }
    }
  }

  lemma OnePieceFits(content: string, pos: nat, col: nat, width: nat)
    requires OneLine(content) && pos <= |content| && NextBreak(content, pos) == |content|
    ensures Fits(col, content[pos..], width)
  {
    forall i: nat
      ensures !Flanked(content[pos..], i)
    {
      assert Flanked(content[pos..], i) ==> Breakable(content, pos + i);
    }
  }

  // The head of a round: a piece and what separates it from the rest.
  function Head(content: string, pos: nat, col: nat, indent: nat, width: nat): string
    requires pos <= |content| && NextBreak(content, pos) < |content|
  {
    content[pos..NextBreak(content, pos)] + Separator(content, pos, col, indent, width)
  }

  lemma HeadColumn(content: string, pos: nat, col: nat, indent: nat, width: nat)
    requires OneLine(content) && pos <= |content| && NextBreak(content, pos) < |content|
    ensures ColumnAfter(col, Head(content, pos, col, indent, width)) == NextColumn(content, pos, col, indent, width)
  {
    var brk := NextBreak(content, pos);
    var sep := Separator(content, pos, col, indent, width);
    ColumnAfterConcat(col, content[pos..brk], sep);
    ColumnOfRun(col, content, pos, brk, brk - pos);
    if TooLong(content, pos, col, width) {
      ColumnOfBreak(col + Width(content, pos, brk), indent);
    } else {
      assert Column(col + Width(content, pos, brk), " ", 1) == col + Width(content, pos, brk) + 1;
    }
  }

  // A flanked space of a round is the kept space itself, or lies after the head.
  lemma WhereFlanked(content: string, pos: nat, head: string, sep: string, rest: string, i: int)
    requires OneLine(content) && pos <= |content| && NextBreak(content, pos) < |content|
    requires (sep == " " || exists k :: sep == LineBreak(k)) && head == content[pos..NextBreak(content, pos)] + sep
    requires Flanked(head + rest, i)
    ensures i > |head| || (i == |head| - 1 && sep == " ")
  {
    var out, p := head + rest, NextBreak(content, pos) - pos;
    assert out[p] == sep[0];
    SeparatorIsBlank(content[pos..pos + p], sep, rest, i - 1);
    assert 0 < i < p - 1 ==> out[i - 1] == content[pos + i - 1] && out[i + 1] == content[pos + i + 1];
    assert i < p - 1 ==> Breakable(content, pos + i);
  }

  lemma SeparatorIsBlank(piece: string, sep: string, rest: string, m: int)
    requires sep == " " || exists k :: sep == LineBreak(k)
    ensures |piece| <= m < |piece| + |sep| ==> (piece + sep + rest)[m] in {' ', '\n'}
  {
  }

  lemma RoundFits(content: string, pos: nat, col: nat, indent: nat, width: nat, i: int, j: int)
    requires OneLine(content) && pos <= |content| && NextBreak(content, pos) < |content|
    requires Fits(NextColumn(content, pos, col, indent, width),
                  FoldedFrom(content, NextBreak(content, pos) + 1,
                             NextColumn(content, pos, col, indent, width), indent, width), width)
    requires var out := FoldedFrom(content, pos, col, indent, width);
             Flanked(out, i) && i < j && SameLine(out, i, j)
    ensures Column(col, FoldedFrom(content, pos, col, indent, width), j) <= width
  {
    hide FoldedFrom, FoldsAt, NextColumn, TooLong, Column, Width, NextBreak, Flanked, SameLine;
    var brk, next := NextBreak(content, pos), NextColumn(content, pos, col, indent, width);
    var head, rest := Head(content, pos, col, indent, width), FoldedFrom(content, brk + 1, next, indent, width);
    OutIsHeadAndRest(content, pos, col, indent, width);
    HeadColumn(content, pos, col, indent, width);
    WhereFlanked(content, pos, head, Separator(content, pos, col, indent, width), rest, i);
    LineIsLong(head, rest, i, j);
    var m := j - |head|;
    ColumnConcat(col, head, rest, m);
    if i > |head| {
      ShiftFlanked(head, rest, i, j);
    } else {
      ShiftLine(head, rest, i, j);
      KeptFits(content, pos, col, indent, width);
      FirstLineFits(content, brk + 1, next, indent, width, m);
    }
  }

  lemma LineIsLong(head: string, rest: string, i: int, j: int)
    requires Flanked(head + rest, i) && SameLine(head + rest, i, j) && i < j && i >= |head| - 1
    ensures |head| <= j <= |head + rest|
  {
  }

  // A space is kept only where the next piece fits behind it.
  lemma KeptFits(content: string, pos: nat, col: nat, indent: nat, width: nat)
    requires pos <= |content| && NextBreak(content, pos) < |content|
    requires Separator(content, pos, col, indent, width) == " "
    ensures var brk, next := NextBreak(content, pos), NextColumn(content, pos, col, indent, width);
            next + Width(content, brk + 1, NextBreak(content, brk + 1)) <= width
  {
    assert LineBreak(indent)[0] == '\n';
  }

  lemma ShiftFlanked(head: string, rest: string, i: int, j: int)
    requires |head| < i < j && Flanked(head + rest, i) && SameLine(head + rest, i, j)
    ensures Flanked(rest, i - |head|) && SameLine(rest, i - |head|, j - |head|)
  {
    var out := head + rest;
    assert forall k | |head| <= k < |out| :: out[k] == rest[k - |head|];
    assert forall k | i - |head| <= k < j - |head| :: rest[k] == out[k + |head|];
  }

  lemma ShiftLine(head: string, rest: string, i: int, j: int)
    requires 0 <= i < |head| <= j && SameLine(head + rest, i, j)
    ensures SameLine(rest, 0, j - |head|)
  {
    var out := head + rest;
    assert forall k | 0 <= k < j - |head| :: rest[k] == out[k + |head|];
  }

  // ----- No break without need -----

  predicate EndsPiece(out: string, e: nat)
    requires e <= |out|
  {
    e == |out| || out[e] == '\n' || Flanked(out, e)
  }

  predicate IsLinePiece(out: string, s: nat, e: nat) {
    s <= e <= |out| && EndsPiece(out, e) && forall k: nat | s <= k < e :: !EndsPiece(out, k)
  }

  // A break is followed by its indent and a piece, which would have passed the width.
  ghost predicate IsNeeded(start: nat, out: string, i: nat, indent: nat, width: nat)
    requires i < |out|
  {
    var s := i + 1 + indent;
    && s < |out| && (forall k | i < k < s :: out[k] == ' ') && out[s] != ' ' && out[s] != '\n'
    && forall e: nat | IsLinePiece(out, s, e) :: Column(start, out, i) + 1 + Width(out, s, e) > width
  }

  ghost predicate BreaksAreNeeded(start: nat, out: string, indent: nat, width: nat) {
    forall i: nat | i < |out| && out[i] == '\n' :: IsNeeded(start, out, i, indent, width)
  }

  lemma {:induction false} SameWidth(a: string, i: nat, b: string, j: nat, n: nat)
    requires i + n <= |a| && j + n <= |b| && a[i..i + n] == b[j..j + n]
    ensures Width(a, i, i + n) == Width(b, j, j + n)
  {
    if n > 0 {
      assert a[i..i + n][..n - 1] == a[i..i + n - 1] && b[j..j + n][..n - 1] == b[j..j + n - 1];
      SameWidth(a, i, b, j, n - 1);
      assert a[i + n - 1] == a[i..i + n][n - 1] && b[j + n - 1] == b[j..j + n][n - 1];
    }
  }

  lemma {:induction false} FoldsAreNeeded(content: string, pos: nat, col: nat, indent: nat, width: nat)
    requires OneLine(content) && pos <= |content|
    requires pos == 0 || Breakable(content, pos - 1)
    ensures BreaksAreNeeded(col, FoldedFrom(content, pos, col, indent, width), indent, width)
    decreases |content| - pos
  {
    hide FoldedFrom, FoldsAt, NextColumn, TooLong, Column, Width, Head, IsNeeded, OneLine, NextBreak;
    var brk := NextBreak(content, pos);
    if brk == |content| {
      FoldLast(content, pos, col, indent, width);
      NoBreakIn(content, pos);
    } else {
      var next := NextColumn(content, pos, col, indent, width);
      var head, rest := Head(content, pos, col, indent, width), FoldedFrom(content, brk + 1, next, indent, width);
      FoldsAreNeeded(content, brk + 1, next, indent, width);
      OutIsHeadAndRest(content, pos, col, indent, width);
      var out := head + rest;
      forall i: nat | i < |out| && out[i] == '\n'
        ensures IsNeeded(col, out, i, indent, width)
      {
        if i < |head| {
          FoldIsNeeded(content, pos, col, indent, width, i);
        } else {
          HeadColumn(content, pos, col, indent, width);
          HeadIsThere(content, pos, col, indent, width);
          LaterIsNeeded(col, head, rest, i, indent, width);
        }
      }
    }
  }

  lemma NoBreakIn(content: string, pos: nat)
    requires OneLine(content) && pos <= |content|
    ensures forall i: nat | i < |content[pos..]| :: content[pos..][i] != '\n'
  {
  }

  lemma HeadIsThere(content: string, pos: nat, col: nat, indent: nat, width: nat)
    requires pos <= |content| && NextBreak(content, pos) < |content|
    ensures |Head(content, pos, col, indent, width)| > 0
  {
  }

  lemma OutIsHeadAndRest(content: string, pos: nat, col: nat, indent: nat, width: nat)
    requires pos <= |content| && NextBreak(content, pos) < |content|
    ensures FoldedFrom(content, pos, col, indent, width) ==
            Head(content, pos, col, indent, width)
            + FoldedFrom(content, NextBreak(content, pos) + 1, NextColumn(content, pos, col, indent, width), indent, width)
  {
    var brk := NextBreak(content, pos);
    FoldOne(content, pos, col, indent, width);
    Regroup(content[pos..brk], Separator(content, pos, col, indent, width),
            FoldedFrom(content, brk + 1, NextColumn(content, pos, col, indent, width), indent, width));
  }

  // What holds of a break in the rest holds of it behind a head.
  lemma LaterIsNeeded(col: nat, head: string, rest: string, i: nat, indent: nat, width: nat)
    requires |head| > 0 && |head| <= i < |head + rest|
    requires IsNeeded(ColumnAfter(col, head), rest, i - |head|, indent, width)
    ensures IsNeeded(col, head + rest, i, indent, width)
  {
    hide Column, Width;
    var out, h, m := head + rest, |head|, i - |head|;
    var s := i + 1 + indent;
    assert forall k: nat | h <= k < |out| :: out[k] == rest[k - h];
    ColumnConcat(col, head, rest, m);
    forall e: nat | IsLinePiece(out, s, e)
      ensures Column(col, out, i) + 1 + Width(out, s, e) > width
    {
      LinePieceShifts(head, rest, s, e);
      assert out[s..e] == rest[s - h..e - h];
      SameWidth(out, s, rest, s - h, e - s);
    }
  }

  lemma LinePieceShifts(head: string, rest: string, s: nat, e: nat)
    requires |head| < s && IsLinePiece(head + rest, s, e)
    ensures IsLinePiece(rest, s - |head|, e - |head|)
  {
    EndShifts(head, rest, e);
    forall k: nat | s - |head| <= k < e - |head| ensures !EndsPiece(rest, k) {
      EndShifts(head, rest, k + |head|);
    }
  }

  lemma EndShifts(head: string, rest: string, k: nat)
    requires |head| < k <= |head + rest|
    ensures EndsPiece(head + rest, k) <==> EndsPiece(rest, k - |head|)
  {
  }

  lemma FoldIsNeeded(content: string, pos: nat, col: nat, indent: nat, width: nat, i: nat)
    requires OneLine(content) && pos <= |content| && NextBreak(content, pos) < |content|
    requires pos == 0 || Breakable(content, pos - 1)
    requires i < |Head(content, pos, col, indent, width)| && Head(content, pos, col, indent, width)[i] == '\n'
    ensures var out := Head(content, pos, col, indent, width)
                       + FoldedFrom(content, NextBreak(content, pos) + 1,
                                    NextColumn(content, pos, col, indent, width), indent, width);
            IsNeeded(col, out, i, indent, width)
  {
    hide FoldedFrom, FoldsAt, NextColumn, TooLong, Column, Width, NextBreak, Head, OneLine, EndsPiece;
    var brk, next := NextBreak(content, pos), NextColumn(content, pos, col, indent, width);
    var head, rest := Head(content, pos, col, indent, width), FoldedFrom(content, brk + 1, next, indent, width);
    var out, s := head + rest, i + 1 + indent;
    FoldStarts(content, pos, col, indent, width, rest, i);
    PieceFollows(content, brk, next, indent, width, head);
    NeededWidth(content, pos, col, width);
    forall e: nat | IsLinePiece(out, s, e)
      ensures Column(col, out, i) + 1 + Width(out, s, e) > width
    {
      PieceIsWhole(content, brk, next, indent, width, head, e);
      PieceIsWide(content, brk + 1, out, s, e);
    }
  }

  lemma PieceIsWide(content: string, pos: nat, out: string, s: nat, e: nat)
    requires pos <= |content| && IsLinePiece(out, s, e)
    requires var size := NextBreak(content, pos) - pos;
             e >= s + size && out[s..s + size] == content[pos..pos + size]
    ensures Width(out, s, e) >= Width(content, pos, NextBreak(content, pos))
  {
    hide Width, NextBreak, EndsPiece;
    var size := NextBreak(content, pos) - pos;
    SameWidth(out, s, content, pos, size);
    WidthGrows(out, s, s + size, e);
  }

  lemma PieceFollows(content: string, brk: nat, next: nat, indent: nat, width: nat, head: string)
    requires OneLine(content) && Breakable(content, brk)
    ensures var out, s := head + FoldedFrom(content, brk + 1, next, indent, width), |head|;
            var size := NextBreak(content, brk + 1) - (brk + 1);
            && 0 < size && s + size <= |out| && out[s..s + size] == content[brk + 1..brk + 1 + size]
            && out[s] != ' ' && out[s] != '\n'
  {
    hide FoldedFrom, FoldsAt;
    NextPieceStarts(content, brk);
    FirstPiece(content, brk + 1, next, indent, width);
    var rest, size := FoldedFrom(content, brk + 1, next, indent, width), NextBreak(content, brk + 1) - (brk + 1);
    assert (head + rest)[|head|..|head| + size] == rest[..size];
    assert (head + rest)[|head|] == rest[0] == content[brk + 1];
  }

  // The break of a head stands behind its piece.
  lemma FoldStarts(content: string, pos: nat, col: nat, indent: nat, width: nat, rest: string, i: nat)
    requires OneLine(content) && pos <= |content| && NextBreak(content, pos) < |content|
    requires i < |Head(content, pos, col, indent, width)| && Head(content, pos, col, indent, width)[i] == '\n'
    ensures var head, brk := Head(content, pos, col, indent, width), NextBreak(content, pos);
            && i == brk - pos && TooLong(content, pos, col, width) && |head| == i + 1 + indent
            && (forall k | i < k < |head| :: (head + rest)[k] == ' ')
            && Column(col, head + rest, i) == col + Width(content, pos, brk)
  {
    hide Column, Width, TooLong, NextBreak;
    var brk := NextBreak(content, pos);
    var piece, head := content[pos..brk], Head(content, pos, col, indent, width);
    assert forall k | 0 <= k < |piece| :: piece[k] != '\n';
    assert head == piece + LineBreak(indent);
    PieceColumn(content, pos, brk, col, LineBreak(indent), rest);
  }

  lemma PieceColumn(content: string, pos: nat, brk: nat, col: nat, sep: string, rest: string)
    requires OneLine(content) && pos <= brk <= |content|
    ensures Column(col, content[pos..brk] + sep + rest, brk - pos) == col + Width(content, pos, brk)
  {
    hide Column, Width, OneLine;
    var piece := content[pos..brk];
    Regroup(piece, sep, rest);
    ColumnPrefix(col, piece, sep + rest, brk - pos);
    ColumnOfRun(col, content, pos, brk, brk - pos);
  }

  lemma NeededWidth(content: string, pos: nat, col: nat, width: nat)
    requires pos <= |content| && NextBreak(content, pos) < |content| && TooLong(content, pos, col, width)
    ensures var brk := NextBreak(content, pos);
            col + Width(content, pos, brk) + 1 + Width(content, brk + 1, NextBreak(content, brk + 1)) > width
  {
  }

  // The piece behind a break reaches at least to the next space that could be broken.
  lemma PieceIsWhole(content: string, brk: nat, next: nat, indent: nat, width: nat, head: string, e: nat)
    requires OneLine(content) && Breakable(content, brk)
    requires IsLinePiece(head + FoldedFrom(content, brk + 1, next, indent, width), |head|, e)
    ensures e >= |head| + NextBreak(content, brk + 1) - (brk + 1)
  {
    hide FoldedFrom, FoldsAt;
    var rest, end := FoldedFrom(content, brk + 1, next, indent, width), NextBreak(content, brk + 1);
    var out, s := head + rest, |head|;
    NextPieceStarts(content, brk);
    FirstPiece(content, brk + 1, next, indent, width);
    PieceEnds(content, brk + 1, next, indent, width);
    if s <= e < s + end - (brk + 1) {
      NoEndInside(content, brk + 1, head, rest, e);
    }
  }

  lemma NoEndInside(content: string, pos: nat, head: string, rest: string, e: nat)
    requires OneLine(content) && pos < |content| && pos < NextBreak(content, pos) && content[pos] != ' '
    requires content[pos..NextBreak(content, pos)] <= rest
    requires var p := NextBreak(content, pos) - pos;
             if NextBreak(content, pos) == |content| then p == |rest| else p < |rest| && rest[p] in {' ', '\n'}
    requires |head| <= e < |head| + NextBreak(content, pos) - pos
    ensures !EndsPiece(head + rest, e)
  {
    var out, j, p := head + rest, e - |head|, NextBreak(content, pos) - pos;
    assert forall k: nat | k < p :: rest[k] == content[pos..pos + p][k] == content[pos + k];
    assert out[e] == rest[j] == content[pos + j];
    assert !Breakable(content, pos + j);
    if j > 0 {
      assert out[e - 1] == rest[j - 1] == content[pos + j - 1];
    }
    if j + 1 < |rest| {
      assert out[e + 1] == rest[j + 1];
    }
  }

  // Behind its first piece a text has a blank, or ends.
  lemma PieceEnds(content: string, pos: nat, col: nat, indent: nat, width: nat)
    requires pos <= |content|
    ensures var out, p := FoldedFrom(content, pos, col, indent, width), NextBreak(content, pos) - pos;
            p <= |out| && (if NextBreak(content, pos) == |content| then p == |out| else p < |out| && out[p] in {' ', '\n'})
  {
    if NextBreak(content, pos) == |content| {
      FoldLast(content, pos, col, indent, width);
    } else {
      FoldOne(content, pos, col, indent, width);
    }
  }

  // A text that fits as it is has no place to fold.
  lemma {:induction false} NothingToFold(content: string, pos: nat, col: nat, indent: nat, width: nat)
    requires pos <= |content| && col + Width(content, pos, |content|) <= width
    ensures FoldsAt(content, pos, col, indent, width) == {}
    decreases |content| - pos
  {
    var brk := NextBreak(content, pos);
    if brk < |content| {
      var end := NextBreak(content, brk + 1);
      WidthSum(content, pos, brk, |content|);
      WidthSum(content, brk, brk + 1, |content|);
      WidthSum(content, brk + 1, end, |content|);
      assert Width(content, brk, brk + 1) == Utf8Width(' ') == 1;
      NothingToFold(content, brk + 1, col + Width(content, pos, brk) + 1, indent, width);
    }
  }

  lemma {:induction false} WidthSum(text: string, i: nat, m: nat, n: nat)
    requires i <= m <= n <= |text|
    ensures Width(text, i, n) == Width(text, i, m) + Width(text, m, n)
  {
    if m < n {
      WidthSum(text, i, m, n - 1);
    }
  }

  // ----- The loop -----

  lemma TrackOne(buf: string, out: string, content: string, pos: nat, col: nat, indent: nat, width: nat)
    requires pos <= |content| && NextBreak(content, pos) < |content|
    requires out == buf + Head(content, pos, col, indent, width)
    requires OneLine(content) && col == ColumnAfter(0, buf)
    ensures NextColumn(content, pos, col, indent, width) == ColumnAfter(0, out)
  {
    ColumnAfterConcat(0, buf, Head(content, pos, col, indent, width));
    HeadColumn(content, pos, col, indent, width);
  }

  // `push_folded`.
  method PushFolded(buf: string, content: string, indent: nat, width: nat) returns (out: string)
    ensures out == buf + Broken(content, 0, FoldsAt(content, 0, ColumnAfter(0, buf), indent, width), indent)
    ensures OneLine(content) ==> Fits(ColumnAfter(0, buf), out[|buf|..], width)
    ensures OneLine(content) ==> BreaksAreNeeded(ColumnAfter(0, buf), out[|buf|..], indent, width)
    ensures ColumnAfter(0, buf) + Width(content, 0, |content|) <= width ==> out == buf + content
  {
    out := buf;
    var col: nat := CurrentColumn(buf);
    var pos := 0;
    ghost var whole := buf + FoldedFrom(content, 0, col, indent, width);
    var brk := NextBreak(content, pos);
    while brk < |content|
      invariant 0 <= pos <= |content| && brk == NextBreak(content, pos)
      invariant out + FoldedFrom(content, pos, col, indent, width) == whole
      invariant OneLine(content) ==> col == ColumnAfter(0, out)
      decreases |content| - pos
    {
      FoldOne(content, pos, col, indent, width);
      ghost var before, start, at := out, col, pos;
      ghost var rest := FoldedFrom(content, brk + 1, NextColumn(content, pos, col, indent, width), indent, width);
      out := out + content[pos..brk];
      col := col + Width(content, pos, brk);
      var after := brk + 1;
      var pieceEnd := NextBreak(content, after);
      if col + 1 + Width(content, after, pieceEnd) > width {
        out := out + "\n" + Spaces(indent);
        col := indent;
      } else {
        out := out + " ";
        col := col + 1;
      }
      pos := after;
      brk := pieceEnd;
      HeadAppended(before, out, content, at, start, indent, width, rest);
      if OneLine(content) {
        TrackOne(before, out, content, at, start, indent, width);
      }
    }
    FoldLast(content, pos, col, indent, width);
    out := out + content[pos..];
    FoldedAsPromised(buf, out, content, indent, width);
  }

  lemma FoldedAsPromised(buf: string, out: string, content: string, indent: nat, width: nat)
    requires out == buf + FoldedFrom(content, 0, ColumnAfter(0, buf), indent, width)
    ensures OneLine(content) ==> Fits(ColumnAfter(0, buf), out[|buf|..], width)
    ensures OneLine(content) ==> BreaksAreNeeded(ColumnAfter(0, buf), out[|buf|..], indent, width)
    ensures ColumnAfter(0, buf) + Width(content, 0, |content|) <= width ==> out == buf + content
  {
    hide FoldsAt, Column, Width, Fits, BreaksAreNeeded, OneLine;
    var col := ColumnAfter(0, buf);
    assert out[|buf|..] == FoldedFrom(content, 0, col, indent, width);
    if OneLine(content) {
      FoldingFits(content, 0, col, indent, width);
      FoldsAreNeeded(content, 0, col, indent, width);
    }
    if col + Width(content, 0, |content|) <= width {
      NothingToFold(content, 0, col, indent, width);
      BrokenPiece(content, 0, |content|, {}, indent);
      assert content[0..|content|] == content;
    }
  }

  lemma HeadAppended(before: string, out: string, content: string, pos: nat, col: nat, indent: nat, width: nat, rest: string)
    requires pos <= |content| && NextBreak(content, pos) < |content|
    requires out == if TooLong(content, pos, col, width)
                    then before + content[pos..NextBreak(content, pos)] + "\n" + Spaces(indent)
                    else before + content[pos..NextBreak(content, pos)] + " "
    ensures out == before + Head(content, pos, col, indent, width)
    ensures out + rest == before + (content[pos..NextBreak(content, pos)]
                                    + (Separator(content, pos, col, indent, width) + rest))
  {
    hide TooLong, NextBreak, Width, Spaces;
    var piece, sep := content[pos..NextBreak(content, pos)], Separator(content, pos, col, indent, width);
    Regroup(before + piece, "\n", Spaces(indent));
    Regroup(before, piece, sep);
    Regroup(before, piece + sep, rest);
    Regroup(piece, sep, rest);
  }
}
