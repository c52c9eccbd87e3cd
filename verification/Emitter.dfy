// How the emitter writes a string (src/encode/mod.rs, `emit_string_inline` and
// `emit_quoted_string`): plain where that is safe, else quoted, else folded inside quotes.
module Emitter {
  import opened Wrappers
  import opened Strings
  import opened Text
  import opened Quotes
  import opened Folding
  import opened Resolver
  import opened PlainScalars
  import opened Quoting
  import BlockScalars

  // A width of zero means no folding.
  datatype Options = Options(width: nat, doubleQuotes: bool, schema: Schema, floats: Floats)

  predicate HasBreakableSpace(value: string) { exists i | 0 <= i < |value| :: Breakable(value, i) }

  // An isolated space.
  predicate CanFold(value: string) {
    exists i | 0 < i < |value| - 1 :: value[i] == ' ' && value[i - 1] != ' ' && value[i + 1] != ' '
  }

  lemma CanFoldExactly(value: string)
    ensures CanFold(value) <==> HasBreakableSpace(value)
  {
    if i :| 0 < i < |value| - 1 && value[i] == ' ' && value[i - 1] != ' ' && value[i + 1] != ' ' {
      assert Breakable(value, i);
    }
    if i :| 0 <= i < |value| && Breakable(value, i) {
      assert value[i] == ' ' && value[i - 1] != ' ' && value[i + 1] != ' ';
    }
  }

  predicate ClearOfApostrophe(rest: string) { rest == "" || rest[0] != '\'' }

  // The text is a quoted scalar that reads back as the value, whatever follows it.
  ghost predicate SpellsQuoted(text: string, value: string) {
    forall rest | ClearOfApostrophe(rest) :: ReadQuoted(text + rest) == Some(Scalar(value, rest))
  }

  // The text is the value itself; a plain scalar, in flow or not, that reads back whole if it
  // holds no byte order mark; and a string under the schema it is written for and under 1.2.
  ghost predicate SpellsPlain(text: string, value: string, o: Options, inFlow: bool) {
    && text == value
    && (BYTE_ORDER_MARK !in value ==>
          forall rest | EndsPlain(rest, inFlow) :: ReadPlain(text + rest, inFlow) == Some(Scalar(value, rest)))
    && Classify(o.schema, o.floats, value, Plain, None) == StrKind
    && Classify(Yaml12, o.floats, value, Plain, None) == StrKind
  }

  lemma PlainSpells(value: string, o: Options, inFlow: bool)
    requires !NeedsQuoting(o.floats, value, o.schema) && (inFlow ==> !HasFlowIndicator(value))
    ensures SpellsPlain(value, value, o, inFlow)
  {
    PlainStringsStayStrings(o.floats, value, o.schema);
    forall rest | BYTE_ORDER_MARK !in value && EndsPlain(rest, inFlow)
      ensures ReadPlain(value + rest, inFlow) == Some(Scalar(value, rest))
    {
      PlainReadsBack(o.floats, value, o.schema, inFlow, rest);
    }
  }

  lemma PlainIsOneLine(value: string, o: Options)
    requires value != "" && !NeedsQuoting(o.floats, value, o.schema)
    ensures OneLine(value)
  {
    assert !CannotStandPlain(value);
  }

  lemma EscapeIsOneLine(q: Quote, c: char)
    requires Holds(q, [c])
    ensures OneLine(Escape(q, c))
  {
    if q == Single {
      assert c in [c];
    } else if IsNonPrintable(c) {
      HexIsOneLine(c);
    }
  }

  lemma HexIsOneLine(c: char)
    requires IsNonPrintable(c)
    ensures OneLine(HexEscape(c))
  {
  }

  predicate OneLiners(ps: seq<string>) { forall i | 0 <= i < |ps| :: OneLine(ps[i]) }

  lemma {:induction false} JoinedIsOneLine(ps: seq<string>, n: nat)
    requires n <= |ps| && OneLiners(ps)
    ensures OneLine(Joined(ps, n))
  {
    if n > 0 {
      JoinedIsOneLine(ps, n - 1);
    }
  }

  lemma BodyIsOneLine(q: Quote, value: string)
    requires Holds(q, value)
    ensures OneLine(Body(q, value))
  {
    forall i | 0 <= i < |value| ensures OneLine(Pieces(q, value)[i]) {
      HoldsEach(q, value, i);
      EscapeIsOneLine(q, value[i]);
    }
    JoinedIsOneLine(Pieces(q, value), |value|);
  }

  lemma BrokenSpells(q: Quote, value: string, at: set<nat>, indent: nat)
    requires Holds(q, value) && AreBreakable(Body(q, value), at) && indent >= 1
    ensures SpellsQuoted([Mark(q)] + Broken(Body(q, value), 0, at, indent) + [Mark(q)], value)
  {
    forall rest | ClearOfApostrophe(rest)
      ensures ReadQuoted([Mark(q)] + Broken(Body(q, value), 0, at, indent) + [Mark(q)] + rest)
              == Some(Scalar(value, rest))
    {
      QuotedReadsBack(q, value, at, indent, rest);
    }
  }

  lemma UnbrokenSpells(q: Quote, value: string)
    requires Holds(q, value)
    ensures SpellsQuoted([Mark(q)] + Body(q, value) + [Mark(q)], value)
  {
    var b := Body(q, value);
    BrokenPiece(b, 0, |b|, {}, 1);
    assert b[0..|b|] == b && b + "" == b;
    BrokenSpells(q, value, {}, 1);
  }

  lemma EmptySpells(q: Quote)
    ensures SpellsQuoted([Mark(q), Mark(q)], "")
  {
    UnbrokenSpells(q, "");
    assert [Mark(q)] + Body(q, "") + [Mark(q)] == [Mark(q), Mark(q)];
  }

  lemma QuoteColumn(before: string, q: Quote)
    ensures ColumnAfter(0, before + [Mark(q)]) == ColumnAfter(0, before) + 1
  {
    ColumnPrefix(0, before, [Mark(q)], |before|);
  }

  lemma AddedFolded(before: string, quote: string, body: string)
    ensures before <= before + quote + body + quote
    ensures (before + quote + body + quote)[|before|..] == quote + body + quote
    ensures (before + quote + body)[|before + quote|..] == body
    ensures |quote| == 1 ==> (quote + body + quote)[1..|quote + body + quote| - 1] == body
  {
  }

  // Single quotes unless double ones are asked for, or needed: for an apostrophe, a control
  // character, a break, or what YAML 1.2.2 cannot print.
  predicate AllowsSingle(value: string, doubleQuotes: bool) {
    !doubleQuotes && forall c <- value :: c != '\'' && c as int >= 0x20 && IsPrintable(c)
  }

  lemma AllowsSingleExactly(value: string, doubleQuotes: bool)
    ensures AllowsSingle(value, doubleQuotes) <==> SingleQuotable(value, doubleQuotes)
  {
    forall c ensures IsNonPrintable(c) <==> !IsPrintable(c) {
      NonPrintableExactly(c);
    }
  }

  // One call wrote the value in quotes after `before`.
  ghost predicate WroteQuoted(before: string, after: string, value: string, doubleQuotes: bool) {
    && before <= after
    && |after| >= |before| + 2
    && after[|before|] == after[|after| - 1] == (if AllowsSingle(value, doubleQuotes) then '\'' else '"')
    && SpellsQuoted(after[|before|..], value)
  }

  // Between the quotes no two pieces share a line that passes the width, and no break stands
  // where the next piece would have fitted. A continuation begins in the column of the opening
  // quote, or in column one.
  ghost predicate WroteFolded(before: string, after: string, value: string, doubleQuotes: bool, width: nat) {
    && WroteQuoted(before, after, value, doubleQuotes)
    && var col, inner := ColumnAfter(0, before), after[|before|..][1..|after| - |before| - 1];
    && Fits(col + 1, inner, width)
    && BreaksAreNeeded(col + 1, inner, if col > 1 then col else 1, width)
  }

  ghost predicate WroteOneLine(before: string, after: string, value: string, doubleQuotes: bool) {
    WroteQuoted(before, after, value, doubleQuotes) && OneLine(after[|before|..])
  }

  lemma FoldedSpells(before: string, q: Quote, value: string, doubleQuotes: bool, width: nat,
                     folded: string, after: string)
    requires Holds(q, value) && q == (if SingleQuotable(value, doubleQuotes) then Single else Double)
    requires var start, indent := before + [Mark(q)], if ColumnAfter(0, before) > 1 then ColumnAfter(0, before) else 1;
             && start <= folded
             && folded ==
                  start + Broken(Body(q, value), 0, FoldsAt(Body(q, value), 0, ColumnAfter(0, start), indent, width), indent)
             && (OneLine(Body(q, value)) ==> Fits(ColumnAfter(0, start), folded[|start|..], width))
             && (OneLine(Body(q, value)) ==> BreaksAreNeeded(ColumnAfter(0, start), folded[|start|..], indent, width))
    requires after == folded + [Mark(q)]
    ensures WroteFolded(before, after, value, doubleQuotes, width)
  {
    hide Fits, BreaksAreNeeded, OneLine, SingleQuotable, AllowsSingle, SpellsQuoted, FoldsAt, Broken, Body, Column;
    var indent := if ColumnAfter(0, before) > 1 then ColumnAfter(0, before) else 1;
    AllowsSingleExactly(value, doubleQuotes);
    BodyIsOneLine(q, value);
    QuoteColumn(before, q);
    var at := FoldsAt(Body(q, value), 0, ColumnAfter(0, before + [Mark(q)]), indent, width);
    BrokenSpells(q, value, at, indent);
    AddedFolded(before, [Mark(q)], Broken(Body(q, value), 0, at, indent));
  }

  lemma UnfoldedSpells(before: string, q: Quote, value: string, doubleQuotes: bool, after: string)
    requires Holds(q, value) && q == (if SingleQuotable(value, doubleQuotes) then Single else Double)
    requires after == before + [Mark(q)] + Body(q, value) + [Mark(q)]
    ensures WroteOneLine(before, after, value, doubleQuotes)
  {
    hide SingleQuotable, AllowsSingle, SpellsQuoted, Body;
    AllowsSingleExactly(value, doubleQuotes);
    BodyIsOneLine(q, value);
    UnbrokenSpells(q, value);
    AddedFolded(before, [Mark(q)], Body(q, value));
  }

  class Emitter {
    const options: Options
    var buf: string
    var emittingKey: bool

    constructor (options: Options)
      ensures this.options == options && buf == "" && !emittingKey
    {
      this.options := options;
      buf := "";
      emittingKey := false;
    }

    ghost function Added(before: string): string
      reads this
    {
      if before <= buf then buf[|before|..] else ""
    }

    // Written plain here, the value would pass the width although it holds a space to fold at.
    predicate PassesWidth(before: string, value: string)
      reads `emittingKey
    {
      && options.width > 0
      && !emittingKey
      && ColumnAfter(0, before) + Width(value, 0, |value|) > options.width
      && HasBreakableSpace(value)
    }

    // `would_wrap`.
    method WouldWrap(value: string) returns (r: bool)
      ensures r <==> && options.width > 0 && !emittingKey
                     && ColumnAfter(0, buf) + Width(value, 0, |value|) > options.width && CanFold(value)
    {
      CanFoldExactly(value);
      if options.width == 0 || emittingKey {
        return false;
      }
      var col := CurrentColumn(buf);
      r := col + Width(value, 0, |value|) > options.width && HasBreakableSpace(value);
    }

    // `emit_quoted_string`: what is written reads back as the value, a key stays on one
    // line, and between the quotes no two pieces share a line that passes the width.
    method EmitQuotedString(value: string)
      modifies this`buf
      ensures if emittingKey || options.width == 0
              then WroteOneLine(old(buf), buf, value, options.doubleQuotes)
              else WroteFolded(old(buf), buf, value, options.doubleQuotes, options.width)
    {
      ghost var before := buf;
      var q := if SingleQuotable(value, options.doubleQuotes) then Single else Double;
      var body;
      if q == Single {
        body := SingleQuotedBody(value);
      } else {
        body := DoubleQuotedBody(value);
      }
      if options.width > 0 && !emittingKey {
        var col := CurrentColumn(buf);
        var indent := if col > 1 then col else 1;
        buf := buf + [Mark(q)];
        var folded := PushFolded(buf, body, indent, options.width);
        buf := folded + [Mark(q)];
        FoldedSpells(before, q, value, options.doubleQuotes, options.width, folded, buf);
      } else {
        buf := buf + [Mark(q)] + body + [Mark(q)];
        UnfoldedSpells(before, q, value, options.doubleQuotes, buf);
      }
    }

    // What keeps a value from being written plain.
    ghost predicate MustQuote(before: string, value: string, inFlow: bool)
      reads `emittingKey
    {
      || NeedsQuoting(options.floats, value, options.schema)
      || (inFlow && exists c <- value :: c in {',', '[', ']', '{', '}'})
      || PassesWidth(before, value)
    }

    // `emit_string_inline`: however it is written, a string reads as that string; and it is
    // written plain exactly where nothing keeps it from that.
    method EmitStringInline(value: string, inFlow: bool)
      modifies this`buf
      ensures old(buf) <= buf
      ensures || SpellsQuoted(Added(old(buf)), value)
              || (SpellsPlain(Added(old(buf)), value, options, inFlow) && !PassesWidth(old(buf), value))
      ensures emittingKey ==> OneLine(Added(old(buf)))
      ensures value == "" ==> Added(old(buf)) == if options.doubleQuotes then "\"\"" else "''"
      ensures value != "" && !MustQuote(old(buf), value, inFlow) ==> Added(old(buf)) == value
      ensures value != "" && MustQuote(old(buf), value, inFlow) ==> WroteQuoted(old(buf), buf, value, options.doubleQuotes)
    {
      hide NeedsQuoting, SpellsPlain, AllowsSingle, Fits, BreaksAreNeeded, HasBreakableSpace, Column, Width;
      if value == "" {
        var q := if options.doubleQuotes then Double else Single;
        EmptySpells(q);
        buf := buf + [Mark(q), Mark(q)];
        return;
      }
      hide SpellsQuoted, CanFold, OneLine;
      CanFoldExactly(value);
      var wrap := WouldWrap(value);
      if NeedsQuoting(options.floats, value, options.schema) || (inFlow && HasFlowIndicator(value)) || wrap {
        EmitQuotedString(value);
      } else {
        PlainSpells(value, options, inFlow);
        PlainIsOneLine(value, options);
        buf := buf + value;
        assert buf[|old(buf)|..] == value;
      }
    }

    // `emit_literal_block`.
    method EmitLiteralBlock(value: string, indent: nat)
      modifies this`buf
      ensures buf == old(buf) + BlockScalars.BlockScalar(value, indent)
    {
      buf := BlockScalars.PushBlockScalar(buf, value, '|', indent);
    }
  }
}
