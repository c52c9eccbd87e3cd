// Every value has a spelling: the events of one layout of it, and the decoder makes of them
// that very value (src/decode/mod.rs).
module Spelling {
  import opened Wrappers
  import opened Text
  import opened Values
  import opened Events
  import opened Decode
  import opened Syntax
  import opened Grammar
  import opened MappingKeys
  import DG = DecodeGrammar
  import Resolver
  import Schemas
  import Timestamps

  const PLAIN := Props(None, None, true)

  // ----- The layout of a value -----

  function Written(v: Value): string {
    match v
    case Null => "null"
    case Bool(b) => if b then "true" else "false"
    case Int(i) => SignedDecimal(i)
    case BigInt(digits) => digits
    case Float(bits) =>
      if bits == 0x7ff0_0000_0000_0000 then ".inf" else if bits == 0xfff0_0000_0000_0000 then "-.inf" else ".nan"
    case Str(text) => text
    case Stamp(t) => Timestamps.ToIso(t)
    case _ => ""
  }

  // A string in double quotes, other scalars plain, collections in block style.
  function Laid(v: Value, p: Props): Tree
    decreases v, 1
  {
    match v
    case Sequence(items) => BlockSeq(p, LaidItems(items))
    case Mapping(pairs) => Map(p, false, LaidPairs(pairs), false)
    case Tagged(tag, inner) => Laid(inner, p.(tag := Some(tag)))
    case Str(text) => Leaf(p, text, Resolver.DoubleQuoted)
    case _ => Leaf(p, Written(v), Resolver.Plain)
  }

  function LaidItems(items: seq<Value>): (ts: seq<Tree>)
    decreases items, 0
  {
    if items == [] then [] else [Laid(items[0], PLAIN)] + LaidItems(items[1..])
  }

  function LaidPairs(pairs: seq<Pair>): seq<Grammar.Entry>
    decreases pairs, 0
  {
    if pairs == [] then [] else [LaidPair(pairs[0])] + LaidPairs(pairs[1..])
  }

  function LaidPair(p: Pair): Grammar.Entry
    decreases p, 2
  {
    Keyed(false, Laid(p.key, PLAIN), Laid(p.val, PLAIN))
  }

  // A tag of no core type that no handle could expand.
  predicate StandsForItself(tag: string) {
    && !("!!" <= tag) && !("tag:yaml.org,2002:" <= tag)
    && ("!<" <= tag || !("!" <= tag) || '!' !in tag[1..])
  }

  ghost predicate IsLarge(digits: string) {
    exists n: int :: (n > 0x7fff_ffff_ffff_ffff || n < -0x7fff_ffff_ffff_ffff) && digits == SignedDecimal(n)
  }

  // The values that can be spelled so. A float must be one of the three with a word of their
  // own, since how others read is left to the float reader.
  ghost predicate Spellable(c: Config, v: Value) {
    match v
    case Int(i) => -0x7fff_ffff_ffff_ffff <= i <= 0x7fff_ffff_ffff_ffff
    case BigInt(digits) => IsLarge(digits)
    case Float(bits) => bits in {0x7ff0_0000_0000_0000, 0xfff0_0000_0000_0000, 0x7ff8_0000_0000_0000}
    case Stamp(t) =>
      && c.resolveTimestamps && Timestamps.InRange(t)
      && Resolver.Classify(c.schema, c.floats, Timestamps.ToIso(t), Resolver.Plain, None) == Resolver.StrKind
    case Sequence(items) => forall item <- items :: Spellable(c, item)
    case Mapping(pairs) => (forall p <- pairs :: Spellable(c, p.key) && Spellable(c, p.val)) && KeysAccepted(c, pairs)
    case Tagged(tag, inner) => StandsForItself(tag) && IsTaggable(inner) && Spellable(c, inner)
    case _ => true
  }

  predicate IsTaggable(v: Value) { v.Str? || v.Sequence? || v.Mapping? }

  // ----- Scalars -----

  lemma LargeIsRead(c: Config, digits: string)
    requires IsLarge(digits)
    ensures ScalarValue(c, digits, Resolver.Plain, None) == Events.Resolved(BigInt(digits), false)
  {
    var n: int :| (n > 0x7fff_ffff_ffff_ffff || n < -0x7fff_ffff_ffff_ffff) && digits == SignedDecimal(n);
    SignedIs(n);
    hide SignedDecimal;
    LargeIsPayload(c, digits, if n < 0 then "-" else "", if n < 0 then -n else n);
  }

  lemma LargeIsPayload(c: Config, digits: string, sign: string, size: nat)
    requires sign in {"", "-"} && digits == sign + Decimal(size) && size > 0x7fff_ffff_ffff_ffff
    requires '_' !in digits && digits != "" && digits[0] != '+'
    ensures ScalarValue(c, digits, Resolver.Plain, None) == Events.Resolved(BigInt(digits), false)
  {
    hide Decimal, Resolver.Classify, Resolver.Numeral11, Resolver.Numeral12, Resolver.Magnitude, Resolver.BigPayload;
    Schemas.NumeralsCount(c.schema, c.floats, size, sign);
    Schemas.NumeralOf(sign, size);
    Resolver.PayloadIsDecimalExactly(digits);
    SignedBack(sign, size);
  }

  lemma SignedBack(sign: string, size: nat)
    requires sign in {"", "-"} && size > 0
    ensures SignedDecimal(Resolver.Negated(sign == "-", size)) == sign + Decimal(size)
  {
    assert "" + Decimal(size) == Decimal(size);
  }

  lemma SignedIs(n: int)
    ensures SignedDecimal(n) == (if n < 0 then "-" else "") + Decimal(if n < 0 then -n else n)
    ensures '_' !in SignedDecimal(n) && SignedDecimal(n)[0] != '+'
  {
    var s := Decimal(if n < 0 then -n else n);
    assert forall i | 0 <= i < |s| :: IsDigit(s[i]);
  }

  lemma IntIsRead(c: Config, n: int)
    requires -0x7fff_ffff_ffff_ffff <= n <= 0x7fff_ffff_ffff_ffff
    ensures ScalarValue(c, SignedDecimal(n), Resolver.Plain, None) == Events.Resolved(Int(n), false)
  {
    SignedIs(n);
    Schemas.NumeralsCount(c.schema, c.floats, if n < 0 then -n else n, if n < 0 then "-" else "");
    hide Decimal, Resolver.Classify;
  }

  lemma WordsAreRead(c: Config)
    ensures ScalarValue(c, "null", Resolver.Plain, None) == Events.Resolved(Null, false)
    ensures ScalarValue(c, "true", Resolver.Plain, None) == Events.Resolved(Bool(true), false)
    ensures ScalarValue(c, "false", Resolver.Plain, None) == Events.Resolved(Bool(false), false)
  {
    Schemas.WordsExactly(c.schema, c.floats, "null");
    Schemas.WordsExactly(c.schema, c.floats, "true");
    Schemas.WordsExactly(c.schema, c.floats, "false");
    hide Resolver.Classify;
  }

  lemma FloatIsRead(c: Config, bits: nat)
    requires Spellable(c, Float(bits))
    ensures ScalarValue(c, Written(Float(bits)), Resolver.Plain, None) == Events.Resolved(Float(bits), false)
  {
    var text := Written(Float(bits));
    assert Schemas.SpecialBits(text) == Some(bits);
    if c.schema == Resolver.Yaml12 {
      Schemas.FloatsExactly12(c.floats, text, bits);
    } else {
      Schemas.FloatsExactly11(c.floats, text, bits, c.schema == Resolver.Yaml11PyYaml);
    }
    hide Resolver.ClassifyPlain12, Resolver.ClassifyPlain11, Schemas.SpecialBits;
  }

  lemma StampIsRead(c: Config, t: Timestamps.Timestamp)
    requires Spellable(c, Stamp(t))
    ensures ScalarValue(c, Timestamps.ToIso(t), Resolver.Plain, None) == Events.Resolved(Stamp(t), false)
  {
    hide Timestamps.ToIso, Timestamps.Parsed, Resolver.Classify;
    Timestamps.IsoReadsBack(t);
  }

  lemma ScalarIsRead(c: Config, v: Value)
    requires Spellable(c, v) && !v.Sequence? && !v.Mapping? && !v.Tagged?
    ensures ScalarValue(c, Written(v), if v.Str? then Resolver.DoubleQuoted else Resolver.Plain, None) ==
            Events.Resolved(v, false)
  {
    hide ScalarValue, IsLarge, Decimal, SignedDecimal, Timestamps.ToIso, Resolver.Classify;
    match v
    case Null => WordsAreRead(c);
    case Bool(_) => WordsAreRead(c);
    case Int(i) => IntIsRead(c, i);
    case BigInt(digits) => LargeIsRead(c, digits);
    case Float(bits) => FloatIsRead(c, bits);
    case Stamp(t) => StampIsRead(c, t);
    case Str(text) => Schemas.QuotedValues(c, text, Resolver.DoubleQuoted);
  }

  // ----- The value that a layout means -----

  lemma TagStays(tag: string)
    requires StandsForItself(tag)
    ensures ExpandTag(map[], tag) == tag && !HandleUndefined(map[], tag)
    ensures forall v :: WithTag(Some(tag), v) == Tagged(tag, v)
  {
    if "!" <= tag && !("!<" <= tag) {
      assert NamedHandle(tag) == None by {
        MarkMissing(tag[1..]);
      }
    }
  }

  lemma {:induction false} MarkMissing(s: string)
    requires '!' !in s
    ensures FindMark(s) == |s|
  {
    if s != "" {
      MarkMissing(s[1..]);
    }
  }

  // What a value is with a node's tag.
  function WithOwn(tag: Option<string>, v: Value): Value { if tag.Some? then Tagged(tag.value, v) else v }

  ghost predicate IsFree(tag: Option<string>, v: Value) { tag.Some? ==> StandsForItself(tag.value) && IsTaggable(v) }

  lemma {:induction false} LaidMeans(sc: Scope, v: Value, p: Props, m: Memory)
    requires sc.handles == map[] && Spellable(sc.config, v) && IsFree(p.tag, v)
    ensures EvalNode(sc, Parsed(Laid(v, p)), m) == Finish(m, p.anchor, WithOwn(p.tag, v))
    decreases v, 1
  {
    hide CheckKey, ScalarValue, EvalNode, IsLarge, Timestamps.ToIso, KeysAccepted;
    match v
    case Sequence(items) =>
      ItemsLaid(sc, items, m, []);
      SequenceMeans(sc, ParsedItems(LaidItems(items)), p, m, items);
    case Mapping(pairs) =>
      PairsLaid(sc, pairs, m, []);
      assert [] + pairs == pairs;
      NoKeysYet(sc.config);
      PairsExactly(sc, ParsedEntries(LaidPairs(pairs)), m, [], {});
      hide FreePairs, Laid, LaidPairs;
      MappingMeans(sc, ParsedEntries(LaidPairs(pairs)), p, m, pairs);
    case Tagged(tag, inner) => LaidMeans(sc, inner, p.(tag := Some(tag)), m);
    case _ => ScalarMeans(sc, v, p, m);
  }

  lemma SequenceMeans(sc: Scope, nodes: seq<YNode>, p: Props, m: Memory, items: seq<Value>)
    requires sc.handles == map[] && IsFree(p.tag, Sequence(items)) && EvalItems(sc, nodes, m, []) == Meaning(m, Ok([] + items))
    ensures EvalNode(sc, YNode(YSequence(nodes), p.tag, p.anchor), m) == Finish(m, p.anchor, WithOwn(p.tag, Sequence(items)))
  {
    assert [] + items == items;
    hide EvalItems;
    if p.tag.Some? {
      TagStays(p.tag.value);
      hide ExpandTag, HandleUndefined, WithTag;
    }
  }

  lemma MappingMeans(sc: Scope, nodes: seq<YPair>, p: Props, m: Memory, pairs: seq<Pair>)
    requires sc.handles == map[] && IsFree(p.tag, Mapping(pairs)) && EvalPairs(sc, nodes, m, [], {}) == Meaning(m, Ok([] + pairs))
    ensures EvalNode(sc, YNode(YMapping(nodes), p.tag, p.anchor), m) == Finish(m, p.anchor, WithOwn(p.tag, Mapping(pairs)))
  {
    assert [] + pairs == pairs;
    hide EvalPairs;
    if p.tag.Some? {
      TagStays(p.tag.value);
      hide ExpandTag, HandleUndefined, WithTag;
    }
  }

  lemma ScalarMeans(sc: Scope, v: Value, p: Props, m: Memory)
    requires sc.handles == map[] && Spellable(sc.config, v) && IsFree(p.tag, v)
    requires !v.Sequence? && !v.Mapping? && !v.Tagged?
    ensures EvalNode(sc, Parsed(Laid(v, p)), m) == Finish(m, p.anchor, WithOwn(p.tag, v))
  {
    if p.tag.Some? {
      TagStays(p.tag.value);
      Schemas.OtherTagsMakeText(sc.config.schema, sc.config.floats, v.text, Resolver.DoubleQuoted, p.tag.value);
    } else {
      ScalarIsRead(sc.config, v);
    }
    hide Resolver.Classify, ExpandTag, HandleUndefined, WithTag, IsLarge, Timestamps.ToIso;
  }

  lemma {:induction false} ItemsLaid(sc: Scope, items: seq<Value>, m: Memory, acc: seq<Value>)
    requires sc.handles == map[] && forall item <- items :: Spellable(sc.config, item)
    ensures EvalItems(sc, ParsedItems(LaidItems(items)), m, acc) == Meaning(m, Ok(acc + items))
    decreases items, 0
  {
    hide Spellable, Laid, EvalNode, Parsed;
    if items == [] {
      assert acc + items == acc;
    } else {
      LaidMeans(sc, items[0], PLAIN, m);
      ItemsLaid(sc, items[1..], m, acc + [items[0]]);
      assert acc + [items[0]] + items[1..] == acc + items;
    }
  }

  lemma {:induction false} PairsLaid(sc: Scope, pairs: seq<Pair>, m: Memory, acc: seq<Pair>)
    requires sc.handles == map[] && forall p <- pairs :: Spellable(sc.config, p.key) && Spellable(sc.config, p.val)
    ensures FreePairs(sc, ParsedEntries(LaidPairs(pairs)), m, acc) == Meaning(m, Ok(acc + pairs))
    decreases pairs, 0
  {
    hide Spellable, Laid, EvalNode, Parsed;
    if pairs == [] {
      assert acc + pairs == acc;
    } else {
      PairLaid(sc, pairs[0], m);
      LaidIsNotIndentless(pairs[0].key, PLAIN);
      PairsLaid(sc, pairs[1..], m, acc + [pairs[0]]);
      assert acc + [pairs[0]] + pairs[1..] == acc + pairs;
      assert ParsedEntries(LaidPairs(pairs)) == [PlainPair(LaidPair(pairs[0]))] + ParsedEntries(LaidPairs(pairs[1..]));
    }
  }

  lemma {:induction false} PairLaid(sc: Scope, p: Pair, m: Memory)
    requires sc.handles == map[] && Spellable(sc.config, p.key) && Spellable(sc.config, p.val)
    ensures EvalPair(sc, PlainPair(LaidPair(p)), m) == Meaning(m, Ok(p))
    decreases p, 2
  {
    hide Spellable, Laid, EvalNode, Parsed;
    LaidMeans(sc, p.key, PLAIN, m);
    LaidMeans(sc, p.val, PLAIN, m);
  }

  lemma {:induction false} LaidIsNotIndentless(v: Value, p: Props)
    ensures !Laid(v, p).Indentless? && !Laid(v, p).Empty?
  {
    if v.Tagged? {
      LaidIsNotIndentless(v.inner, p.(tag := Some(v.tag)));
    }
  }

  // ----- The layout can be read -----

  lemma {:induction false} LaidIsReadable(sc: Scope, v: Value, p: Props, rest: seq<Event>, allow: bool)
    requires rest != []
    ensures Readable(Laid(v, p), rest, allow) && DG.KeepsTags(sc, Laid(v, p))
    decreases v, 1
  {
    match v
    case Sequence(items) => ItemsAreReadable(sc, items, Push(BlockEnd, rest));
    case Mapping(pairs) => PairsAreReadable(sc, pairs, Push(BlockEnd, rest));
    case Tagged(tag, inner) => LaidIsReadable(sc, inner, p.(tag := Some(tag)), rest, allow);
    case _ =>
  }

  lemma {:induction false} ItemsAreReadable(sc: Scope, items: seq<Value>, rest: seq<Event>)
    requires rest != []
    ensures ReadableItems(LaidItems(items), rest) && DG.ItemsKeepTags(sc, LaidItems(items))
    decreases items, 0
  {
    if items != [] {
      ItemsAreReadable(sc, items[1..], rest);
      LaidIsNotIndentless(items[0], PLAIN);
      LaidIsReadable(sc, items[0], PLAIN, RenderItems(LaidItems(items[1..]), rest), false);
      hide Laid, Readable, DG.KeepsTags;
    }
  }

  lemma {:induction false} PairsAreReadable(sc: Scope, pairs: seq<Pair>, rest: seq<Event>)
    requires rest != []
    ensures ReadableEntries(LaidPairs(pairs), false, false, rest) && DG.EntriesKeepTags(sc, LaidPairs(pairs))
    decreases pairs, 0
  {
    if pairs != [] {
      var more := RenderEntries(LaidPairs(pairs[1..]), false, false, rest);
      PairsAreReadable(sc, pairs[1..], rest);
      PairIsReadable(sc, pairs[0], more, true);
      hide Laid, ReadableEntry, DG.EntryKeepsTags, RenderEntry;
    }
  }

  lemma {:induction false} PairIsReadable(sc: Scope, p: Pair, rest: seq<Event>, dashes: bool)
    requires rest != []
    ensures ReadableEntry(LaidPair(p), rest, dashes) && DG.EntryKeepsTags(sc, LaidPair(p))
    decreases p, 2
  {
    hide Laid, Readable, DG.KeepsTags, RenderTree;
    LaidIsNotIndentless(p.key, PLAIN);
    LaidIsReadable(sc, p.val, PLAIN, rest, true);
    LaidIsReadable(sc, p.key, PLAIN, Push(ValueMark, RenderTree(Laid(p.val, PLAIN), rest)), false);
  }

  // ----- The decoder reads it -----

  // Of the events of a value's layout the decoder makes that value.
  lemma SpelledIsDecoded(sc: Scope, v: Value, rest: seq<Event>, m: Memory, d: nat, allow: bool)
    requires sc.handles == map[] && Spellable(sc.config, v)
    requires rest != [] && d + Height(Laid(v, PLAIN)) <= 1000
    ensures Node(sc, RenderTree(Laid(v, PLAIN), rest), m, d, allow) == Out(rest, m, Ok(Some(v)))
  {
    LaidIsReadable(sc, v, PLAIN, rest, allow);
    LaidIsNotIndentless(v, PLAIN);
    LaidMeans(sc, v, PLAIN, m);
    DG.DecodesTree(sc, Laid(v, PLAIN), rest, m, d, allow);
    hide Node, EvalNode, RenderTree, Laid, Readable, Spellable, DG.KeepsTags;
  }

  // A list of a value and an alias of it is that value twice, unless the copy is one too many:
  // all copies of a stream together may have ten million nodes.
  lemma SharedIsDecoded(sc: Scope, v: Value, name: string, rest: seq<Event>, m: Memory, d: nat, allow: bool)
    requires sc.handles == map[] && Spellable(sc.config, v) && m.nodes <= 10_000_000
    requires rest != [] && d + 1 + Height(Laid(v, PLAIN.(anchor := Some(name)))) <= 1000
    ensures var t := BlockSeq(PLAIN, [Laid(v, PLAIN.(anchor := Some(name))), AliasTo(name)]);
            var o := Node(sc, RenderTree(t, rest), m, d, allow);
            if m.nodes + CountNodes(v) <= 10_000_000 then
              o.rest == rest && o.r == Ok(Some(Sequence([v, v]))) && o.mem.nodes == m.nodes + CountNodes(v)
            else o.r == Err(TooManyNodes)
  {
    var p := PLAIN.(anchor := Some(name));
    var first := Laid(v, p);
    var t := BlockSeq(PLAIN, [first, AliasTo(name)]);
    SharedIsReadable(sc, v, name, rest, allow);
    LaidIsNotIndentless(v, p);
    LaidMeans(sc, v, p, m);
    SharedMeans(sc, first, v, name, m);
    TwoHeights(first, AliasTo(name));
    DG.DecodesTree(sc, t, rest, m, d, allow);
    hide *;
  }

  lemma TwoHeights(a: Tree, b: Tree)
    requires !IsBareEmpty(a) && b.AliasTo?
    ensures Height(BlockSeq(PLAIN, [a, b])) == 1 + Height(a)
  {
    assert [a, b][1..] == [b] && [b][1..] == [];
    assert Height(b) == 1 && HeightOfItems([b]) == Max(HeightOfItem(b), HeightOfItems([]));
    assert HeightOfItems([a, b]) == Max(HeightOfItem(a), HeightOfItems([b]));
  }

  lemma SharedIsReadable(sc: Scope, v: Value, name: string, rest: seq<Event>, allow: bool)
    requires rest != []
    ensures var t := BlockSeq(PLAIN, [Laid(v, PLAIN.(anchor := Some(name))), AliasTo(name)]);
            Readable(t, rest, allow) && DG.KeepsTags(sc, t)
  {
    var items := [Laid(v, PLAIN.(anchor := Some(name))), AliasTo(name)];
    var end := Push(BlockEnd, rest);
    assert items[1..] == [AliasTo(name)] && [AliasTo(name)][1..] == [];
    LaidIsNotIndentless(v, PLAIN.(anchor := Some(name)));
    LaidIsReadable(sc, v, PLAIN.(anchor := Some(name)), RenderItems(items[1..], end), false);
    hide Laid;
    assert ReadableItems([AliasTo(name)], end) && DG.ItemsKeepTags(sc, [AliasTo(name)]);
  }

  lemma SharedMeans(sc: Scope, first: Tree, v: Value, name: string, m: Memory)
    requires EvalNode(sc, Parsed(first), m) == Finish(m, Some(name), v) && m.nodes <= 10_000_000
    ensures var e := EvalNode(sc, Parsed(BlockSeq(PLAIN, [first, AliasTo(name)])), m);
            if m.nodes + CountNodes(v) <= 10_000_000 then
              e.r == Ok(Sequence([v, v])) && e.mem.nodes == m.nodes + CountNodes(v)
            else e.r == Err(TooManyNodes)
  {
    hide EvalNode;
    var items := [first, AliasTo(name)];
    assert items[1..] == [AliasTo(name)] && [AliasTo(name)][1..] == [];
    var second := [Parsed(AliasTo(name))];
    assert ParsedItems([AliasTo(name)]) == second && ParsedItems(items) == [Parsed(first)] + second;
    var now := Finish(m, Some(name), v).mem;
    assert EvalItems(sc, ParsedItems(items), m, []) == EvalItems(sc, second, now, [v]) by {
      assert [] + [v] == [v];
    }
    AliasMeans(sc, v, name, now);
    SecondMeans(sc, v, name, now);
    ListMeans(sc, ParsedItems(items), m);
  }

  lemma AliasMeans(sc: Scope, v: Value, name: string, m: Memory)
    requires name in m.anchors && m.anchors[name] == Bound(v, CountNodes(v)) && m.nodes <= 10_000_000
    ensures var e := EvalNode(sc, YNode(YAlias(name), None, None), m);
            if m.nodes + CountNodes(v) <= 10_000_000 then e == Meaning(m.(nodes := m.nodes + CountNodes(v)), Ok(v))
            else e.r == Err(TooManyNodes)
  {
  }

  lemma SecondMeans(sc: Scope, v: Value, name: string, m: Memory)
    ensures var n := YNode(YAlias(name), None, None);
            var e := EvalNode(sc, n, m);
            EvalItems(sc, [n], m, [v]) == if e.r.Ok? then Meaning(e.mem, Ok([v, e.r.value])) else Meaning(e.mem, Err(e.r.error))
  {
    hide EvalNode;
    var n := YNode(YAlias(name), None, None);
    var e := EvalNode(sc, n, m);
    assert [n][1..] == [];
    if e.r.Ok? {
      assert [v] + [e.r.value] == [v, e.r.value];
    }
  }

  lemma ListMeans(sc: Scope, items: seq<YNode>, m: Memory)
    ensures var o := EvalItems(sc, items, m, []);
            EvalNode(sc, YNode(YSequence(items), None, None), m) ==
            if o.r.Ok? then Meaning(o.mem, Ok(Sequence(o.r.value))) else Meaning(o.mem, Err(o.r.error))
  {
    hide EvalItems;
  }

  // ----- Other layouts -----

  lemma PairsMean(sc: Scope, nodes: seq<YPair>, pairs: seq<Pair>, m: Memory)
    requires FreePairs(sc, nodes, m, []) == Meaning(m, Ok(pairs))
    ensures var e := EvalNode(sc, YNode(YMapping(nodes), None, None), m);
            if KeysAccepted(sc.config, pairs) then e == Meaning(m, Ok(Mapping(pairs)))
            else e.r in {Err(ComplexKey), Err(DuplicateKey)}
  {
    NoKeysYet(sc.config);
    PairsExactly(sc, nodes, m, [], {});
    hide FreePairs, EvalPairs, KeysAccepted;
  }

  lemma NullMeans(sc: Scope, m: Memory)
    ensures EvalNode(sc, NULL_NODE, m) == Meaning(m, Ok(Null))
  {
  }

  lemma FreeOfOne(sc: Scope, n: YPair, p: Pair, m: Memory)
    requires EvalPair(sc, n, m) == Meaning(m, Ok(p))
    ensures FreePairs(sc, [n], m, []) == Meaning(m, Ok([p]))
  {
    hide EvalPair;
    assert [n][1..] == [] && [] + [p] == [p];
  }

  lemma FreeOfTwo(sc: Scope, n: YPair, n2: YPair, p: Pair, p2: Pair, m: Memory)
    requires EvalPair(sc, n, m) == Meaning(m, Ok(p)) && EvalPair(sc, n2, m) == Meaning(m, Ok(p2))
    ensures FreePairs(sc, [n, n2], m, []) == Meaning(m, Ok([p, p2]))
  {
    hide EvalPair;
    assert [n, n2][1..] == [n2] && [n2][1..] == [] && [] + [p] == [p] && [p] + [p2] == [p, p2];
    assert FreePairs(sc, [n2], m, [p]) == FreePairs(sc, [], m, [p, p2]);
  }

  // A pair in a flow sequence, `[k: v]`, is a mapping of that pair, if its key is not refused.
  lemma FlowPairIsDecoded(sc: Scope, k: Value, v: Value, rest: seq<Event>, m: Memory, d: nat, allow: bool)
    requires sc.handles == map[] && Spellable(sc.config, k) && Spellable(sc.config, v) && rest != []
    requires var t := FlowSeq(PLAIN, [OfPair(LaidPair(Pair(k, v)))], false); d + Height(t) <= 1000
    ensures var o := Node(sc, RenderTree(FlowSeq(PLAIN, [OfPair(LaidPair(Pair(k, v)))], false), rest), m, d, allow);
            if sc.config.rejectComplexKeys && (k.Sequence? || k.Mapping?) then o.r in {Err(ComplexKey), Err(DuplicateKey)}
            else o == Out(rest, m, Ok(Some(Sequence([Mapping([Pair(k, v)])]))))
  {
    var e := LaidPair(Pair(k, v));
    var t := FlowSeq(PLAIN, [OfPair(e)], false);
    FlowPairIsReadable(sc, k, v, rest, allow);
    PairLaid(sc, Pair(k, v), m);
    FreeOfOne(sc, PlainPair(e), Pair(k, v), m);
    PairsMean(sc, [PlainPair(e)], [Pair(k, v)], m);
    OneKey(sc.config, Pair(k, v));
    OneItemMeans(sc, YNode(YMapping([PlainPair(e)]), None, None), m);
    FlowPairParsed(e);
    DG.DecodesTree(sc, t, rest, m, d, allow);
    hide Node, EvalNode, RenderTree, Laid, Readable, Spellable, DG.KeepsTags, Parsed, PlainPair, KeysAccepted, FreePairs;
  }

  lemma FlowPairParsed(e: Grammar.Entry)
    ensures Parsed(FlowSeq(PLAIN, [OfPair(e)], false)) ==
            YNode(YSequence([YNode(YMapping([PlainPair(e)]), None, None)]), None, None)
  {
    hide PlainPair;
    assert [OfPair(e)][1..] == [];
    assert ParsedElement(OfPair(e)) == YNode(YMapping([PlainPair(e)]), None, None);
    assert ParsedElements([OfPair(e)]) == [ParsedElement(OfPair(e))] + [] == [ParsedElement(OfPair(e))];
  }

  lemma OneKey(c: Config, p: Pair)
    ensures KeysAccepted(c, [p]) <==> !(c.rejectComplexKeys && (p.key.Sequence? || p.key.Mapping?))
  {
    assert [p][0] == p;
  }

  lemma OneItemMeans(sc: Scope, n: YNode, m: Memory)
    ensures var e := EvalNode(sc, n, m);
            EvalNode(sc, YNode(YSequence([n]), None, None), m) ==
            if e.r.Ok? then Meaning(e.mem, Ok(Sequence([e.r.value]))) else Meaning(e.mem, Err(e.r.error))
  {
    ListMeans(sc, [n], m);
    hide EvalNode;
    var e := EvalNode(sc, n, m);
    assert [n][1..] == [];
    if e.r.Ok? {
      assert [] + [e.r.value] == [e.r.value];
      assert EvalItems(sc, [n], m, []) == EvalItems(sc, [], e.mem, [e.r.value]);
    }
  }

  lemma FlowPairIsReadable(sc: Scope, k: Value, v: Value, rest: seq<Event>, allow: bool)
    requires rest != []
    ensures var t := FlowSeq(PLAIN, [OfPair(LaidPair(Pair(k, v)))], false); Readable(t, rest, allow) && DG.KeepsTags(sc, t)
  {
    var end := Push(SequenceEnd, rest);
    PairIsReadable(sc, Pair(k, v), end, false);
    LaidIsReadable(sc, v, PLAIN, end, false);
    hide Laid, RenderTree, Readable, DG.KeepsTags, ReadableEntry, DG.EntryKeepsTags;
    OneElement(sc, OfPair(LaidPair(Pair(k, v))), rest, allow);
  }

  lemma OneElement(sc: Scope, e: Element, rest: seq<Event>, allow: bool)
    requires rest != [] && ReadableElement(e, Push(SequenceEnd, rest)) && DG.ElementKeepsTags(sc, e)
    ensures Readable(FlowSeq(PLAIN, [e], false), rest, allow) && DG.KeepsTags(sc, FlowSeq(PLAIN, [e], false))
  {
    hide ReadableElement, DG.ElementKeepsTags;
    assert [e][1..] == [];
    assert DG.ElementsKeepTags(sc, []) && ReadableElements([], false, Push(SequenceEnd, rest));
    assert RenderElements([], false, Push(SequenceEnd, rest)) == Push(SequenceEnd, rest);
    assert ReadableElements([e], false, Push(SequenceEnd, rest)) && DG.ElementsKeepTags(sc, [e]);
  }

  // Two entries of a mapping, the second without a trailing comma.
  lemma TwoEntries(sc: Scope, e: Grammar.Entry, last: Grammar.Entry, flow: bool, rest: seq<Event>, allow: bool)
    requires rest != []
    requires var end := Push(CloseMap(flow), rest);
             var more := Comma(flow, RenderEntry(last, end));
             && ReadableEntry(last, end, !flow) && StandsBare(last, flow, RenderEntry(last, end)) && more != []
             && ReadableEntry(e, more, !flow) && StandsBare(e, flow, RenderEntry(e, more))
    requires DG.EntryKeepsTags(sc, e) && DG.EntryKeepsTags(sc, last)
    ensures Readable(Map(PLAIN, flow, [e, last], false), rest, allow) && DG.KeepsTags(sc, Map(PLAIN, flow, [e, last], false))
  {
    hide ReadableEntry, DG.EntryKeepsTags, StandsBare, RenderEntry;
    var end := Push(CloseMap(flow), rest);
    assert [e, last][1..] == [last] && [last][1..] == [];
    assert RenderEntries([], flow, false, end) == end && ReadableEntries([], flow, false, end) && DG.EntriesKeepTags(sc, []);
    assert RenderEntries([last], flow, false, end) == RenderEntry(last, end);
    assert ReadableEntries([last], flow, false, end) && DG.EntriesKeepTags(sc, [last]);
    assert ReadableEntries([e, last], flow, false, end) && DG.EntriesKeepTags(sc, [e, last]);
  }

  // In a flow mapping `{k: v, l}` the key without a colon has a null for its value.
  lemma FlowMappingIsDecoded(sc: Scope, k: Value, v: Value, l: Value, rest: seq<Event>, m: Memory, d: nat, allow: bool)
    requires sc.handles == map[] && Spellable(sc.config, k) && Spellable(sc.config, v) && Spellable(sc.config, l) && rest != []
    requires d + Height(Map(PLAIN, true, [LaidPair(Pair(k, v)), BareKey(Laid(l, PLAIN))], false)) <= 1000
    requires KeysAccepted(sc.config, [Pair(k, v), Pair(l, Null)])
    ensures Node(sc, RenderTree(Map(PLAIN, true, [LaidPair(Pair(k, v)), BareKey(Laid(l, PLAIN))], false), rest), m, d, allow) ==
            Out(rest, m, Ok(Some(Mapping([Pair(k, v), Pair(l, Null)]))))
  {
    var e, bare := LaidPair(Pair(k, v)), BareKey(Laid(l, PLAIN));
    FlowMappingIsReadable(sc, k, v, l, rest, allow);
    PairLaid(sc, Pair(k, v), m);
    KeyMeans(sc, bare, l, m);
    FreeOfTwo(sc, PlainPair(e), PlainPair(bare), Pair(k, v), Pair(l, Null), m);
    PairsMean(sc, [PlainPair(e), PlainPair(bare)], [Pair(k, v), Pair(l, Null)], m);
    LaidIsNotIndentless(k, PLAIN);
    TwoEntriesParsed(e, bare, true);
    DG.DecodesTree(sc, Map(PLAIN, true, [e, bare], false), rest, m, d, allow);
    hide Node, EvalNode, RenderTree, Laid, Readable, Spellable, DG.KeepsTags, Parsed, PlainPair, KeysAccepted, FreePairs;
  }

  // A key alone.
  lemma KeyMeans(sc: Scope, e: Grammar.Entry, l: Value, m: Memory)
    requires (e.BareKey? || e.KeyOnly?) && e.key == Laid(l, PLAIN) && sc.handles == map[] && Spellable(sc.config, l)
    ensures EvalPair(sc, PlainPair(e), m) == Meaning(m, Ok(Pair(l, Null)))
  {
    LaidMeans(sc, l, PLAIN, m);
    NullMeans(sc, m);
    hide EvalNode, Laid, Parsed;
  }

  lemma TwoEntriesParsed(e: Grammar.Entry, bare: Grammar.Entry, flow: bool)
    requires !HasIndentlessKey(e) && !HasIndentlessKey(bare)
    ensures Parsed(Map(PLAIN, flow, [e, bare], false)) == YNode(YMapping([PlainPair(e), PlainPair(bare)]), None, None)
  {
    hide PlainPair;
    assert [e, bare][1..] == [bare] && [bare][1..] == [];
    assert ParsedEntry(bare) == [PlainPair(bare)] && ParsedEntry(e) == [PlainPair(e)];
    assert ParsedEntries([bare]) == [PlainPair(bare)] + [] == [PlainPair(bare)];
    assert ParsedEntries([e, bare]) == [PlainPair(e)] + [PlainPair(bare)] == [PlainPair(e), PlainPair(bare)];
  }

  lemma FlowMappingIsReadable(sc: Scope, k: Value, v: Value, l: Value, rest: seq<Event>, allow: bool)
    requires rest != []
    ensures var t := Map(PLAIN, true, [LaidPair(Pair(k, v)), BareKey(Laid(l, PLAIN))], false);
            Readable(t, rest, allow) && DG.KeepsTags(sc, t)
  {
    var end := Push(MappingEnd, rest);
    BareKeyIsReadable(sc, l, end);
    PairIsReadable(sc, Pair(k, v), Push(FlowEntry, RenderTree(Laid(l, PLAIN), end)), false);
    hide ReadableEntry, DG.EntryKeepsTags, RenderTree, Laid;
    assert RenderEntry(BareKey(Laid(l, PLAIN)), end) == RenderTree(Laid(l, PLAIN), end);
    hide RenderEntry;
    TwoEntries(sc, LaidPair(Pair(k, v)), BareKey(Laid(l, PLAIN)), true, rest, allow);
  }

  lemma BareKeyIsReadable(sc: Scope, l: Value, rest: seq<Event>)
    requires rest != [] && !rest[0].ValueMark?
    ensures ReadableEntry(BareKey(Laid(l, PLAIN)), rest, false) && DG.EntryKeepsTags(sc, BareKey(Laid(l, PLAIN)))
  {
    LaidIsNotIndentless(l, PLAIN);
    LaidIsReadable(sc, l, PLAIN, rest, false);
    hide Laid, Readable, DG.KeepsTags;
  }

  // In a block mapping `: v` has a null for its key, and `? k` one for its value.
  lemma HalfPairsAreDecoded(sc: Scope, k: Value, v: Value, rest: seq<Event>, m: Memory, d: nat, allow: bool)
    requires sc.handles == map[] && Spellable(sc.config, k) && Spellable(sc.config, v) && rest != []
    requires d + Height(Map(PLAIN, false, [Bare(Empty(PLAIN), Laid(v, PLAIN)), KeyOnly(true, Laid(k, PLAIN))], false)) <= 1000
    requires KeysAccepted(sc.config, [Pair(Null, v), Pair(k, Null)])
    ensures var t := Map(PLAIN, false, [Bare(Empty(PLAIN), Laid(v, PLAIN)), KeyOnly(true, Laid(k, PLAIN))], false);
            Node(sc, RenderTree(t, rest), m, d, allow) ==
            Out(rest, m, Ok(Some(Mapping([Pair(Null, v), Pair(k, Null)]))))
  {
    var bare, alone := Bare(Empty(PLAIN), Laid(v, PLAIN)), KeyOnly(true, Laid(k, PLAIN));
    HalfPairsAreReadable(sc, k, v, rest, allow);
    KeyMeans(sc, alone, k, m);
    ValueMeans(sc, bare, v, m);
    FreeOfTwo(sc, PlainPair(bare), PlainPair(alone), Pair(Null, v), Pair(k, Null), m);
    PairsMean(sc, [PlainPair(bare), PlainPair(alone)], [Pair(Null, v), Pair(k, Null)], m);
    LaidIsNotIndentless(k, PLAIN);
    TwoEntriesParsed(bare, alone, false);
    DG.DecodesTree(sc, Map(PLAIN, false, [bare, alone], false), rest, m, d, allow);
    hide Node, EvalNode, RenderTree, Laid, Readable, Spellable, DG.KeepsTags, Parsed, PlainPair, KeysAccepted, FreePairs;
  }

  lemma ValueMeans(sc: Scope, e: Grammar.Entry, v: Value, m: Memory)
    requires e == Bare(Empty(PLAIN), Laid(v, PLAIN)) && sc.handles == map[] && Spellable(sc.config, v)
    ensures EvalPair(sc, PlainPair(e), m) == Meaning(m, Ok(Pair(Null, v)))
  {
    LaidMeans(sc, v, PLAIN, m);
    NullMeans(sc, m);
    assert Parsed(Empty(PLAIN)) == NULL_NODE;
    hide EvalNode, Laid, Parsed;
  }

  lemma HalfPairsAreReadable(sc: Scope, k: Value, v: Value, rest: seq<Event>, allow: bool)
    requires rest != []
    ensures var t := Map(PLAIN, false, [Bare(Empty(PLAIN), Laid(v, PLAIN)), KeyOnly(true, Laid(k, PLAIN))], false);
            Readable(t, rest, allow) && DG.KeepsTags(sc, t)
  {
    var end := Push(BlockEnd, rest);
    var bare, alone := Bare(Empty(PLAIN), Laid(v, PLAIN)), KeyOnly(true, Laid(k, PLAIN));
    KeyOnlyIsReadable(sc, k, end);
    ValueIsReadable(sc, v, Push(Key(true), RenderTree(Laid(k, PLAIN), end)));
    hide ReadableEntry, DG.EntryKeepsTags, RenderTree, Laid, IsBlockCollection;
    assert RenderEntry(alone, end) == Push(Key(true), RenderTree(Laid(k, PLAIN), end));
    hide RenderEntry;
    TwoEntries(sc, bare, alone, false, rest, allow);
  }

  lemma KeyOnlyIsReadable(sc: Scope, k: Value, rest: seq<Event>)
    requires rest != [] && rest[0] == BlockEnd
    ensures var e := KeyOnly(true, Laid(k, PLAIN)); ReadableEntry(e, rest, true) && DG.EntryKeepsTags(sc, e)
  {
    LaidIsNotIndentless(k, PLAIN);
    LaidIsReadable(sc, k, PLAIN, rest, true);
    hide Laid, Readable, DG.KeepsTags;
  }

  lemma ValueIsReadable(sc: Scope, v: Value, rest: seq<Event>)
    requires rest != []
    ensures var e := Bare(Empty(PLAIN), Laid(v, PLAIN));
            ReadableEntry(e, rest, true) && DG.EntryKeepsTags(sc, e) && !IsBlockCollection(RenderEntry(e, rest))
  {
    var more := Push(ValueMark, RenderTree(Laid(v, PLAIN), rest));
    LaidIsReadable(sc, v, PLAIN, rest, true);
    EmptyIsReadable(sc, more);
    assert RenderTree(Empty(PLAIN), more) == more;
    hide Laid, Readable, DG.KeepsTags, RenderTree;
  }

  lemma EmptyIsReadable(sc: Scope, rest: seq<Event>)
    requires rest != [] && rest[0].ValueMark?
    ensures Readable(Empty(PLAIN), rest, false) && DG.KeepsTags(sc, Empty(PLAIN))
  {
  }

  // ----- Documents -----

  // An anchor ends with its document: in the next one no alias knows it.
  lemma AnchorsEndWithDocuments(c: Config, name: string, text: string, rest: seq<Event>)
    ensures var second := [DocumentStart, Alias(name)] + rest;
            var ev := [DocumentStart, Anchor(name), Scalar(text, Resolver.DoubleQuoted)] + second;
            Documents(c, map[], ev, FRESH, true, []).r == Err(UnknownAlias(name))
  {
    var second := [DocumentStart, Alias(name)] + rest;
    var ev := [DocumentStart, Anchor(name), Scalar(text, Resolver.DoubleQuoted)] + second;
    var sc := Scope(c, map[]);
    assert ev[1..] == [Anchor(name), Scalar(text, Resolver.DoubleQuoted)] + second;
    AnchoredRead(sc, name, text, second);
    ExplicitRead(c, map[], ev, FRESH, true, []);
    var o := Node(sc, ev[1..], FRESH, 0, false);
    assert AtBoundary(second) && second[1..] == [Alias(name)] + rest;
    AliasUnknown(sc, name, rest, Forget(o.mem));
    ExplicitRead(c, map[], second, Forget(o.mem), false, [] + [OrNull(o.r.value)]);
    hide Node, Documents;
  }

  lemma AnchoredRead(sc: Scope, name: string, text: string, rest: seq<Event>)
    ensures var o := Node(sc, [Anchor(name), Scalar(text, Resolver.DoubleQuoted)] + rest, FRESH, 0, false);
            o.rest == rest && o.r == Ok(Some(Str(text)))
  {
    var ev := [Anchor(name), Scalar(text, Resolver.DoubleQuoted)] + rest;
    assert ev[1..] == [Scalar(text, Resolver.DoubleQuoted)] + rest && ev[1..][1..] == rest;
    Schemas.QuotedValues(sc.config, text, Resolver.DoubleQuoted);
    hide ScalarValue;
    assert Node(sc, ev, FRESH, 0, false) == Inner(sc, ev[1..], FRESH, 1, false, None, Some(name));
    DG.ReadsContent(sc, ev[1..], FRESH, 1, false, None, Some(name));
  }

  lemma AliasUnknown(sc: Scope, name: string, rest: seq<Event>, m: Memory)
    requires m.anchors == map[]
    ensures Node(sc, [Alias(name)] + rest, m, 0, false).r == Err(UnknownAlias(name))
  {
    DG.ReadsContent(sc, [Alias(name)] + rest, m, 1, false, None, None);
  }
}
