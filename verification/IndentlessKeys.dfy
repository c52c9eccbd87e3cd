// Keys laid out as indentless sequences, as in `?`, `- a`, `: v`: exactly there the two
// parsers make something else of a layout than the tree it lays out.
module IndentlessKeys {
  import opened Wrappers
  import opened Values
  import opened Events
  import opened Decode
  import opened Syntax
  import opened Grammar
  import opened Compose
  import DG = DecodeGrammar
  import CG = ComposeGrammar
  import Resolver

  // ----- Where what is parsed is what is laid out -----

  lemma {:induction false} ParsedExactly(t: Tree)
    ensures Parsed(t) == Ast(t) <==> PlainKeys(t)
    decreases t, 1
  {
    match t
    case BlockSeq(_, items) => ItemsParsedExactly(items);
    case Indentless(_, items) => ItemsParsedExactly(items);
    case FlowSeq(_, elements, _) => ElementsParsedExactly(elements);
    case Map(_, _, entries, _) => EntriesParsedExactly(entries);
    case _ =>
  }

  lemma {:induction false} ItemsParsedExactly(items: seq<Tree>)
    ensures ParsedItems(items) == AstItems(items) <==> ItemsHavePlainKeys(items)
    decreases items, 0
  {
    if items != [] {
      ParsedExactly(items[0]);
      ItemsParsedExactly(items[1..]);
      SameHeads(Parsed(items[0]), ParsedItems(items[1..]), Ast(items[0]), AstItems(items[1..]));
    }
  }

  lemma SameHeads<T>(a: T, s: seq<T>, b: T, t: seq<T>)
    ensures [a] + s == [b] + t <==> a == b && s == t
  {
    assert ([a] + s)[0] == a && ([a] + s)[1..] == s && ([b] + t)[0] == b && ([b] + t)[1..] == t;
  }

  lemma {:induction false} EntriesParsedExactly(entries: seq<Entry>)
    ensures ParsedEntries(entries) == AstEntries(entries) <==> EntriesHavePlainKeys(entries)
    decreases entries, 0
  {
    if entries != [] {
      var e := entries[0];
      if HasIndentlessKey(e) {
        assert ParsedEntry(e) != [] && ParsedEntry(e)[0] == MisreadPair(e);
        assert ParsedEntries(entries) == ParsedEntry(e) + ParsedEntries(entries[1..]);
        assert AstEntries(entries)[0] == AstEntry(e) && MisreadPair(e).key != Ast(e.key);
      } else {
        PairParsedExactly(e);
        EntriesParsedExactly(entries[1..]);
        SameHeads(PlainPair(e), ParsedEntries(entries[1..]), AstEntry(e), AstEntries(entries[1..]));
      }
    }
  }

  lemma {:induction false} PairParsedExactly(e: Entry)
    ensures PlainPair(e) == AstEntry(e) <==> PairHasPlainKeys(e)
    decreases e, 2
  {
    ParsedExactly(e.key);
    if e.Keyed? || e.Bare? {
      ParsedExactly(e.val);
    }
  }

  lemma {:induction false} ElementsParsedExactly(elements: seq<Element>)
    ensures ParsedElements(elements) == AstElements(elements) <==> ElementsHavePlainKeys(elements)
    decreases elements, 0
  {
    if elements != [] {
      ElementParsedExactly(elements[0]);
      ElementsParsedExactly(elements[1..]);
      SameHeads(ParsedElement(elements[0]), ParsedElements(elements[1..]), AstElement(elements[0]), AstElements(elements[1..]));
    }
  }

  lemma {:induction false} ElementParsedExactly(e: Element)
    ensures ParsedElement(e) == AstElement(e) <==> ElementHasPlainKeys(e)
    decreases e, 3
  {
    match e
    case Single(node) => ParsedExactly(node);
    case OfPair(entry) =>
      PairParsedExactly(entry);
      assert [PlainPair(entry)][0] == PlainPair(entry) && [AstEntry(entry)][0] == AstEntry(entry);
  }

  // ----- One entry with a `?` -----

  // The decoder reads such an entry as what it means exactly when its key is no indentless
  // sequence. Where it is one, `DecodeGrammar.DecodesMisread` says what is made instead.
  lemma KeyReadExactly(sc: Scope, e: Entry, rest: seq<Event>, m: Memory, d: nat)
    requires (e.Keyed? || e.KeyOnly?) && rest != [] && ReadableEntry(e, rest, true)
    requires DG.EntryKeepsTags(sc, e) && d + HeightOfEntry(e) <= MAX_DEPTH && EvalPair(sc, PlainPair(e), m).r.Ok?
    ensures RenderEntry(e, rest)[0].Key?
    ensures DG.SameOutcome(KeyedPair(sc, RenderEntry(e, rest)[1..], m, d, true), EvalPair(sc, PlainPair(e), m), rest) <==>
            !HasIndentlessKey(e)
  {
    if HasIndentlessKey(e) {
      DG.DecodesMisreadPair(sc, e, rest, m, d);
      MisreadMeansOther(sc, e, m);
    } else {
      DG.PlainEntry(e, rest, true);
      DG.DecodesKeyed(sc, e, rest, m, d, true);
    }
  }

  // The composer does, too.
  lemma KeyMadeExactly(e: Entry, rest: seq<Event>, seen: set<string>, d: nat)
    requires (e.Keyed? || e.KeyOnly?) && rest != [] && ReadableEntry(e, rest, true)
    requires d + HeightOfEntry(e) <= MAX_DEPTH && CG.KnownPair(PlainPair(e), seen).Ok?
    ensures RenderEntry(e, rest)[0].Key?
    ensures CG.Makes(CKeyedPair(RenderEntry(e, rest)[1..], seen, d, true), PlainPair(e), CG.KnownPair(PlainPair(e), seen), rest)
            <==> !HasIndentlessKey(e)
  {
    if HasIndentlessKey(e) {
      CG.ComposesMisreadPair(e, rest, seen, d);
    } else {
      DG.PlainEntry(e, rest, true);
      CG.ComposesKeyed(e, rest, seen, d, true);
    }
  }

  // A pair with an empty key is not one with a sequence for its key.
  lemma MisreadMeansOther(sc: Scope, e: Entry, m: Memory)
    requires HasIndentlessKey(e) && EvalPair(sc, PlainPair(e), m).r.Ok?
    ensures EvalPair(sc, MisreadPair(e), m).r != EvalPair(sc, PlainPair(e), m).r
  {
    EmptyIsNoSequence(sc, e.key.props.tag, e.key.props.anchor, ParsedItems(e.key.items), m);
  }

  lemma EmptyIsNoSequence(sc: Scope, tag: Option<string>, anchor: Option<string>, items: seq<YNode>, m: Memory)
    requires EvalNode(sc, YNode(YSequence(items), tag, anchor), m).r.Ok?
    ensures EvalNode(sc, YNode(YNull, tag, anchor), m).r != EvalNode(sc, YNode(YSequence(items), tag, anchor), m).r
  {
    if tag.Some? {
      EmptyIsScalar(sc.config, ExpandTag(sc.handles, tag.value));
    }
    hide EmptyValue, EvalItems, ExpandTag, TagUndefined, IsCustom;
  }

  lemma EmptyIsScalar(c: Config, tag: string)
    ensures !EmptyValue(c, tag).value.Sequence?
  {
    hide Resolver.Classify;
  }

  // ----- Whole layouts -----

  // The composer makes the tree that a layout lays out exactly when none of its keys is an
  // indentless sequence.
  lemma ComposesExactly(t: Tree, rest: seq<Event>, seen: set<string>, d: nat, allow: bool)
    requires rest != [] && Readable(t, rest, allow) && d + Height(t) <= MAX_DEPTH && CG.Known(Ast(t), seen).Ok?
    ensures CG.MakesNode(CNode(RenderTree(t, rest), seen, d, allow), Ast(t), CG.Known(Ast(t), seen), rest, IsBareEmpty(t)) <==>
            PlainKeys(t)
  {
    CG.ComposesTree(t, rest, seen, d, allow);
    ParsedExactly(t);
  }

  // The decoder gives a layout the value of the tree it lays out exactly then.
  lemma DecodesExactly(sc: Scope, t: Tree, rest: seq<Event>, m: Memory, d: nat, allow: bool)
    requires rest != [] && Readable(t, rest, allow) && DG.KeepsTags(sc, t) && d + Height(t) <= MAX_DEPTH
    requires EvalNode(sc, Ast(t), m).r.Ok?
    ensures DG.Agrees(Node(sc, RenderTree(t, rest), m, d, allow), EvalNode(sc, Ast(t), m), rest, IsBareEmpty(t)) <==>
            PlainKeys(t)
  {
    hide EvalNode;
    DG.DecodesTree(sc, t, rest, m, d, allow);
    ParsedExactly(t);
    if !PlainKeys(t) {
      MeansOther(sc, t, m);
    }
  }

  lemma {:induction false} MeansOther(sc: Scope, t: Tree, m: Memory)
    requires !PlainKeys(t) && EvalNode(sc, Ast(t), m).r.Ok?
    ensures EvalNode(sc, Parsed(t), m).r != EvalNode(sc, Ast(t), m).r
    decreases t, 1
  {
    match t
    case BlockSeq(_, items) => ItemsMeanOther(sc, items, m, []);
    case Indentless(_, items) => ItemsMeanOther(sc, items, m, []);
    case FlowSeq(_, elements, _) => ElementsMeanOther(sc, elements, m, []);
    case Map(_, _, entries, _) => EntriesMeanOther(sc, entries, m, [], {});
  }

  // What is accumulated stays in front.
  lemma {:induction false} ItemsGrow(sc: Scope, items: seq<YNode>, m: Memory, acc: seq<Value>)
    ensures var o := EvalItems(sc, items, m, acc); o.r.Ok? ==> acc <= o.r.value
    decreases items, 0
  {
    hide EvalNode;
    if items != [] {
      var o := EvalNode(sc, items[0], m);
      if o.r.Ok? {
        ItemsGrow(sc, items[1..], o.mem, acc + [o.r.value]);
      }
    }
  }

  lemma {:induction false} PairsGrow(sc: Scope, pairs: seq<YPair>, m: Memory, acc: seq<Pair>, seen: set<string>)
    ensures var o := EvalPairs(sc, pairs, m, acc, seen); o.r.Ok? ==> acc <= o.r.value
    decreases pairs, 0
  {
    hide EvalPair;
    if pairs != [] {
      var o := EvalPair(sc, pairs[0], m);
      if o.r.Ok? {
        var checked := CheckKey(sc.config, seen, o.r.value.key);
        if checked.Ok? {
          PairsGrow(sc, pairs[1..], o.mem, acc + [o.r.value], checked.value);
        }
      }
    }
  }

  // From one node on that means something else, the whole does.
  lemma OtherFromHere(sc: Scope, a: YNode, s: seq<YNode>, b: YNode, t: seq<YNode>, m: Memory, acc: seq<Value>)
    requires EvalItems(sc, [b] + t, m, acc).r.Ok? && EvalNode(sc, a, m).r != EvalNode(sc, b, m).r
    ensures EvalItems(sc, [a] + s, m, acc).r != EvalItems(sc, [b] + t, m, acc).r
  {
    hide EvalNode;
    assert ([a] + s)[1..] == s && ([b] + t)[1..] == t;
    var x, y := EvalNode(sc, a, m), EvalNode(sc, b, m);
    ItemsGrow(sc, t, y.mem, acc + [y.r.value]);
    if x.r.Ok? {
      ItemsGrow(sc, s, x.mem, acc + [x.r.value]);
      assert (acc + [x.r.value])[|acc|] != (acc + [y.r.value])[|acc|];
    }
  }

  lemma OtherPairFromHere(
    sc: Scope, a: YPair, s: seq<YPair>, b: YPair, t: seq<YPair>, m: Memory, acc: seq<Pair>, seen: set<string>)
    requires EvalPairs(sc, [b] + t, m, acc, seen).r.Ok? && EvalPair(sc, a, m).r != EvalPair(sc, b, m).r
    ensures EvalPairs(sc, [a] + s, m, acc, seen).r != EvalPairs(sc, [b] + t, m, acc, seen).r
  {
    hide EvalPair;
    assert ([a] + s)[1..] == s && ([b] + t)[1..] == t;
    var x, y := EvalPair(sc, a, m), EvalPair(sc, b, m);
    var after := CheckKey(sc.config, seen, y.r.value.key);
    PairsGrow(sc, t, y.mem, acc + [y.r.value], after.value);
    if x.r.Ok? {
      var checked := CheckKey(sc.config, seen, x.r.value.key);
      if checked.Ok? {
        PairsGrow(sc, s, x.mem, acc + [x.r.value], checked.value);
        assert (acc + [x.r.value])[|acc|] != (acc + [y.r.value])[|acc|];
      }
    }
  }

  lemma {:induction false} ItemsMeanOther(sc: Scope, items: seq<Tree>, m: Memory, acc: seq<Value>)
    requires !ItemsHavePlainKeys(items) && EvalItems(sc, AstItems(items), m, acc).r.Ok?
    ensures EvalItems(sc, ParsedItems(items), m, acc).r != EvalItems(sc, AstItems(items), m, acc).r
    decreases items, 0
  {
    hide EvalNode;
    ParsedExactly(items[0]);
    if PlainKeys(items[0]) {
      var o := EvalNode(sc, Ast(items[0]), m);
      ItemsMeanOther(sc, items[1..], o.mem, acc + [o.r.value]);
    } else {
      MeansOther(sc, items[0], m);
      OtherFromHere(sc, Parsed(items[0]), ParsedItems(items[1..]), Ast(items[0]), AstItems(items[1..]), m, acc);
    }
  }

  lemma {:induction false} ElementsMeanOther(sc: Scope, elements: seq<Element>, m: Memory, acc: seq<Value>)
    requires !ElementsHavePlainKeys(elements) && EvalItems(sc, AstElements(elements), m, acc).r.Ok?
    ensures EvalItems(sc, ParsedElements(elements), m, acc).r != EvalItems(sc, AstElements(elements), m, acc).r
    decreases elements, 0
  {
    hide EvalNode;
    ElementParsedExactly(elements[0]);
    if ElementHasPlainKeys(elements[0]) {
      var o := EvalNode(sc, AstElement(elements[0]), m);
      ElementsMeanOther(sc, elements[1..], o.mem, acc + [o.r.value]);
    } else {
      ElementMeansOther(sc, elements[0], m);
      OtherFromHere(sc, ParsedElement(elements[0]), ParsedElements(elements[1..]), AstElement(elements[0]),
                    AstElements(elements[1..]), m, acc);
    }
  }

  lemma {:induction false} ElementMeansOther(sc: Scope, e: Element, m: Memory)
    requires !ElementHasPlainKeys(e) && EvalNode(sc, AstElement(e), m).r.Ok?
    ensures EvalNode(sc, ParsedElement(e), m).r != EvalNode(sc, AstElement(e), m).r
    decreases e, 3
  {
    match e
    case Single(node) => MeansOther(sc, node, m);
    case OfPair(entry) =>
      PairMeansOther(sc, entry, m);
      assert [PlainPair(entry)] == [PlainPair(entry)] + [] && [AstEntry(entry)] == [AstEntry(entry)] + [];
      OtherPairFromHere(sc, PlainPair(entry), [], AstEntry(entry), [], m, [], {});
  }

  lemma {:induction false} PairMeansOther(sc: Scope, e: Entry, m: Memory)
    requires !PairHasPlainKeys(e) && EvalPair(sc, AstEntry(e), m).r.Ok?
    ensures EvalPair(sc, PlainPair(e), m).r != EvalPair(sc, AstEntry(e), m).r
    decreases e, 2
  {
    hide EvalNode;
    ParsedExactly(e.key);
    if PlainKeys(e.key) {
      MeansOther(sc, e.val, EvalNode(sc, Ast(e.key), m).mem);
    } else {
      MeansOther(sc, e.key, m);
    }
  }

  lemma {:induction false} EntriesMeanOther(sc: Scope, entries: seq<Entry>, m: Memory, acc: seq<Pair>, seen: set<string>)
    requires !EntriesHavePlainKeys(entries) && EvalPairs(sc, AstEntries(entries), m, acc, seen).r.Ok?
    ensures EvalPairs(sc, ParsedEntries(entries), m, acc, seen).r != EvalPairs(sc, AstEntries(entries), m, acc, seen).r
    decreases entries, 0
  {
    hide EvalPair;
    var e, later := entries[0], entries[1..];
    if HasIndentlessKey(e) {
      EmptyMeansOther(sc, e, m);
      var more := (if e.Keyed? then [YPair(NULL_NODE, Parsed(e.val))] else []) + ParsedEntries(later);
      assert ParsedEntries(entries) == [MisreadPair(e)] + more;
      OtherPairFromHere(sc, MisreadPair(e), more, AstEntry(e), AstEntries(later), m, acc, seen);
    } else {
      PairParsedExactly(e);
      if PairHasPlainKeys(e) {
        var o := EvalPair(sc, AstEntry(e), m);
        EntriesMeanOther(sc, later, o.mem, acc + [o.r.value], CheckKey(sc.config, seen, o.r.value.key).value);
      } else {
        PairMeansOther(sc, e, m);
        OtherPairFromHere(sc, PlainPair(e), ParsedEntries(later), AstEntry(e), AstEntries(later), m, acc, seen);
      }
    }
  }

  lemma EmptyMeansOther(sc: Scope, e: Entry, m: Memory)
    requires HasIndentlessKey(e) && EvalPair(sc, AstEntry(e), m).r.Ok?
    ensures EvalPair(sc, MisreadPair(e), m).r != EvalPair(sc, AstEntry(e), m).r
  {
    EmptyIsNoSequence(sc, e.key.props.tag, e.key.props.anchor, AstItems(e.key.items), m);
  }

  // ----- A witness -----

  const NO_PROPS := Props(None, None, true)

  function QuotedNode(text: string): YNode { YNode(YScalar(text, Resolver.DoubleQuoted), None, None) }

  // `?`, `- "a"`, `: "v"`.
  function DashKey(): Entry { Keyed(true, Indentless(NO_PROPS, [DG.Quoted("a")]), DG.Quoted("v")) }

  // Instead of `v` at the key `[a]`, both parsers make two pairs without a key, `[a]` and `v`.
  lemma SequenceKeyIsLost(sc: Scope, t: Tree, ev: seq<Event>)
    requires !sc.config.duplicateKeysError && !sc.config.rejectComplexKeys
    requires t == Map(NO_PROPS, false, [DashKey()], false)
    requires ev == [MappingStart(false), Key(true), SequenceEntry, Scalar("a", Resolver.DoubleQuoted), ValueMark,
                    Scalar("v", Resolver.DoubleQuoted), BlockEnd, StreamEnd]
    ensures ev == RenderTree(t, [StreamEnd])
    ensures EvalNode(sc, Ast(t), FRESH).r == Ok(Mapping([Pair(Sequence([Str("a")]), Str("v"))]))
    ensures Node(sc, ev, FRESH, 0, false).r == Ok(Some(Mapping([Pair(Null, Sequence([Str("a")])), Pair(Null, Str("v"))])))
    ensures CNode(ev, {}, 0, false).r ==
            Ok(Some(YNode(YMapping([YPair(NULL_NODE, YNode(YSequence([QuotedNode("a")]), None, None)),
                                    YPair(NULL_NODE, QuotedNode("v"))]), None, None)))
  {
    DashKeyLayout(ev);
    DashKeyFits(sc, t);
    DashKeyTrees(t);
    DashKeyMeans(sc, t);
    DashKeyIsKnown();
    hide RenderTree, Readable, Height, DG.KeepsTags, Node, CNode, EvalNode, Parsed, Ast, CG.Known;
    DG.DecodesTree(sc, t, [StreamEnd], FRESH, 0, false);
    CG.ComposesTree(t, [StreamEnd], {}, 0, false);
  }

  lemma OneItemLayout(rest: seq<Event>)
    ensures RenderItems([DG.Quoted("a")], rest) == Push(SequenceEntry, Push(Scalar("a", Resolver.DoubleQuoted), rest))
    ensures rest != [] ==> ReadableItems([DG.Quoted("a")], rest)
    ensures HeightOfItems([DG.Quoted("a")]) == 1
  {
    assert [DG.Quoted("a")][1..] == [];
    assert RenderItems([], rest) == rest && HeightOfItems([]) == 0;
    assert rest != [] ==> ReadableItems([], rest);
  }

  lemma OneEntryLayout(e: Entry, rest: seq<Event>)
    ensures RenderEntries([e], false, false, rest) == RenderEntry(e, rest)
    ensures rest != [] && ReadableEntry(e, rest, true) && StandsBare(e, false, RenderEntry(e, rest)) ==>
              ReadableEntries([e], false, false, rest)
    ensures HeightOfEntries([e]) == HeightOfEntry(e)
  {
    assert [e][1..] == [];
    assert RenderEntries([], false, false, rest) == rest && HeightOfEntries([]) == 0;
    assert rest != [] ==> ReadableEntries([], false, false, rest);
  }

  lemma DashKeyLayout(ev: seq<Event>)
    requires ev == [MappingStart(false), Key(true), SequenceEntry, Scalar("a", Resolver.DoubleQuoted), ValueMark,
                    Scalar("v", Resolver.DoubleQuoted), BlockEnd, StreamEnd]
    ensures ev == RenderTree(Map(NO_PROPS, false, [DashKey()], false), [StreamEnd])
  {
    hide RenderTree, RenderEntry, RenderEntries, Readable, ReadableEntry, ReadableEntries;
    hide Height, HeightOfEntry, HeightOfEntries, DG.KeepsTags, DG.EntriesKeepTags;
    var end := Push(BlockEnd, [StreamEnd]);
    DashKeyEvents(end);
    OneEntryLayout(DashKey(), end);
    MapLayout([DashKey()], [StreamEnd]);
    EightEvents(MappingStart(false), Key(true), SequenceEntry, Scalar("a", Resolver.DoubleQuoted), ValueMark,
                Scalar("v", Resolver.DoubleQuoted), BlockEnd, StreamEnd);
  }

  lemma EightEvents(a: Event, b: Event, c: Event, d: Event, e: Event, f: Event, g: Event, h: Event)
    ensures Push(a, [b, c, d, e, f] + Push(g, [h])) == [a, b, c, d, e, f, g, h]
  {
  }

  lemma MapLayout(entries: seq<Entry>, rest: seq<Event>)
    requires rest != []
    ensures var t, end := Map(NO_PROPS, false, entries, false), Push(BlockEnd, rest);
            && RenderTree(t, rest) == Push(MappingStart(false), RenderEntries(entries, false, false, end))
            && (Readable(t, rest, false) <==> ReadableEntries(entries, false, false, end))
            && Height(t) == 1 + HeightOfEntries(entries)
            && forall sc :: DG.KeepsTags(sc, t) <==> DG.EntriesKeepTags(sc, entries)
  {
    hide RenderEntries, ReadableEntries, HeightOfEntries, DG.EntriesKeepTags;
  }

  lemma DashKeyEvents(end: seq<Event>)
    requires end != []
    ensures RenderEntry(DashKey(), end) ==
            [Key(true), SequenceEntry, Scalar("a", Resolver.DoubleQuoted), ValueMark, Scalar("v", Resolver.DoubleQuoted)] + end
    ensures ReadableEntry(DashKey(), end, true) && HeightOfEntry(DashKey()) == 2
  {
    var value := Push(ValueMark, Push(Scalar("v", Resolver.DoubleQuoted), end));
    OneItemLayout(value);
    hide RenderItems, ReadableItems, HeightOfItems;
    assert RenderTree(DG.Quoted("v"), end) == Push(Scalar("v", Resolver.DoubleQuoted), end);
  }

  lemma DashKeyFits(sc: Scope, t: Tree)
    requires t == Map(NO_PROPS, false, [DashKey()], false)
    ensures Readable(t, [StreamEnd], false) && DG.KeepsTags(sc, t) && Height(t) <= MAX_DEPTH
  {
    hide RenderTree, RenderEntry, RenderEntries, Readable, ReadableEntry, ReadableEntries;
    hide Height, HeightOfEntry, HeightOfEntries, DG.KeepsTags, DG.EntriesKeepTags;
    var end := Push(BlockEnd, [StreamEnd]);
    DashKeyEvents(end);
    OneEntryLayout(DashKey(), end);
    DashKeyKeepsTags(sc);
    MapLayout([DashKey()], [StreamEnd]);
  }

  lemma DashKeyKeepsTags(sc: Scope)
    ensures DG.EntriesKeepTags(sc, [DashKey()])
  {
    assert [DashKey()][1..] == [] && [DG.Quoted("a")][1..] == [];
    assert DG.ItemsKeepTags(sc, []) && DG.EntriesKeepTags(sc, []);
    assert DG.ItemsKeepTags(sc, [DG.Quoted("a")]);
  }

  lemma DashKeyTrees(t: Tree)
    requires t == Map(NO_PROPS, false, [DashKey()], false)
    ensures Parsed(t) == YNode(YMapping([YPair(NULL_NODE, YNode(YSequence([QuotedNode("a")]), None, None)),
                                         YPair(NULL_NODE, QuotedNode("v"))]), None, None)
    ensures Ast(t) == YNode(YMapping([YPair(YNode(YSequence([QuotedNode("a")]), None, None), QuotedNode("v"))]), None, None)
  {
    assert [DashKey()][1..] == [] && [DG.Quoted("a")][1..] == [];
    assert ParsedItems([]) == [] && AstItems([]) == [] && ParsedEntries([]) == [] && AstEntries([]) == [];
    assert ParsedItems([DG.Quoted("a")]) == [QuotedNode("a")] == AstItems([DG.Quoted("a")]);
    assert ParsedEntry(DashKey()) == [MisreadPair(DashKey()), YPair(NULL_NODE, QuotedNode("v"))];
    assert ParsedEntries([DashKey()]) == ParsedEntry(DashKey()) && AstEntries([DashKey()]) == [AstEntry(DashKey())];
  }

  lemma DashKeyIsKnown()
    ensures CG.Known(YNode(YMapping([YPair(NULL_NODE, YNode(YSequence([QuotedNode("a")]), None, None)),
                                     YPair(NULL_NODE, QuotedNode("v"))]), None, None), {}) == Ok({})
  {
    var first, second := YPair(NULL_NODE, YNode(YSequence([QuotedNode("a")]), None, None)), YPair(NULL_NODE, QuotedNode("v"));
    assert [QuotedNode("a")][1..] == [] && [first, second][1..] == [second] && [second][1..] == [];
    assert CG.KnownItems([], {}) == Ok({}) && CG.KnownPairs([], {}) == Ok({});
    assert CG.KnownItems([QuotedNode("a")], {}) == Ok({});
    assert CG.KnownPair(first, {}) == Ok({}) == CG.KnownPair(second, {});
    assert CG.KnownPairs([second], {}) == Ok({});
  }

  lemma QuotedMeans(sc: Scope, text: string)
    ensures EvalNode(sc, QuotedNode(text), FRESH) == Meaning(FRESH, Ok(Str(text)))
  {
  }

  lemma QuotedItemMeans(sc: Scope, text: string)
    ensures EvalNode(sc, YNode(YSequence([QuotedNode(text)]), None, None), FRESH) == Meaning(FRESH, Ok(Sequence([Str(text)])))
  {
    QuotedMeans(sc, text);
    assert [QuotedNode(text)][1..] == [] && [] + [Str(text)] == [Str(text)];
    assert EvalItems(sc, [], FRESH, [Str(text)]) == Meaning(FRESH, Ok([Str(text)]));
    assert EvalItems(sc, [QuotedNode(text)], FRESH, []) == Meaning(FRESH, Ok([Str(text)]));
  }

  lemma PairsMean(sc: Scope, first: YPair, a: Pair, more: seq<YPair>, b: seq<Pair>, acc: seq<Pair>)
    requires !sc.config.duplicateKeysError && !sc.config.rejectComplexKeys
    requires EvalPair(sc, first, FRESH) == Meaning(FRESH, Ok(a))
    requires EvalPairs(sc, more, FRESH, acc + [a], {}) == Meaning(FRESH, Ok(acc + [a] + b))
    ensures EvalPairs(sc, [first] + more, FRESH, acc, {}) == Meaning(FRESH, Ok(acc + [a] + b))
  {
    hide EvalPair;
    assert ([first] + more)[1..] == more;
  }

  lemma DashKeyMeans(sc: Scope, t: Tree)
    requires !sc.config.duplicateKeysError && !sc.config.rejectComplexKeys
    requires t == Map(NO_PROPS, false, [DashKey()], false)
    ensures EvalNode(sc, Parsed(t), FRESH) ==
            Meaning(FRESH, Ok(Mapping([Pair(Null, Sequence([Str("a")])), Pair(Null, Str("v"))])))
    ensures EvalNode(sc, Ast(t), FRESH).r == Ok(Mapping([Pair(Sequence([Str("a")]), Str("v"))]))
  {
    DashKeyTrees(t);
    var dashes, v := YNode(YSequence([QuotedNode("a")]), None, None), QuotedNode("v");
    var a, b, whole := Pair(Null, Sequence([Str("a")])), Pair(Null, Str("v")), Pair(Sequence([Str("a")]), Str("v"));
    QuotedMeans(sc, "v");
    QuotedItemMeans(sc, "a");
    DG.NothingMeans(sc, FRESH);
    TreesMean(sc, dashes, v, a, b, whole);
  }

  lemma TreesMean(sc: Scope, dashes: YNode, v: YNode, a: Pair, b: Pair, whole: Pair)
    requires !sc.config.duplicateKeysError && !sc.config.rejectComplexKeys
    requires EvalNode(sc, dashes, FRESH) == Meaning(FRESH, Ok(whole.key))
    requires EvalNode(sc, v, FRESH) == Meaning(FRESH, Ok(whole.val))
    requires EvalNode(sc, NULL_NODE, FRESH) == Meaning(FRESH, Ok(Null))
    requires a == Pair(Null, whole.key) && b == Pair(Null, whole.val)
    ensures EvalNode(sc, YNode(YMapping([YPair(NULL_NODE, dashes), YPair(NULL_NODE, v)]), None, None), FRESH) ==
            Meaning(FRESH, Ok(Mapping([a, b])))
    ensures EvalNode(sc, YNode(YMapping([YPair(dashes, v)]), None, None), FRESH) == Meaning(FRESH, Ok(Mapping([whole])))
  {
    assert [] + [a] == [a] && [a] + [b] == [a, b] && [a] + [b] + [] == [a, b];
    assert [] + [whole] == [whole] && [] + [whole] + [] == [whole];
    PairsMean(sc, YPair(NULL_NODE, v), b, [], [], [a]);
    assert [YPair(NULL_NODE, v)] + [] == [YPair(NULL_NODE, v)];
    assert [] + [a] + [b] == [a, b];
    PairsMean(sc, YPair(NULL_NODE, dashes), a, [YPair(NULL_NODE, v)], [b], []);
    assert [YPair(NULL_NODE, dashes)] + [YPair(NULL_NODE, v)] == [YPair(NULL_NODE, dashes), YPair(NULL_NODE, v)];
    PairsMean(sc, YPair(dashes, v), whole, [], [], []);
    assert [YPair(dashes, v)] + [] == [YPair(dashes, v)];
  }
}
