// The composer inverts the event grammar too, and so agrees with the decoder: it fails only
// on an alias without an anchor before it, and its tree has the value that the decoder makes.
module ComposeGrammar {
  import opened Wrappers
  import opened Seqs
  import opened Values
  import opened Events
  import opened Decode
  import opened Syntax
  import opened Grammar
  import opened Compose
  import DecodeGrammar

  // ----- Which aliases are known -----

  // The anchors seen after a tree, or the first alias that names none before it or has
  // properties.
  function Known(n: YNode, seen: set<string>): Result<set<string>, Error>
    decreases n, 1
  {
    var after :=
      match n.kind
      case YAlias(name) =>
        if n.tag.Some? || n.anchor.Some? then Err(AliasWithProperties)
        else if name in seen then Ok(seen)
        else Err(UnknownAlias(name))
      case YSequence(items) => KnownItems(items, seen)
      case YMapping(pairs) => KnownPairs(pairs, seen)
      case _ => Ok(seen);
    match after
    case Err(x) => Err(x)
    case Ok(now) => Ok(if n.anchor.Some? then now + {n.anchor.value} else now)
  }

  function KnownItems(items: seq<YNode>, seen: set<string>): Result<set<string>, Error>
    decreases items, 0
  {
    if items == [] then Ok(seen)
    else
      match Known(items[0], seen)
      case Err(x) => Err(x)
      case Ok(now) => KnownItems(items[1..], now)
  }

  function KnownPair(p: YPair, seen: set<string>): Result<set<string>, Error>
    decreases p, 2
  {
    match Known(p.key, seen)
    case Err(x) => Err(x)
    case Ok(now) => Known(p.val, now)
  }

  function KnownPairs(pairs: seq<YPair>, seen: set<string>): Result<set<string>, Error>
    decreases pairs, 0
  {
    if pairs == [] then Ok(seen)
    else
      match KnownPair(pairs[0], seen)
      case Err(x) => Err(x)
      case Ok(now) => KnownPairs(pairs[1..], now)
  }

  // Where a tree has a value, every alias is known, and the anchors seen are those bound.
  lemma {:induction false} ValuedIsKnown(sc: Scope, n: YNode, m: Memory)
    requires EvalNode(sc, n, m).r.Ok?
    ensures Known(n, m.anchors.Keys) == Ok(EvalNode(sc, n, m).mem.anchors.Keys)
    decreases n, 1
  {
    var tag := Expanded(sc, n.tag);
    match n.kind
    case YNull =>
      if tag.None? {
        RememberedKeys(m, n.anchor, Null);
      } else {
        var r := EmptyValue(sc.config, tag.value);
        RememberedKeys(NoteMerge(m, r.merges), n.anchor, WithTag(tag, r.value));
      }
    case YScalar(text, style) =>
      var r := ScalarValue(sc.config, text, style, tag);
      RememberedKeys(NoteMerge(m, r.merges), n.anchor, WithTag(tag, r.value));
    case YAlias(_) =>
    case YSequence(items) =>
      ValuedItemsAreKnown(sc, items, m, []);
      var o := EvalItems(sc, items, m, []);
      RememberedKeys(o.mem, n.anchor, WithTag(tag, Sequence(o.r.value)));
    case YMapping(pairs) =>
      ValuedPairsAreKnown(sc, pairs, m, [], {});
      var o := EvalPairs(sc, pairs, m, [], {});
      RememberedKeys(o.mem, n.anchor, WithTag(tag, Mapping(o.r.value)));
  }

  lemma RememberedKeys(m: Memory, anchor: Option<string>, v: Value)
    ensures Remember(m, anchor, v).anchors.Keys ==
            if anchor.Some? then m.anchors.Keys + {anchor.value} else m.anchors.Keys
  {
  }

  lemma {:induction false} ValuedItemsAreKnown(sc: Scope, items: seq<YNode>, m: Memory, acc: seq<Value>)
    requires EvalItems(sc, items, m, acc).r.Ok?
    ensures KnownItems(items, m.anchors.Keys) == Ok(EvalItems(sc, items, m, acc).mem.anchors.Keys)
    decreases items, 0
  {
    if items != [] {
      var o := EvalNode(sc, items[0], m);
      ValuedIsKnown(sc, items[0], m);
      ValuedItemsAreKnown(sc, items[1..], o.mem, acc + [o.r.value]);
    }
  }

  lemma {:induction false} ValuedPairIsKnown(sc: Scope, p: YPair, m: Memory)
    requires EvalPair(sc, p, m).r.Ok?
    ensures KnownPair(p, m.anchors.Keys) == Ok(EvalPair(sc, p, m).mem.anchors.Keys)
    decreases p, 2
  {
    ValuedIsKnown(sc, p.key, m);
    ValuedIsKnown(sc, p.val, EvalNode(sc, p.key, m).mem);
  }

  lemma {:induction false} ValuedPairsAreKnown(sc: Scope, pairs: seq<YPair>, m: Memory, acc: seq<Pair>, seen: set<string>)
    requires EvalPairs(sc, pairs, m, acc, seen).r.Ok?
    ensures KnownPairs(pairs, m.anchors.Keys) == Ok(EvalPairs(sc, pairs, m, acc, seen).mem.anchors.Keys)
    decreases pairs, 0
  {
    if pairs != [] {
      var o := EvalPair(sc, pairs[0], m);
      ValuedPairIsKnown(sc, pairs[0], m);
      var checked := CheckKey(sc.config, seen, o.r.value.key);
      ValuedPairsAreKnown(sc, pairs[1..], o.mem, acc + [o.r.value], checked.value);
    }
  }

  // What can still fail is the value: a tag's handle, a refused or repeated key, or too many
  // nodes.
  predicate IsValueError(e: Error) { e in {UndefinedHandle, TooManyNodes, ComplexKey, DuplicateKey} }

  predicate FailsOnValue<T>(r: Result<T, Error>) { r.Err? ==> IsValueError(r.error) }

  lemma {:induction false} KnownFailsOnValue(sc: Scope, n: YNode, m: Memory)
    requires Known(n, m.anchors.Keys).Ok?
    ensures FailsOnValue(EvalNode(sc, n, m).r)
    decreases n, 1
  {
    match n.kind
    case YSequence(items) => KnownItemsFailOnValue(sc, items, m, []);
    case YMapping(pairs) => KnownPairsFailOnValue(sc, pairs, m, [], {});
    case _ =>
  }

  lemma {:induction false} KnownItemsFailOnValue(sc: Scope, items: seq<YNode>, m: Memory, acc: seq<Value>)
    requires KnownItems(items, m.anchors.Keys).Ok?
    ensures FailsOnValue(EvalItems(sc, items, m, acc).r)
    decreases items, 0
  {
    if items != [] {
      KnownFailsOnValue(sc, items[0], m);
      var o := EvalNode(sc, items[0], m);
      if o.r.Ok? {
        ValuedIsKnown(sc, items[0], m);
        KnownItemsFailOnValue(sc, items[1..], o.mem, acc + [o.r.value]);
      }
    }
  }

  lemma {:induction false} KnownPairFailsOnValue(sc: Scope, p: YPair, m: Memory)
    requires KnownPair(p, m.anchors.Keys).Ok?
    ensures FailsOnValue(EvalPair(sc, p, m).r)
    decreases p, 2
  {
    KnownFailsOnValue(sc, p.key, m);
    var k := EvalNode(sc, p.key, m);
    if k.r.Ok? {
      ValuedIsKnown(sc, p.key, m);
      KnownFailsOnValue(sc, p.val, k.mem);
    }
  }

  lemma {:induction false} KnownPairsFailOnValue(sc: Scope, pairs: seq<YPair>, m: Memory, acc: seq<Pair>, seen: set<string>)
    requires KnownPairs(pairs, m.anchors.Keys).Ok?
    ensures FailsOnValue(EvalPairs(sc, pairs, m, acc, seen).r)
    decreases pairs, 0
  {
    if pairs != [] {
      KnownPairFailsOnValue(sc, pairs[0], m);
      var o := EvalPair(sc, pairs[0], m);
      if o.r.Ok? {
        ValuedPairIsKnown(sc, pairs[0], m);
        var checked := CheckKey(sc.config, seen, o.r.value.key);
        if checked.Ok? {
          KnownPairsFailOnValue(sc, pairs[1..], o.mem, acc + [o.r.value], checked.value);
        }
      }
    }
  }

  // ----- The composer inverts the grammar -----

  predicate MakesNode(o: Made<Option<YNode>>, n: YNode, known: Result<set<string>, Error>, rest: seq<Event>, bare: bool) {
    match known
    case Ok(now) => o == Made(rest, now, Ok(if bare then None else Some(n))) && (bare ==> n == NULL_NODE)
    case Err(x) => o.r == Err(x)
  }

  predicate Makes<T(==)>(o: Made<T>, made: T, known: Result<set<string>, Error>, rest: seq<Event>) {
    match known
    case Ok(now) => o == Made(rest, now, Ok(made))
    case Err(x) => o.r == Err(x)
  }

  lemma ReadsProps(p: Props, rest: seq<Event>, seen: set<string>, d: nat, allow: bool)
    requires rest != [] && !DecodeGrammar.IsProperty(rest[0])
    ensures CInner(RenderProps(p, rest), seen, d, allow, None, None) == CContent(rest, seen, d, allow, p.tag, p.anchor)
  {
    if p.tagFirst {
      ReadsTag(p.tag, RenderAnchor(p.anchor, rest), seen, d, allow, None);
      ReadsAnchor(p.anchor, rest, seen, d, allow, p.tag);
    } else {
      ReadsAnchor(p.anchor, RenderTag(p.tag, rest), seen, d, allow, None);
      ReadsTag(p.tag, rest, seen, d, allow, p.anchor);
    }
    ReadsContent(rest, seen, d, allow, p.tag, p.anchor);
  }

  lemma ReadsContent(rest: seq<Event>, seen: set<string>, d: nat, allow: bool, tag: Option<string>, anchor: Option<string>)
    requires rest != [] && !DecodeGrammar.IsProperty(rest[0])
    ensures CInner(rest, seen, d, allow, tag, anchor) == CContent(rest, seen, d, allow, tag, anchor)
  {
  }

  lemma ReadsTag(tag: Option<string>, rest: seq<Event>, seen: set<string>, d: nat, allow: bool, anchor: Option<string>)
    ensures CInner(RenderTag(tag, rest), seen, d, allow, None, anchor) == CInner(rest, seen, d, allow, tag, anchor)
  {
  }

  lemma ReadsAnchor(anchor: Option<string>, rest: seq<Event>, seen: set<string>, d: nat, allow: bool, tag: Option<string>)
    ensures CInner(RenderAnchor(anchor, rest), seen, d, allow, tag, None) == CInner(rest, seen, d, allow, tag, anchor)
  {
  }

  lemma ReadsNothing(rest: seq<Event>, seen: set<string>, d: nat, allow: bool)
    requires rest != [] && EndsNode(rest[0], allow) && d + 1 <= MAX_DEPTH
    ensures CNode(rest, seen, d, allow) == Made(rest, seen, Ok(None))
  {
    ReadsContent(rest, seen, d + 1, allow, None, None);
  }

  // From the events of any readable layout the composer makes exactly the tree parsed of it.
  lemma {:induction false} ComposesTree(t: Tree, rest: seq<Event>, seen: set<string>, d: nat, allow: bool)
    requires rest != [] && Readable(t, rest, allow) && d + Height(t) <= MAX_DEPTH
    ensures MakesNode(CNode(RenderTree(t, rest), seen, d, allow), Parsed(t), Known(Parsed(t), seen), rest, IsBareEmpty(t))
    decreases t, 2
  {
    hide CInner, Known, RenderTree, Readable, Parsed;
    ComposesInner(t, rest, seen, d + 1, allow);
  }

  lemma {:induction false} ComposesInner(t: Tree, rest: seq<Event>, seen: set<string>, d: nat, allow: bool)
    requires rest != [] && Readable(t, rest, allow) && d + Height(t) <= MAX_DEPTH + 1
    ensures MakesNode(CInner(RenderTree(t, rest), seen, d, allow, None, None), Parsed(t), Known(Parsed(t), seen),
            rest, IsBareEmpty(t))
    decreases t, 1
  {
    hide CInner, Known, RenderTree, Parsed;
    match t
    case Leaf(_, _, _) => ComposesLeaf(t, rest, seen, d, allow);
    case AliasTo(_) => ComposesLeaf(t, rest, seen, d, allow);
    case Empty(_) => ComposesEmpty(t, rest, seen, d, allow);
    case BlockSeq(_, _) => ComposesBlockSeq(t, rest, seen, d, allow);
    case Indentless(_, _) => ComposesIndentlessSeq(t, rest, seen, d);
    case FlowSeq(_, _, _) => ComposesFlowSeq(t, rest, seen, d, allow);
    case Map(_, _, _, _) => ComposesMap(t, rest, seen, d, allow);
  }

  lemma ComposesEmpty(t: Tree, rest: seq<Event>, seen: set<string>, d: nat, allow: bool)
    requires t.Empty? && rest != [] && EndsNode(rest[0], allow)
    ensures MakesNode(CInner(RenderTree(t, rest), seen, d, allow, None, None), Parsed(t), Known(Parsed(t), seen),
            rest, IsBareEmpty(t))
  {
    ReadsProps(t.props, rest, seen, d, allow);
  }

  lemma ComposesLeaf(t: Tree, rest: seq<Event>, seen: set<string>, d: nat, allow: bool)
    requires t.Leaf? || t.AliasTo?
    ensures MakesNode(CInner(RenderTree(t, rest), seen, d, allow, None, None), Parsed(t), Known(Parsed(t), seen), rest, false)
  {
    if t.Leaf? {
      ReadsProps(t.props, Push(Scalar(t.text, t.style), rest), seen, d, allow);
    } else {
      ReadsContent(Push(Alias(t.name), rest), seen, d, allow, None, None);
    }
  }

  lemma {:induction false} ComposesBlockSeq(t: Tree, rest: seq<Event>, seen: set<string>, d: nat, allow: bool)
    requires t.BlockSeq? && rest != [] && Readable(t, rest, allow) && d + Height(t) <= MAX_DEPTH + 1
    ensures MakesNode(CInner(RenderTree(t, rest), seen, d, allow, None, None), Parsed(t), Known(Parsed(t), seen), rest, false)
    decreases t, 0
  {
    ComposesItems(t.items, rest, seen, d, []);
    var start := Push(SequenceStart(false), RenderItems(t.items, Push(BlockEnd, rest)));
    ReadsProps(t.props, start, seen, d, allow);
    assert [] + ParsedItems(t.items) == ParsedItems(t.items);
    FinishSequence(ParsedItems(t.items), start, rest, seen, d, allow, t.props);
  }

  lemma {:induction false} ComposesIndentlessSeq(t: Tree, rest: seq<Event>, seen: set<string>, d: nat)
    requires t.Indentless? && rest != [] && Readable(t, rest, true) && d + Height(t) <= MAX_DEPTH + 1
    ensures MakesNode(CInner(RenderTree(t, rest), seen, d, true, None, None), Parsed(t), Known(Parsed(t), seen), rest, false)
    decreases t, 0
  {
    ComposesIndentless(t.items, rest, seen, d, []);
    ReadsProps(t.props, RenderItems(t.items, rest), seen, d, true);
    assert [] + ParsedItems(t.items) == ParsedItems(t.items);
    FinishIndentless(ParsedItems(t.items), RenderItems(t.items, rest), rest, seen, d, t.props);
  }

  lemma {:induction false} ComposesFlowSeq(t: Tree, rest: seq<Event>, seen: set<string>, d: nat, allow: bool)
    requires t.FlowSeq? && rest != [] && Readable(t, rest, allow) && d + Height(t) <= MAX_DEPTH + 1
    ensures MakesNode(CInner(RenderTree(t, rest), seen, d, allow, None, None), Parsed(t), Known(Parsed(t), seen), rest, false)
    decreases t, 0
  {
    ComposesElements(t.elements, t.trailing, rest, seen, d, [], true);
    var start := Push(SequenceStart(true), RenderElements(t.elements, t.trailing, Push(SequenceEnd, rest)));
    ReadsProps(t.props, start, seen, d, allow);
    assert [] + ParsedElements(t.elements) == ParsedElements(t.elements);
    FinishSequence(ParsedElements(t.elements), start, rest, seen, d, allow, t.props);
  }

  lemma {:induction false} ComposesMap(t: Tree, rest: seq<Event>, seen: set<string>, d: nat, allow: bool)
    requires t.Map? && rest != [] && Readable(t, rest, allow) && d + Height(t) <= MAX_DEPTH + 1
    ensures MakesNode(CInner(RenderTree(t, rest), seen, d, allow, None, None), Parsed(t), Known(Parsed(t), seen), rest, false)
    decreases t, 0
  {
    ComposesEntries(t.entries, t.flow, t.trailing, rest, seen, d, []);
    var start :=
      Push(MappingStart(t.flow), RenderEntries(t.entries, t.flow, t.trailing, Push(CloseMap(t.flow), rest)));
    ReadsProps(t.props, start, seen, d, allow);
    assert [] + ParsedEntries(t.entries) == ParsedEntries(t.entries);
    FinishMapping(ParsedEntries(t.entries), start, rest, seen, d, allow, t.props);
  }

  lemma FinishSequence(items: seq<YNode>, start: seq<Event>, rest: seq<Event>, seen: set<string>, d: nat, allow: bool, p: Props)
    requires start != [] && start[0].SequenceStart?
    requires Makes(CItems(start[1..], seen, d, start[0].flow, []), items, KnownItems(items, seen), rest)
    ensures var n := YNode(YSequence(items), p.tag, p.anchor);
            MakesNode(CContent(start, seen, d, allow, p.tag, p.anchor), n, Known(n, seen), rest, false)
  {
  }

  lemma FinishIndentless(items: seq<YNode>, start: seq<Event>, rest: seq<Event>, seen: set<string>, d: nat, p: Props)
    requires start != [] && start[0].SequenceEntry?
    requires Makes(CBlockItems(start, seen, d, []), items, KnownItems(items, seen), rest)
    ensures var n := YNode(YSequence(items), p.tag, p.anchor);
            MakesNode(CContent(start, seen, d, true, p.tag, p.anchor), n, Known(n, seen), rest, false)
  {
  }

  lemma FinishMapping(pairs: seq<YPair>, start: seq<Event>, rest: seq<Event>, seen: set<string>, d: nat, allow: bool, p: Props)
    requires start != [] && start[0].MappingStart?
    requires Makes(CPairs(start[1..], seen, d, start[0].flow, []), pairs, KnownPairs(pairs, seen), rest)
    ensures var n := YNode(YMapping(pairs), p.tag, p.anchor);
            MakesNode(CContent(start, seen, d, allow, p.tag, p.anchor), n, Known(n, seen), rest, false)
  {
  }

  // ----- Sequences -----

  // A block entry, there or empty.
  lemma {:induction false} ComposesBlockEntry(t: Tree, more: seq<Event>, seen: set<string>, d: nat)
    requires more != [] && (IsBareEmpty(t) ==> EndsIndentlessItem(more[0]))
    requires Readable(t, more, false) && d + HeightOfItem(t) <= MAX_DEPTH
    ensures MakesNode(CBlockEntry(RenderTree(t, more), seen, d), Parsed(t), Known(Parsed(t), seen), more, false)
    decreases t, 3
  {
    if !IsBareEmpty(t) {
      ComposesTree(t, more, seen, d, false);
      DecodeGrammar.ItemStarts(t, more);
      EntryIsNode(RenderTree(t, more), seen, d);
    }
  }

  lemma EntryIsNode(ev: seq<Event>, seen: set<string>, d: nat)
    requires ev != [] && !EndsIndentlessItem(ev[0])
    ensures CBlockEntry(ev, seen, d) == CNode(ev, seen, d, false)
  {
  }

  lemma {:induction false} ComposesItems(items: seq<Tree>, rest: seq<Event>, seen: set<string>, d: nat, acc: seq<YNode>)
    requires ReadableItems(items, Push(BlockEnd, rest)) && d + HeightOfItems(items) <= MAX_DEPTH
    ensures Makes(CItems(RenderItems(items, Push(BlockEnd, rest)), seen, d, false, acc), acc + ParsedItems(items),
                  KnownItems(ParsedItems(items), seen), rest)
    decreases items, 0
  {
    if items == [] {
      assert acc + ParsedItems(items) == acc;
    } else {
      var more := RenderItems(items[1..], Push(BlockEnd, rest));
      ComposesBlockEntry(items[0], more, seen, d);
      var k := Known(Parsed(items[0]), seen);
      if k.Ok? {
        ComposesItems(items[1..], rest, k.value, d, acc + [Parsed(items[0])]);
        Regroup(acc, [Parsed(items[0])], ParsedItems(items[1..]));
      }
    }
  }

  lemma {:induction false} ComposesIndentless(items: seq<Tree>, rest: seq<Event>, seen: set<string>, d: nat, acc: seq<YNode>)
    requires rest != [] && !(rest[0] in {SequenceEntry, MappingEnd})
    requires ReadableItems(items, rest) && d + HeightOfItems(items) <= MAX_DEPTH
    ensures Makes(CBlockItems(RenderItems(items, rest), seen, d, acc), acc + ParsedItems(items),
                  KnownItems(ParsedItems(items), seen), rest)
    decreases items, 0
  {
    if items == [] {
      assert acc + ParsedItems(items) == acc;
    } else {
      var more := RenderItems(items[1..], rest);
      ComposesBlockEntry(items[0], more, seen, d);
      var k := Known(Parsed(items[0]), seen);
      if k.Ok? {
        ComposesIndentless(items[1..], rest, k.value, d, acc + [Parsed(items[0])]);
        Regroup(acc, [Parsed(items[0])], ParsedItems(items[1..]));
      }
    }
  }

  // At the first element, or after an element: then a comma comes first, if any does.
  lemma {:induction false} ComposesElements(elements: seq<Element>, trailing: bool, rest: seq<Event>, seen: set<string>,
                                            d: nat, acc: seq<YNode>, first: bool)
    requires ReadableElements(elements, trailing, Push(SequenceEnd, rest))
    requires d + HeightOfElements(elements) <= MAX_DEPTH && (first || d < MAX_DEPTH)
    ensures var ev := RenderElements(elements, trailing, Push(SequenceEnd, rest));
            Makes(CItems(if first then ev else Comma(elements != [] || trailing, ev), seen, d, true, acc),
                  acc + ParsedElements(elements), KnownItems(ParsedElements(elements), seen), rest)
    decreases elements, 0
  {
    var ev := RenderElements(elements, trailing, Push(SequenceEnd, rest));
    if elements == [] {
      assert acc + ParsedElements(elements) == acc;
      if !first {
        ReadsNothing(ev, seen, d, false);
      }
    } else {
      var more := Comma(|elements| > 1 || trailing, RenderElements(elements[1..], trailing, Push(SequenceEnd, rest)));
      ComposesElement(elements[0], more, seen, d);
      DecodeGrammar.ElementStarts(elements[0], more);
      var k := Known(ParsedElement(elements[0]), seen);
      ElementRound(RenderElement(elements[0], more), more, ParsedElement(elements[0]), k, seen, d, acc, first);
      if k.Ok? {
        ComposesElements(elements[1..], trailing, rest, k.value, d, acc + [ParsedElement(elements[0])], false);
        Regroup(acc, [ParsedElement(elements[0])], ParsedElements(elements[1..]));
      }
    }
  }

  // One round of the loop over a flow sequence.
  lemma ElementRound(ev: seq<Event>, more: seq<Event>, n: YNode, known: Result<set<string>, Error>, seen: set<string>, d: nat,
                     acc: seq<YNode>, first: bool)
    requires |ev| > |more| && MakesNode(CItem(ev, seen, d, true), n, known, more, false)
    requires DecodeGrammar.IsProperty(ev[0]) || IsNodeStart(ev[0], false) || ev[0].Key? || ev[0].ValueMark?
    ensures var all := CItems(if first then ev else Push(FlowEntry, ev), seen, d, true, acc);
            if known.Ok? then all == CItems(more, known.value, d, true, acc + [n]) else all.r == Err(known.error)
  {
    hide CItem;
  }

  lemma {:induction false} ComposesElement(e: Element, rest: seq<Event>, seen: set<string>, d: nat)
    requires rest != [] && ReadableElement(e, rest) && d + HeightOfElement(e) <= MAX_DEPTH && !rest[0].ValueMark?
    ensures MakesNode(CItem(RenderElement(e, rest), seen, d, true), ParsedElement(e), Known(ParsedElement(e), seen), rest, false)
    decreases e, 3
  {
    match e
    case Single(node) =>
      ComposesTree(node, rest, seen, d, false);
      DecodeGrammar.TreeStarts(node, rest);
    case OfPair(entry) =>
      KnownOnePair(entry, seen);
      if entry.Bare? {
        ComposesBareItem(entry, rest, seen, d);
      } else {
        ComposesKeyed(entry, rest, seen, d, false);
      }
  }

  lemma KnownOnePair(entry: Entry, seen: set<string>)
    ensures Known(YNode(YMapping([PlainPair(entry)]), None, None), seen) == KnownPair(PlainPair(entry), seen)
  {
    var pairs := [PlainPair(entry)];
    assert pairs[0] == PlainPair(entry) && pairs[1..] == [];
    var k := KnownPair(PlainPair(entry), seen);
    if k.Ok? {
      assert KnownPairs([], k.value) == Ok(k.value);
    }
    assert KnownPairs(pairs, seen) == k;
  }

  lemma {:induction false} ComposesBareItem(e: Entry, rest: seq<Event>, seen: set<string>, d: nat)
    requires e.Bare? && rest != [] && ReadableEntry(e, rest, false) && Readable(e.val, rest, false)
    requires d + HeightOfEntry(e) <= MAX_DEPTH
    ensures var k := KnownPair(PlainPair(e), seen);
            var o := CItem(RenderEntry(e, rest), seen, d, true);
            if k.Ok? then o == Made(rest, k.value, Ok(Some(YNode(YMapping([PlainPair(e)]), None, None))))
            else o.r == Err(k.error)
    decreases e, 1
  {
    ComposesBareItemKey(e, rest, seen, d);
    var k := Known(Parsed(e.key), seen);
    if k.Ok? {
      ComposesValue(e.val, rest, k.value, d, false, Parsed(e.key));
    }
  }

  lemma {:induction false} ComposesBareItemKey(e: Entry, rest: seq<Event>, seen: set<string>, d: nat)
    requires e.Bare? && rest != [] && ReadableEntry(e, rest, false) && d + HeightOfEntry(e) <= MAX_DEPTH
    ensures var k, o := Known(Parsed(e.key), seen), CItem(RenderEntry(e, rest), seen, d, true);
            if k.Ok? then o == CPairNode(CPairValue(RenderTree(e.val, rest), k.value, d, false, Parsed(e.key)))
            else o.r == Err(k.error)
    decreases e, 0
  {
    hide CNode, CPairValue;
    var after := RenderTree(e.val, rest);
    var mark := Push(ValueMark, after);
    if !IsBareEmpty(e.key) {
      ComposesTree(e.key, mark, seen, d, false);
      DecodeGrammar.TreeStarts(e.key, mark);
      BareItemRound(RenderTree(e.key, mark), after, Parsed(e.key), Known(Parsed(e.key), seen), seen, d);
    }
  }

  lemma BareItemRound(ev: seq<Event>, after: seq<Event>, n: YNode, known: Result<set<string>, Error>, seen: set<string>, d: nat)
    requires ev != [] && !ev[0].Key? && !ev[0].ValueMark?
    requires MakesNode(CNode(ev, seen, d, false), n, known, Push(ValueMark, after), false)
    ensures var o := CItem(ev, seen, d, true);
            if known.Ok? then o == CPairNode(CPairValue(after, known.value, d, false, n)) else o.r == Err(known.error)
  {
    hide CNode, CPairValue;
  }

  // ----- Pairs -----

  lemma {:induction false} ComposesValue(t: Tree, rest: seq<Event>, seen: set<string>, d: nat, allow: bool, key: YNode)
    requires rest != [] && Readable(t, rest, allow) && d + Height(t) <= MAX_DEPTH
    ensures Makes(CPairValue(RenderTree(t, rest), seen, d, allow, key), YPair(key, Parsed(t)), Known(Parsed(t), seen), rest)
    decreases t, 3
  {
    ComposesTree(t, rest, seen, d, allow);
  }

  lemma {:induction false} ComposesKeyed(e: Entry, rest: seq<Event>, seen: set<string>, d: nat, allow: bool)
    requires (e.Keyed? || e.KeyOnly?) && rest != [] && ReadableEntry(e, rest, false)
    requires (e.Keyed? ==> Readable(e.val, rest, allow)) && d + HeightOfEntry(e) <= MAX_DEPTH
    ensures RenderEntry(e, rest)[0].Key?
    ensures Makes(CKeyedPair(RenderEntry(e, rest)[1..], seen, d, allow), PlainPair(e), KnownPair(PlainPair(e), seen), rest)
    decreases e, 1
  {
    var k := Known(Parsed(e.key), seen);
    if e.Keyed? {
      ComposesTree(e.key, Push(ValueMark, RenderTree(e.val, rest)), seen, d, false);
      if k.Ok? {
        ComposesValue(e.val, rest, k.value, d, allow, Parsed(e.key));
      }
    } else {
      ComposesTree(e.key, rest, seen, d, false);
      if k.Ok? {
        ReadsNothing(rest, k.value, d, allow);
      }
    }
  }

  lemma {:induction false} ComposesBare(e: Entry, rest: seq<Event>, seen: set<string>, d: nat, flow: bool)
    requires (e.Bare? || e.BareKey?) && rest != [] && ReadableEntry(e, rest, false) && d + HeightOfEntry(e) <= MAX_DEPTH
    requires RenderEntry(e, rest) != [] && StandsBare(e, flow, RenderEntry(e, rest))
    ensures Makes(CBarePair(RenderEntry(e, rest), seen, d, flow), PlainPair(e), KnownPair(PlainPair(e), seen), rest)
    decreases e, 1
  {
    var k := Known(Parsed(e.key), seen);
    if e.Bare? {
      ComposesTree(e.key, Push(ValueMark, RenderTree(e.val, rest)), seen, d, false);
      if k.Ok? {
        ComposesValue(e.val, rest, k.value, d, true, Parsed(e.key));
      }
    } else {
      ComposesTree(e.key, rest, seen, d, false);
    }
  }

  lemma {:induction false} ComposesEntry(e: Entry, rest: seq<Event>, seen: set<string>, d: nat, flow: bool)
    requires rest != [] && ReadableEntry(e, rest, false) && StandsBare(e, flow, RenderEntry(e, rest))
    requires d + HeightOfEntry(e) <= MAX_DEPTH
    ensures RenderEntry(e, rest) != []
    ensures Makes(CEntry(RenderEntry(e, rest), seen, d, flow), PlainPair(e), KnownPair(PlainPair(e), seen), rest)
    decreases e, 2
  {
    DecodeGrammar.EntryStarts(e, rest);
    if e.Keyed? || e.KeyOnly? {
      ComposesKeyed(e, rest, seen, d, true);
    } else {
      ComposesBare(e, rest, seen, d, flow);
    }
  }

  lemma {:induction false} ComposesEntries(entries: seq<Entry>, flow: bool, trailing: bool, rest: seq<Event>,
                                           seen: set<string>, d: nat, acc: seq<YPair>)
    requires ReadableEntries(entries, flow, trailing, Push(CloseMap(flow), rest))
    requires d + HeightOfEntries(entries) <= MAX_DEPTH
    ensures Makes(CPairs(RenderEntries(entries, flow, trailing, Push(CloseMap(flow), rest)), seen, d, flow, acc),
                  acc + ParsedEntries(entries), KnownPairs(ParsedEntries(entries), seen), rest)
    decreases entries, 0
  {
    if entries == [] {
      assert acc + ParsedEntries(entries) == acc;
    } else {
      var later := RenderEntries(entries[1..], flow, trailing, Push(CloseMap(flow), rest));
      var first, more := ParsedEntry(entries[0]), ParsedEntries(entries[1..]);
      ComposesFirstEntry(entries[0], flow && (|entries| > 1 || trailing), later, seen, d, flow, acc);
      KnownInTurn(first, more, seen);
      var k := KnownPairs(first, seen);
      if k.Ok? {
        ComposesEntries(entries[1..], flow, trailing, rest, k.value, d, acc + first);
        Regroup(acc, first, more);
      }
    }
  }

  lemma {:induction false} KnownInTurn(pairs: seq<YPair>, more: seq<YPair>, seen: set<string>)
    ensures var k := KnownPairs(pairs, seen);
            KnownPairs(pairs + more, seen) == if k.Ok? then KnownPairs(more, k.value) else k
    decreases pairs
  {
    if pairs == [] {
      assert pairs + more == more;
    } else {
      assert (pairs + more)[0] == pairs[0] && (pairs + more)[1..] == pairs[1..] + more;
      var k := KnownPair(pairs[0], seen);
      if k.Ok? {
        KnownInTurn(pairs[1..], more, k.value);
      }
    }
  }

  // The loop takes the pairs and goes on, or stops at an alias that is not known.
  predicate PairsGoOn(o: Made<seq<YPair>>, pairs: seq<YPair>, rest: seq<Event>, seen: set<string>, d: nat, flow: bool,
                      acc: seq<YPair>) {
    var k := KnownPairs(pairs, seen);
    if k.Ok? then o == CPairs(rest, k.value, d, flow, acc + pairs) else o.r == Err(k.error)
  }

  lemma PairsGoOnInTurn(o: Made<seq<YPair>>, pairs: seq<YPair>, mid: seq<Event>, more: seq<YPair>, rest: seq<Event>,
                        seen: set<string>, d: nat, flow: bool, acc: seq<YPair>)
    requires PairsGoOn(o, pairs, mid, seen, d, flow, acc)
    requires var k := KnownPairs(pairs, seen);
             k.Ok? ==> PairsGoOn(CPairs(mid, k.value, d, flow, acc + pairs), more, rest, k.value, d, flow, acc + pairs)
    ensures PairsGoOn(o, pairs + more, rest, seen, d, flow, acc)
  {
    hide KnownPairs, CPairs;
    KnownInTurn(pairs, more, seen);
    Regroup(acc, pairs, more);
  }

  lemma EntryGoesOn(ev: seq<Event>, rest: seq<Event>, p: YPair, seen: set<string>, d: nat, flow: bool, acc: seq<YPair>)
    requires |rest| < |ev| && Makes(CEntry(ev, seen, d, flow), p, KnownPair(p, seen), rest)
    requires DecodeGrammar.IsProperty(ev[0]) || IsNodeStart(ev[0], false) || ev[0].ValueMark? || ev[0].Key?
    ensures PairsGoOn(CPairs(ev, seen, d, flow, acc), [p], rest, seen, d, flow, acc)
  {
    hide CEntry, KnownPair;
    PairsRound(ev, seen, d, flow, acc);
    assert [p][1..] == [];
    assert forall now :: KnownPairs([], now) == Ok(now);
  }

  lemma {:induction false} ComposesFirstEntry(e: Entry, comma: bool, later: seq<Event>, seen: set<string>, d: nat,
                                              flow: bool, acc: seq<YPair>)
    requires later != [] && ReadableEntry(e, Comma(comma, later), !flow)
    requires StandsBare(e, flow, RenderEntry(e, Comma(comma, later))) && d + HeightOfEntry(e) <= MAX_DEPTH
    ensures PairsGoOn(CPairs(RenderEntry(e, Comma(comma, later)), seen, d, flow, acc), ParsedEntry(e), later, seen, d, flow, acc)
    decreases e, 4
  {
    var rest := Comma(comma, later);
    if HasIndentlessKey(e) {
      ComposesMisread(e, rest, seen, d, acc);
    } else {
      DecodeGrammar.PlainEntry(e, rest, !flow);
      ComposesEntry(e, rest, seen, d, flow);
      DecodeGrammar.EntryStarts(e, rest);
      EntryGoesOn(RenderEntry(e, rest), rest, PlainPair(e), seen, d, flow, acc);
    }
    var k := KnownPairs(ParsedEntry(e), seen);
    if k.Ok? {
      SkipsComma(comma, later, k.value, d, flow, acc + ParsedEntry(e));
    }
  }

  lemma {:induction false} ComposesMisread(e: Entry, rest: seq<Event>, seen: set<string>, d: nat, acc: seq<YPair>)
    requires HasIndentlessKey(e) && rest != [] && ReadableEntry(e, rest, true) && d + HeightOfEntry(e) <= MAX_DEPTH
    ensures PairsGoOn(CPairs(RenderEntry(e, rest), seen, d, false, acc), ParsedEntry(e), rest, seen, d, false, acc)
    decreases e, 3
  {
    DecodeGrammar.MisreadShape(e, rest);
    var all := CPairs(RenderEntry(e, rest), seen, d, false, acc);
    var first := MisreadPair(e);
    assert ParsedEntry(e) == [first] + if e.Keyed? then [YPair(NULL_NODE, Parsed(e.val))] else [];
    ComposesMisreadPair(e, rest, seen, d);
    EntryGoesOn(RenderEntry(e, rest), DecodeGrammar.AfterKey(e, rest), first, seen, d, false, acc);
    if e.Keyed? {
      var second := YPair(NULL_NODE, Parsed(e.val));
      var k := KnownPairs([first], seen);
      if k.Ok? {
        ComposesMarkedValue(e.val, rest, k.value, d);
        EntryGoesOn(DecodeGrammar.AfterKey(e, rest), rest, second, k.value, d, false, acc + [first]);
      }
      PairsGoOnInTurn(all, [first], DecodeGrammar.AfterKey(e, rest), [second], rest, seen, d, false, acc);
    } else {
      assert ParsedEntry(e) == [first];
    }
  }

  // In front of a key's dashes there is no node; after that they are taken for the value, and
  // the `:` that ends the key is left to be read.
  lemma {:induction false} ComposesMisreadPair(e: Entry, rest: seq<Event>, seen: set<string>, d: nat)
    requires HasIndentlessKey(e) && rest != [] && ReadableEntry(e, rest, true) && d + HeightOfEntry(e) <= MAX_DEPTH
    ensures Makes(CKeyedPair(RenderEntry(e, rest)[1..], seen, d, true), MisreadPair(e), KnownPair(MisreadPair(e), seen),
                  DecodeGrammar.AfterKey(e, rest))
    decreases e, 1
  {
    hide RenderEntry, ReadableEntry, DecodeGrammar.AfterKey, CInner, CBlockItems, CKeyedPair, Known, KnownItems, KnownPair;
    hide RenderItems, RenderProps, ReadableItems, HeightOfItems, HeightOfEntry;
    DecodeGrammar.MisreadShape(e, rest);
    MisreadHeight(e);
    var items, after := e.key.items, DecodeGrammar.AfterKey(e, rest);
    var dashes, p := RenderItems(items, after), MisreadPair(e);
    EmptyKey(e.key.props, dashes, seen, d + 1);
    var now := Known(p.key, seen).value;
    ComposesIndentless(items, after, now, d + 1, []);
    DashesMake(ParsedItems(items), dashes, after, now, d + 1);
    MisreadRound(e.key.props, dashes, after, seen, d, p, now);
  }

  lemma MisreadHeight(e: Entry)
    requires HasIndentlessKey(e)
    ensures 1 + HeightOfItems(e.key.items) <= HeightOfEntry(e)
  {
  }

  lemma EmptyKey(p: Props, dashes: seq<Event>, seen: set<string>, d: nat)
    requires dashes != [] && dashes[0].SequenceEntry?
    ensures var n := YNode(YNull, p.tag, p.anchor);
            && Known(n, seen).Ok?
            && MakesNode(CInner(RenderProps(p, dashes), seen, d, false, None, None), n, Known(n, seen), dashes,
                         IsBareEmpty(Empty(p)))
  {
    ComposesEmpty(Empty(p), dashes, seen, d, false);
  }

  lemma DashesMake(items: seq<YNode>, dashes: seq<Event>, after: seq<Event>, seen: set<string>, d: nat)
    requires dashes != [] && dashes[0].SequenceEntry?
    requires Makes(CBlockItems(dashes, seen, d, []), [] + items, KnownItems(items, seen), after)
    ensures var n := YNode(YSequence(items), None, None);
            MakesNode(CInner(dashes, seen, d, true, None, None), n, Known(n, seen), after, false)
  {
    hide CInner, CContent, CBlockItems, Known;
    assert [] + items == items;
    ReadsContent(dashes, seen, d, true, None, None);
    FinishIndentless(items, dashes, after, seen, d, Props(None, None, true));
  }

  lemma MisreadRound(props: Props, dashes: seq<Event>, after: seq<Event>, seen: set<string>, d: nat, p: YPair, now: set<string>)
    requires d + 1 <= MAX_DEPTH && dashes != [] && dashes[0].SequenceEntry?
    requires p.key == YNode(YNull, props.tag, props.anchor) && Known(p.key, seen) == Ok(now)
    requires MakesNode(CInner(RenderProps(props, dashes), seen, d + 1, false, None, None), p.key, Ok(now), dashes,
                       IsBareEmpty(Empty(props)))
    requires MakesNode(CInner(dashes, now, d + 1, true, None, None), p.val, Known(p.val, now), after, false)
    ensures Makes(CKeyedPair(RenderProps(props, dashes), seen, d, true), p, KnownPair(p, seen), after)
  {
    hide CInner, Known;
    var k := CNode(RenderProps(props, dashes), seen, d, false);
    assert k.rest == dashes && k.seen == now && NodeOrNull(k.r.value) == p.key && SkipMark(dashes) == dashes;
    assert CNode(dashes, now, d, true) == CInner(dashes, now, d + 1, true, None, None);
  }

  // The `:` left over begins a pair without a key.
  lemma {:induction false} ComposesMarkedValue(t: Tree, rest: seq<Event>, seen: set<string>, d: nat)
    requires rest != [] && Readable(t, rest, true) && d + Height(t) <= MAX_DEPTH
    ensures var p := YPair(NULL_NODE, Parsed(t));
            Makes(CBarePair(Push(ValueMark, RenderTree(t, rest)), seen, d, false), p, KnownPair(p, seen), rest)
    decreases t, 4
  {
    hide CNode, Known, Readable, RenderTree, CPairValue;
    NothingIsKnown(seen);
    ReadsNothing(Push(ValueMark, RenderTree(t, rest)), seen, d, false);
    ComposesValue(t, rest, seen, d, true, NULL_NODE);
  }

  lemma NothingIsKnown(seen: set<string>)
    ensures Known(NULL_NODE, seen) == Ok(seen)
  {
  }

  lemma PairsRound(ev: seq<Event>, seen: set<string>, d: nat, flow: bool, acc: seq<YPair>)
    requires ev != []
    requires DecodeGrammar.IsProperty(ev[0]) || IsNodeStart(ev[0], false) || ev[0].ValueMark? || ev[0].Key?
    ensures var o, all := CEntry(ev, seen, d, flow), CPairs(ev, seen, d, flow, acc);
            if o.r.Err? then all.r == Err(o.r.error)
            else |o.rest| < |ev| ==> all == CPairs(o.rest, o.seen, d, flow, acc + [o.r.value])
  {
  }

  lemma SkipsComma(more: bool, ev: seq<Event>, seen: set<string>, d: nat, flow: bool, acc: seq<YPair>)
    ensures CPairs(Comma(more, ev), seen, d, flow, acc) == CPairs(ev, seen, d, flow, acc)
  {
  }

  // ----- Where both parsers and the tree part -----

  // An empty entry of an indentless sequence is kept as a null exactly when a dash, a key
  // or the end of a collection comes next, as in the decoder.
  lemma EmptyEntryKeptExactly(rest: seq<Event>, seen: set<string>, d: nat, acc: seq<YNode>)
    requires rest != [] ==> EndsNode(rest[0], false)
    requires d < MAX_DEPTH
    ensures var o := CBlockItems(Push(SequenceEntry, rest), seen, d, acc);
            && (o == CBlockItems(rest, seen, d, acc + [NULL_NODE]) <==>
                  rest != [] && (rest[0] in {SequenceEntry, SequenceEnd, MappingEnd, BlockEnd} || rest[0].Key?))
            && (o == Made(rest, seen, Ok(acc)) <==>
                  rest == [] || !(rest[0] in {SequenceEntry, SequenceEnd, MappingEnd, BlockEnd} || rest[0].Key?))
  {
    if rest == [] || !EndsIndentlessItem(rest[0]) {
      if rest != [] {
        ReadsNothing(rest, seen, d, false);
      }
      LostEntry(rest, seen, d, acc);
    } else {
      KeptGrows(rest, seen, d, acc + [NULL_NODE]);
    }
  }

  lemma LostEntry(rest: seq<Event>, seen: set<string>, d: nat, acc: seq<YNode>)
    requires rest == [] || !EndsIndentlessItem(rest[0])
    requires CNode(rest, seen, d, false) == Made(rest, seen, Ok(None))
    ensures CBlockItems(Push(SequenceEntry, rest), seen, d, acc) == Made(rest, seen, Ok(acc))
    ensures CBlockItems(rest, seen, d, acc + [NULL_NODE]) == Made(rest, seen, Ok(acc + [NULL_NODE]))
  {
    assert CBlockItems(rest, seen, d, acc) == Made(rest, seen, Ok(acc));
  }

  lemma {:induction false} KeptGrows(ev: seq<Event>, seen: set<string>, d: nat, acc: seq<YNode>)
    ensures var o := CBlockItems(ev, seen, d, acc); o.r.Ok? ==> |o.r.value| >= |acc|
    decreases |ev|
  {
    if ev != [] && ev[0].SequenceEntry? {
      var o := CBlockEntry(ev[1..], seen, d);
      if o.r.Ok? {
        KeptGrows(o.rest, o.seen, d, WithNode(acc, o.r.value));
      }
    }
  }

  // ----- The twins agree -----

  // Whatever readable layout the decoder makes a value of, the composer reads the same
  // events, binds the same anchors, and makes a tree with that value, misread keys included.
  lemma TwinsAgree(sc: Scope, t: Tree, rest: seq<Event>, m: Memory, d: nat, allow: bool)
    requires rest != [] && Readable(t, rest, allow) && DecodeGrammar.KeepsTags(sc, t) && d + Height(t) <= MAX_DEPTH
    requires Node(sc, RenderTree(t, rest), m, d, allow).r.Ok?
    ensures var decoded, made := Node(sc, RenderTree(t, rest), m, d, allow), CNode(RenderTree(t, rest), m.anchors.Keys, d, allow);
            && made.r.Ok? && decoded.rest == rest == made.rest
            && made.seen == decoded.mem.anchors.Keys
            && EvalNode(sc, NodeOrNull(made.r.value), m) == Meaning(decoded.mem, Ok(OrNull(decoded.r.value)))
  {
    DecodeGrammar.DecodesTree(sc, t, rest, m, d, allow);
    ComposesTree(t, rest, m.anchors.Keys, d, allow);
    ValuedIsKnown(sc, Parsed(t), m);
  }

  // The other way round: where the composer makes a tree, the decoder makes its value or
  // fails on that alone.
  lemma ComposedIsDecoded(sc: Scope, t: Tree, rest: seq<Event>, m: Memory, d: nat, allow: bool)
    requires rest != [] && Readable(t, rest, allow) && DecodeGrammar.KeepsTags(sc, t) && d + Height(t) <= MAX_DEPTH
    requires CNode(RenderTree(t, rest), m.anchors.Keys, d, allow).r.Ok?
    ensures FailsOnValue(Node(sc, RenderTree(t, rest), m, d, allow).r)
  {
    hide Node, CNode, EvalNode, Known, RenderTree, Readable, Parsed;
    DecodeGrammar.DecodesTree(sc, t, rest, m, d, allow);
    ComposesTree(t, rest, m.anchors.Keys, d, allow);
    KnownFailsOnValue(sc, Parsed(t), m);
  }
}
