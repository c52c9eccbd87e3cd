// The decoder inverts the event grammar: from the events of any readable layout, in front of
// any others, it makes exactly the value of the tree parsed of it, and reads exactly its events.
module DecodeGrammar {
  import opened Wrappers
  import opened Values
  import opened Events
  import opened Decode
  import opened Syntax
  import opened Grammar
  import Resolver

  // The decoder drops a tag in front of an indentless sequence, so such a tag must be one
  // that would not show: no custom tag.
  predicate KeepsTags(sc: Scope, t: Tree)
    decreases t, 1
  {
    match t
    case BlockSeq(_, items) => ItemsKeepTags(sc, items)
    case Indentless(p, items) => (p.tag.Some? ==> !IsCustom(ExpandTag(sc.handles, p.tag.value))) && ItemsKeepTags(sc, items)
    case FlowSeq(_, elements, _) => ElementsKeepTags(sc, elements)
    case Map(_, _, entries, _) => EntriesKeepTags(sc, entries)
    case _ => true
  }

  predicate ItemsKeepTags(sc: Scope, items: seq<Tree>)
    decreases items, 0
  {
    items == [] || (KeepsTags(sc, items[0]) && ItemsKeepTags(sc, items[1..]))
  }

  predicate EntriesKeepTags(sc: Scope, entries: seq<Entry>)
    decreases entries, 0
  {
    entries == [] || (EntryKeepsTags(sc, entries[0]) && EntriesKeepTags(sc, entries[1..]))
  }

  predicate EntryKeepsTags(sc: Scope, e: Entry)
    decreases e, 2
  {
    && (if HasIndentlessKey(e) then ItemsKeepTags(sc, e.key.items) else KeepsTags(sc, e.key))
    && (e.Keyed? || e.Bare? ==> KeepsTags(sc, e.val))
  }

  predicate ElementsKeepTags(sc: Scope, elements: seq<Element>)
    decreases elements, 0
  {
    elements == [] || (ElementKeepsTags(sc, elements[0]) && ElementsKeepTags(sc, elements[1..]))
  }

  predicate ElementKeepsTags(sc: Scope, e: Element)
    decreases e, 3
  {
    match e
    case Single(node) => KeepsTags(sc, node)
    case OfPair(entry) => EntryKeepsTags(sc, entry)
  }

  // ----- Agreement -----

  // The decoder's outcome is the tree's meaning, with exactly `rest` left to read. Where
  // there is no node at all it says so, and its caller takes that for a null.
  predicate Agrees(o: Out<Option<Value>>, e: Meaning<Value>, rest: seq<Event>, bare: bool) {
    match e.r
    case Ok(v) => o == Out(rest, e.mem, Ok(if bare then None else Some(v))) && (bare ==> v == Null)
    case Err(x) => o.r == Err(x)
  }

  predicate SameOutcome<T(==)>(o: Out<T>, e: Meaning<T>, rest: seq<Event>) {
    match e.r
    case Ok(v) => o == Out(rest, e.mem, Ok(v))
    case Err(x) => o.r == Err(x)
  }

  // ----- Properties -----

  predicate IsProperty(e: Event) { e.Tag? || e.Anchor? }

  lemma ReadsProps(sc: Scope, p: Props, rest: seq<Event>, m: Memory, d: nat, allow: bool)
    requires rest != [] && !IsProperty(rest[0])
    ensures var o := Inner(sc, RenderProps(p, rest), m, d, allow, None, None);
            if TagUndefined(sc, p.tag) then o.r == Err(UndefinedHandle)
            else o == Content(sc, rest, m, d, allow, Expanded(sc, p.tag), p.anchor)
  {
    if p.tagFirst {
      ReadsTag(sc, p.tag, RenderAnchor(p.anchor, rest), m, d, allow, None);
      if !TagUndefined(sc, p.tag) {
        ReadsAnchor(sc, p.anchor, rest, m, d, allow, Expanded(sc, p.tag));
        ReadsContent(sc, rest, m, d, allow, Expanded(sc, p.tag), p.anchor);
      }
    } else {
      ReadsAnchor(sc, p.anchor, RenderTag(p.tag, rest), m, d, allow, None);
      ReadsTag(sc, p.tag, rest, m, d, allow, p.anchor);
      ReadsContent(sc, rest, m, d, allow, Expanded(sc, p.tag), p.anchor);
    }
  }

  lemma ReadsContent(sc: Scope, rest: seq<Event>, m: Memory, d: nat, allow: bool, tag: Option<string>, anchor: Option<string>)
    requires rest != [] && !IsProperty(rest[0])
    ensures Inner(sc, rest, m, d, allow, tag, anchor) == Content(sc, rest, m, d, allow, tag, anchor)
  {
  }

  lemma ReadsTag(sc: Scope, tag: Option<string>, rest: seq<Event>, m: Memory, d: nat, allow: bool, anchor: Option<string>)
    ensures var o := Inner(sc, RenderTag(tag, rest), m, d, allow, None, anchor);
            if TagUndefined(sc, tag) then o.r == Err(UndefinedHandle)
            else o == Inner(sc, rest, m, d, allow, Expanded(sc, tag), anchor)
  {
  }

  lemma ReadsAnchor(sc: Scope, anchor: Option<string>, rest: seq<Event>, m: Memory, d: nat, allow: bool, tag: Option<string>)
    ensures Inner(sc, RenderAnchor(anchor, rest), m, d, allow, tag, None) == Inner(sc, rest, m, d, allow, tag, anchor)
  {
  }

  // ----- Nodes -----

  // No node: what follows ends it.
  lemma ReadsNothing(sc: Scope, rest: seq<Event>, m: Memory, d: nat, allow: bool)
    requires rest != [] && EndsNode(rest[0], allow) && d + 1 <= MAX_DEPTH
    ensures Node(sc, rest, m, d, allow) == Out(rest, m, Ok(None))
  {
    ReadsContent(sc, rest, m, d + 1, allow, None, None);
  }

  // There is no node exactly in front of an event that ends one; what is no node and ends none is
  // passed over.
  lemma NothingReadExactly(sc: Scope, ev: seq<Event>, m: Memory, d: nat, allow: bool)
    requires d < 1000 && ev != []
    ensures Node(sc, ev, m, d, allow) == Out(ev, m, Ok(None)) <==>
              || ev[0] in {FlowEntry, ValueMark, StreamEnd, DocumentEnd, DocumentStart, SequenceEnd, MappingEnd, BlockEnd}
              || ev[0].Key? || (ev[0] == SequenceEntry && !allow)
    ensures ev[0].StreamStart? || ev[0].Directive? ==> Node(sc, ev, m, d, allow) == Node(sc, ev[1..], m, d + 1, allow)
  {
    if IsProperty(ev[0]) {
      PropertyIsRead(sc, ev, m, d + 1, allow, None, None);
    } else {
      ReadsContent(sc, ev, m, d + 1, allow, None, None);
      if ev[0] == SequenceEntry && allow {
        hide BlockItems;
      }
    }
  }

  // A property leads to an error, or to less to read.
  lemma {:induction false} PropertyIsRead(sc: Scope, ev: seq<Event>, m: Memory, d: nat, allow: bool,
                                          tag: Option<string>, anchor: Option<string>)
    requires ev != [] && IsProperty(ev[0])
    ensures var o := Inner(sc, ev, m, d, allow, tag, anchor); o.r.Err? || |o.rest| < |ev|
  {
    hide Content;
  }

  // The decoder inverts the grammar, up to what `Parsed` says.
  lemma {:induction false} DecodesTree(sc: Scope, t: Tree, rest: seq<Event>, m: Memory, d: nat, allow: bool)
    requires rest != [] && Readable(t, rest, allow) && KeepsTags(sc, t) && d + Height(t) <= MAX_DEPTH
    ensures Agrees(Node(sc, RenderTree(t, rest), m, d, allow), EvalNode(sc, Parsed(t), m), rest, IsBareEmpty(t))
    decreases t, 2
  {
    hide Inner, EvalNode, RenderTree, Readable, Parsed;
    DecodesInner(sc, t, rest, m, d + 1, allow);
  }

  lemma {:induction false} DecodesInner(sc: Scope, t: Tree, rest: seq<Event>, m: Memory, d: nat, allow: bool)
    requires rest != [] && Readable(t, rest, allow) && KeepsTags(sc, t) && d + Height(t) <= MAX_DEPTH + 1
    ensures Agrees(Inner(sc, RenderTree(t, rest), m, d, allow, None, None), EvalNode(sc, Parsed(t), m), rest, IsBareEmpty(t))
    decreases t, 1
  {
    match t
    case Leaf(_, _, _) => DecodesLeaf(sc, t, rest, m, d, allow);
    case AliasTo(_) => DecodesLeaf(sc, t, rest, m, d, allow);
    case Empty(_) => DecodesEmpty(sc, t, rest, m, d, allow);
    case BlockSeq(_, _) => DecodesBlockSeq(sc, t, rest, m, d, allow);
    case Indentless(_, _) => DecodesIndentlessSeq(sc, t, rest, m, d);
    case FlowSeq(_, _, _) => DecodesFlowSeq(sc, t, rest, m, d, allow);
    case Map(_, _, _, _) => DecodesMap(sc, t, rest, m, d, allow);
  }

  lemma DecodesLeaf(sc: Scope, t: Tree, rest: seq<Event>, m: Memory, d: nat, allow: bool)
    requires t.Leaf? || t.AliasTo?
    ensures Agrees(Inner(sc, RenderTree(t, rest), m, d, allow, None, None), EvalNode(sc, Parsed(t), m), rest, false)
  {
    if t.Leaf? {
      ReadsProps(sc, t.props, Push(Scalar(t.text, t.style), rest), m, d, allow);
    } else {
      ReadsContent(sc, Push(Alias(t.name), rest), m, d, allow, None, None);
    }
  }

  lemma DecodesEmpty(sc: Scope, t: Tree, rest: seq<Event>, m: Memory, d: nat, allow: bool)
    requires t.Empty? && rest != [] && EndsNode(rest[0], allow)
    ensures Agrees(Inner(sc, RenderTree(t, rest), m, d, allow, None, None), EvalNode(sc, Parsed(t), m), rest, IsBareEmpty(t))
  {
    ReadsProps(sc, t.props, rest, m, d, allow);
    if !TagUndefined(sc, t.props.tag) {
      ContentOfNothing(sc, rest, m, d, allow, Expanded(sc, t.props.tag), t.props.anchor);
    }
  }

  lemma {:induction false} DecodesBlockSeq(sc: Scope, t: Tree, rest: seq<Event>, m: Memory, d: nat, allow: bool)
    requires t.BlockSeq? && rest != [] && Readable(t, rest, allow) && KeepsTags(sc, t) && d + Height(t) <= MAX_DEPTH + 1
    ensures Agrees(Inner(sc, RenderTree(t, rest), m, d, allow, None, None), EvalNode(sc, Parsed(t), m), rest, false)
    decreases t, 0
  {
    var start := Push(SequenceStart(false), RenderItems(t.items, Push(BlockEnd, rest)));
    ReadsProps(sc, t.props, start, m, d, allow);
    DecodesItems(sc, t.items, rest, m, d, []);
    FinishSequence(sc, Parsed(t), start, rest, m, d, allow, t.props, ParsedItems(t.items));
  }

  lemma {:induction false} DecodesIndentlessSeq(sc: Scope, t: Tree, rest: seq<Event>, m: Memory, d: nat)
    requires t.Indentless? && rest != [] && Readable(t, rest, true) && KeepsTags(sc, t) && d + Height(t) <= MAX_DEPTH + 1
    ensures Agrees(Inner(sc, RenderTree(t, rest), m, d, true, None, None), EvalNode(sc, Parsed(t), m), rest, false)
    decreases t, 0
  {
    ReadsProps(sc, t.props, RenderItems(t.items, rest), m, d, true);
    DecodesIndentless(sc, t.items, rest, m, d, []);
    FinishIndentless(sc, t.items, rest, m, d, t.props);
  }

  lemma {:induction false} DecodesFlowSeq(sc: Scope, t: Tree, rest: seq<Event>, m: Memory, d: nat, allow: bool)
    requires t.FlowSeq? && rest != [] && Readable(t, rest, allow) && KeepsTags(sc, t) && d + Height(t) <= MAX_DEPTH + 1
    ensures Agrees(Inner(sc, RenderTree(t, rest), m, d, allow, None, None), EvalNode(sc, Parsed(t), m), rest, false)
    decreases t, 0
  {
    DecodesElements(sc, t.elements, t.trailing, rest, m, d, [], true);
    var start := Push(SequenceStart(true), RenderElements(t.elements, t.trailing, Push(SequenceEnd, rest)));
    ReadsProps(sc, t.props, start, m, d, allow);
    FinishSequence(sc, Parsed(t), start, rest, m, d, allow, t.props, ParsedElements(t.elements));
  }

  lemma {:induction false} DecodesMap(sc: Scope, t: Tree, rest: seq<Event>, m: Memory, d: nat, allow: bool)
    requires t.Map? && rest != [] && Readable(t, rest, allow) && KeepsTags(sc, t) && d + Height(t) <= MAX_DEPTH + 1
    ensures Agrees(Inner(sc, RenderTree(t, rest), m, d, allow, None, None), EvalNode(sc, Parsed(t), m), rest, false)
    decreases t, 0
  {
    var start :=
      Push(MappingStart(t.flow), RenderEntries(t.entries, t.flow, t.trailing, Push(CloseMap(t.flow), rest)));
    ReadsProps(sc, t.props, start, m, d, allow);
    DecodesEntries(sc, t.entries, t.flow, t.trailing, rest, m, d, [], {});
    FinishMapping(sc, t.entries, start, rest, m, d, allow, t.props, t.flow);
  }

  lemma ContentOfNothing(sc: Scope, rest: seq<Event>, m: Memory, d: nat, allow: bool, tag: Option<string>, anchor: Option<string>)
    requires rest != [] && EndsNode(rest[0], allow)
    ensures Content(sc, rest, m, d, allow, tag, anchor) ==
            if tag.Some? then
              var r := EmptyValue(sc.config, tag.value);
              Bind(rest, NoteMerge(m, r.merges), anchor, WithTag(tag, r.value))
            else if anchor.Some? then Bind(rest, m, anchor, Null)
            else Out(rest, m, Ok(None))
  {
    assert CountNodes(Null) == 1;
  }

  lemma FinishSequence(sc: Scope, n: YNode, start: seq<Event>, rest: seq<Event>, m: Memory, d: nat, allow: bool,
                       p: Props, items: seq<YNode>)
    requires start != [] && start[0].SequenceStart? && n == YNode(YSequence(items), p.tag, p.anchor)
    requires SameOutcome(Items(sc, start[1..], m, d, start[0].flow, []), EvalItems(sc, items, m, []), rest)
    requires !TagUndefined(sc, p.tag)
             ==> Inner(sc, RenderProps(p, start), m, d, allow, None, None)
                 == Content(sc, start, m, d, allow, Expanded(sc, p.tag), p.anchor)
    requires TagUndefined(sc, p.tag) ==> Inner(sc, RenderProps(p, start), m, d, allow, None, None).r == Err(UndefinedHandle)
    ensures Agrees(Inner(sc, RenderProps(p, start), m, d, allow, None, None), EvalNode(sc, n, m), rest, false)
  {
  }

  lemma FinishMapping(sc: Scope, entries: seq<Entry>, start: seq<Event>, rest: seq<Event>, m: Memory, d: nat, allow: bool,
                      p: Props, flow: bool)
    requires start != [] && start[0] == MappingStart(flow)
    requires SameOutcome(Pairs(sc, start[1..], m, d, flow, [], {}), EvalPairs(sc, ParsedEntries(entries), m, [], {}), rest)
    requires !TagUndefined(sc, p.tag)
             ==> Inner(sc, RenderProps(p, start), m, d, allow, None, None)
                 == Content(sc, start, m, d, allow, Expanded(sc, p.tag), p.anchor)
    requires TagUndefined(sc, p.tag) ==> Inner(sc, RenderProps(p, start), m, d, allow, None, None).r == Err(UndefinedHandle)
    ensures Agrees(Inner(sc, RenderProps(p, start), m, d, allow, None, None),
                   EvalNode(sc, YNode(YMapping(ParsedEntries(entries)), p.tag, p.anchor), m), rest, false)
  {
  }

  lemma FinishIndentless(sc: Scope, items: seq<Tree>, rest: seq<Event>, m: Memory, d: nat, p: Props)
    requires items != [] && (p.tag.Some? ==> !IsCustom(ExpandTag(sc.handles, p.tag.value)))
    requires SameOutcome(BlockItems(sc, RenderItems(items, rest), m, d, []), EvalItems(sc, ParsedItems(items), m, []), rest)
    requires var start := RenderItems(items, rest);
             if TagUndefined(sc, p.tag) then Inner(sc, RenderProps(p, start), m, d, true, None, None).r == Err(UndefinedHandle)
             else Inner(sc, RenderProps(p, start), m, d, true, None, None)
                  == Content(sc, start, m, d, true, Expanded(sc, p.tag), p.anchor)
    ensures Agrees(Inner(sc, RenderProps(p, RenderItems(items, rest)), m, d, true, None, None),
                   EvalNode(sc, YNode(YSequence(ParsedItems(items)), p.tag, p.anchor), m), rest, false)
  {
  }

  // ----- Sequences -----

  lemma {:induction false} DecodesItems(sc: Scope, items: seq<Tree>, rest: seq<Event>, m: Memory, d: nat, acc: seq<Value>)
    requires ReadableItems(items, Push(BlockEnd, rest)) && ItemsKeepTags(sc, items)
    requires d + HeightOfItems(items) <= MAX_DEPTH
    ensures SameOutcome(Items(sc, RenderItems(items, Push(BlockEnd, rest)), m, d, false, acc),
                        EvalItems(sc, ParsedItems(items), m, acc), rest)
    decreases items, 0
  {
    hide Item, EvalNode, Node, Readable, RenderTree, KeepsTags, Height;
    if items != [] {
      var more := RenderItems(items[1..], Push(BlockEnd, rest));
      assert EndsBlockItem(more[0]);
      DecodesBlockItem(sc, items[0], more, m, d);
      var e := EvalNode(sc, Parsed(items[0]), m);
      if e.r.Ok? {
        DecodesItems(sc, items[1..], rest, e.mem, d, acc + [e.r.value]);
      }
    }
  }

  lemma {:induction false} DecodesBlockItem(sc: Scope, t: Tree, more: seq<Event>, m: Memory, d: nat)
    requires more != [] && EndsBlockItem(more[0])
    requires Readable(t, more, false) && KeepsTags(sc, t) && d + HeightOfItem(t) <= MAX_DEPTH
    ensures Agrees(Item(sc, RenderTree(t, more), m, d, false), EvalNode(sc, Parsed(t), m), more, false)
    decreases t, 3
  {
    if IsBareEmpty(t) {
      BareIsNull(sc, t, more, m);
    } else {
      DecodesTree(sc, t, more, m, d, false);
      ItemStarts(t, more);
      ItemIsNode(sc, RenderTree(t, more), m, d);
    }
  }

  lemma ItemIsNode(sc: Scope, ev: seq<Event>, m: Memory, d: nat)
    requires ev != [] && !EndsIndentlessItem(ev[0])
    ensures Item(sc, ev, m, d, false) == Node(sc, ev, m, d, false)
  {
  }

  // What a tree's events begin with.
  lemma TreeStarts(t: Tree, rest: seq<Event>)
    requires rest != [] && Readable(t, rest, false) && !IsBareEmpty(t)
    ensures var e := RenderTree(t, rest)[0];
            IsProperty(e) || IsNodeStart(e, false)
  {
    match t
    case Leaf(p, text, style) => PropsStart(p, Push(Scalar(text, style), rest));
    case AliasTo(_) =>
    case Empty(p) => PropsStart(p, rest);
    case BlockSeq(p, items) =>
      PropsStart(p, Push(SequenceStart(false), RenderItems(items, Push(BlockEnd, rest))));
    case FlowSeq(p, elements, trailing) =>
      PropsStart(p, Push(SequenceStart(true), RenderElements(elements, trailing, Push(SequenceEnd, rest))));
    case Map(p, flow, entries, trailing) =>
      PropsStart(p, Push(MappingStart(flow), RenderEntries(entries, flow, trailing, Push(CloseMap(flow), rest))));
    case Indentless(_, _) =>
  }

  lemma PropsStart(p: Props, rest: seq<Event>)
    requires rest != []
    ensures var e := RenderProps(p, rest)[0];
            IsProperty(e) || (p.tag == None && p.anchor == None && e == rest[0])
  {
  }

  lemma DecodesIndentless(sc: Scope, items: seq<Tree>, rest: seq<Event>, m: Memory, d: nat, acc: seq<Value>)
    requires rest != [] && !(rest[0] in {SequenceEntry, MappingEnd})
    requires ReadableItems(items, rest) && ItemsKeepTags(sc, items)
    requires d + HeightOfItems(items) <= MAX_DEPTH
    ensures SameOutcome(BlockItems(sc, RenderItems(items, rest), m, d, acc), EvalItems(sc, ParsedItems(items), m, acc), rest)
    decreases items, 1
  {
    ReadsItems(sc, items, rest, m, d, acc);
  }

  // The loop over an indentless sequence takes the items' values and goes on with whatever
  // comes next.
  lemma {:induction false} ReadsItems(sc: Scope, items: seq<Tree>, rest: seq<Event>, m: Memory, d: nat, acc: seq<Value>)
    requires rest != [] && ReadableItems(items, rest) && ItemsKeepTags(sc, items)
    requires d + HeightOfItems(items) <= MAX_DEPTH
    ensures var e, o := EvalItems(sc, ParsedItems(items), m, acc), BlockItems(sc, RenderItems(items, rest), m, d, acc);
            if e.r.Ok? then o == BlockItems(sc, rest, e.mem, d, e.r.value) else o.r == Err(e.r.error)
    decreases items, 0
  {
    if items != [] {
      var more := RenderItems(items[1..], rest);
      if IsBareEmpty(items[0]) {
        DecodesIndentlessNull(sc, items[0], more, m, d, acc);
      } else {
        DecodesTree(sc, items[0], more, m, d, false);
        ItemStarts(items[0], more);
        IndentlessRound(sc, RenderTree(items[0], more), more, EvalNode(sc, Parsed(items[0]), m), m, d, acc);
      }
      var e := EvalNode(sc, Parsed(items[0]), m);
      if e.r.Ok? {
        ReadsItems(sc, items[1..], rest, e.mem, d, acc + [e.r.value]);
      }
    }
  }

  lemma ItemStarts(t: Tree, more: seq<Event>)
    requires more != [] && !IsBareEmpty(t) && Readable(t, more, false)
    ensures !EndsIndentlessItem(RenderTree(t, more)[0])
  {
    TreeStarts(t, more);
  }

  lemma DecodesIndentlessNull(sc: Scope, t: Tree, more: seq<Event>, m: Memory, d: nat, acc: seq<Value>)
    requires more != [] && IsBareEmpty(t) && EndsIndentlessItem(more[0])
    ensures IndentlessGoesOn(sc, RenderTree(t, more), more, EvalNode(sc, Parsed(t), m), m, d, acc)
  {
    BareIsNull(sc, t, more, m);
    IndentlessNull(sc, more, m, d, acc);
  }

  // The loop takes the item's meaning and goes on, or stops at its error.
  predicate IndentlessGoesOn(sc: Scope, ev: seq<Event>, more: seq<Event>, e: Meaning<Value>, m: Memory, d: nat, acc: seq<Value>) {
    var all := BlockItems(sc, Push(SequenceEntry, ev), m, d, acc);
    if e.r.Ok? then all == BlockItems(sc, more, e.mem, d, acc + [e.r.value]) else all.r == Err(e.r.error)
  }

  lemma IndentlessNull(sc: Scope, more: seq<Event>, m: Memory, d: nat, acc: seq<Value>)
    requires more != [] && EndsIndentlessItem(more[0])
    ensures IndentlessGoesOn(sc, more, more, Meaning(m, Ok(Null)), m, d, acc)
  {
  }

  lemma BareIsNull(sc: Scope, t: Tree, rest: seq<Event>, m: Memory)
    requires IsBareEmpty(t)
    ensures EvalNode(sc, Parsed(t), m) == Meaning(m, Ok(Null)) && RenderTree(t, rest) == rest
  {
  }

  // One round of the indentless loop over an item that is there.
  lemma IndentlessRound(sc: Scope, ev: seq<Event>, more: seq<Event>, e: Meaning<Value>, m: Memory, d: nat, acc: seq<Value>)
    requires ev != [] && !EndsIndentlessItem(ev[0]) && Agrees(Node(sc, ev, m, d, false), e, more, false)
    ensures IndentlessGoesOn(sc, ev, more, e, m, d, acc)
  {
  }

  // At the first element, or after an element: then a comma comes first, if any does.
  lemma {:induction false} DecodesElements(sc: Scope, elements: seq<Element>, trailing: bool, rest: seq<Event>, m: Memory,
                                           d: nat, acc: seq<Value>, first: bool)
    requires ReadableElements(elements, trailing, Push(SequenceEnd, rest)) && ElementsKeepTags(sc, elements)
    requires d + HeightOfElements(elements) <= MAX_DEPTH && (first || d < MAX_DEPTH)
    ensures var ev := RenderElements(elements, trailing, Push(SequenceEnd, rest));
            SameOutcome(Items(sc, if first then ev else Comma(elements != [] || trailing, ev), m, d, true, acc),
                        EvalItems(sc, ParsedElements(elements), m, acc), rest)
    decreases elements, 0
  {
    hide Item, Node;
    var ev := RenderElements(elements, trailing, Push(SequenceEnd, rest));
    if elements == [] {
      DecodesNoElements(sc, trailing, rest, m, d, acc, first);
    } else {
      var more := Comma(|elements| > 1 || trailing, RenderElements(elements[1..], trailing, Push(SequenceEnd, rest)));
      DecodesElement(sc, elements[0], more, m, d);
      ElementStarts(elements[0], more);
      var e := EvalNode(sc, ParsedElement(elements[0]), m);
      ElementRound(sc, RenderElement(elements[0], more), more, e, m, d, acc, first);
      if e.r.Ok? {
        DecodesElements(sc, elements[1..], trailing, rest, e.mem, d, acc + [e.r.value], false);
      }
    }
  }

  lemma DecodesNoElements(sc: Scope, trailing: bool, rest: seq<Event>, m: Memory, d: nat, acc: seq<Value>, first: bool)
    requires first || d < MAX_DEPTH
    ensures var ev := Push(SequenceEnd, rest);
            Items(sc, if first then ev else Comma(trailing, ev), m, d, true, acc) == Out(rest, m, Ok(acc))
  {
    if !first {
      ReadsNothing(sc, Push(SequenceEnd, rest), m, d, false);
    }
  }

  // One round of the loop over a flow sequence.
  lemma ElementRound(sc: Scope, ev: seq<Event>, more: seq<Event>, e: Meaning<Value>, m: Memory, d: nat,
                     acc: seq<Value>, first: bool)
    requires |ev| > |more| && Agrees(Item(sc, ev, m, d, true), e, more, false)
    requires IsProperty(ev[0]) || IsNodeStart(ev[0], false) || ev[0].Key? || ev[0].ValueMark?
    ensures var all := Items(sc, if first then ev else Push(FlowEntry, ev), m, d, true, acc);
            if e.r.Ok? then all == Items(sc, more, e.mem, d, true, acc + [e.r.value]) else all.r == Err(e.r.error)
  {
    hide Item;
  }

  lemma ElementStarts(e: Element, rest: seq<Event>)
    requires rest != [] && ReadableElement(e, rest)
    ensures |RenderElement(e, rest)| > |rest|
    ensures var f := RenderElement(e, rest)[0]; IsProperty(f) || IsNodeStart(f, false) || f.Key? || f.ValueMark?
  {
    match e
    case Single(node) => TreeStarts(node, rest);
    case OfPair(entry) => EntryStarts(entry, rest);
  }

  lemma {:induction false} DecodesElement(sc: Scope, e: Element, rest: seq<Event>, m: Memory, d: nat)
    requires rest != [] && ReadableElement(e, rest) && ElementKeepsTags(sc, e) && d + HeightOfElement(e) <= MAX_DEPTH
    requires !rest[0].ValueMark?
    ensures Agrees(Item(sc, RenderElement(e, rest), m, d, true), EvalNode(sc, ParsedElement(e), m), rest, false)
    decreases e, 3
  {
    hide EvalNode, Node;
    match e
    case Single(node) =>
      DecodesTree(sc, node, rest, m, d, false);
      TreeStarts(node, rest);
    case OfPair(entry) =>
      OnePairMeans(sc, entry, m);
      if entry.Bare? {
        DecodesBareItem(sc, entry, rest, m, d);
      } else {
        DecodesKeyed(sc, entry, rest, m, d, false);
      }
  }

  // A mapping of one pair.
  lemma OnePairMeans(sc: Scope, entry: Entry, m: Memory)
    ensures var one, p := EvalNode(sc, YNode(YMapping([PlainPair(entry)]), None, None), m), EvalPair(sc, PlainPair(entry), m);
            match p.r
            case Err(x) => one.r == Err(x)
            case Ok(pair) =>
              if IsRefused(sc.config, pair.key) then one.r == Err(ComplexKey)
              else one == Meaning(p.mem, Ok(Mapping([pair])))
  {
    var pairs := [PlainPair(entry)];
    assert pairs[1..] == [];
    var p := EvalPair(sc, PlainPair(entry), m);
    if p.r.Ok? {
      assert [] + [p.r.value] == [p.r.value];
      var checked := CheckKey(sc.config, {}, p.r.value.key);
      if checked.Ok? {
        assert EvalPairs(sc, [], p.mem, [p.r.value], checked.value) == Meaning(p.mem, Ok([p.r.value]));
      }
    }
  }

  lemma {:induction false} DecodesBareItem(sc: Scope, e: Entry, rest: seq<Event>, m: Memory, d: nat)
    requires e.Bare? && rest != [] && ReadableEntry(e, rest, false) && Readable(e.val, rest, false)
    requires EntryKeepsTags(sc, e) && d + HeightOfEntry(e) <= MAX_DEPTH
    ensures var p := EvalPair(sc, PlainPair(e), m);
            match p.r
            case Err(x) => Item(sc, RenderEntry(e, rest), m, d, true).r == Err(x)
            case Ok(pair) => Item(sc, RenderEntry(e, rest), m, d, true) == OnePair(sc.config, Out(rest, p.mem, Ok(pair)))
    decreases e, 1
  {
    DecodesBareItemKey(sc, e, rest, m, d);
    var k := EvalNode(sc, Parsed(e.key), m);
    if k.r.Ok? {
      DecodesValue(sc, e.val, rest, k.mem, d, false, k.r.value);
    }
  }

  lemma {:induction false} DecodesBareItemKey(sc: Scope, e: Entry, rest: seq<Event>, m: Memory, d: nat)
    requires e.Bare? && rest != [] && ReadableEntry(e, rest, false)
    requires EntryKeepsTags(sc, e) && d + HeightOfEntry(e) <= MAX_DEPTH
    ensures var k, o := EvalNode(sc, Parsed(e.key), m), Item(sc, RenderEntry(e, rest), m, d, true);
            match k.r
            case Err(x) => o.r == Err(x)
            case Ok(key) => o == OnePair(sc.config, PairValue(sc, RenderTree(e.val, rest), k.mem, d, false, key))
    decreases e, 0
  {
    var after := RenderTree(e.val, rest);
    var mark := Push(ValueMark, after);
    if IsBareEmpty(e.key) {
      BareIsNull(sc, e.key, mark, m);
    } else {
      DecodesTree(sc, e.key, mark, m, d, false);
      TreeStarts(e.key, mark);
      BareItemRound(sc, RenderTree(e.key, mark), after, EvalNode(sc, Parsed(e.key), m), m, d);
    }
  }

  lemma BareItemRound(sc: Scope, ev: seq<Event>, after: seq<Event>, k: Meaning<Value>, m: Memory, d: nat)
    requires ev != [] && !ev[0].Key? && !ev[0].ValueMark? && Agrees(Node(sc, ev, m, d, false), k, Push(ValueMark, after), false)
    ensures var o := Item(sc, ev, m, d, true);
            if k.r.Ok? then o == OnePair(sc.config, PairValue(sc, after, k.mem, d, false, k.r.value)) else o.r == Err(k.r.error)
  {
  }

  // ----- Pairs -----

  lemma {:induction false} DecodesValue(sc: Scope, t: Tree, rest: seq<Event>, m: Memory, d: nat, allow: bool, key: Value)
    requires rest != [] && Readable(t, rest, allow) && KeepsTags(sc, t) && d + Height(t) <= MAX_DEPTH
    ensures var v := EvalNode(sc, Parsed(t), m);
            match v.r
            case Err(x) => PairValue(sc, RenderTree(t, rest), m, d, allow, key).r == Err(x)
            case Ok(val) => PairValue(sc, RenderTree(t, rest), m, d, allow, key) == Out(rest, v.mem, Ok(Pair(key, val)))
    decreases t, 3
  {
    hide Node, EvalNode, RenderTree, Readable, Parsed;
    DecodesTree(sc, t, rest, m, d, allow);
  }

  // A pair with a `Key` marker.
  lemma {:induction false} DecodesKeyed(sc: Scope, e: Entry, rest: seq<Event>, m: Memory, d: nat, allow: bool)
    requires (e.Keyed? || e.KeyOnly?) && rest != [] && ReadableEntry(e, rest, false)
    requires e.Keyed? ==> Readable(e.val, rest, allow)
    requires EntryKeepsTags(sc, e) && d + HeightOfEntry(e) <= MAX_DEPTH
    ensures RenderEntry(e, rest)[0].Key?
    ensures SameOutcome(KeyedPair(sc, RenderEntry(e, rest)[1..], m, d, allow), EvalPair(sc, PlainPair(e), m), rest)
    decreases e, 1
  {
    hide Node;
    var k := EvalNode(sc, Parsed(e.key), m);
    if e.Keyed? {
      DecodesTree(sc, e.key, Push(ValueMark, RenderTree(e.val, rest)), m, d, false);
      if k.r.Ok? {
        DecodesValue(sc, e.val, rest, k.mem, d, allow, k.r.value);
      }
    } else {
      DecodesTree(sc, e.key, rest, m, d, false);
      ReadsNothing(sc, rest, k.mem, d, allow);
    }
  }

  lemma {:induction false} DecodesBare(sc: Scope, e: Entry, rest: seq<Event>, m: Memory, d: nat, flow: bool)
    requires (e.Bare? || e.BareKey?) && rest != [] && ReadableEntry(e, rest, false)
    requires EntryKeepsTags(sc, e) && d + HeightOfEntry(e) <= MAX_DEPTH
    requires RenderEntry(e, rest) != [] && StandsBare(e, flow, RenderEntry(e, rest))
    ensures SameOutcome(BarePair(sc, RenderEntry(e, rest), m, d, flow), EvalPair(sc, PlainPair(e), m), rest)
    decreases e, 1
  {
    hide Node;
    var k := EvalNode(sc, Parsed(e.key), m);
    if e.Bare? {
      DecodesTree(sc, e.key, Push(ValueMark, RenderTree(e.val, rest)), m, d, false);
      if k.r.Ok? {
        DecodesValue(sc, e.val, rest, k.mem, d, true, k.r.value);
      }
    } else {
      DecodesTree(sc, e.key, rest, m, d, false);
    }
  }

  // What a pair's events begin with, and that there are any.
  lemma EntryStarts(e: Entry, rest: seq<Event>)
    requires rest != [] && ReadableEntry(e, rest, false)
    ensures |RenderEntry(e, rest)| > |rest|
    ensures var f := RenderEntry(e, rest)[0];
            if e.Keyed? || e.KeyOnly? then f.Key? else IsProperty(f) || IsNodeStart(f, false) || f.ValueMark?
  {
    if e.Bare? && !IsBareEmpty(e.key) {
      TreeStarts(e.key, Push(ValueMark, RenderTree(e.val, rest)));
    } else if e.BareKey? {
      TreeStarts(e.key, rest);
    }
  }

  lemma {:induction false} DecodesEntry(sc: Scope, e: Entry, rest: seq<Event>, m: Memory, d: nat, flow: bool)
    requires rest != [] && ReadableEntry(e, rest, false) && StandsBare(e, flow, RenderEntry(e, rest))
    requires EntryKeepsTags(sc, e) && d + HeightOfEntry(e) <= MAX_DEPTH
    ensures RenderEntry(e, rest) != []
    ensures SameOutcome(Decode.Entry(sc, RenderEntry(e, rest), m, d, flow), EvalPair(sc, PlainPair(e), m), rest)
    decreases e, 2
  {
    EntryStarts(e, rest);
    if e.Keyed? || e.KeyOnly? {
      DecodesKeyed(sc, e, rest, m, d, true);
    } else {
      DecodesBare(sc, e, rest, m, d, flow);
    }
  }

  // Where no key is an indentless sequence, or in a flow collection, dashes change nothing.
  lemma PlainEntry(e: Entry, rest: seq<Event>, dashes: bool)
    requires rest != [] && ReadableEntry(e, rest, dashes) && !HasIndentlessKey(e)
    ensures ReadableEntry(e, rest, false)
  {
  }

  lemma {:induction false} DecodesEntries(sc: Scope, entries: seq<Entry>, flow: bool, trailing: bool, rest: seq<Event>,
                                          m: Memory, d: nat, acc: seq<Pair>, seen: set<string>)
    requires ReadableEntries(entries, flow, trailing, Push(CloseMap(flow), rest)) && EntriesKeepTags(sc, entries)
    requires d + HeightOfEntries(entries) <= MAX_DEPTH
    ensures SameOutcome(Pairs(sc, RenderEntries(entries, flow, trailing, Push(CloseMap(flow), rest)), m, d, flow, acc, seen),
                        EvalPairs(sc, ParsedEntries(entries), m, acc, seen), rest)
    decreases entries, 0
  {
    hide EvalPair;
    if entries != [] {
      var later := RenderEntries(entries[1..], flow, trailing, Push(CloseMap(flow), rest));
      var comma := flow && (|entries| > 1 || trailing);
      DecodesFirstEntry(sc, entries[0], comma, later, m, d, flow, acc, seen);
      var more := ParsedEntries(entries[1..]);
      EvalPairsInTurn(sc, ParsedEntry(entries[0]), more, m, acc, seen);
      var e := EvalPairs(sc, ParsedEntry(entries[0]), m, acc, seen);
      if e.r.Ok? {
        DecodesEntries(sc, entries[1..], flow, trailing, rest, e.mem, d, e.r.value,
                       SeenAfter(sc, ParsedEntry(entries[0]), m, seen));
      }
    }
  }

  // The signatures seen after some pairs that have a meaning.
  function SeenAfter(sc: Scope, pairs: seq<YPair>, m: Memory, seen: set<string>): set<string>
    decreases pairs
  {
    if pairs == [] then seen
    else
      var o := EvalPair(sc, pairs[0], m);
      if o.r.Err? then seen
      else
        var checked := CheckKey(sc.config, seen, o.r.value.key);
        if checked.Err? then seen else SeenAfter(sc, pairs[1..], o.mem, checked.value)
  }

  lemma {:induction false} EvalPairsInTurn(
    sc: Scope, pairs: seq<YPair>, more: seq<YPair>, m: Memory, acc: seq<Pair>, seen: set<string>)
    ensures var e, all := EvalPairs(sc, pairs, m, acc, seen), EvalPairs(sc, pairs + more, m, acc, seen);
            if e.r.Ok? then
              && all == EvalPairs(sc, more, e.mem, e.r.value, SeenAfter(sc, pairs, m, seen))
              && SeenAfter(sc, pairs + more, m, seen) == SeenAfter(sc, more, e.mem, SeenAfter(sc, pairs, m, seen))
            else all.r == Err(e.r.error)
    decreases pairs
  {
    hide EvalPair;
    if pairs == [] {
      assert pairs + more == more;
    } else {
      assert (pairs + more)[0] == pairs[0] && (pairs + more)[1..] == pairs[1..] + more;
      var o := EvalPair(sc, pairs[0], m);
      if o.r.Ok? {
        var checked := CheckKey(sc.config, seen, o.r.value.key);
        if checked.Ok? {
          EvalPairsInTurn(sc, pairs[1..], more, o.mem, acc + [o.r.value], checked.value);
        }
      }
    }
  }

  // The loop takes the pairs' meanings and goes on, or stops at their error.
  predicate PairsGoOn(sc: Scope, o: Out<seq<Pair>>, pairs: seq<YPair>, rest: seq<Event>, m: Memory, d: nat, flow: bool,
                      acc: seq<Pair>, seen: set<string>) {
    var e := EvalPairs(sc, pairs, m, acc, seen);
    if e.r.Ok? then o == Pairs(sc, rest, e.mem, d, flow, e.r.value, SeenAfter(sc, pairs, m, seen))
    else o.r == Err(e.r.error)
  }

  lemma OnePairGoesOn(sc: Scope, o: Out<seq<Pair>>, p: YPair, rest: seq<Event>, m: Memory, d: nat, flow: bool,
                      acc: seq<Pair>, seen: set<string>)
    requires var e := EvalPair(sc, p, m);
             if e.r.Err? then o.r == Err(e.r.error)
             else
               var checked := CheckKey(sc.config, seen, e.r.value.key);
               if checked.Err? then o.r == Err(checked.error)
               else o == Pairs(sc, rest, e.mem, d, flow, acc + [e.r.value], checked.value)
    ensures PairsGoOn(sc, o, [p], rest, m, d, flow, acc, seen)
  {
    hide EvalPair, Pairs;
    assert [p][1..] == [];
    var e := EvalPair(sc, p, m);
    if e.r.Ok? {
      var checked := CheckKey(sc.config, seen, e.r.value.key);
      if checked.Ok? {
        assert EvalPairs(sc, [], e.mem, acc + [e.r.value], checked.value) == Meaning(e.mem, Ok(acc + [e.r.value]));
        assert SeenAfter(sc, [], e.mem, checked.value) == checked.value;
      }
    }
  }

  lemma PairsGoOnInTurn(sc: Scope, o: Out<seq<Pair>>, pairs: seq<YPair>, mid: seq<Event>, more: seq<YPair>,
                        rest: seq<Event>, m: Memory, d: nat, flow: bool, acc: seq<Pair>, seen: set<string>)
    requires PairsGoOn(sc, o, pairs, mid, m, d, flow, acc, seen)
    requires var e := EvalPairs(sc, pairs, m, acc, seen);
             e.r.Ok? ==>
               var now := SeenAfter(sc, pairs, m, seen);
               PairsGoOn(sc, Pairs(sc, mid, e.mem, d, flow, e.r.value, now), more, rest, e.mem, d, flow, e.r.value, now)
    ensures PairsGoOn(sc, o, pairs + more, rest, m, d, flow, acc, seen)
  {
    hide EvalPairs, SeenAfter, Pairs;
    EvalPairsInTurn(sc, pairs, more, m, acc, seen);
  }

  // What follows a key.
  function AfterKey(e: Entry, rest: seq<Event>): seq<Event>
    requires e.Keyed? || e.KeyOnly?
  {
    if e.Keyed? then Push(ValueMark, RenderTree(e.val, rest)) else rest
  }

  lemma MisreadShape(e: Entry, rest: seq<Event>)
    requires HasIndentlessKey(e) && rest != [] && ReadableEntry(e, rest, true)
    ensures var items, after := e.key.items, AfterKey(e, rest);
            && RenderEntry(e, rest) == Push(Key(e.explicit), RenderProps(e.key.props, RenderItems(items, after)))
            && after != [] && !(after[0] in {SequenceEntry, MappingEnd}) && items != [] && ReadableItems(items, after)
    ensures |AfterKey(e, rest)| < |RenderEntry(e, rest)|
  {
  }

  lemma MisreadFits(sc: Scope, e: Entry)
    requires HasIndentlessKey(e) && EntryKeepsTags(sc, e)
    ensures ItemsKeepTags(sc, e.key.items) && 1 + HeightOfItems(e.key.items) <= HeightOfEntry(e)
  {
  }

  // In front of a key's dashes there is no node; after that they are taken for the value, and
  // the `:` that ends the key is left to be read.
  lemma {:induction false} DecodesMisreadPair(sc: Scope, e: Entry, rest: seq<Event>, m: Memory, d: nat)
    requires HasIndentlessKey(e) && rest != [] && ReadableEntry(e, rest, true) && EntryKeepsTags(sc, e)
    requires d + HeightOfEntry(e) <= MAX_DEPTH
    ensures SameOutcome(KeyedPair(sc, RenderEntry(e, rest)[1..], m, d, true), EvalPair(sc, MisreadPair(e), m), AfterKey(e, rest))
    decreases e, 1
  {
    hide RenderEntry, ReadableEntry, AfterKey, EvalNode, EvalItems, EvalPair, BlockItems, Inner, Node, KeyedPair;
    hide RenderItems, RenderProps, ReadableItems, ItemsKeepTags, HeightOfItems, EntryKeepsTags, HeightOfEntry;
    MisreadShape(e, rest);
    MisreadFits(sc, e);
    var items, after := e.key.items, AfterKey(e, rest);
    var dashes, p := RenderItems(items, after), MisreadPair(e);
    EmptyKey(sc, e.key.props, dashes, m, d + 1);
    if EvalNode(sc, p.key, m).r.Ok? {
      var now := EvalNode(sc, p.key, m).mem;
      DecodesIndentless(sc, items, after, now, d + 1, []);
      DashesMean(sc, items, after, now, d);
    }
    MisreadRound(sc, e.key.props, dashes, after, m, d, p);
  }

  lemma EmptyKey(sc: Scope, p: Props, dashes: seq<Event>, m: Memory, d: nat)
    requires dashes != [] && dashes[0].SequenceEntry?
    ensures Agrees(Inner(sc, RenderProps(p, dashes), m, d, false, None, None),
                   EvalNode(sc, YNode(YNull, p.tag, p.anchor), m), dashes, IsBareEmpty(Empty(p)))
  {
    DecodesEmpty(sc, Empty(p), dashes, m, d, false);
  }

  lemma DashesMean(sc: Scope, items: seq<Tree>, after: seq<Event>, m: Memory, d: nat)
    requires items != [] && d + 1 <= MAX_DEPTH
    requires SameOutcome(BlockItems(sc, RenderItems(items, after), m, d + 1, []), EvalItems(sc, ParsedItems(items), m, []), after)
    ensures Agrees(Node(sc, RenderItems(items, after), m, d, true),
                   EvalNode(sc, YNode(YSequence(ParsedItems(items)), None, None), m), after, false)
  {
    var none := Props(None, None, true);
    ReadsContent(sc, RenderItems(items, after), m, d + 1, true, None, None);
    FinishIndentless(sc, items, after, m, d + 1, none);
  }

  lemma MisreadRound(sc: Scope, props: Props, dashes: seq<Event>, after: seq<Event>, m: Memory, d: nat, p: YPair)
    requires d + 1 <= MAX_DEPTH && dashes != [] && dashes[0].SequenceEntry?
    requires Agrees(Inner(sc, RenderProps(props, dashes), m, d + 1, false, None, None), EvalNode(sc, p.key, m), dashes,
                    IsBareEmpty(Empty(props)))
    requires EvalNode(sc, p.key, m).r.Ok? ==>
               var now := EvalNode(sc, p.key, m).mem;
               Agrees(Node(sc, dashes, now, d, true), EvalNode(sc, p.val, now), after, false)
    ensures SameOutcome(KeyedPair(sc, RenderProps(props, dashes), m, d, true), EvalPair(sc, p, m), after)
  {
    hide Inner, EvalNode, RenderProps;
  }

  // The `:` left over begins a pair without a key.
  lemma {:induction false} DecodesMarkedValue(sc: Scope, t: Tree, rest: seq<Event>, m: Memory, d: nat)
    requires rest != [] && Readable(t, rest, true) && KeepsTags(sc, t) && d + Height(t) <= MAX_DEPTH
    ensures SameOutcome(BarePair(sc, Push(ValueMark, RenderTree(t, rest)), m, d, false),
                        EvalPair(sc, YPair(NULL_NODE, Parsed(t)), m), rest)
    decreases t, 4
  {
    hide Node, EvalNode, Readable, RenderTree, PairValue, KeepsTags;
    var mark := Push(ValueMark, RenderTree(t, rest));
    NothingMeans(sc, m);
    ReadsNothing(sc, mark, m, d, false);
    DecodesValue(sc, t, rest, m, d, true, Null);
  }

  lemma NothingMeans(sc: Scope, m: Memory)
    ensures EvalNode(sc, NULL_NODE, m) == Meaning(m, Ok(Null))
  {
  }

  lemma MisreadEntry(e: Entry)
    requires HasIndentlessKey(e)
    ensures e.Keyed? ==> ParsedEntry(e) == [MisreadPair(e)] + [YPair(NULL_NODE, Parsed(e.val))]
    ensures e.KeyOnly? ==> ParsedEntry(e) == [MisreadPair(e)]
  {
  }

  lemma {:induction false} DecodesMisread(sc: Scope, e: Entry, comma: bool, later: seq<Event>, m: Memory, d: nat,
                                          acc: seq<Pair>, seen: set<string>)
    requires HasIndentlessKey(e) && later != [] && ReadableEntry(e, Comma(comma, later), true)
    requires EntryKeepsTags(sc, e) && d + HeightOfEntry(e) <= MAX_DEPTH
    ensures PairsGoOn(sc, Pairs(sc, RenderEntry(e, Comma(comma, later)), m, d, false, acc, seen), ParsedEntry(e), later,
                      m, d, false, acc, seen)
    decreases e, 3
  {
    hide KeyedPair, BarePair, Pairs, Readable, RenderTree, EvalNode, EvalPair, PairsGoOn, SeenAfter;
    var rest := Comma(comma, later);
    var all := Pairs(sc, RenderEntry(e, rest), m, d, false, acc, seen);
    MisreadShape(e, rest);
    MisreadEntry(e);
    DecodesMisreadPair(sc, e, rest, m, d);
    EntryGoesOn(sc, RenderEntry(e, rest), AfterKey(e, rest), MisreadPair(e), m, d, acc, seen);
    if e.Keyed? {
      var p := EvalPairs(sc, [MisreadPair(e)], m, acc, seen);
      if p.r.Ok? {
        var now := SeenAfter(sc, [MisreadPair(e)], m, seen);
        DecodesMarkedValue(sc, e.val, rest, p.mem, d);
        EntryGoesOn(sc, AfterKey(e, rest), rest, YPair(NULL_NODE, Parsed(e.val)), p.mem, d, p.r.value, now);
      }
      PairsGoOnInTurn(sc, all, [MisreadPair(e)], AfterKey(e, rest), [YPair(NULL_NODE, Parsed(e.val))], rest, m, d, false,
                      acc, seen);
    }
    GoesOnPastComma(sc, all, ParsedEntry(e), comma, later, m, d, acc, seen);
  }

  lemma EntryGoesOn(sc: Scope, ev: seq<Event>, rest: seq<Event>, p: YPair, m: Memory, d: nat, acc: seq<Pair>, seen: set<string>)
    requires |rest| < |ev| && (ev[0].ValueMark? || ev[0].Key?)
    requires SameOutcome(Decode.Entry(sc, ev, m, d, false), EvalPair(sc, p, m), rest)
    ensures PairsGoOn(sc, Pairs(sc, ev, m, d, false, acc, seen), [p], rest, m, d, false, acc, seen)
  {
    hide EvalPair, Decode.Entry;
    PairsRound(sc, ev, m, d, false, acc, seen);
    OnePairGoesOn(sc, Pairs(sc, ev, m, d, false, acc, seen), p, rest, m, d, false, acc, seen);
  }

  lemma GoesOnPastComma(sc: Scope, o: Out<seq<Pair>>, pairs: seq<YPair>, comma: bool, later: seq<Event>, m: Memory, d: nat,
                        acc: seq<Pair>, seen: set<string>)
    requires PairsGoOn(sc, o, pairs, Comma(comma, later), m, d, false, acc, seen)
    ensures PairsGoOn(sc, o, pairs, later, m, d, false, acc, seen)
  {
    var e := EvalPairs(sc, pairs, m, acc, seen);
    if e.r.Ok? {
      SkipsComma(sc, comma, later, e.mem, d, false, e.r.value, SeenAfter(sc, pairs, m, seen));
    }
  }

  // What the mapping's loop makes of an entry and the comma after it.
  lemma {:induction false} DecodesFirstEntry(sc: Scope, e: Entry, comma: bool, later: seq<Event>, m: Memory, d: nat,
                                             flow: bool, acc: seq<Pair>, seen: set<string>)
    requires later != [] && ReadableEntry(e, Comma(comma, later), !flow)
    requires StandsBare(e, flow, RenderEntry(e, Comma(comma, later)))
    requires EntryKeepsTags(sc, e) && d + HeightOfEntry(e) <= MAX_DEPTH
    ensures PairsGoOn(sc, Pairs(sc, RenderEntry(e, Comma(comma, later)), m, d, flow, acc, seen), ParsedEntry(e), later,
                      m, d, flow, acc, seen)
    decreases e, 4
  {
    if HasIndentlessKey(e) {
      DecodesMisread(sc, e, comma, later, m, d, acc, seen);
    } else {
      PlainEntry(e, Comma(comma, later), !flow);
      DecodesPlainEntry(sc, e, comma, later, m, d, flow, acc, seen);
      OnePairGoesOn(sc, Pairs(sc, RenderEntry(e, Comma(comma, later)), m, d, flow, acc, seen), PlainPair(e), later,
                    m, d, flow, acc, seen);
    }
  }

  lemma {:induction false} DecodesPlainEntry(sc: Scope, e: Entry, comma: bool, later: seq<Event>, m: Memory, d: nat,
                                             flow: bool, acc: seq<Pair>, seen: set<string>)
    requires later != [] && ReadableEntry(e, Comma(comma, later), false)
    requires StandsBare(e, flow, RenderEntry(e, Comma(comma, later)))
    requires !HasIndentlessKey(e) && EntryKeepsTags(sc, e) && d + HeightOfEntry(e) <= MAX_DEPTH
    ensures var p, o := EvalPair(sc, PlainPair(e), m), Pairs(sc, RenderEntry(e, Comma(comma, later)), m, d, flow, acc, seen);
            if p.r.Err? then o.r == Err(p.r.error)
            else
              var checked := CheckKey(sc.config, seen, p.r.value.key);
              if checked.Err? then o.r == Err(checked.error)
              else o == Pairs(sc, later, p.mem, d, flow, acc + [p.r.value], checked.value)
    decreases e, 3
  {
    var ev := RenderEntry(e, Comma(comma, later));
    DecodesEntry(sc, e, Comma(comma, later), m, d, flow);
    EntryStarts(e, Comma(comma, later));
    PairsRound(sc, ev, m, d, flow, acc, seen);
    var p := EvalPair(sc, PlainPair(e), m);
    if p.r.Ok? {
      var checked := CheckKey(sc.config, seen, p.r.value.key);
      if checked.Ok? {
        SkipsComma(sc, comma, later, p.mem, d, flow, acc + [p.r.value], checked.value);
      }
    }
  }

  lemma PairsRound(sc: Scope, ev: seq<Event>, m: Memory, d: nat, flow: bool, acc: seq<Pair>, seen: set<string>)
    requires ev != [] && (IsProperty(ev[0]) || IsNodeStart(ev[0], false) || ev[0].ValueMark? || ev[0].Key?)
    ensures var o, all := Decode.Entry(sc, ev, m, d, flow), Pairs(sc, ev, m, d, flow, acc, seen);
            if o.r.Err? then all.r == Err(o.r.error)
            else
              var checked := CheckKey(sc.config, seen, o.r.value.key);
              if checked.Err? then all.r == Err(checked.error)
              else |o.rest| < |ev| ==> all == Pairs(sc, o.rest, o.mem, d, flow, acc + [o.r.value], checked.value)
  {
  }

  lemma SkipsComma(sc: Scope, more: bool, ev: seq<Event>, m: Memory, d: nat, flow: bool, acc: seq<Pair>, seen: set<string>)
    ensures Pairs(sc, Comma(more, ev), m, d, flow, acc, seen) == Pairs(sc, ev, m, d, flow, acc, seen)
  {
  }

  // ----- Where the decoder and the tree part -----

  // In front of an indentless sequence a tag is read and dropped.
  lemma IndentlessDropsTag(sc: Scope, t: Tree, rest: seq<Event>, m: Memory, d: nat)
    requires t.Indentless? && rest != [] && Readable(t, rest, true) && ItemsKeepTags(sc, t.items)
    requires d + Height(t) <= MAX_DEPTH && !TagUndefined(sc, t.props.tag)
    ensures Agrees(Node(sc, RenderTree(t, rest), m, d, true),
                   EvalNode(sc, YNode(YSequence(ParsedItems(t.items)), None, t.props.anchor), m), rest, false)
  {
    ReadsProps(sc, t.props, RenderItems(t.items, rest), m, d + 1, true);
    DecodesIndentless(sc, t.items, rest, m, d + 1, []);
  }

  // So such a node decodes to its meaning exactly when its tag is not a custom one.
  lemma IndentlessAgreesExactly(sc: Scope, t: Tree, rest: seq<Event>, m: Memory, d: nat)
    requires t.Indentless? && rest != [] && Readable(t, rest, true) && ItemsKeepTags(sc, t.items)
    requires d + Height(t) <= MAX_DEPTH && EvalNode(sc, Parsed(t), m).r.Ok?
    ensures Agrees(Node(sc, RenderTree(t, rest), m, d, true), EvalNode(sc, Parsed(t), m), rest, false) <==>
            (t.props.tag.Some? ==> !IsCustom(ExpandTag(sc.handles, t.props.tag.value)))
  {
    IndentlessDropsTag(sc, t, rest, m, d);
    if t.props.tag.Some? && IsCustom(ExpandTag(sc.handles, t.props.tag.value)) {
      assert EvalNode(sc, Parsed(t), m).r.value.Tagged?;
    } else {
      DecodesTree(sc, t, rest, m, d, true);
    }
  }

  // `"a"`, which is a string whatever the schema.
  function Quoted(text: string): Tree { Leaf(Props(None, None, true), text, Resolver.DoubleQuoted) }

  lemma QuotedMeans(sc: Scope, text: string, m: Memory)
    ensures EvalNode(sc, Parsed(Quoted(text)), m) == Meaning(m, Ok(Str(text)))
  {
  }

  lemma OneItemMeans(sc: Scope, text: string, m: Memory)
    ensures EvalItems(sc, ParsedItems([Quoted(text)]), m, []) == Meaning(m, Ok([Str(text)]))
  {
    var items := [Quoted(text)];
    assert items[1..] == [] && ParsedItems(items) == [Parsed(items[0])];
    QuotedMeans(sc, text, m);
    assert [Parsed(items[0])][1..] == [];
    assert [] + [Str(text)] == [Str(text)];
    assert EvalItems(sc, [], m, [Str(text)]) == Meaning(m, Ok([Str(text)]));
  }

  lemma LocalTag(tag: string)
    requires tag == "!t"
    ensures ExpandTag(map[], tag) == tag && IsCustom(tag) && !HandleUndefined(map[], tag)
  {
    assert tag[1..] == "t" && "t"[1..] == "";
    assert FindMark("") == 0 && FindMark("t") == 1;
  }

  // Such a loss is real: in `k: !t` and then `- "a"` the tag is gone.
  lemma CustomTagIsLost(sc: Scope, t: Tree)
    requires sc.handles == map[] && t == Indentless(Props(Some("!t"), None, true), [Quoted("a")])
    ensures Node(sc, RenderTree(t, [BlockEnd]), FRESH, 0, true).r == Ok(Some(Sequence([Str("a")])))
    ensures EvalNode(sc, Parsed(t), FRESH).r == Ok(Tagged("!t", Sequence([Str("a")])))
  {
    LocalTag(t.props.tag.value);
    OneItemMeans(sc, "a", FRESH);
    OneIsReadable(sc, t.items);
    TaggedItemsMean(sc, t.props, t.items, [Str("a")]);
    IndentlessDropsTag(sc, t, [BlockEnd], FRESH, 0);
  }

  lemma TaggedItemsMean(sc: Scope, p: Props, items: seq<Tree>, values: seq<Value>)
    requires p.tag.Some? && p.anchor == None && EvalItems(sc, ParsedItems(items), FRESH, []) == Meaning(FRESH, Ok(values))
    requires !TagUndefined(sc, p.tag)
    ensures EvalNode(sc, YNode(YSequence(ParsedItems(items)), None, None), FRESH).r == Ok(Sequence(values))
    ensures EvalNode(sc, YNode(YSequence(ParsedItems(items)), p.tag, None), FRESH).r ==
            Ok(WithTag(Expanded(sc, p.tag), Sequence(values)))
  {
  }

  lemma OneIsReadable(sc: Scope, items: seq<Tree>)
    requires |items| == 1 && items[0].Leaf?
    ensures ReadableItems(items, [BlockEnd]) && ItemsKeepTags(sc, items) && HeightOfItems(items) == 1
  {
    var t, none := items[0], items[1..];
    assert none == [];
    assert RenderItems(none, [BlockEnd]) == [BlockEnd] && ReadableItems(none, [BlockEnd]);
    assert HeightOfItems(none) == 0 && ItemsKeepTags(sc, none);
    assert Readable(t, [BlockEnd], false) && Height(t) == 1 && KeepsTags(sc, t) && !IsBareEmpty(t);
  }

  // An empty item of an indentless sequence is kept as a null exactly when a dash, a key or
  // the end of a collection comes next. In front of a `:` it is lost, and so is the end.
  lemma EmptyItemKeptExactly(sc: Scope, rest: seq<Event>, m: Memory, d: nat, acc: seq<Value>)
    requires rest != [] ==> EndsNode(rest[0], false)
    requires d < MAX_DEPTH
    ensures var o := BlockItems(sc, Push(SequenceEntry, rest), m, d, acc);
            && (o == BlockItems(sc, rest, m, d, acc + [Null]) <==>
                  rest != [] && (rest[0] in {SequenceEntry, SequenceEnd, MappingEnd, BlockEnd} || rest[0].Key?))
            && (o == Out(rest, m, Ok(acc)) <==>
                  rest == [] || !(rest[0] in {SequenceEntry, SequenceEnd, MappingEnd, BlockEnd} || rest[0].Key?))
  {
    if rest == [] || !EndsIndentlessItem(rest[0]) {
      if rest != [] {
        ReadsNothing(sc, rest, m, d, false);
      }
      LostItem(sc, rest, m, d, acc);
    } else {
      KeptGrows(sc, rest, m, d, acc + [Null]);
    }
  }

  // Such a loss is real: of `"k":`, `-` and `: "v"` the decoder makes an empty sequence and
  // a pair without a key, and the item that the dash stands for is gone.
  lemma ItemIsLost(sc: Scope, m: Memory, value: seq<Event>, ev: seq<Event>)
    requires !sc.config.duplicateKeysError
    requires value == Push(ValueMark, Push(Scalar("v", Resolver.DoubleQuoted), [BlockEnd]))
    requires ev == Push(Key(false), Push(Scalar("k", Resolver.DoubleQuoted), Push(ValueMark, Push(SequenceEntry, value))))
    ensures Pairs(sc, ev, m, 0, false, [], {}) == Out([], m, Ok([Pair(Str("k"), Sequence([])), Pair(Null, Str("v"))]))
  {
    KeyWithoutItem(sc, m, value);
    ValueWithoutKey(sc, m, value);
    TwoPairs(sc, ev, value, [BlockEnd], m, Pair(Str("k"), Sequence([])), Pair(Null, Str("v")));
  }

  lemma TwoPairs(sc: Scope, ev: seq<Event>, next: seq<Event>, rest: seq<Event>, m: Memory, first: Pair, second: Pair)
    requires !sc.config.duplicateKeysError && first.key.Str? && second.key == Null
    requires ev != [] && next != [] && ev[0].Key? && next[0].ValueMark? && rest == [BlockEnd]
    requires |rest| < |next| < |ev|
    requires KeyedPair(sc, ev[1..], m, 0, true) == Out(next, m, Ok(first))
    requires BarePair(sc, next, m, 0, false) == Out(rest, m, Ok(second))
    ensures Pairs(sc, ev, m, 0, false, [], {}) == Out([], m, Ok([first, second]))
  {
    TakesPair(sc, ev, next, m, [], first);
    TakesPair(sc, next, rest, m, [first], second);
    assert [] + [first] == [first] && [first] + [second] == [first, second];
    assert Pairs(sc, rest, m, 0, false, [first, second], {}) == Out([], m, Ok([first, second]));
  }

  lemma TakesPair(sc: Scope, ev: seq<Event>, next: seq<Event>, m: Memory, acc: seq<Pair>, p: Pair)
    requires !sc.config.duplicateKeysError && (p.key.Str? || p.key == Null)
    requires ev != [] && (ev[0].Key? || ev[0].ValueMark?) && |next| < |ev|
    requires Decode.Entry(sc, ev, m, 0, false) == Out(next, m, Ok(p))
    ensures Pairs(sc, ev, m, 0, false, acc, {}) == Pairs(sc, next, m, 0, false, acc + [p], {})
  {
    PairsRound(sc, ev, m, 0, false, acc, {});
  }

  lemma KeyWithoutItem(sc: Scope, m: Memory, value: seq<Event>)
    requires value != [] && value[0].ValueMark?
    ensures KeyedPair(sc, Push(Scalar("k", Resolver.DoubleQuoted), Push(ValueMark, Push(SequenceEntry, value))), m, 0, true)
            == Out(value, m, Ok(Pair(Str("k"), Sequence([]))))
  {
    hide Node;
    ReadsScalar(sc, "k", Push(ValueMark, Push(SequenceEntry, value)), m, 0, false);
    EmptySequence(sc, m, value);
  }

  lemma EmptySequence(sc: Scope, m: Memory, value: seq<Event>)
    requires value != [] && value[0].ValueMark?
    ensures Node(sc, Push(SequenceEntry, value), m, 0, true) == Out(value, m, Ok(Some(Sequence([]))))
  {
    hide BlockItems;
    EmptyItemKeptExactly(sc, value, m, 1, []);
    ReadsContent(sc, Push(SequenceEntry, value), m, 1, true, None, None);
  }

  lemma ValueWithoutKey(sc: Scope, m: Memory, value: seq<Event>)
    requires value == Push(ValueMark, Push(Scalar("v", Resolver.DoubleQuoted), [BlockEnd]))
    ensures BarePair(sc, value, m, 0, false) == Out([BlockEnd], m, Ok(Pair(Null, Str("v"))))
  {
    hide Node;
    ReadsNothing(sc, value, m, 0, false);
    ReadsScalar(sc, "v", [BlockEnd], m, 0, true);
    assert PairValue(sc, value[1..], m, 0, true, Null) == Out([BlockEnd], m, Ok(Pair(Null, Str("v"))));
  }

  lemma ReadsScalar(sc: Scope, text: string, rest: seq<Event>, m: Memory, d: nat, allow: bool)
    requires d < MAX_DEPTH
    ensures Node(sc, Push(Scalar(text, Resolver.DoubleQuoted), rest), m, d, allow) == Out(rest, m, Ok(Some(Str(text))))
  {
    ReadsContent(sc, Push(Scalar(text, Resolver.DoubleQuoted), rest), m, d + 1, allow, None, None);
  }

  lemma LostItem(sc: Scope, rest: seq<Event>, m: Memory, d: nat, acc: seq<Value>)
    requires rest == [] || !EndsIndentlessItem(rest[0])
    requires Node(sc, rest, m, d, false) == Out(rest, m, Ok(None))
    ensures BlockItems(sc, Push(SequenceEntry, rest), m, d, acc) == Out(rest, m, Ok(acc))
    ensures BlockItems(sc, rest, m, d, acc + [Null]) == Out(rest, m, Ok(acc + [Null]))
  {
    var ev := Push(SequenceEntry, rest);
    assert |ev| > 1 ==> ev[1] == ev[1..][0] == rest[0];
    assert BlockItems(sc, rest, m, d, acc) == Out(rest, m, Ok(acc));
  }

  // The loop never drops an item it holds.
  lemma {:induction false} KeptGrows(sc: Scope, ev: seq<Event>, m: Memory, d: nat, acc: seq<Value>)
    ensures var o := BlockItems(sc, ev, m, d, acc); o.r.Ok? ==> |o.r.value| >= |acc|
    decreases |ev|
  {
    if ev != [] && ev[0].SequenceEntry? {
      if |ev| > 1 && EndsIndentlessItem(ev[1]) {
        KeptGrows(sc, ev[1..], m, d, acc + [Null]);
      } else {
        var o := Node(sc, ev[1..], m, d, false);
        if o.r.Ok? {
          KeptGrows(sc, o.rest, o.mem, d, WithItem(acc, o.r.value));
        }
      }
    }
  }

  // So an indentless sequence that ends in an empty item decodes to its meaning exactly in
  // front of one of those, and otherwise to what comes before that item.
  lemma LastEmptyKeptExactly(sc: Scope, items: seq<Tree>, last: Tree, rest: seq<Event>, m: Memory, d: nat)
    requires IsBareEmpty(last) && rest != [] && EndsNode(rest[0], false) && !(rest[0] in {SequenceEntry, MappingEnd})
    requires ReadableItems(items, Push(SequenceEntry, rest)) && ItemsKeepTags(sc, items)
    requires d + HeightOfItems(items) <= MAX_DEPTH && d < MAX_DEPTH
    requires EvalItems(sc, ParsedItems(items), m, []).r.Ok?
    ensures var o := BlockItems(sc, RenderItems(items + [last], rest), m, d, []);
            && (SameOutcome(o, EvalItems(sc, ParsedItems(items + [last]), m, []), rest) <==>
                  rest[0] in {SequenceEntry, SequenceEnd, MappingEnd, BlockEnd} || rest[0].Key?)
            && (SameOutcome(o, EvalItems(sc, ParsedItems(items), m, []), rest) <==>
                  !(rest[0] in {SequenceEntry, SequenceEnd, MappingEnd, BlockEnd} || rest[0].Key?))
  {
    RenderLast(items, last, rest);
    EvalLast(sc, items, last, m, []);
    ReadsItems(sc, items, Push(SequenceEntry, rest), m, d, []);
    var e := EvalItems(sc, ParsedItems(items), m, []);
    EmptyItemKeptExactly(sc, rest, e.mem, d, e.r.value);
  }

  lemma {:induction false} RenderLast(items: seq<Tree>, last: Tree, rest: seq<Event>)
    requires IsBareEmpty(last)
    ensures RenderItems(items + [last], rest) == RenderItems(items, Push(SequenceEntry, rest))
  {
    if items == [] {
      assert ([] + [last])[1..] == [] && RenderItems([], rest) == rest;
    } else {
      assert (items + [last])[1..] == items[1..] + [last];
      RenderLast(items[1..], last, rest);
    }
  }

  lemma {:induction false} EvalLast(sc: Scope, items: seq<Tree>, last: Tree, m: Memory, acc: seq<Value>)
    requires IsBareEmpty(last)
    ensures var e, all := EvalItems(sc, ParsedItems(items), m, acc), EvalItems(sc, ParsedItems(items + [last]), m, acc);
            if e.r.Ok? then all == Meaning(e.mem, Ok(e.r.value + [Null])) else all.r == e.r
  {
    if items == [] {
      assert [last][1..] == [] && ParsedItems([]) == [];
      assert [] + [last] == [last] && ParsedItems([last]) == [NULL_NODE];
      assert [NULL_NODE][1..] == [];
      assert EvalNode(sc, NULL_NODE, m) == Meaning(m, Ok(Null));
      assert EvalItems(sc, [], m, acc + [Null]) == Meaning(m, Ok(acc + [Null]));
    } else {
      assert (items + [last])[1..] == items[1..] + [last];
      var e := EvalNode(sc, Parsed(items[0]), m);
      if e.r.Ok? {
        EvalLast(sc, items[1..], last, e.mem, acc + [e.r.value]);
      }
    }
  }
}
