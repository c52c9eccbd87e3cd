// The nesting cap for the composer: the tree that it makes of a readable layout it makes
// within the cap, and from exactly the layout's events.
module ComposeCap {
  import opened Wrappers
  import opened Events
  import opened Decode
  import opened Syntax
  import opened Grammar
  import opened Compose
  import DG = DecodeGrammar
  import CG = ComposeGrammar

  predicate Took<T>(o: Made<T>, rest: seq<Event>, fits: bool) { o.r.Ok? ==> o.rest == rest && fits }

  predicate TookNode(o: Made<Option<YNode>>, rest: seq<Event>, bare: bool, fits: bool) {
    o.r.Ok? ==> o.rest == rest && fits && (o.r.value.None? <==> bare)
  }

  // The composer makes no tree of a layout that nests past the cap.
  lemma {:induction false} ComposesWithinCap(t: Tree, rest: seq<Event>, seen: set<string>, d: nat, allow: bool)
    requires rest != [] && Readable(t, rest, allow)
    ensures TookNode(CNode(RenderTree(t, rest), seen, d, allow), rest, IsBareEmpty(t), d + Height(t) <= 1000)
    decreases t, 2
  {
    hide CInner, RenderTree, Readable;
    if d + 1 <= MAX_DEPTH {
      InnerWithinCap(t, rest, seen, d + 1, allow);
    }
  }

  // So it makes one exactly of a layout within the cap whose aliases are known.
  lemma MakesExactly(t: Tree, rest: seq<Event>, seen: set<string>, d: nat, allow: bool)
    requires rest != [] && Readable(t, rest, allow)
    ensures CNode(RenderTree(t, rest), seen, d, allow).r.Ok? <==> d + Height(t) <= 1000 && CG.Known(Parsed(t), seen).Ok?
  {
    hide CNode, CG.Known, RenderTree, Readable, Parsed;
    ComposesWithinCap(t, rest, seen, d, allow);
    if d + Height(t) <= MAX_DEPTH {
      CG.ComposesTree(t, rest, seen, d, allow);
    }
  }

  lemma {:induction false} InnerWithinCap(t: Tree, rest: seq<Event>, seen: set<string>, d: nat, allow: bool)
    requires rest != [] && Readable(t, rest, allow) && d <= MAX_DEPTH
    ensures TookNode(CInner(RenderTree(t, rest), seen, d, allow, None, None), rest, IsBareEmpty(t),
                     d + Height(t) <= MAX_DEPTH + 1)
    decreases t, 1
  {
    hide CInner, RenderTree;
    match t
    case Leaf(_, _, _) => CG.ComposesLeaf(t, rest, seen, d, allow);
    case AliasTo(_) => CG.ComposesLeaf(t, rest, seen, d, allow);
    case Empty(_) => CG.ComposesEmpty(t, rest, seen, d, allow);
    case BlockSeq(_, _) => BlockSeqWithinCap(t, rest, seen, d, allow);
    case Indentless(_, _) => IndentlessSeqWithinCap(t, rest, seen, d);
    case FlowSeq(_, _, _) => FlowSeqWithinCap(t, rest, seen, d, allow);
    case Map(_, _, _, _) => MapWithinCap(t, rest, seen, d, allow);
  }

  lemma {:induction false} BlockSeqWithinCap(t: Tree, rest: seq<Event>, seen: set<string>, d: nat, allow: bool)
    requires t.BlockSeq? && rest != [] && Readable(t, rest, allow) && d <= MAX_DEPTH
    ensures TookNode(CInner(RenderTree(t, rest), seen, d, allow, None, None), rest, false, d + Height(t) <= MAX_DEPTH + 1)
    decreases t, 0
  {
    var start := Push(SequenceStart(false), RenderItems(t.items, Push(BlockEnd, rest)));
    ItemsWithinCap(t.items, rest, seen, d, []);
    CollectionTaken(t.props, start, rest, seen, d, allow, d + HeightOfItems(t.items) <= MAX_DEPTH);
  }

  lemma {:induction false} IndentlessSeqWithinCap(t: Tree, rest: seq<Event>, seen: set<string>, d: nat)
    requires t.Indentless? && rest != [] && Readable(t, rest, true) && d <= MAX_DEPTH
    ensures TookNode(CInner(RenderTree(t, rest), seen, d, true, None, None), rest, false, d + Height(t) <= MAX_DEPTH + 1)
    decreases t, 0
  {
    IndentlessWithinCap(t.items, rest, seen, d, []);
    CollectionTaken(t.props, RenderItems(t.items, rest), rest, seen, d, true, d + HeightOfItems(t.items) <= MAX_DEPTH);
  }

  lemma {:induction false} FlowSeqWithinCap(t: Tree, rest: seq<Event>, seen: set<string>, d: nat, allow: bool)
    requires t.FlowSeq? && rest != [] && Readable(t, rest, allow) && d <= MAX_DEPTH
    ensures TookNode(CInner(RenderTree(t, rest), seen, d, allow, None, None), rest, false, d + Height(t) <= MAX_DEPTH + 1)
    decreases t, 0
  {
    var start := Push(SequenceStart(true), RenderElements(t.elements, t.trailing, Push(SequenceEnd, rest)));
    ElementsWithinCap(t.elements, t.trailing, rest, seen, d, [], true);
    CollectionTaken(t.props, start, rest, seen, d, allow, d + HeightOfElements(t.elements) <= MAX_DEPTH);
  }

  lemma {:induction false} MapWithinCap(t: Tree, rest: seq<Event>, seen: set<string>, d: nat, allow: bool)
    requires t.Map? && rest != [] && Readable(t, rest, allow) && d <= MAX_DEPTH
    ensures TookNode(CInner(RenderTree(t, rest), seen, d, allow, None, None), rest, false, d + Height(t) <= MAX_DEPTH + 1)
    decreases t, 0
  {
    var start := Push(MappingStart(t.flow), RenderEntries(t.entries, t.flow, t.trailing, Push(CloseMap(t.flow), rest)));
    EntriesWithinCap(t.entries, t.flow, t.trailing, rest, seen, d, []);
    CollectionTaken(t.props, start, rest, seen, d, allow, d + HeightOfEntries(t.entries) <= MAX_DEPTH);
  }

  lemma CollectionTaken(p: Props, start: seq<Event>, rest: seq<Event>, seen: set<string>, d: nat, allow: bool, fits: bool)
    requires start != [] && (start[0].SequenceStart? || start[0].MappingStart? || (start[0].SequenceEntry? && allow))
    requires start[0].SequenceStart? ==> Took(CItems(start[1..], seen, d, start[0].flow, []), rest, fits)
    requires start[0].MappingStart? ==> Took(CPairs(start[1..], seen, d, start[0].flow, []), rest, fits)
    requires start[0].SequenceEntry? ==> Took(CBlockItems(start, seen, d, []), rest, fits)
    ensures TookNode(CInner(RenderProps(p, start), seen, d, allow, None, None), rest, false, fits)
  {
    hide CInner, RenderProps, CItems, CPairs, CBlockItems;
    CG.ReadsProps(p, start, seen, d, allow);
  }

  lemma {:induction false} ItemsWithinCap(items: seq<Tree>, rest: seq<Event>, seen: set<string>, d: nat, acc: seq<YNode>)
    requires ReadableItems(items, Push(BlockEnd, rest)) && d <= MAX_DEPTH
    ensures Took(CItems(RenderItems(items, Push(BlockEnd, rest)), seen, d, false, acc), rest,
                 d + HeightOfItems(items) <= MAX_DEPTH)
    decreases items, 0
  {
    hide CBlockEntry;
    if items != [] {
      var more := RenderItems(items[1..], Push(BlockEnd, rest));
      BlockEntryWithinCap(items[0], more, seen, d);
      var o := CBlockEntry(RenderTree(items[0], more), seen, d);
      if o.r.Ok? {
        ItemsWithinCap(items[1..], rest, o.seen, d, WithNode(acc, o.r.value));
      }
    }
  }

  lemma {:induction false} BlockEntryWithinCap(t: Tree, more: seq<Event>, seen: set<string>, d: nat)
    requires more != [] && (IsBareEmpty(t) ==> EndsIndentlessItem(more[0])) && Readable(t, more, false) && d <= MAX_DEPTH
    ensures TookNode(CBlockEntry(RenderTree(t, more), seen, d), more, false, d + HeightOfItem(t) <= MAX_DEPTH)
    decreases t, 3
  {
    if !IsBareEmpty(t) {
      ComposesWithinCap(t, more, seen, d, false);
      DG.ItemStarts(t, more);
      CG.EntryIsNode(RenderTree(t, more), seen, d);
    }
  }

  lemma {:induction false} IndentlessWithinCap(items: seq<Tree>, rest: seq<Event>, seen: set<string>, d: nat, acc: seq<YNode>)
    requires rest != [] && !(rest[0] in {SequenceEntry, MappingEnd}) && ReadableItems(items, rest) && d <= MAX_DEPTH
    ensures Took(CBlockItems(RenderItems(items, rest), seen, d, acc), rest, d + HeightOfItems(items) <= MAX_DEPTH)
    decreases items, 0
  {
    hide CBlockEntry;
    if items != [] {
      var more := RenderItems(items[1..], rest);
      BlockEntryWithinCap(items[0], more, seen, d);
      var o := CBlockEntry(RenderTree(items[0], more), seen, d);
      if o.r.Ok? {
        IndentlessWithinCap(items[1..], rest, o.seen, d, WithNode(acc, o.r.value));
      }
    }
  }

  lemma {:induction false} ElementsWithinCap(elements: seq<Element>, trailing: bool, rest: seq<Event>, seen: set<string>,
                                             d: nat, acc: seq<YNode>, first: bool)
    requires ReadableElements(elements, trailing, Push(SequenceEnd, rest)) && d <= MAX_DEPTH
    ensures var ev := RenderElements(elements, trailing, Push(SequenceEnd, rest));
            Took(CItems(if first then ev else Comma(elements != [] || trailing, ev), seen, d, true, acc), rest,
                 d + HeightOfElements(elements) <= MAX_DEPTH)
    decreases elements, 0
  {
    hide CItem, CNode;
    var ev := RenderElements(elements, trailing, Push(SequenceEnd, rest));
    if elements == [] {
      NoMoreElements(ev, seen, d, acc);
    } else {
      var more := Comma(|elements| > 1 || trailing, RenderElements(elements[1..], trailing, Push(SequenceEnd, rest)));
      ElementWithinCap(elements[0], more, seen, d);
      DG.ElementStarts(elements[0], more);
      ElementTaken(RenderElement(elements[0], more), more, seen, d, acc, first, d + HeightOfElement(elements[0]) <= MAX_DEPTH);
      var o := CItem(RenderElement(elements[0], more), seen, d, true);
      if o.r.Ok? {
        ElementsWithinCap(elements[1..], trailing, rest, o.seen, d, acc + [o.r.value.value], false);
      }
    }
  }

  lemma NoMoreElements(ev: seq<Event>, seen: set<string>, d: nat, acc: seq<YNode>)
    requires d <= MAX_DEPTH && ev != [] && ev[0].SequenceEnd?
    ensures Took(CItems(Push(FlowEntry, ev), seen, d, true, acc), ev[1..], true)
    ensures Took(CItems(ev, seen, d, true, acc), ev[1..], true)
  {
    if d + 1 <= MAX_DEPTH {
      CG.ReadsNothing(ev, seen, d, false);
      assert CItem(ev, seen, d, true) == Made(ev, seen, Ok(None));
    } else {
      assert CNode(ev, seen, d, false).r.Err?;
      assert CItem(ev, seen, d, true).r.Err?;
    }
    assert Push(FlowEntry, ev)[1..] == ev;
  }

  lemma ElementTaken(ev: seq<Event>, more: seq<Event>, seen: set<string>, d: nat, acc: seq<YNode>, first: bool, fits: bool)
    requires |ev| > |more| && TookNode(CItem(ev, seen, d, true), more, false, fits)
    requires DG.IsProperty(ev[0]) || IsNodeStart(ev[0], false) || ev[0].Key? || ev[0].ValueMark?
    ensures var o, all := CItem(ev, seen, d, true), CItems(if first then ev else Push(FlowEntry, ev), seen, d, true, acc);
            if o.r.Ok? then fits && all == CItems(more, o.seen, d, true, acc + [o.r.value.value]) else all.r.Err?
  {
    hide CItem;
  }

  lemma {:induction false} ElementWithinCap(e: Element, rest: seq<Event>, seen: set<string>, d: nat)
    requires rest != [] && ReadableElement(e, rest) && !rest[0].ValueMark? && d <= MAX_DEPTH
    ensures TookNode(CItem(RenderElement(e, rest), seen, d, true), rest, false, d + HeightOfElement(e) <= MAX_DEPTH)
    decreases e, 3
  {
    hide CNode;
    match e
    case Single(node) =>
      ComposesWithinCap(node, rest, seen, d, false);
      DG.TreeStarts(node, rest);
    case OfPair(entry) =>
      if entry.Bare? {
        BareItemWithinCap(entry, rest, seen, d);
      } else {
        KeyedWithinCap(entry, rest, seen, d, false);
      }
  }

  lemma {:induction false} BareItemWithinCap(e: Entry, rest: seq<Event>, seen: set<string>, d: nat)
    requires e.Bare? && rest != [] && ReadableEntry(e, rest, false) && Readable(e.val, rest, false) && d <= MAX_DEPTH
    ensures TookNode(CItem(RenderEntry(e, rest), seen, d, true), rest, false, d + HeightOfEntry(e) <= MAX_DEPTH)
    decreases e, 1
  {
    hide CNode;
    var after := RenderTree(e.val, rest);
    var mark := Push(ValueMark, after);
    if IsBareEmpty(e.key) {
      ValueWithinCap(e.val, rest, seen, d, false, NULL_NODE);
      assert RenderTree(e.key, mark) == mark;
    } else {
      ComposesWithinCap(e.key, mark, seen, d, false);
      DG.TreeStarts(e.key, mark);
      var k := CNode(RenderTree(e.key, mark), seen, d, false);
      if k.r.Ok? {
        ValueWithinCap(e.val, rest, k.seen, d, false, k.r.value.value);
      }
    }
  }

  lemma {:induction false} ValueWithinCap(t: Tree, rest: seq<Event>, seen: set<string>, d: nat, allow: bool, key: YNode)
    requires rest != [] && Readable(t, rest, allow)
    ensures Took(CPairValue(RenderTree(t, rest), seen, d, allow, key), rest, d + Height(t) <= MAX_DEPTH)
    decreases t, 3
  {
    hide CNode, RenderTree, Readable;
    ComposesWithinCap(t, rest, seen, d, allow);
  }

  lemma {:induction false} KeyedWithinCap(e: Entry, rest: seq<Event>, seen: set<string>, d: nat, allow: bool)
    requires (e.Keyed? || e.KeyOnly?) && rest != [] && ReadableEntry(e, rest, false)
    requires e.Keyed? ==> Readable(e.val, rest, allow)
    ensures RenderEntry(e, rest)[0].Key?
    ensures Took(CKeyedPair(RenderEntry(e, rest)[1..], seen, d, allow), rest, d + HeightOfEntry(e) <= MAX_DEPTH)
    decreases e, 1
  {
    hide CNode;
    if e.Keyed? {
      var mark := Push(ValueMark, RenderTree(e.val, rest));
      ComposesWithinCap(e.key, mark, seen, d, false);
      var k := CNode(RenderTree(e.key, mark), seen, d, false);
      if k.r.Ok? {
        ValueWithinCap(e.val, rest, k.seen, d, allow, NodeOrNull(k.r.value));
      }
    } else {
      ComposesWithinCap(e.key, rest, seen, d, false);
      var k := CNode(RenderTree(e.key, rest), seen, d, false);
      if k.r.Ok? {
        CG.ReadsNothing(rest, k.seen, d, allow);
      }
    }
  }

  lemma {:induction false} BareWithinCap(e: Entry, rest: seq<Event>, seen: set<string>, d: nat, flow: bool)
    requires (e.Bare? || e.BareKey?) && rest != [] && ReadableEntry(e, rest, false)
    requires RenderEntry(e, rest) != [] && StandsBare(e, flow, RenderEntry(e, rest))
    ensures Took(CBarePair(RenderEntry(e, rest), seen, d, flow), rest, d + HeightOfEntry(e) <= MAX_DEPTH)
    decreases e, 1
  {
    hide CNode;
    if e.Bare? {
      var mark := Push(ValueMark, RenderTree(e.val, rest));
      ComposesWithinCap(e.key, mark, seen, d, false);
      var k := CNode(RenderTree(e.key, mark), seen, d, false);
      if k.r.Ok? {
        ValueWithinCap(e.val, rest, k.seen, d, true, NodeOrNull(k.r.value));
      }
    } else {
      ComposesWithinCap(e.key, rest, seen, d, false);
    }
  }

  lemma {:induction false} EntryWithinCap(e: Entry, rest: seq<Event>, seen: set<string>, d: nat, flow: bool)
    requires rest != [] && ReadableEntry(e, rest, false) && StandsBare(e, flow, RenderEntry(e, rest))
    ensures RenderEntry(e, rest) != []
    ensures Took(CEntry(RenderEntry(e, rest), seen, d, flow), rest, d + HeightOfEntry(e) <= MAX_DEPTH)
    decreases e, 2
  {
    DG.EntryStarts(e, rest);
    if e.Keyed? || e.KeyOnly? {
      KeyedWithinCap(e, rest, seen, d, true);
    } else {
      BareWithinCap(e, rest, seen, d, flow);
    }
  }

  lemma {:induction false} EntriesWithinCap(entries: seq<Entry>, flow: bool, trailing: bool, rest: seq<Event>, seen: set<string>,
                                            d: nat, acc: seq<YPair>)
    requires ReadableEntries(entries, flow, trailing, Push(CloseMap(flow), rest)) && d <= MAX_DEPTH
    ensures Took(CPairs(RenderEntries(entries, flow, trailing, Push(CloseMap(flow), rest)), seen, d, flow, acc), rest,
                 d + HeightOfEntries(entries) <= MAX_DEPTH)
    decreases entries, 0
  {
    if entries != [] {
      var later := RenderEntries(entries[1..], flow, trailing, Push(CloseMap(flow), rest));
      var comma := flow && (|entries| > 1 || trailing);
      var o := FirstEntryWithinCap(entries[0], comma, later, seen, d, flow, acc);
      if o.Some? {
        EntriesWithinCap(entries[1..], flow, trailing, rest, o.value.seen, d, o.value.acc);
      }
    }
  }

  // Where the mapping's loop goes on.
  datatype Later = Later(seen: set<string>, acc: seq<YPair>)

  lemma {:induction false} FirstEntryWithinCap(e: Entry, comma: bool, later: seq<Event>, seen: set<string>, d: nat, flow: bool,
                                               acc: seq<YPair>) returns (o: Option<Later>)
    requires later != [] && ReadableEntry(e, Comma(comma, later), !flow) && d <= MAX_DEPTH
    requires StandsBare(e, flow, RenderEntry(e, Comma(comma, later)))
    ensures var all := CPairs(RenderEntry(e, Comma(comma, later)), seen, d, flow, acc);
            if o.None? then all.r.Err?
            else d + HeightOfEntry(e) <= MAX_DEPTH && all == CPairs(later, o.value.seen, d, flow, o.value.acc)
    decreases e, 4
  {
    var rest := Comma(comma, later);
    if HasIndentlessKey(e) {
      o := MisreadWithinCap(e, rest, seen, d, acc);
    } else {
      DG.PlainEntry(e, rest, !flow);
      EntryWithinCap(e, rest, seen, d, flow);
      DG.EntryStarts(e, rest);
      o := RoundTaken(RenderEntry(e, rest), rest, seen, d, flow, acc, d + HeightOfEntry(e) <= MAX_DEPTH);
    }
    if o.Some? {
      CG.SkipsComma(comma, later, o.value.seen, d, flow, o.value.acc);
    }
  }

  lemma RoundTaken(ev: seq<Event>, rest: seq<Event>, seen: set<string>, d: nat, flow: bool, acc: seq<YPair>, fits: bool)
    returns (o: Option<Later>)
    requires |rest| < |ev| && Took(CEntry(ev, seen, d, flow), rest, fits)
    requires DG.IsProperty(ev[0]) || IsNodeStart(ev[0], false) || ev[0].ValueMark? || ev[0].Key?
    ensures var all := CPairs(ev, seen, d, flow, acc);
            if o.None? then all.r.Err? else fits && all == CPairs(rest, o.value.seen, d, flow, o.value.acc)
  {
    hide CEntry;
    CG.PairsRound(ev, seen, d, flow, acc);
    var p := CEntry(ev, seen, d, flow);
    return if p.r.Err? then None else Some(Later(p.seen, acc + [p.r.value]));
  }

  lemma {:induction false} MisreadWithinCap(e: Entry, rest: seq<Event>, seen: set<string>, d: nat, acc: seq<YPair>)
    returns (o: Option<Later>)
    requires HasIndentlessKey(e) && rest != [] && ReadableEntry(e, rest, true) && d <= MAX_DEPTH
    ensures var all := CPairs(RenderEntry(e, rest), seen, d, false, acc);
            if o.None? then all.r.Err?
            else d + HeightOfEntry(e) <= MAX_DEPTH && all == CPairs(rest, o.value.seen, d, false, o.value.acc)
    decreases e, 3
  {
    hide CKeyedPair, CBarePair, CPairs, Readable, RenderTree, HeightOfItems;
    DG.MisreadShape(e, rest);
    MisreadPairWithinCap(e, rest, seen, d);
    o := RoundTaken(RenderEntry(e, rest), DG.AfterKey(e, rest), seen, d, false, acc, d + Height(e.key) <= MAX_DEPTH);
    if o.Some? && e.Keyed? {
      MarkedValueWithinCap(e.val, rest, o.value.seen, d);
      o := RoundTaken(DG.AfterKey(e, rest), rest, o.value.seen, d, false, o.value.acc, d + Height(e.val) <= MAX_DEPTH);
    }
  }

  lemma {:induction false} MisreadPairWithinCap(e: Entry, rest: seq<Event>, seen: set<string>, d: nat)
    requires HasIndentlessKey(e) && rest != [] && ReadableEntry(e, rest, true) && d <= MAX_DEPTH
    ensures Took(CKeyedPair(RenderEntry(e, rest)[1..], seen, d, true), DG.AfterKey(e, rest), d + Height(e.key) <= MAX_DEPTH)
    decreases e, 1
  {
    hide RenderEntry, ReadableEntry, DG.AfterKey, CInner, CBlockItems;
    hide RenderItems, RenderProps, ReadableItems, HeightOfItems;
    DG.MisreadShape(e, rest);
    var items, after := e.key.items, DG.AfterKey(e, rest);
    var dashes := RenderItems(items, after);
    if d + 1 <= MAX_DEPTH {
      CG.ComposesEmpty(Empty(e.key.props), dashes, seen, d + 1, false);
      var k := CInner(RenderProps(e.key.props, dashes), seen, d + 1, false, None, None);
      if k.r.Ok? {
        IndentlessWithinCap(items, after, k.seen, d + 1, []);
        NoProps(dashes);
        CollectionTaken(Props(None, None, true), dashes, after, k.seen, d + 1, true, d + 1 + HeightOfItems(items) <= MAX_DEPTH);
      }
      MisreadTaken(e.key.props, dashes, after, seen, d, d + 1 + HeightOfItems(items) <= MAX_DEPTH);
    }
  }

  lemma MisreadTaken(p: Props, dashes: seq<Event>, after: seq<Event>, seen: set<string>, d: nat, fits: bool)
    requires d + 1 <= MAX_DEPTH && dashes != [] && dashes[0].SequenceEntry?
    requires var k := CInner(RenderProps(p, dashes), seen, d + 1, false, None, None);
             k.r.Ok? ==> k.rest == dashes && TookNode(CInner(dashes, k.seen, d + 1, true, None, None), after, false, fits)
    ensures Took(CKeyedPair(RenderProps(p, dashes), seen, d, true), after, fits)
  {
    hide CInner, RenderProps;
    var k := CNode(RenderProps(p, dashes), seen, d, false);
    if k.r.Ok? {
      assert SkipMark(k.rest) == dashes;
      assert CNode(dashes, k.seen, d, true) == CInner(dashes, k.seen, d + 1, true, None, None);
    }
  }

  lemma NoProps(rest: seq<Event>)
    ensures RenderProps(Props(None, None, true), rest) == rest
  {
  }

  lemma {:induction false} MarkedValueWithinCap(t: Tree, rest: seq<Event>, seen: set<string>, d: nat)
    requires rest != [] && Readable(t, rest, true) && d <= MAX_DEPTH
    ensures Took(CBarePair(Push(ValueMark, RenderTree(t, rest)), seen, d, false), rest, d + Height(t) <= MAX_DEPTH)
    decreases t, 4
  {
    hide CNode, Readable, RenderTree, CPairValue;
    var mark := Push(ValueMark, RenderTree(t, rest));
    if d + 1 <= MAX_DEPTH {
      CG.ReadsNothing(mark, seen, d, false);
      ValueWithinCap(t, rest, seen, d, true, NULL_NODE);
    } else {
      NoNode(mark, seen, d);
    }
  }

  lemma NoNode(ev: seq<Event>, seen: set<string>, d: nat)
    requires d + 1 > MAX_DEPTH
    ensures CNode(ev, seen, d, false).r.Err?
  {
  }
}
