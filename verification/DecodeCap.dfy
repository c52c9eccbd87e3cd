// The nesting cap: what the decoder makes of a readable layout it makes within the cap, and
// from exactly the layout's events. A layout that nests deeper has no value.
module DecodeCap {
  import opened Wrappers
  import opened Values
  import opened Events
  import opened Decode
  import opened Syntax
  import opened Grammar
  import DG = DecodeGrammar

  // If there is an outcome, then what was read fits, and ends in front of `rest`.
  predicate Took<T>(o: Out<T>, rest: seq<Event>, fits: bool) { o.r.Ok? ==> o.rest == rest && fits }

  predicate TookNode(o: Out<Option<Value>>, rest: seq<Event>, bare: bool, fits: bool) {
    o.r.Ok? ==> o.rest == rest && fits && (o.r.value.None? <==> bare)
  }

  // The decoder yields no value of a layout that nests past the cap.
  lemma {:induction false} DecodesWithinCap(sc: Scope, t: Tree, rest: seq<Event>, m: Memory, d: nat, allow: bool)
    requires rest != [] && Readable(t, rest, allow)
    ensures TookNode(Node(sc, RenderTree(t, rest), m, d, allow), rest, IsBareEmpty(t), d + Height(t) <= 1000)
    decreases t, 2
  {
    hide Inner, RenderTree, Readable;
    if d + 1 <= MAX_DEPTH {
      InnerWithinCap(sc, t, rest, m, d + 1, allow);
    }
  }

  // So it yields one exactly of a layout within the cap whose tree has one.
  lemma YieldsExactly(sc: Scope, t: Tree, rest: seq<Event>, m: Memory, d: nat, allow: bool)
    requires rest != [] && Readable(t, rest, allow) && DG.KeepsTags(sc, t)
    ensures Node(sc, RenderTree(t, rest), m, d, allow).r.Ok? <==>
            d + Height(t) <= 1000 && EvalNode(sc, Parsed(t), m).r.Ok?
  {
    hide Node, EvalNode, RenderTree, Readable, Parsed;
    DecodesWithinCap(sc, t, rest, m, d, allow);
    if d + Height(t) <= MAX_DEPTH {
      DG.DecodesTree(sc, t, rest, m, d, allow);
    }
  }

  lemma {:induction false} InnerWithinCap(sc: Scope, t: Tree, rest: seq<Event>, m: Memory, d: nat, allow: bool)
    requires rest != [] && Readable(t, rest, allow) && d <= MAX_DEPTH
    ensures TookNode(Inner(sc, RenderTree(t, rest), m, d, allow, None, None), rest, IsBareEmpty(t),
                     d + Height(t) <= MAX_DEPTH + 1)
    decreases t, 1
  {
    match t
    case Leaf(_, _, _) => LeafTaken(sc, t, rest, m, d, allow);
    case AliasTo(_) => LeafTaken(sc, t, rest, m, d, allow);
    case Empty(_) => DG.DecodesEmpty(sc, t, rest, m, d, allow);
    case BlockSeq(_, _) => BlockSeqWithinCap(sc, t, rest, m, d, allow);
    case Indentless(_, _) => IndentlessSeqWithinCap(sc, t, rest, m, d);
    case FlowSeq(_, _, _) => FlowSeqWithinCap(sc, t, rest, m, d, allow);
    case Map(_, _, _, _) => MapWithinCap(sc, t, rest, m, d, allow);
  }

  lemma LeafTaken(sc: Scope, t: Tree, rest: seq<Event>, m: Memory, d: nat, allow: bool)
    requires t.Leaf? || t.AliasTo?
    ensures TookNode(Inner(sc, RenderTree(t, rest), m, d, allow, None, None), rest, false, true)
  {
    DG.DecodesLeaf(sc, t, rest, m, d, allow);
  }

  lemma {:induction false} BlockSeqWithinCap(sc: Scope, t: Tree, rest: seq<Event>, m: Memory, d: nat, allow: bool)
    requires t.BlockSeq? && rest != [] && Readable(t, rest, allow) && d <= MAX_DEPTH
    ensures TookNode(Inner(sc, RenderTree(t, rest), m, d, allow, None, None), rest, false, d + Height(t) <= MAX_DEPTH + 1)
    decreases t, 0
  {
    var start := Push(SequenceStart(false), RenderItems(t.items, Push(BlockEnd, rest)));
    ItemsWithinCap(sc, t.items, rest, m, d, []);
    CollectionTaken(sc, t.props, start, rest, m, d, allow, d + HeightOfItems(t.items) <= MAX_DEPTH);
  }

  lemma {:induction false} IndentlessSeqWithinCap(sc: Scope, t: Tree, rest: seq<Event>, m: Memory, d: nat)
    requires t.Indentless? && rest != [] && Readable(t, rest, true) && d <= MAX_DEPTH
    ensures TookNode(Inner(sc, RenderTree(t, rest), m, d, true, None, None), rest, false, d + Height(t) <= MAX_DEPTH + 1)
    decreases t, 0
  {
    IndentlessWithinCap(sc, t.items, rest, m, d, []);
    CollectionTaken(sc, t.props, RenderItems(t.items, rest), rest, m, d, true, d + HeightOfItems(t.items) <= MAX_DEPTH);
  }

  lemma {:induction false} FlowSeqWithinCap(sc: Scope, t: Tree, rest: seq<Event>, m: Memory, d: nat, allow: bool)
    requires t.FlowSeq? && rest != [] && Readable(t, rest, allow) && d <= MAX_DEPTH
    ensures TookNode(Inner(sc, RenderTree(t, rest), m, d, allow, None, None), rest, false, d + Height(t) <= MAX_DEPTH + 1)
    decreases t, 0
  {
    var start := Push(SequenceStart(true), RenderElements(t.elements, t.trailing, Push(SequenceEnd, rest)));
    ElementsWithinCap(sc, t.elements, t.trailing, rest, m, d, [], true);
    CollectionTaken(sc, t.props, start, rest, m, d, allow, d + HeightOfElements(t.elements) <= MAX_DEPTH);
  }

  lemma {:induction false} MapWithinCap(sc: Scope, t: Tree, rest: seq<Event>, m: Memory, d: nat, allow: bool)
    requires t.Map? && rest != [] && Readable(t, rest, allow) && d <= MAX_DEPTH
    ensures TookNode(Inner(sc, RenderTree(t, rest), m, d, allow, None, None), rest, false, d + Height(t) <= MAX_DEPTH + 1)
    decreases t, 0
  {
    var start := Push(MappingStart(t.flow), RenderEntries(t.entries, t.flow, t.trailing, Push(CloseMap(t.flow), rest)));
    EntriesWithinCap(sc, t.entries, t.flow, t.trailing, rest, m, d, [], {});
    CollectionTaken(sc, t.props, start, rest, m, d, allow, d + HeightOfEntries(t.entries) <= MAX_DEPTH);
  }

  lemma CollectionTaken(sc: Scope, p: Props, start: seq<Event>, rest: seq<Event>, m: Memory, d: nat, allow: bool, fits: bool)
    requires start != [] && (start[0].SequenceStart? || start[0].MappingStart? || (start[0].SequenceEntry? && allow))
    requires start[0].SequenceStart? ==> Took(Items(sc, start[1..], m, d, start[0].flow, []), rest, fits)
    requires start[0].MappingStart? ==> Took(Pairs(sc, start[1..], m, d, start[0].flow, [], {}), rest, fits)
    requires start[0].SequenceEntry? ==> Took(BlockItems(sc, start, m, d, []), rest, fits)
    ensures TookNode(Inner(sc, RenderProps(p, start), m, d, allow, None, None), rest, false, fits)
  {
    hide Inner, RenderProps, Items, Pairs, BlockItems;
    DG.ReadsProps(sc, p, start, m, d, allow);
  }

  lemma {:induction false} ItemsWithinCap(sc: Scope, items: seq<Tree>, rest: seq<Event>, m: Memory, d: nat, acc: seq<Value>)
    requires ReadableItems(items, Push(BlockEnd, rest)) && d <= MAX_DEPTH
    ensures Took(Items(sc, RenderItems(items, Push(BlockEnd, rest)), m, d, false, acc), rest,
                 d + HeightOfItems(items) <= MAX_DEPTH)
    decreases items, 0
  {
    hide Item, Node;
    if items != [] {
      var more := RenderItems(items[1..], Push(BlockEnd, rest));
      assert EndsBlockItem(more[0]);
      ItemWithinCap(sc, items[0], more, m, d);
      var o := Item(sc, RenderTree(items[0], more), m, d, false);
      if o.r.Ok? {
        ItemsWithinCap(sc, items[1..], rest, o.mem, d, WithItem(acc, o.r.value));
      }
    }
  }

  lemma {:induction false} ItemWithinCap(sc: Scope, t: Tree, more: seq<Event>, m: Memory, d: nat)
    requires more != [] && EndsBlockItem(more[0]) && Readable(t, more, false) && d <= MAX_DEPTH
    ensures TookNode(Item(sc, RenderTree(t, more), m, d, false), more, false, d + HeightOfItem(t) <= MAX_DEPTH)
    decreases t, 3
  {
    if !IsBareEmpty(t) {
      DecodesWithinCap(sc, t, more, m, d, false);
      DG.ItemStarts(t, more);
      DG.ItemIsNode(sc, RenderTree(t, more), m, d);
    }
  }

  lemma {:induction false} IndentlessWithinCap(sc: Scope, items: seq<Tree>, rest: seq<Event>, m: Memory, d: nat, acc: seq<Value>)
    requires rest != [] && !(rest[0] in {SequenceEntry, MappingEnd}) && ReadableItems(items, rest) && d <= MAX_DEPTH
    ensures Took(BlockItems(sc, RenderItems(items, rest), m, d, acc), rest, d + HeightOfItems(items) <= MAX_DEPTH)
    decreases items, 0
  {
    hide Node;
    if items != [] {
      var more := RenderItems(items[1..], rest);
      if IsBareEmpty(items[0]) {
        DG.IndentlessNull(sc, more, m, d, acc);
        IndentlessWithinCap(sc, items[1..], rest, m, d, acc + [Null]);
      } else {
        DecodesWithinCap(sc, items[0], more, m, d, false);
        DG.ItemStarts(items[0], more);
        var o := Node(sc, RenderTree(items[0], more), m, d, false);
        if o.r.Ok? {
          IndentlessWithinCap(sc, items[1..], rest, o.mem, d, WithItem(acc, o.r.value));
        }
      }
    }
  }

  lemma {:induction false} ElementsWithinCap(sc: Scope, elements: seq<Element>, trailing: bool, rest: seq<Event>, m: Memory,
                                             d: nat, acc: seq<Value>, first: bool)
    requires ReadableElements(elements, trailing, Push(SequenceEnd, rest)) && d <= MAX_DEPTH
    ensures var ev := RenderElements(elements, trailing, Push(SequenceEnd, rest));
            Took(Items(sc, if first then ev else Comma(elements != [] || trailing, ev), m, d, true, acc), rest,
                 d + HeightOfElements(elements) <= MAX_DEPTH)
    decreases elements, 0
  {
    hide Item, Node;
    var ev := RenderElements(elements, trailing, Push(SequenceEnd, rest));
    if elements == [] {
      if first || d < MAX_DEPTH {
        DG.DecodesNoElements(sc, trailing, rest, m, d, acc, first);
      } else {
        NoRoom(sc, ev, m, d, acc);
      }
    } else {
      var more := Comma(|elements| > 1 || trailing, RenderElements(elements[1..], trailing, Push(SequenceEnd, rest)));
      ElementWithinCap(sc, elements[0], more, m, d);
      DG.ElementStarts(elements[0], more);
      ElementTaken(sc, RenderElement(elements[0], more), more, m, d, acc, first, d + HeightOfElement(elements[0]) <= MAX_DEPTH);
      var o := Item(sc, RenderElement(elements[0], more), m, d, true);
      if o.r.Ok? {
        ElementsWithinCap(sc, elements[1..], trailing, rest, o.mem, d, acc + [o.r.value.value], false);
      }
    }
  }

  // At the cap there is nothing to read behind a comma.
  lemma NoRoom(sc: Scope, ev: seq<Event>, m: Memory, d: nat, acc: seq<Value>)
    requires d == MAX_DEPTH && ev != [] && ev[0].SequenceEnd?
    ensures Items(sc, Push(FlowEntry, ev), m, d, true, acc).r.Err?
    ensures Items(sc, ev, m, d, true, acc) == Out(ev[1..], m, Ok(acc))
  {
    assert Node(sc, ev, m, d, false).r.Err?;
    assert Item(sc, ev, m, d, true).r.Err?;
    assert Push(FlowEntry, ev)[1..] == ev;
  }

  lemma ElementTaken(sc: Scope, ev: seq<Event>, more: seq<Event>, m: Memory, d: nat, acc: seq<Value>, first: bool, fits: bool)
    requires |ev| > |more| && TookNode(Item(sc, ev, m, d, true), more, false, fits)
    requires DG.IsProperty(ev[0]) || IsNodeStart(ev[0], false) || ev[0].Key? || ev[0].ValueMark?
    ensures var o, all := Item(sc, ev, m, d, true), Items(sc, if first then ev else Push(FlowEntry, ev), m, d, true, acc);
            if o.r.Ok? then fits && all == Items(sc, more, o.mem, d, true, acc + [o.r.value.value]) else all.r.Err?
  {
    hide Item;
  }

  lemma {:induction false} ElementWithinCap(sc: Scope, e: Element, rest: seq<Event>, m: Memory, d: nat)
    requires rest != [] && ReadableElement(e, rest) && !rest[0].ValueMark? && d <= MAX_DEPTH
    ensures TookNode(Item(sc, RenderElement(e, rest), m, d, true), rest, false, d + HeightOfElement(e) <= MAX_DEPTH)
    decreases e, 3
  {
    hide Node;
    match e
    case Single(node) =>
      DecodesWithinCap(sc, node, rest, m, d, false);
      DG.TreeStarts(node, rest);
    case OfPair(entry) =>
      if entry.Bare? {
        BareItemWithinCap(sc, entry, rest, m, d);
      } else {
        KeyedWithinCap(sc, entry, rest, m, d, false);
      }
  }

  lemma {:induction false} BareItemWithinCap(sc: Scope, e: Entry, rest: seq<Event>, m: Memory, d: nat)
    requires e.Bare? && rest != [] && ReadableEntry(e, rest, false) && Readable(e.val, rest, false) && d <= MAX_DEPTH
    ensures TookNode(Item(sc, RenderEntry(e, rest), m, d, true), rest, false, d + HeightOfEntry(e) <= MAX_DEPTH)
    decreases e, 1
  {
    hide Node, Readable, PairValue;
    var after := RenderTree(e.val, rest);
    var mark := Push(ValueMark, after);
    if IsBareEmpty(e.key) {
      ValueWithinCap(sc, e.val, rest, m, d, false, Null);
      assert RenderTree(e.key, mark) == mark;
    } else {
      DecodesWithinCap(sc, e.key, mark, m, d, false);
      DG.TreeStarts(e.key, mark);
      var k := Node(sc, RenderTree(e.key, mark), m, d, false);
      if k.r.Ok? {
        ValueWithinCap(sc, e.val, rest, k.mem, d, false, k.r.value.value);
      }
    }
  }

  lemma {:induction false} ValueWithinCap(sc: Scope, t: Tree, rest: seq<Event>, m: Memory, d: nat, allow: bool, key: Value)
    requires rest != [] && Readable(t, rest, allow)
    ensures Took(PairValue(sc, RenderTree(t, rest), m, d, allow, key), rest, d + Height(t) <= MAX_DEPTH)
    decreases t, 3
  {
    hide Node, RenderTree, Readable;
    DecodesWithinCap(sc, t, rest, m, d, allow);
  }

  lemma {:induction false} KeyedWithinCap(sc: Scope, e: Entry, rest: seq<Event>, m: Memory, d: nat, allow: bool)
    requires (e.Keyed? || e.KeyOnly?) && rest != [] && ReadableEntry(e, rest, false)
    requires e.Keyed? ==> Readable(e.val, rest, allow)
    ensures RenderEntry(e, rest)[0].Key?
    ensures Took(KeyedPair(sc, RenderEntry(e, rest)[1..], m, d, allow), rest, d + HeightOfEntry(e) <= MAX_DEPTH)
    decreases e, 1
  {
    hide Node;
    if e.Keyed? {
      var mark := Push(ValueMark, RenderTree(e.val, rest));
      DecodesWithinCap(sc, e.key, mark, m, d, false);
      var k := Node(sc, RenderTree(e.key, mark), m, d, false);
      if k.r.Ok? {
        ValueWithinCap(sc, e.val, rest, k.mem, d, allow, OrNull(k.r.value));
      }
    } else {
      DecodesWithinCap(sc, e.key, rest, m, d, false);
      var k := Node(sc, RenderTree(e.key, rest), m, d, false);
      if k.r.Ok? {
        DG.ReadsNothing(sc, rest, k.mem, d, allow);
      }
    }
  }

  lemma {:induction false} BareWithinCap(sc: Scope, e: Entry, rest: seq<Event>, m: Memory, d: nat, flow: bool)
    requires (e.Bare? || e.BareKey?) && rest != [] && ReadableEntry(e, rest, false)
    requires RenderEntry(e, rest) != [] && StandsBare(e, flow, RenderEntry(e, rest))
    ensures Took(BarePair(sc, RenderEntry(e, rest), m, d, flow), rest, d + HeightOfEntry(e) <= MAX_DEPTH)
    decreases e, 1
  {
    hide Node;
    if e.Bare? {
      var mark := Push(ValueMark, RenderTree(e.val, rest));
      DecodesWithinCap(sc, e.key, mark, m, d, false);
      var k := Node(sc, RenderTree(e.key, mark), m, d, false);
      if k.r.Ok? {
        ValueWithinCap(sc, e.val, rest, k.mem, d, true, OrNull(k.r.value));
      }
    } else {
      DecodesWithinCap(sc, e.key, rest, m, d, false);
    }
  }

  lemma {:induction false} EntryWithinCap(sc: Scope, e: Entry, rest: seq<Event>, m: Memory, d: nat, flow: bool)
    requires rest != [] && ReadableEntry(e, rest, false) && StandsBare(e, flow, RenderEntry(e, rest))
    ensures RenderEntry(e, rest) != []
    ensures Took(Decode.Entry(sc, RenderEntry(e, rest), m, d, flow), rest, d + HeightOfEntry(e) <= MAX_DEPTH)
    decreases e, 2
  {
    DG.EntryStarts(e, rest);
    if e.Keyed? || e.KeyOnly? {
      KeyedWithinCap(sc, e, rest, m, d, true);
    } else {
      BareWithinCap(sc, e, rest, m, d, flow);
    }
  }

  lemma {:induction false} EntriesWithinCap(sc: Scope, entries: seq<Entry>, flow: bool, trailing: bool, rest: seq<Event>,
                                            m: Memory, d: nat, acc: seq<Pair>, seen: set<string>)
    requires ReadableEntries(entries, flow, trailing, Push(CloseMap(flow), rest)) && d <= MAX_DEPTH
    ensures Took(Pairs(sc, RenderEntries(entries, flow, trailing, Push(CloseMap(flow), rest)), m, d, flow, acc, seen), rest,
                 d + HeightOfEntries(entries) <= MAX_DEPTH)
    decreases entries, 0
  {
    if entries != [] {
      var later := RenderEntries(entries[1..], flow, trailing, Push(CloseMap(flow), rest));
      var comma := flow && (|entries| > 1 || trailing);
      var o := FirstEntryWithinCap(sc, entries[0], comma, later, m, d, flow, acc, seen);
      if o.Some? {
        EntriesWithinCap(sc, entries[1..], flow, trailing, rest, o.value.mem, d, o.value.acc, o.value.seen);
      }
    }
  }

  // Where the mapping's loop goes on.
  datatype Later = Later(mem: Memory, acc: seq<Pair>, seen: set<string>)

  lemma {:induction false} FirstEntryWithinCap(sc: Scope, e: Entry, comma: bool, later: seq<Event>, m: Memory, d: nat,
                                               flow: bool, acc: seq<Pair>, seen: set<string>) returns (o: Option<Later>)
    requires later != [] && ReadableEntry(e, Comma(comma, later), !flow) && d <= MAX_DEPTH
    requires StandsBare(e, flow, RenderEntry(e, Comma(comma, later)))
    ensures var all := Pairs(sc, RenderEntry(e, Comma(comma, later)), m, d, flow, acc, seen);
            if o.None? then all.r.Err?
            else d + HeightOfEntry(e) <= MAX_DEPTH && all == Pairs(sc, later, o.value.mem, d, flow, o.value.acc, o.value.seen)
    decreases e, 4
  {
    var rest := Comma(comma, later);
    if HasIndentlessKey(e) {
      o := MisreadWithinCap(sc, e, rest, m, d, acc, seen);
    } else {
      DG.PlainEntry(e, rest, !flow);
      EntryWithinCap(sc, e, rest, m, d, flow);
      DG.EntryStarts(e, rest);
      o := RoundTaken(sc, RenderEntry(e, rest), rest, m, d, flow, acc, seen, d + HeightOfEntry(e) <= MAX_DEPTH);
    }
    if o.Some? {
      DG.SkipsComma(sc, comma, later, o.value.mem, d, flow, o.value.acc, o.value.seen);
    }
  }

  lemma RoundTaken(sc: Scope, ev: seq<Event>, rest: seq<Event>, m: Memory, d: nat, flow: bool, acc: seq<Pair>,
                   seen: set<string>, fits: bool) returns (o: Option<Later>)
    requires |rest| < |ev| && Took(Decode.Entry(sc, ev, m, d, flow), rest, fits)
    requires DG.IsProperty(ev[0]) || IsNodeStart(ev[0], false) || ev[0].ValueMark? || ev[0].Key?
    ensures var all := Pairs(sc, ev, m, d, flow, acc, seen);
            if o.None? then all.r.Err?
            else fits && all == Pairs(sc, rest, o.value.mem, d, flow, o.value.acc, o.value.seen)
  {
    hide Decode.Entry;
    DG.PairsRound(sc, ev, m, d, flow, acc, seen);
    var p := Decode.Entry(sc, ev, m, d, flow);
    if p.r.Err? {
      return None;
    }
    var checked := CheckKey(sc.config, seen, p.r.value.key);
    return if checked.Err? then None else Some(Later(p.mem, acc + [p.r.value], checked.value));
  }

  lemma {:induction false} MisreadWithinCap(sc: Scope, e: Entry, rest: seq<Event>, m: Memory, d: nat, acc: seq<Pair>,
                                            seen: set<string>) returns (o: Option<Later>)
    requires HasIndentlessKey(e) && rest != [] && ReadableEntry(e, rest, true) && d <= MAX_DEPTH
    ensures var all := Pairs(sc, RenderEntry(e, rest), m, d, false, acc, seen);
            if o.None? then all.r.Err?
            else d + HeightOfEntry(e) <= MAX_DEPTH && all == Pairs(sc, rest, o.value.mem, d, false, o.value.acc, o.value.seen)
    decreases e, 3
  {
    hide KeyedPair, BarePair, Pairs, Readable, RenderTree, HeightOfItems;
    DG.MisreadShape(e, rest);
    MisreadPairWithinCap(sc, e, rest, m, d);
    o := RoundTaken(sc, RenderEntry(e, rest), DG.AfterKey(e, rest), m, d, false, acc, seen, d + Height(e.key) <= MAX_DEPTH);
    if o.Some? && e.Keyed? {
      MarkedValueWithinCap(sc, e.val, rest, o.value.mem, d);
      o := RoundTaken(sc, DG.AfterKey(e, rest), rest, o.value.mem, d, false, o.value.acc, o.value.seen,
                      d + Height(e.val) <= MAX_DEPTH);
    }
  }

  lemma {:induction false} MisreadPairWithinCap(sc: Scope, e: Entry, rest: seq<Event>, m: Memory, d: nat)
    requires HasIndentlessKey(e) && rest != [] && ReadableEntry(e, rest, true) && d <= MAX_DEPTH
    ensures Took(KeyedPair(sc, RenderEntry(e, rest)[1..], m, d, true), DG.AfterKey(e, rest), d + Height(e.key) <= MAX_DEPTH)
    decreases e, 1
  {
    hide RenderEntry, ReadableEntry, DG.AfterKey, Inner, BlockItems, EvalNode;
    hide RenderItems, RenderProps, ReadableItems, HeightOfItems;
    DG.MisreadShape(e, rest);
    var items, after := e.key.items, DG.AfterKey(e, rest);
    var dashes := RenderItems(items, after);
    if d + 1 <= MAX_DEPTH {
      DG.EmptyKey(sc, e.key.props, dashes, m, d + 1);
      var k := Inner(sc, RenderProps(e.key.props, dashes), m, d + 1, false, None, None);
      if k.r.Ok? {
        IndentlessWithinCap(sc, items, after, k.mem, d + 1, []);
        NoProps(dashes);
        CollectionTaken(sc, Props(None, None, true), dashes, after, k.mem, d + 1, true,
                        d + 1 + HeightOfItems(items) <= MAX_DEPTH);
      }
      MisreadTaken(sc, e.key.props, dashes, after, m, d, d + 1 + HeightOfItems(items) <= MAX_DEPTH);
    }
  }

  lemma MisreadTaken(sc: Scope, p: Props, dashes: seq<Event>, after: seq<Event>, m: Memory, d: nat, fits: bool)
    requires d + 1 <= MAX_DEPTH && dashes != [] && dashes[0].SequenceEntry?
    requires var k := Inner(sc, RenderProps(p, dashes), m, d + 1, false, None, None);
             k.r.Ok? ==> k.rest == dashes && TookNode(Inner(sc, dashes, k.mem, d + 1, true, None, None), after, false, fits)
    ensures Took(KeyedPair(sc, RenderProps(p, dashes), m, d, true), after, fits)
  {
    hide Inner, RenderProps;
    var k := Node(sc, RenderProps(p, dashes), m, d, false);
    if k.r.Ok? {
      assert SkipMark(k.rest) == dashes;
      assert Node(sc, dashes, k.mem, d, true) == Inner(sc, dashes, k.mem, d + 1, true, None, None);
    }
  }

  lemma NoProps(rest: seq<Event>)
    ensures RenderProps(Props(None, None, true), rest) == rest
  {
  }

  lemma {:induction false} MarkedValueWithinCap(sc: Scope, t: Tree, rest: seq<Event>, m: Memory, d: nat)
    requires rest != [] && Readable(t, rest, true) && d <= MAX_DEPTH
    ensures Took(BarePair(sc, Push(ValueMark, RenderTree(t, rest)), m, d, false), rest, d + Height(t) <= MAX_DEPTH)
    decreases t, 4
  {
    hide Node, Readable, RenderTree, PairValue;
    var mark := Push(ValueMark, RenderTree(t, rest));
    if d + 1 <= MAX_DEPTH {
      DG.ReadsNothing(sc, mark, m, d, false);
      ValueWithinCap(sc, t, rest, m, d, true, Null);
    } else {
      NoNode(sc, mark, m, d);
    }
  }

  lemma NoNode(sc: Scope, ev: seq<Event>, m: Memory, d: nat)
    requires d + 1 > MAX_DEPTH
    ensures Node(sc, ev, m, d, false).r.Err?
  {
  }
}
