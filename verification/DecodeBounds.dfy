// What every decode keeps, on any events at all (src/decode/mod.rs): the size cached with
// an anchor is its value's size, nothing is undercharged, and a stream of decoded values is
// at most four times as large as its events, plus the budget for aliases.
module DecodeBounds {
  import opened Wrappers
  import opened Values
  import opened Events
  import opened Decode

  // Every anchor's size is right and its value fit, and the budget holds.
  predicate Sound(m: Memory) {
    && m.nodes <= MAX_NODES
    && forall name <- m.anchors :: IsRight(m.anchors[name], m.sawMerge)
  }

  predicate IsRight(b: Bound, sawMerge: bool) { b.size == CountNodes(b.value) && Fit(b.value, sawMerge) }

  // The memory has only grown.
  predicate Grown(m: Memory, later: Memory) {
    Sound(later) && m.nodes <= later.nodes && (m.sawMerge ==> later.sawMerge)
  }

  // Four nodes an event read, and those charged to the budget.
  function Paid<T>(ev: seq<Event>, m: Memory, o: Out<T>): int {
    4 * (|ev| - |o.rest|) + (o.mem.nodes - m.nodes)
  }

  predicate FitItems(items: seq<Value>, sawMerge: bool) { forall i | 0 <= i < |items| :: Fit(items[i], sawMerge) }

  predicate FitPair(p: Pair, sawMerge: bool) { Fit(p.key, sawMerge) && Fit(p.val, sawMerge) }

  predicate FitPairs(pairs: seq<Pair>, sawMerge: bool) {
    forall i | 0 <= i < |pairs| :: FitPair(pairs[i], sawMerge)
  }

  // A decoded node weighs less than what paid for it.
  predicate NodeKeeps(ev: seq<Event>, m: Memory, o: Out<Option<Value>>) {
    o.r.Ok? ==>
      && Grown(m, o.mem)
      && (o.r.value.Some? ==>
            Fit(o.r.value.value, o.mem.sawMerge) && CountNodes(o.r.value.value) + 1 <= Paid(ev, m, o))
  }

  // The same, with `before` events of properties read before `ev`.
  predicate Covered(ev: seq<Event>, m: Memory, o: Out<Option<Value>>, before: nat) {
    o.r.Ok? ==>
      && Grown(m, o.mem)
      && (o.r.value.Some? ==>
            && Fit(o.r.value.value, o.mem.sawMerge)
            && CountNodes(o.r.value.value) + 1 <= Paid(ev, m, o) + 4 * before)
  }

  predicate PairKeeps(ev: seq<Event>, m: Memory, o: Out<Pair>, slack: int) {
    o.r.Ok? ==>
      Grown(m, o.mem) && FitPair(o.r.value, o.mem.sawMerge) && CountPair(o.r.value) <= Paid(ev, m, o) + slack
  }

  lemma FitLater(v: Value, sooner: bool, later: bool)
    requires Fit(v, sooner) && (sooner ==> later)
    ensures Fit(v, later)
  {
  }

  lemma FitItemsLater(items: seq<Value>, sooner: bool, later: bool)
    requires FitItems(items, sooner) && (sooner ==> later)
    ensures FitItems(items, later)
  {
  }

  lemma FitPairsLater(pairs: seq<Pair>, sooner: bool, later: bool)
    requires FitPairs(pairs, sooner) && (sooner ==> later)
    ensures FitPairs(pairs, later)
  {
    forall i | 0 <= i < |pairs| ensures FitPair(pairs[i], later) {
      assert FitPair(pairs[i], sooner);
    }
  }

  lemma FitMapping(pairs: seq<Pair>, sawMerge: bool)
    requires FitPairs(pairs, sawMerge)
    ensures Fit(Mapping(pairs), sawMerge)
  {
    forall p <- pairs ensures FitPair(p, sawMerge) {
      var i :| 0 <= i < |pairs| && pairs[i] == p;
    }
  }

  lemma FitSequence(items: seq<Value>, sawMerge: bool)
    requires FitItems(items, sawMerge)
    ensures Fit(Sequence(items), sawMerge)
  {
    forall v <- items ensures Fit(v, sawMerge) {
      var i :| 0 <= i < |items| && items[i] == v;
    }
  }

  lemma NullIsFit(sawMerge: bool)
    ensures Fit(Null, sawMerge) && CountNodes(Null) == 1
  {
  }

  lemma RememberKeeps(m: Memory, anchor: Option<string>, v: Value)
    requires Sound(m) && Fit(v, m.sawMerge)
    ensures Grown(m, Remember(m, anchor, v)) && Remember(m, anchor, v).nodes == m.nodes
    ensures Remember(m, anchor, v).sawMerge == m.sawMerge
  {
  }

  lemma NoteKeeps(m: Memory, merges: bool)
    requires Sound(m)
    ensures Grown(m, NoteMerge(m, merges)) && NoteMerge(m, merges).nodes == m.nodes
  {
    forall name <- m.anchors ensures IsRight(m.anchors[name], m.sawMerge || merges) {
      assert IsRight(m.anchors[name], m.sawMerge);
    }
  }

  lemma LookupKeeps(ev: seq<Event>, m: Memory, name: string)
    requires Sound(m) && ev != []
    ensures NodeKeeps(ev, m, Lookup(ev[1..], m, name))
  {
    if name in m.anchors {
      assert IsRight(m.anchors[name], m.sawMerge);
    }
  }

  lemma {:induction false} NodeIsPaid(sc: Scope, ev: seq<Event>, m: Memory, depth: nat, allow: bool)
    requires Sound(m)
    ensures NodeKeeps(ev, m, Node(sc, ev, m, depth, allow))
    decreases |ev|, 4
  {
    if depth + 1 <= MAX_DEPTH {
      InnerIsPaid(sc, ev, m, depth + 1, allow, None, None, 0);
    }
  }

  // `before` events of properties come before `ev`.
  lemma {:induction false} InnerIsPaid(sc: Scope, ev: seq<Event>, m: Memory, depth: nat, allow: bool,
                                       tag: Option<string>, anchor: Option<string>, before: nat)
    requires Sound(m) && (tag.Some? || anchor.Some? ==> before >= 1)
    ensures Covered(ev, m, Inner(sc, ev, m, depth, allow, tag, anchor), before)
    decreases |ev|, 3
  {
    if ev != [] {
      if ev[0].Tag? {
        if !HandleUndefined(sc.handles, ev[0].tag) {
          InnerIsPaid(sc, ev[1..], m, depth, allow, Some(ExpandTag(sc.handles, ev[0].tag)), anchor, before + 1);
        }
      } else if ev[0].Anchor? {
        if anchor.None? {
          InnerIsPaid(sc, ev[1..], m, depth, allow, tag, Some(ev[0].name), before + 1);
        }
      } else {
        ContentIsPaid(sc, ev, m, depth, allow, tag, anchor, before);
      }
    }
  }

  lemma {:induction false} ContentIsPaid(sc: Scope, ev: seq<Event>, m: Memory, depth: nat, allow: bool,
                                         tag: Option<string>, anchor: Option<string>, before: nat)
    requires Sound(m) && ev != [] && (tag.Some? || anchor.Some? ==> before >= 1)
    ensures Covered(ev, m, Content(sc, ev, m, depth, allow, tag, anchor), before)
    decreases |ev|, 2
  {
    hide Pairs, Items, BlockItems;
    var e := ev[0];
    if tag.Some? && !IsNodeStart(e, allow) {
      EmptyIsPaid(sc, m, tag.value, anchor);
    } else if e.Scalar? {
      ScalarIsPaid(sc, m, e, tag, anchor);
    } else if e.MappingStart? {
      MappingIsPaid(sc, ev, m, depth, allow, tag, anchor, before);
    } else if e.SequenceStart? {
      SequenceIsPaid(sc, ev, m, depth, allow, tag, anchor, before);
    } else if e.Alias? {
      LookupKeeps(ev, m, e.name);
    } else if e.SequenceEntry? && allow {
      IndentlessIsPaid(sc, ev, m, depth, tag, anchor, before);
    } else if IsTerminator(e) {
      NullIsFit(m.sawMerge);
      RememberKeeps(m, anchor, Null);
    } else {
      NodeIsPaid(sc, ev[1..], m, depth, allow);
    }
  }

  lemma {:induction false} MappingIsPaid(sc: Scope, ev: seq<Event>, m: Memory, depth: nat, allow: bool,
                                         tag: Option<string>, anchor: Option<string>, before: nat)
    requires Sound(m) && ev != [] && ev[0].MappingStart? && (tag.Some? ==> before >= 1)
    ensures Covered(ev, m, Content(sc, ev, m, depth, allow, tag, anchor), before)
    decreases |ev|, 1
  {
    hide Pairs;
    PairsArePaid(sc, ev[1..], m, depth, ev[0].flow, [], {});
    var o := Pairs(sc, ev[1..], m, depth, ev[0].flow, [], {});
    if o.r.Ok? {
      CollectionIsPaid(o.mem, tag, anchor, Mapping(o.r.value));
    }
  }

  lemma {:induction false} SequenceIsPaid(sc: Scope, ev: seq<Event>, m: Memory, depth: nat, allow: bool,
                                          tag: Option<string>, anchor: Option<string>, before: nat)
    requires Sound(m) && ev != [] && ev[0].SequenceStart? && (tag.Some? ==> before >= 1)
    ensures Covered(ev, m, Content(sc, ev, m, depth, allow, tag, anchor), before)
    decreases |ev|, 1
  {
    hide Items;
    ItemsArePaid(sc, ev[1..], m, depth, ev[0].flow, []);
    var o := Items(sc, ev[1..], m, depth, ev[0].flow, []);
    if o.r.Ok? {
      CollectionIsPaid(o.mem, tag, anchor, Sequence(o.r.value));
    }
  }

  lemma {:induction false} IndentlessIsPaid(sc: Scope, ev: seq<Event>, m: Memory, depth: nat,
                                            tag: Option<string>, anchor: Option<string>, before: nat)
    requires Sound(m) && ev != [] && ev[0].SequenceEntry?
    ensures Covered(ev, m, Content(sc, ev, m, depth, true, tag, anchor), before)
    decreases |ev|, 1
  {
    BlockItemsArePaid(sc, ev, m, depth, []);
    var o := BlockItems(sc, ev, m, depth, []);
    if o.r.Ok? {
      CollectionIsPaid(o.mem, None, anchor, Sequence(o.r.value));
    }
  }

  lemma EmptyIsPaid(sc: Scope, m: Memory, tag: string, anchor: Option<string>)
    requires Sound(m)
    ensures var r := EmptyValue(sc.config, tag);
            var v, noted := WithTag(Some(tag), r.value), NoteMerge(m, r.merges);
            && Grown(m, Remember(noted, anchor, v)) && Remember(noted, anchor, v).nodes == m.nodes
            && Fit(v, Remember(noted, anchor, v).sawMerge) && CountNodes(v) <= 3
  {
    var r := EmptyValue(sc.config, tag);
    EmptyIsFit(sc.config, tag);
    NoteKeeps(m, r.merges);
    FitLater(r.value, r.merges, m.sawMerge || r.merges);
    TaggedIsFit(Some(tag), r.value, m.sawMerge || r.merges);
    RememberKeeps(NoteMerge(m, r.merges), anchor, WithTag(Some(tag), r.value));
  }

  lemma ScalarIsPaid(sc: Scope, m: Memory, e: Event, tag: Option<string>, anchor: Option<string>)
    requires Sound(m) && e.Scalar?
    ensures var r := ScalarValue(sc.config, e.text, e.style, tag);
            var v, noted := WithTag(tag, r.value), NoteMerge(m, r.merges);
            && Grown(m, Remember(noted, anchor, v)) && Remember(noted, anchor, v).nodes == m.nodes
            && Fit(v, Remember(noted, anchor, v).sawMerge) && CountNodes(v) <= if tag.Some? then 3 else 2
  {
    var r := ScalarValue(sc.config, e.text, e.style, tag);
    ScalarIsFit(sc.config, e.text, e.style, tag);
    NoteKeeps(m, r.merges);
    FitLater(r.value, r.merges, m.sawMerge || r.merges);
    TaggedIsFit(tag, r.value, m.sawMerge || r.merges);
    RememberKeeps(NoteMerge(m, r.merges), anchor, WithTag(tag, r.value));
  }

  lemma CollectionIsPaid(m: Memory, tag: Option<string>, anchor: Option<string>, v: Value)
    requires Sound(m) && (v.Mapping? ==> FitPairs(v.pairs, m.sawMerge)) && (v.Sequence? ==> FitItems(v.items, m.sawMerge))
    requires v.Mapping? || v.Sequence?
    ensures var after := Remember(m, anchor, WithTag(tag, v));
            && Grown(m, after) && after.nodes == m.nodes && after.sawMerge == m.sawMerge
            && Fit(WithTag(tag, v), m.sawMerge)
            && CountNodes(WithTag(tag, v)) <= CountNodes(v) + if tag.Some? then 1 else 0
  {
    if v.Mapping? {
      FitMapping(v.pairs, m.sawMerge);
    } else {
      FitSequence(v.items, m.sawMerge);
    }
    TaggedIsFit(tag, v, m.sawMerge);
    RememberKeeps(m, anchor, WithTag(tag, v));
  }

  // ----- Mappings -----

  predicate PairsKeep(ev: seq<Event>, m: Memory, acc: seq<Pair>, o: Out<seq<Pair>>) {
    o.r.Ok? ==>
      && Grown(m, o.mem) && FitPairs(o.r.value, o.mem.sawMerge)
      && CountPairs(o.r.value) <= CountPairs(acc) + Paid(ev, m, o) + 2
  }

  lemma {:induction false} PairsArePaid(sc: Scope, ev: seq<Event>, m: Memory, depth: nat, flow: bool,
                                        acc: seq<Pair>, seen: set<string>)
    requires Sound(m) && FitPairs(acc, m.sawMerge)
    ensures PairsKeep(ev, m, acc, Pairs(sc, ev, m, depth, flow, acc, seen))
    decreases |ev|, 8
  {
    if ev == [] || ev[0].MappingEnd? || ev[0].BlockEnd? || IsStreamMark(ev[0]) {
    } else if ev[0].FlowEntry? {
      PairsArePaid(sc, ev[1..], m, depth, flow, acc, seen);
    } else {
      EntryRoundIsPaid(sc, ev, m, depth, flow, acc, seen);
    }
  }

  lemma {:induction false} EntryRoundIsPaid(sc: Scope, ev: seq<Event>, m: Memory, depth: nat, flow: bool,
                                            acc: seq<Pair>, seen: set<string>)
    requires Sound(m) && FitPairs(acc, m.sawMerge) && ev != []
    requires !ev[0].MappingEnd? && !ev[0].BlockEnd? && !IsStreamMark(ev[0]) && !ev[0].FlowEntry?
    ensures PairsKeep(ev, m, acc, Pairs(sc, ev, m, depth, flow, acc, seen))
    decreases |ev|, 7
  {
    hide KeyedPair, BarePair;
    var o := Entry(sc, ev, m, depth, flow);
    if ev[0].Key? {
      KeyedPairIsPaid(sc, ev[1..], m, depth, true);
    } else {
      BarePairIsPaid(sc, ev, m, depth, flow);
    }
    if o.r.Ok? {
      WithPairKeeps(acc, o.r.value, m.sawMerge, o.mem.sawMerge);
      var checked := CheckKey(sc.config, seen, o.r.value.key);
      if checked.Ok? && |o.rest| != |ev| {
        PairsArePaid(sc, o.rest, o.mem, depth, flow, acc + [o.r.value], checked.value);
      }
    }
  }

  lemma WithPairKeeps(acc: seq<Pair>, p: Pair, sooner: bool, later: bool)
    requires FitPairs(acc, sooner) && (sooner ==> later) && FitPair(p, later)
    ensures FitPairs(acc + [p], later) && CountPairs(acc + [p]) == CountPairs(acc) + CountPair(p)
  {
    FitPairsLater(acc, sooner, later);
    CountOnePair(acc, p.key, p.val);
    assert Pair(p.key, p.val) == p;
  }

  lemma {:induction false} KeyedPairIsPaid(sc: Scope, ev: seq<Event>, m: Memory, depth: nat, allow: bool)
    requires Sound(m)
    ensures PairKeeps(ev, m, KeyedPair(sc, ev, m, depth, allow), 2)
    decreases |ev|, 6
  {
    var k := Node(sc, ev, m, depth, false);
    NodeIsPaid(sc, ev, m, depth, false);
    if k.r.Ok? {
      NullIsFit(k.mem.sawMerge);
      PairValueIsPaid(sc, SkipMark(k.rest), k.mem, depth, allow, OrNull(k.r.value));
    }
  }

  lemma {:induction false} PairValueIsPaid(sc: Scope, ev: seq<Event>, m: Memory, depth: nat, allow: bool, key: Value)
    requires Sound(m) && Fit(key, m.sawMerge)
    ensures var o := PairValue(sc, ev, m, depth, allow, key);
            o.r.Ok? ==>
              Grown(m, o.mem) && FitPair(o.r.value, o.mem.sawMerge)
              && CountPair(o.r.value) <= Paid(ev, m, o) + CountNodes(key) + 1
    decreases |ev|, 5
  {
    NodeIsPaid(sc, ev, m, depth, allow);
    NullIsFit(m.sawMerge);
    var v := Node(sc, ev, m, depth, allow);
    if v.r.Ok? {
      FitLater(key, m.sawMerge, v.mem.sawMerge);
      NullIsFit(v.mem.sawMerge);
    }
  }

  lemma {:induction false} BarePairIsPaid(sc: Scope, ev: seq<Event>, m: Memory, depth: nat, flow: bool)
    requires Sound(m) && ev != []
    ensures var o := BarePair(sc, ev, m, depth, flow);
            PairKeeps(ev, m, o, if |o.rest| == |ev| then 2 else 0)
    decreases |ev|, 6
  {
    hide Node, PairValue;
    if flow || !IsBlockCollection(ev) {
      var k := Node(sc, ev, m, depth, false);
      NodeIsPaid(sc, ev, m, depth, false);
      if k.r.Ok? {
        NullIsFit(k.mem.sawMerge);
        if k.rest != [] && k.rest[0].ValueMark? {
          PairValueIsPaid(sc, k.rest[1..], k.mem, depth, true, OrNull(k.r.value));
        }
      }
    }
  }

  // ----- Sequences -----

  predicate ItemKeeps(ev: seq<Event>, m: Memory, o: Out<Option<Value>>, slack: int) {
    o.r.Ok? ==>
      && Grown(m, o.mem)
      && (o.r.value.Some? ==>
            Fit(o.r.value.value, o.mem.sawMerge) && CountNodes(o.r.value.value) <= Paid(ev, m, o) + slack)
  }

  predicate ItemsKeep(ev: seq<Event>, m: Memory, acc: seq<Value>, o: Out<seq<Value>>) {
    o.r.Ok? ==>
      && Grown(m, o.mem) && FitItems(o.r.value, o.mem.sawMerge)
      && CountItems(o.r.value) <= CountItems(acc) + Paid(ev, m, o)
  }

  lemma {:induction false} ItemsArePaid(sc: Scope, ev: seq<Event>, m: Memory, depth: nat, flow: bool, acc: seq<Value>)
    requires Sound(m) && FitItems(acc, m.sawMerge)
    ensures ItemsKeep(ev, m, acc, Items(sc, ev, m, depth, flow, acc))
    decreases |ev|, 8
  {
    if ev == [] || ev[0].SequenceEnd? || ev[0].BlockEnd? || ev[0].MappingEnd? || IsStreamMark(ev[0]) {
    } else if ev[0].SequenceEntry? || ev[0].FlowEntry? {
      MarkedRoundIsPaid(sc, ev, m, depth, flow, acc);
    } else {
      BareRoundIsPaid(sc, ev, m, depth, flow, acc);
    }
  }

  // Rounds add up: what an item took, and what the rest of the loop takes.
  lemma RoundsAddUp(ev: seq<Event>, m: Memory, acc: seq<Value>, o: Out<Option<Value>>, rest: Out<seq<Value>>)
    requires o.r.Ok? && Grown(m, o.mem) && ItemsKeep(o.rest, o.mem, WithItem(acc, o.r.value), rest)
    requires CountItems(WithItem(acc, o.r.value)) <= CountItems(acc) + Paid(ev, m, o)
    ensures ItemsKeep(ev, m, acc, rest)
  {
  }

  lemma {:induction false} MarkedRoundIsPaid(sc: Scope, ev: seq<Event>, m: Memory, depth: nat, flow: bool, acc: seq<Value>)
    requires Sound(m) && FitItems(acc, m.sawMerge) && ev != [] && (ev[0].SequenceEntry? || ev[0].FlowEntry?)
    ensures ItemsKeep(ev, m, acc, Items(sc, ev, m, depth, flow, acc))
    decreases |ev|, 7
  {
    hide Item;
    var o := Item(sc, ev[1..], m, depth, flow);
    ItemIsPaid(sc, ev[1..], m, depth, flow);
    if o.r.Ok? {
      WithItemKeeps(acc, o.r.value, m.sawMerge, o.mem.sawMerge);
      ItemsArePaid(sc, o.rest, o.mem, depth, flow, WithItem(acc, o.r.value));
      RoundsAddUp(ev, m, acc, o, Items(sc, o.rest, o.mem, depth, flow, WithItem(acc, o.r.value)));
    }
  }

  lemma {:induction false} BareRoundIsPaid(sc: Scope, ev: seq<Event>, m: Memory, depth: nat, flow: bool, acc: seq<Value>)
    requires Sound(m) && FitItems(acc, m.sawMerge) && ev != []
    requires !EndsBlockItem(ev[0]) && !IsStreamMark(ev[0]) && !ev[0].FlowEntry?
    ensures ItemsKeep(ev, m, acc, Items(sc, ev, m, depth, flow, acc))
    decreases |ev|, 7
  {
    var o := Item(sc, ev, m, depth, flow);
    ItemIsPaid(sc, ev, m, depth, flow);
    if o.r.Ok? {
      WithItemKeeps(acc, o.r.value, m.sawMerge, o.mem.sawMerge);
      if o.r.value.Some? && |o.rest| != |ev| {
        ItemsArePaid(sc, o.rest, o.mem, depth, flow, WithItem(acc, o.r.value));
      }
    }
  }

  lemma WithItemKeeps(acc: seq<Value>, item: Option<Value>, sooner: bool, later: bool)
    requires FitItems(acc, sooner) && (sooner ==> later) && (item.Some? ==> Fit(item.value, later))
    ensures FitItems(WithItem(acc, item), later)
    ensures CountItems(WithItem(acc, item)) == CountItems(acc) + if item.Some? then CountNodes(item.value) else 0
  {
    FitItemsLater(acc, sooner, later);
    if item.Some? {
      CountOneMore(acc, item.value);
    }
  }

  // An item costs at most what it took, or one node where it is empty and took nothing.
  lemma {:induction false} ItemIsPaid(sc: Scope, ev: seq<Event>, m: Memory, depth: nat, flow: bool)
    requires Sound(m)
    ensures ItemKeeps(ev, m, Item(sc, ev, m, depth, flow), if !flow && ev != [] && EndsBlockItem(ev[0]) then 1 else 0)
    decreases |ev|, 6
  {
    hide Node, KeyedPair, PairValue;
    NullIsFit(m.sawMerge);
    if !flow && ev != [] && EndsBlockItem(ev[0]) {
    } else if flow && ev != [] && ev[0].Key? {
      KeyedPairIsPaid(sc, ev[1..], m, depth, false);
      OnePairIsPaid(sc, KeyedPair(sc, ev[1..], m, depth, false));
    } else if flow && ev != [] && ev[0].ValueMark? {
      PairValueIsPaid(sc, ev[1..], m, depth, false, Null);
      OnePairIsPaid(sc, PairValue(sc, ev[1..], m, depth, false, Null));
    } else {
      var k := Node(sc, ev, m, depth, false);
      NodeIsPaid(sc, ev, m, depth, false);
      if k.r.Ok? && k.r.value.Some? && flow && k.rest != [] && k.rest[0].ValueMark? {
        PairValueIsPaid(sc, k.rest[1..], k.mem, depth, false, k.r.value.value);
        OnePairIsPaid(sc, PairValue(sc, k.rest[1..], k.mem, depth, false, k.r.value.value));
      }
    }
  }

  lemma OnePairIsPaid(sc: Scope, o: Out<Pair>)
    requires o.r.Ok? ==> FitPair(o.r.value, o.mem.sawMerge)
    ensures var one := OnePair(sc.config, o);
            one.rest == o.rest && one.mem == o.mem && (one.r.Ok? ==> o.r.Ok? && one.r.value.Some?)
            && (one.r.Ok? ==> Fit(one.r.value.value, o.mem.sawMerge)
                              && CountNodes(one.r.value.value) == 1 + CountPair(o.r.value))
  {
    if o.r.Ok? {
      var p := o.r.value;
      assert FitPairs([p], o.mem.sawMerge);
      FitMapping([p], o.mem.sawMerge);
      assert CountPairs([p]) == CountPair([p][0]) + CountPairs([p][1..]) && [p][1..] == [];
    }
  }

  lemma {:induction false} BlockItemsArePaid(sc: Scope, ev: seq<Event>, m: Memory, depth: nat, acc: seq<Value>)
    requires Sound(m) && FitItems(acc, m.sawMerge)
    ensures var o := BlockItems(sc, ev, m, depth, acc);
            o.r.Ok? ==>
              && Grown(m, o.mem) && FitItems(o.r.value, o.mem.sawMerge)
              && CountItems(o.r.value) + (if ev != [] && ev[0].SequenceEntry? then 3 else 0)
                 <= CountItems(acc) + Paid(ev, m, o)
    decreases |ev|, 0
  {
    if ev != [] && ev[0].SequenceEntry? {
      NullIsFit(m.sawMerge);
      if |ev| > 1 && EndsIndentlessItem(ev[1]) {
        WithItemKeeps(acc, Some(Null), m.sawMerge, m.sawMerge);
        BlockItemsArePaid(sc, ev[1..], m, depth, acc + [Null]);
      } else {
        var o := Node(sc, ev[1..], m, depth, false);
        NodeIsPaid(sc, ev[1..], m, depth, false);
        if o.r.Ok? {
          WithItemKeeps(acc, o.r.value, m.sawMerge, o.mem.sawMerge);
          BlockItemsArePaid(sc, o.rest, o.mem, depth, WithItem(acc, o.r.value));
        }
      }
    }
  }

  // ----- The stream -----

  lemma ForgetKeeps(m: Memory, later: Memory)
    requires Grown(m, later)
    ensures Grown(m, Forget(later)) && Forget(later).nodes == later.nodes
  {
  }

  // A stream weighs at most four nodes an event, and what aliases may copy.
  lemma {:induction false} DocumentsArePaid(c: Config, handles: map<string, string>, ev: seq<Event>, m: Memory,
                                            directives: bool, acc: seq<Value>)
    requires Sound(m) && FitItems(acc, m.sawMerge)
    ensures ItemsKeep(ev, m, acc, Documents(c, handles, ev, m, directives, acc))
    decreases |ev|, 1
  {
    if ev == [] {
    } else if ev[0].StreamStart? || ev[0].StreamEnd? {
      DocumentsArePaid(c, handles, ev[1..], m, directives, acc);
    } else if ev[0].DocumentEnd? {
      DocumentsArePaid(c, handles, ev[1..], m, true, acc);
    } else if ev[0].DocumentStart? {
      ExplicitIsPaid(c, handles, ev, m, directives, acc);
    } else if ev[0].Directive? {
      var run := Directives(ev, handles, false);
      if directives && run.r.Ok? {
        DocumentsArePaid(c, run.handles, run.rest, m, directives, acc);
      }
    } else {
      ImplicitIsPaid(c, handles, ev, m, directives, acc);
    }
  }

  // A root decoded from `ev`, with what is remembered past its document.
  lemma RootIsPaid(sc: Scope, ev: seq<Event>, m: Memory, acc: seq<Value>)
    requires Sound(m) && FitItems(acc, m.sawMerge)
    ensures var o := Node(sc, ev, m, 0, false);
            o.r.Ok? ==>
              var later, now := Forget(o.mem), acc + [OrNull(o.r.value)];
              && Sound(later) && Grown(m, later) && later.nodes == o.mem.nodes && later.sawMerge == o.mem.sawMerge
              && FitItems(now, later.sawMerge) && CountItems(now) <= CountItems(acc) + Paid(ev, m, o) + 1
  {
    var o := Node(sc, ev, m, 0, false);
    NodeIsPaid(sc, ev, m, 0, false);
    if o.r.Ok? {
      NullIsFit(o.mem.sawMerge);
      ForgetKeeps(m, o.mem);
      WithItemKeeps(acc, Some(OrNull(o.r.value)), m.sawMerge, o.mem.sawMerge);
    }
  }

  lemma {:induction false} ExplicitIsPaid(c: Config, handles: map<string, string>, ev: seq<Event>, m: Memory,
                                          directives: bool, acc: seq<Value>)
    requires Sound(m) && FitItems(acc, m.sawMerge) && ev != [] && ev[0].DocumentStart?
    ensures ItemsKeep(ev, m, acc, Documents(c, handles, ev, m, directives, acc))
    decreases |ev|, 0
  {
    hide Node;
    var o := Node(Scope(c, handles), ev[1..], m, 0, false);
    RootIsPaid(Scope(c, handles), ev[1..], m, acc);
    if o.r.Ok? && AtBoundary(o.rest) {
      var now := acc + [OrNull(o.r.value)];
      if o.rest != [] && o.rest[0].DocumentEnd? {
        DocumentsArePaid(c, map[], o.rest[1..], Forget(o.mem), true, now);
      } else {
        DocumentsArePaid(c, map[], o.rest, Forget(o.mem), false, now);
      }
    }
  }

  lemma {:induction false} ImplicitIsPaid(c: Config, handles: map<string, string>, ev: seq<Event>, m: Memory,
                                          directives: bool, acc: seq<Value>)
    requires Sound(m) && FitItems(acc, m.sawMerge) && ev != []
    requires !(ev[0] in {StreamStart, StreamEnd, DocumentEnd, DocumentStart} || ev[0].Directive?)
    ensures ItemsKeep(ev, m, acc, Documents(c, handles, ev, m, directives, acc))
    decreases |ev|, 0
  {
    hide Node;
    var o := Node(Scope(c, handles), ev, m, 0, false);
    NodeIsPaid(Scope(c, handles), ev, m, 0, false);
    if o.r.Ok? {
      ForgetKeeps(m, o.mem);
      WithItemKeeps(acc, o.r.value, m.sawMerge, o.mem.sawMerge);
      DocumentsArePaid(c, map[], if |o.rest| == |ev| then o.rest[1..] else o.rest, Forget(o.mem), false,
                       WithItem(acc, o.r.value));
    }
  }

  // Whatever the events, decoding them yields values that weigh at most four nodes an event
  // plus the budget, and that hold a merge marker only where the decoder has noted one.
  lemma StreamIsBounded(c: Config, ev: seq<Event>)
    ensures var o := Documents(c, map[], ev, FRESH, true, []);
            o.r.Ok? ==>
              && CountItems(o.r.value) <= 4 * |ev| + 10_000_000
              && FitItems(o.r.value, o.mem.sawMerge)
              && Sound(o.mem)
  {
    DocumentsArePaid(c, map[], ev, FRESH, true, []);
  }
}
