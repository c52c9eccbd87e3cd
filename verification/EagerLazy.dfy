// Aliases resolved two ways: the decoder copies an anchor's value where an alias names it
// (src/decode/mod.rs), and the tree is expanded later through a map from anchors to nodes
// (src/roundtrip/anchors.rs). Unless the later way is cut short, both give the same values.
module EagerLazy {
  import opened Wrappers
  import opened Values
  import opened Events
  import opened Decode
  import opened Syntax
  import opened Anchors
  import Grammar
  import DecodeGrammar

  // ----- Names -----

  function Names(n: YNode): set<string>
    decreases n, 1
  {
    (if n.anchor.Some? then {n.anchor.value} else {})
    + match n.kind
      case YSequence(items) => NamesOfItems(items)
      case YMapping(pairs) => NamesOfPairs(pairs)
      case _ => {}
  }

  function NamesOfItems(items: seq<YNode>): set<string>
    decreases items, 0
  {
    if items == [] then {} else Names(items[0]) + NamesOfItems(items[1..])
  }

  function NamesOfPair(p: YPair): set<string>
    decreases p, 2
  {
    Names(p.key) + Names(p.val)
  }

  function NamesOfPairs(pairs: seq<YPair>): set<string>
    decreases pairs, 0
  {
    if pairs == [] then {} else NamesOfPair(pairs[0]) + NamesOfPairs(pairs[1..])
  }

  // No anchor name is defined twice.
  predicate DistinctNames(n: YNode)
    decreases n, 1
  {
    match n.kind
    case YSequence(items) => DistinctInItems(items) && (n.anchor.Some? ==> n.anchor.value !in NamesOfItems(items))
    case YMapping(pairs) => DistinctInPairs(pairs) && (n.anchor.Some? ==> n.anchor.value !in NamesOfPairs(pairs))
    case _ => true
  }

  predicate DistinctInItems(items: seq<YNode>)
    decreases items, 0
  {
    items == [] || (DistinctNames(items[0]) && DistinctInItems(items[1..]) && Names(items[0]) !! NamesOfItems(items[1..]))
  }

  predicate DistinctInPair(p: YPair)
    decreases p, 2
  {
    DistinctNames(p.key) && DistinctNames(p.val) && Names(p.key) !! Names(p.val)
  }

  predicate DistinctInPairs(pairs: seq<YPair>)
    decreases pairs, 0
  {
    pairs == []
    || (DistinctInPair(pairs[0]) && DistinctInPairs(pairs[1..]) && NamesOfPair(pairs[0]) !! NamesOfPairs(pairs[1..]))
  }

  // Every anchor of the tree leads the map to its own node.
  predicate Matches(n: YNode, refs: map<string, YNode>)
    decreases n, 1
  {
    && (n.anchor.Some? ==> n.anchor.value in refs && refs[n.anchor.value] == n)
    && match n.kind
       case YSequence(items) => MatchesItems(items, refs)
       case YMapping(pairs) => MatchesPairs(pairs, refs)
       case _ => true
  }

  predicate MatchesItems(items: seq<YNode>, refs: map<string, YNode>)
    decreases items, 0
  {
    items == [] || (Matches(items[0], refs) && MatchesItems(items[1..], refs))
  }

  predicate MatchesPair(p: YPair, refs: map<string, YNode>)
    decreases p, 2
  {
    Matches(p.key, refs) && Matches(p.val, refs)
  }

  predicate MatchesPairs(pairs: seq<YPair>, refs: map<string, YNode>)
    decreases pairs, 0
  {
    pairs == [] || (MatchesPair(pairs[0], refs) && MatchesPairs(pairs[1..], refs))
  }

  predicate Extends(refs: map<string, YNode>, more: map<string, YNode>) {
    forall name <- refs :: name in more && more[name] == refs[name]
  }

  lemma {:induction false} MatchesMore(n: YNode, refs: map<string, YNode>, more: map<string, YNode>)
    requires Matches(n, refs) && Extends(refs, more)
    ensures Matches(n, more)
    decreases n, 1
  {
    match n.kind
    case YSequence(items) => MatchesMoreItems(items, refs, more);
    case YMapping(pairs) => MatchesMorePairs(pairs, refs, more);
    case _ =>
  }

  lemma {:induction false} MatchesMoreItems(items: seq<YNode>, refs: map<string, YNode>, more: map<string, YNode>)
    requires MatchesItems(items, refs) && Extends(refs, more)
    ensures MatchesItems(items, more)
    decreases items, 0
  {
    if items != [] {
      MatchesMore(items[0], refs, more);
      MatchesMoreItems(items[1..], refs, more);
    }
  }

  lemma {:induction false} MatchesMorePair(p: YPair, refs: map<string, YNode>, more: map<string, YNode>)
    requires MatchesPair(p, refs) && Extends(refs, more)
    ensures MatchesPair(p, more)
    decreases p, 2
  {
    MatchesMore(p.key, refs, more);
    MatchesMore(p.val, refs, more);
  }

  lemma {:induction false} MatchesMorePairs(pairs: seq<YPair>, refs: map<string, YNode>, more: map<string, YNode>)
    requires MatchesPairs(pairs, refs) && Extends(refs, more)
    ensures MatchesPairs(pairs, more)
    decreases pairs, 0
  {
    if pairs != [] {
      MatchesMorePair(pairs[0], refs, more);
      MatchesMorePairs(pairs[1..], refs, more);
    }
  }

  // Where names are distinct, `collect_anchor_refs` finds every anchor's own node.
  lemma {:induction false} CollectMatches(n: YNode, refs: map<string, YNode>)
    requires DistinctNames(n) && Names(n) !! refs.Keys
    ensures var out := Collect(n, refs);
            Extends(refs, out) && out.Keys == refs.Keys + Names(n) && Matches(n, out)
    decreases n, 1
  {
    var own := if n.anchor.Some? then refs[n.anchor.value := n] else refs;
    match n.kind
    case YSequence(items) => CollectMatchesItems(items, own);
    case YMapping(pairs) => CollectMatchesPairs(pairs, own);
    case _ =>
  }

  lemma {:induction false} CollectMatchesItems(items: seq<YNode>, refs: map<string, YNode>)
    requires DistinctInItems(items) && NamesOfItems(items) !! refs.Keys
    ensures var out := CollectItems(items, refs);
            Extends(refs, out) && out.Keys == refs.Keys + NamesOfItems(items) && MatchesItems(items, out)
    decreases items, 0
  {
    if items != [] {
      CollectMatches(items[0], refs);
      var first := Collect(items[0], refs);
      CollectMatchesItems(items[1..], first);
      MatchesMore(items[0], first, CollectItems(items[1..], first));
    }
  }

  lemma {:induction false} CollectMatchesPair(p: YPair, refs: map<string, YNode>)
    requires DistinctInPair(p) && NamesOfPair(p) !! refs.Keys
    ensures var out := CollectPair(p, refs);
            Extends(refs, out) && out.Keys == refs.Keys + NamesOfPair(p) && MatchesPair(p, out)
    decreases p, 2
  {
    CollectMatches(p.key, refs);
    var first := Collect(p.key, refs);
    CollectMatches(p.val, first);
    MatchesMore(p.key, first, Collect(p.val, first));
  }

  lemma {:induction false} CollectMatchesPairs(pairs: seq<YPair>, refs: map<string, YNode>)
    requires DistinctInPairs(pairs) && NamesOfPairs(pairs) !! refs.Keys
    ensures var out := CollectPairs(pairs, refs);
            Extends(refs, out) && out.Keys == refs.Keys + NamesOfPairs(pairs) && MatchesPairs(pairs, out)
    decreases pairs, 0
  {
    if pairs != [] {
      CollectMatchesPair(pairs[0], refs);
      var first := CollectPair(pairs[0], refs);
      CollectMatchesPairs(pairs[1..], first);
      MatchesMorePair(pairs[0], first, CollectPairs(pairs[1..], first));
    }
  }

  // ----- The value of a tree under a map of anchors -----

  // A tree's value with each alias read as its anchor's node, within a number of hops.
  function LazyNode(sc: Scope, n: YNode, refs: map<string, YNode>, hops: nat): Option<Value>
    decreases hops, n, 1
  {
    if TagUndefined(sc, n.tag) then None
    else
      match n.kind
      case YAlias(name) =>
        if hops == 0 || n.anchor.Some? || n.tag.Some? || name !in refs then None
        else LazyNode(sc, refs[name], refs, hops - 1)
      case YSequence(items) =>
        var values :- LazyItems(sc, items, refs, hops, []);
        Some(WithTag(Expanded(sc, n.tag), Sequence(values)))
      case YMapping(pairs) =>
        var values :- LazyPairs(sc, pairs, refs, hops, [], {});
        Some(WithTag(Expanded(sc, n.tag), Mapping(values)))
      case _ => LeafValue(sc, n)
  }

  function LeafValue(sc: Scope, n: YNode): Option<Value> {
    match EvalNode(sc, n, FRESH).r
    case Ok(v) => Some(v)
    case Err(_) => None
  }

  function LazyItems(sc: Scope, items: seq<YNode>, refs: map<string, YNode>, hops: nat, acc: seq<Value>): Option<seq<Value>>
    decreases hops, items, 0
  {
    if items == [] then Some(acc)
    else
      var v :- LazyNode(sc, items[0], refs, hops);
      LazyItems(sc, items[1..], refs, hops, acc + [v])
  }

  function LazyPair(sc: Scope, p: YPair, refs: map<string, YNode>, hops: nat): Option<Pair>
    decreases hops, p, 2
  {
    var key :- LazyNode(sc, p.key, refs, hops);
    var val :- LazyNode(sc, p.val, refs, hops);
    Some(Pair(key, val))
  }

  function LazyPairs(sc: Scope, pairs: seq<YPair>, refs: map<string, YNode>, hops: nat, acc: seq<Pair>, seen: set<string>)
    : Option<seq<Pair>>
    decreases hops, pairs, 0
  {
    if pairs == [] then Some(acc)
    else
      var p :- LazyPair(sc, pairs[0], refs, hops);
      match CheckKey(sc.config, seen, p.key)
      case Err(_) => None
      case Ok(now) => LazyPairs(sc, pairs[1..], refs, hops, acc + [p], now)
  }

  // More hops change nothing.
  lemma {:induction false} MoreHops(sc: Scope, n: YNode, refs: map<string, YNode>, hops: nat, more: nat)
    requires hops <= more && LazyNode(sc, n, refs, hops).Some?
    ensures LazyNode(sc, n, refs, more) == LazyNode(sc, n, refs, hops)
    decreases hops, n, 1
  {
    match n.kind
    case YAlias(name) => MoreHops(sc, refs[name], refs, hops - 1, more - 1);
    case YSequence(items) => MoreHopsItems(sc, items, refs, hops, more, []);
    case YMapping(pairs) => MoreHopsPairs(sc, pairs, refs, hops, more, [], {});
    case _ =>
  }

  lemma {:induction false} MoreHopsItems(sc: Scope, items: seq<YNode>, refs: map<string, YNode>, hops: nat,
                                         more: nat, acc: seq<Value>)
    requires hops <= more && LazyItems(sc, items, refs, hops, acc).Some?
    ensures LazyItems(sc, items, refs, more, acc) == LazyItems(sc, items, refs, hops, acc)
    decreases hops, items, 0
  {
    if items != [] {
      MoreHops(sc, items[0], refs, hops, more);
      MoreHopsItems(sc, items[1..], refs, hops, more, acc + [LazyNode(sc, items[0], refs, hops).value]);
    }
  }

  lemma {:induction false} MoreHopsPair(sc: Scope, p: YPair, refs: map<string, YNode>, hops: nat, more: nat)
    requires hops <= more && LazyPair(sc, p, refs, hops).Some?
    ensures LazyPair(sc, p, refs, more) == LazyPair(sc, p, refs, hops)
    decreases hops, p, 2
  {
    MoreHops(sc, p.key, refs, hops, more);
    MoreHops(sc, p.val, refs, hops, more);
  }

  lemma {:induction false} MoreHopsPairs(sc: Scope, pairs: seq<YPair>, refs: map<string, YNode>, hops: nat, more: nat,
                                         acc: seq<Pair>, seen: set<string>)
    requires hops <= more && LazyPairs(sc, pairs, refs, hops, acc, seen).Some?
    ensures LazyPairs(sc, pairs, refs, more, acc, seen) == LazyPairs(sc, pairs, refs, hops, acc, seen)
    decreases hops, pairs, 0
  {
    if pairs != [] {
      MoreHopsPair(sc, pairs[0], refs, hops, more);
      var p := LazyPair(sc, pairs[0], refs, hops).value;
      MoreHopsPairs(sc, pairs[1..], refs, hops, more, acc + [p], CheckKey(sc.config, seen, p.key).value);
    }
  }

  // ----- Eager is lazy -----

  // Every bound anchor has the value of its node in the map. The anchors before it bound
  // how many hops that takes.
  ghost predicate Explained(sc: Scope, m: Memory, refs: map<string, YNode>) {
    forall name <- m.anchors ::
      name in refs && LazyNode(sc, refs[name], refs, |m.anchors| - 1) == Some(m.anchors[name].value)
  }

  lemma SomeAnchor(m: Memory, name: string)
    requires name in m.anchors
    ensures |m.anchors| >= 1
  {
  }

  lemma ExplainedAfter(sc: Scope, m: Memory, refs: map<string, YNode>, later: Memory)
    requires Explained(sc, m, refs) && later.anchors == m.anchors
    ensures Explained(sc, later, refs)
  {
    hide LazyNode;
  }

  // One more anchor, bound to the value of its node.
  lemma ExplainedMore(sc: Scope, m: Memory, refs: map<string, YNode>, later: Memory, name: string, b: Bound)
    requires Explained(sc, m, refs) && name !in m.anchors && later.anchors == m.anchors[name := b]
    requires name in refs && LazyNode(sc, refs[name], refs, |m.anchors|) == Some(b.value)
    ensures Explained(sc, later, refs) && |later.anchors| == |m.anchors| + 1
    ensures later.anchors.Keys == m.anchors.Keys + {name}
  {
    hide LazyNode;
    assert later.anchors.Keys == m.anchors.Keys + {name};
    forall other <- m.anchors ensures LazyNode(sc, refs[other], refs, |m.anchors|) == Some(m.anchors[other].value) {
      SomeAnchor(m, other);
      MoreHops(sc, refs[other], refs, |m.anchors| - 1, |m.anchors|);
    }
  }

  // What evaluating a part that defines `names` leaves behind.
  ghost predicate Keeps(sc: Scope, refs: map<string, YNode>, m: Memory, later: Memory, names: set<string>) {
    Explained(sc, later, refs) && later.anchors.Keys == m.anchors.Keys + names && |m.anchors| <= |later.anchors|
  }

  lemma KeepsBoth(sc: Scope, refs: map<string, YNode>, m: Memory, mid: Memory, later: Memory, first: set<string>,
                  second: set<string>)
    requires Keeps(sc, refs, m, mid, first) && Keeps(sc, refs, mid, later, second)
    ensures Keeps(sc, refs, m, later, first + second)
  {
    hide LazyNode;
  }

  lemma StillDisjoint(keys: set<string>, first: set<string>, second: set<string>, now: set<string>)
    requires first !! second && first + second !! keys && now == keys + first
    ensures first !! keys && second !! now
  {
  }

  // What the decoder makes of a tree is its value under the map, within as many hops as
  // anchors are then bound.
  lemma {:induction false} EagerIsLazy(sc: Scope, n: YNode, m: Memory, refs: map<string, YNode>)
    requires EvalNode(sc, n, m).r.Ok? && Explained(sc, m, refs)
    requires DistinctNames(n) && Names(n) !! m.anchors.Keys && Matches(n, refs)
    ensures var e := EvalNode(sc, n, m);
            Keeps(sc, refs, m, e.mem, Names(n)) && LazyNode(sc, n, refs, |e.mem.anchors|) == Some(e.r.value)
    decreases n, 1
  {
    match n.kind
    case YAlias(_) => AliasIsLazy(sc, n, m, refs);
    case YSequence(_) => SequenceIsLazy(sc, n, m, refs);
    case YMapping(_) => MappingIsLazy(sc, n, m, refs);
    case _ => LeafIsLazy(sc, n, m, refs);
  }

  lemma AliasIsLazy(sc: Scope, n: YNode, m: Memory, refs: map<string, YNode>)
    requires n.kind.YAlias? && EvalNode(sc, n, m).r.Ok? && Explained(sc, m, refs)
    ensures var e := EvalNode(sc, n, m);
            Keeps(sc, refs, m, e.mem, Names(n)) && LazyNode(sc, n, refs, |e.mem.anchors|) == Some(e.r.value)
  {
    SomeAnchor(m, n.kind.name);
    ExplainedAfter(sc, m, refs, EvalNode(sc, n, m).mem);
  }

  lemma {:induction false} SequenceIsLazy(sc: Scope, n: YNode, m: Memory, refs: map<string, YNode>)
    requires n.kind.YSequence? && EvalNode(sc, n, m).r.Ok? && Explained(sc, m, refs)
    requires DistinctNames(n) && Names(n) !! m.anchors.Keys && Matches(n, refs)
    ensures var e := EvalNode(sc, n, m);
            Keeps(sc, refs, m, e.mem, Names(n)) && LazyNode(sc, n, refs, |e.mem.anchors|) == Some(e.r.value)
    decreases n, 0
  {
    var items := n.kind.items;
    ItemsAreLazy(sc, items, m, refs, []);
    var o := EvalItems(sc, items, m, []);
    FinishIsLazy(sc, n, refs, m, o.mem, WithTag(Expanded(sc, n.tag), Sequence(o.r.value)), NamesOfItems(items));
  }

  lemma {:induction false} MappingIsLazy(sc: Scope, n: YNode, m: Memory, refs: map<string, YNode>)
    requires n.kind.YMapping? && EvalNode(sc, n, m).r.Ok? && Explained(sc, m, refs)
    requires DistinctNames(n) && Names(n) !! m.anchors.Keys && Matches(n, refs)
    ensures var e := EvalNode(sc, n, m);
            Keeps(sc, refs, m, e.mem, Names(n)) && LazyNode(sc, n, refs, |e.mem.anchors|) == Some(e.r.value)
    decreases n, 0
  {
    var pairs := n.kind.pairs;
    PairsAreLazy(sc, pairs, m, refs, [], {});
    var o := EvalPairs(sc, pairs, m, [], {});
    FinishIsLazy(sc, n, refs, m, o.mem, WithTag(Expanded(sc, n.tag), Mapping(o.r.value)), NamesOfPairs(pairs));
  }

  // A node whose parts define `names` is finished and bound.
  lemma FinishIsLazy(sc: Scope, n: YNode, refs: map<string, YNode>, m: Memory, after: Memory, v: Value, names: set<string>)
    requires Keeps(sc, refs, m, after, names) && LazyNode(sc, n, refs, |after.anchors|) == Some(v)
    requires n.anchor.Some? ==>
               n.anchor.value !in names && n.anchor.value !in m.anchors && n.anchor.value in refs && refs[n.anchor.value] == n
    ensures var later := Remember(after, n.anchor, v);
            && Keeps(sc, refs, m, later, (if n.anchor.Some? then {n.anchor.value} else {}) + names)
            && LazyNode(sc, n, refs, |later.anchors|) == Some(v)
  {
    hide LazyNode;
    if n.anchor.Some? {
      FinishAnchored(sc, n, refs, m, after, Remember(after, n.anchor, v), Bound(v, CountNodes(v)), names);
    } else {
      assert {} + names == names;
    }
  }

  lemma FinishAnchored(sc: Scope, n: YNode, refs: map<string, YNode>, m: Memory, after: Memory, later: Memory,
                       b: Bound, names: set<string>)
    requires Keeps(sc, refs, m, after, names) && LazyNode(sc, n, refs, |after.anchors|) == Some(b.value)
    requires n.anchor.Some? && n.anchor.value !in names && n.anchor.value !in m.anchors
    requires n.anchor.value in refs && refs[n.anchor.value] == n && later.anchors == after.anchors[n.anchor.value := b]
    ensures Keeps(sc, refs, m, later, {n.anchor.value} + names)
    ensures LazyNode(sc, n, refs, |later.anchors|) == Some(b.value)
  {
    hide LazyNode;
    var own := {n.anchor.value};
    ExplainedMore(sc, after, refs, later, n.anchor.value, b);
    MoreHops(sc, n, refs, |after.anchors|, |later.anchors|);
    KeysSwap(m.anchors.Keys, names, own);
  }

  lemma KeysSwap(keys: set<string>, names: set<string>, own: set<string>)
    ensures keys + names + own == keys + (own + names)
  {
  }

  // What a leaf leaves behind before it is bound.
  function LeafMemory(sc: Scope, n: YNode, m: Memory): Memory {
    var tag := Expanded(sc, n.tag);
    match n.kind
    case YScalar(text, style) => NoteMerge(m, ScalarValue(sc.config, text, style, tag).merges)
    case _ => if tag.Some? then NoteMerge(m, EmptyValue(sc.config, tag.value).merges) else m
  }

  lemma LeafMeans(sc: Scope, n: YNode, m: Memory)
    requires (n.kind.YNull? || n.kind.YScalar?) && EvalNode(sc, n, m).r.Ok?
    ensures EvalNode(sc, n, m) == Finish(LeafMemory(sc, n, m), n.anchor, EvalNode(sc, n, m).r.value)
    ensures LeafMemory(sc, n, m).anchors == m.anchors
    ensures LeafValue(sc, n) == Some(EvalNode(sc, n, m).r.value) && !TagUndefined(sc, n.tag)
  {
  }

  lemma LeafIsLeaf(sc: Scope, n: YNode, refs: map<string, YNode>, hops: nat)
    requires (n.kind.YNull? || n.kind.YScalar?) && !TagUndefined(sc, n.tag)
    ensures LazyNode(sc, n, refs, hops) == LeafValue(sc, n)
  {
    hide EvalNode, LeafValue;
  }

  lemma LeafIsLazy(sc: Scope, n: YNode, m: Memory, refs: map<string, YNode>)
    requires (n.kind.YNull? || n.kind.YScalar?) && EvalNode(sc, n, m).r.Ok? && Explained(sc, m, refs)
    requires Names(n) !! m.anchors.Keys && Matches(n, refs)
    ensures var e := EvalNode(sc, n, m);
            Keeps(sc, refs, m, e.mem, Names(n)) && LazyNode(sc, n, refs, |e.mem.anchors|) == Some(e.r.value)
  {
    hide LazyNode, EvalNode, LeafValue, LeafMemory;
    LeafMeans(sc, n, m);
    var noted, v := LeafMemory(sc, n, m), EvalNode(sc, n, m).r.value;
    ExplainedAfter(sc, m, refs, noted);
    LeafIsLeaf(sc, n, refs, |noted.anchors|);
    FinishIsLazy(sc, n, refs, m, noted, v, {});
  }

  lemma {:induction false} ItemsAreLazy(sc: Scope, items: seq<YNode>, m: Memory, refs: map<string, YNode>, acc: seq<Value>)
    requires EvalItems(sc, items, m, acc).r.Ok? && Explained(sc, m, refs)
    requires DistinctInItems(items) && NamesOfItems(items) !! m.anchors.Keys && MatchesItems(items, refs)
    ensures var e := EvalItems(sc, items, m, acc);
            Keeps(sc, refs, m, e.mem, NamesOfItems(items))
            && LazyItems(sc, items, refs, |e.mem.anchors|, acc) == Some(e.r.value)
    decreases items, 0
  {
    if items != [] {
      var first := EvalNode(sc, items[0], m);
      var here, after := Names(items[0]), NamesOfItems(items[1..]);
      StillDisjoint(m.anchors.Keys, here, after, m.anchors.Keys + here);
      EagerIsLazy(sc, items[0], m, refs);
      ItemsAreLazy(sc, items[1..], first.mem, refs, acc + [first.r.value]);
      var e := EvalItems(sc, items[1..], first.mem, acc + [first.r.value]);
      KeepsBoth(sc, refs, m, first.mem, e.mem, here, after);
      MoreHops(sc, items[0], refs, |first.mem.anchors|, |e.mem.anchors|);
    }
  }

  lemma {:induction false} PairIsLazy(sc: Scope, p: YPair, m: Memory, refs: map<string, YNode>)
    requires EvalPair(sc, p, m).r.Ok? && Explained(sc, m, refs)
    requires DistinctInPair(p) && NamesOfPair(p) !! m.anchors.Keys && MatchesPair(p, refs)
    ensures var e := EvalPair(sc, p, m);
            Keeps(sc, refs, m, e.mem, NamesOfPair(p)) && LazyPair(sc, p, refs, |e.mem.anchors|) == Some(e.r.value)
    decreases p, 2
  {
    var key := EvalNode(sc, p.key, m);
    var here, after := Names(p.key), Names(p.val);
    StillDisjoint(m.anchors.Keys, here, after, m.anchors.Keys + here);
    EagerIsLazy(sc, p.key, m, refs);
    EagerIsLazy(sc, p.val, key.mem, refs);
    var e := EvalNode(sc, p.val, key.mem);
    KeepsBoth(sc, refs, m, key.mem, e.mem, here, after);
    MoreHops(sc, p.key, refs, |key.mem.anchors|, |e.mem.anchors|);
  }

  lemma {:induction false} PairsAreLazy(sc: Scope, pairs: seq<YPair>, m: Memory, refs: map<string, YNode>,
                                        acc: seq<Pair>, seen: set<string>)
    requires EvalPairs(sc, pairs, m, acc, seen).r.Ok? && Explained(sc, m, refs)
    requires DistinctInPairs(pairs) && NamesOfPairs(pairs) !! m.anchors.Keys && MatchesPairs(pairs, refs)
    ensures var e := EvalPairs(sc, pairs, m, acc, seen);
            Keeps(sc, refs, m, e.mem, NamesOfPairs(pairs))
            && LazyPairs(sc, pairs, refs, |e.mem.anchors|, acc, seen) == Some(e.r.value)
    decreases pairs, 0
  {
    if pairs != [] {
      var first := EvalPair(sc, pairs[0], m);
      var now := CheckKey(sc.config, seen, first.r.value.key);
      var here, after := NamesOfPair(pairs[0]), NamesOfPairs(pairs[1..]);
      StillDisjoint(m.anchors.Keys, here, after, m.anchors.Keys + here);
      PairIsLazy(sc, pairs[0], m, refs);
      PairsAreLazy(sc, pairs[1..], first.mem, refs, acc + [first.r.value], now.value);
      var e := EvalPairs(sc, pairs[1..], first.mem, acc + [first.r.value], now.value);
      KeepsBoth(sc, refs, m, first.mem, e.mem, here, after);
      MoreHopsPair(sc, pairs[0], refs, |first.mem.anchors|, |e.mem.anchors|);
    }
  }

  // ----- Lazy is the value of the copy -----

  // Without aliases a tree's value does not depend on what came before, nor on anchors.
  lemma {:induction false} CopyHasValue(detach: bool, sc: Scope, n: YNode, refs: map<string, YNode>, hops: nat,
                                        depth: nat, budget: nat, m: Memory)
    requires LazyNode(sc, n, refs, hops).Some? && !Copy(detach, n, refs, depth, budget).cut
    ensures EvalNode(sc, Copy(detach, n, refs, depth, budget).out, m).r == Ok(LazyNode(sc, n, refs, hops).value)
    decreases hops, n, 1
  {
    match n.kind
    case YAlias(name) => CopyHasValue(detach, sc, refs[name], refs, hops - 1, depth + 1, budget - 1, m);
    case YSequence(items) => CopiedItemsHaveValues(detach, sc, items, refs, hops, depth, budget - 1, m, []);
    case YMapping(pairs) => CopiedPairsHaveValues(detach, sc, pairs, refs, hops, depth, budget - 1, m, [], {});
    case _ =>
  }

  lemma {:induction false} CopiedItemsHaveValues(detach: bool, sc: Scope, items: seq<YNode>, refs: map<string, YNode>,
                                                  hops: nat, depth: nat, budget: nat, m: Memory, acc: seq<Value>)
    requires LazyItems(sc, items, refs, hops, acc).Some? && !CopyItems(detach, items, refs, depth, budget).cut
    ensures EvalItems(sc, CopyItems(detach, items, refs, depth, budget).out, m, acc).r ==
            Ok(LazyItems(sc, items, refs, hops, acc).value)
    decreases hops, items, 0
  {
    if items != [] {
      var first := Copy(detach, items[0], refs, depth, budget);
      CopyHasValue(detach, sc, items[0], refs, hops, depth, budget, m);
      var v := LazyNode(sc, items[0], refs, hops).value;
      CopiedItemsHaveValues(detach, sc, items[1..], refs, hops, depth, first.left, EvalNode(sc, first.out, m).mem, acc + [v]);
      var rest := CopyItems(detach, items[1..], refs, depth, first.left).out;
      assert ([first.out] + rest)[1..] == rest;
    }
  }

  lemma {:induction false} CopiedPairHasValue(detach: bool, sc: Scope, p: YPair, refs: map<string, YNode>, hops: nat,
                                              depth: nat, budget: nat, m: Memory)
    requires LazyPair(sc, p, refs, hops).Some? && !CopyPair(detach, p, refs, depth, budget).cut
    ensures EvalPair(sc, CopyPair(detach, p, refs, depth, budget).out, m).r == Ok(LazyPair(sc, p, refs, hops).value)
    decreases hops, p, 2
  {
    var key := Copy(detach, p.key, refs, depth, budget);
    CopyHasValue(detach, sc, p.key, refs, hops, depth, budget, m);
    CopyHasValue(detach, sc, p.val, refs, hops, depth, key.left, EvalNode(sc, key.out, m).mem);
  }

  lemma {:induction false} CopiedPairsHaveValues(detach: bool, sc: Scope, pairs: seq<YPair>, refs: map<string, YNode>,
                                                  hops: nat, depth: nat,
                                                 budget: nat, m: Memory, acc: seq<Pair>, seen: set<string>)
    requires LazyPairs(sc, pairs, refs, hops, acc, seen).Some? && !CopyPairs(detach, pairs, refs, depth, budget).cut
    ensures EvalPairs(sc, CopyPairs(detach, pairs, refs, depth, budget).out, m, acc, seen).r ==
            Ok(LazyPairs(sc, pairs, refs, hops, acc, seen).value)
    decreases hops, pairs, 0
  {
    if pairs != [] {
      var first := CopyPair(detach, pairs[0], refs, depth, budget);
      CopiedPairHasValue(detach, sc, pairs[0], refs, hops, depth, budget, m);
      var p := LazyPair(sc, pairs[0], refs, hops).value;
      var now := CheckKey(sc.config, seen, p.key);
      CopiedPairsHaveValues(detach, sc, pairs[1..], refs, hops, depth, first.left, EvalPair(sc, first.out, m).mem,
                            acc + [p], now.value);
      var rest := CopyPairs(detach, pairs[1..], refs, depth, first.left).out;
      assert ([first.out] + rest)[1..] == rest;
    }
  }

  // ----- When nothing is cut -----

  // Within the hops that a value takes only the budget can cut, and it cuts only once spent.
  lemma {:induction false} NothingIsCut(detach: bool, sc: Scope, n: YNode, refs: map<string, YNode>, hops: nat,
                                        depth: nat, budget: nat)
    requires LazyNode(sc, n, refs, hops).Some? && depth + hops <= MAX_ALIAS_DEPTH
    requires Copy(detach, n, refs, depth, budget).left > 0
    ensures !Copy(detach, n, refs, depth, budget).cut
    decreases hops, n, 1
  {
    match n.kind
    case YAlias(name) => NothingIsCut(detach, sc, refs[name], refs, hops - 1, depth + 1, budget - 1);
    case YSequence(items) => NothingIsCutInItems(detach, sc, items, refs, hops, depth, budget - 1, []);
    case YMapping(pairs) => NothingIsCutInPairs(detach, sc, pairs, refs, hops, depth, budget - 1, [], {});
    case _ =>
  }

  lemma {:induction false} NothingIsCutInItems(detach: bool, sc: Scope, items: seq<YNode>, refs: map<string, YNode>,
                                               hops: nat, depth: nat,
                                               budget: nat, acc: seq<Value>)
    requires LazyItems(sc, items, refs, hops, acc).Some? && depth + hops <= MAX_ALIAS_DEPTH
    requires CopyItems(detach, items, refs, depth, budget).left > 0
    ensures !CopyItems(detach, items, refs, depth, budget).cut
    decreases hops, items, 0
  {
    if items != [] {
      var first := Copy(detach, items[0], refs, depth, budget);
      NothingIsCut(detach, sc, items[0], refs, hops, depth, budget);
      NothingIsCutInItems(detach, sc, items[1..], refs, hops, depth, first.left,
                          acc + [LazyNode(sc, items[0], refs, hops).value]);
    }
  }

  lemma {:induction false} NothingIsCutInPair(detach: bool, sc: Scope, p: YPair, refs: map<string, YNode>, hops: nat,
                                              depth: nat, budget: nat)
    requires LazyPair(sc, p, refs, hops).Some? && depth + hops <= MAX_ALIAS_DEPTH
    requires CopyPair(detach, p, refs, depth, budget).left > 0
    ensures !CopyPair(detach, p, refs, depth, budget).cut
    decreases hops, p, 2
  {
    NothingIsCut(detach, sc, p.key, refs, hops, depth, budget);
    NothingIsCut(detach, sc, p.val, refs, hops, depth, Copy(detach, p.key, refs, depth, budget).left);
  }

  lemma {:induction false} NothingIsCutInPairs(detach: bool, sc: Scope, pairs: seq<YPair>, refs: map<string, YNode>,
                                               hops: nat, depth: nat,
                                               budget: nat, acc: seq<Pair>, seen: set<string>)
    requires LazyPairs(sc, pairs, refs, hops, acc, seen).Some? && depth + hops <= MAX_ALIAS_DEPTH
    requires CopyPairs(detach, pairs, refs, depth, budget).left > 0
    ensures !CopyPairs(detach, pairs, refs, depth, budget).cut
    decreases hops, pairs, 0
  {
    if pairs != [] {
      var first := CopyPair(detach, pairs[0], refs, depth, budget);
      NothingIsCutInPair(detach, sc, pairs[0], refs, hops, depth, budget);
      var p := LazyPair(sc, pairs[0], refs, hops).value;
      var now := CheckKey(sc.config, seen, p.key);
      NothingIsCutInPairs(detach, sc, pairs[1..], refs, hops, depth, first.left, acc + [p], now.value);
    }
  }

  // ----- The agreement -----

  // Up to the hops that its value takes, a node's copy has its value unless it is cut, and
  // with budget left it is not.
  lemma CopyAgrees(sc: Scope, n: YNode, refs: map<string, YNode>, hops: nat, budget: nat)
    requires LazyNode(sc, n, refs, hops).Some?
    ensures var copy := Copy(false, n, refs, 0, budget);
            && (!copy.cut ==> EvalNode(sc, copy.out, FRESH).r == Ok(LazyNode(sc, n, refs, hops).value))
            && (hops <= MAX_ALIAS_DEPTH && copy.left > 0 ==> !copy.cut)
  {
    var copy := Copy(false, n, refs, 0, budget);
    if !copy.cut {
      CopyHasValue(false, sc, n, refs, hops, 0, budget, FRESH);
    }
    if hops <= MAX_ALIAS_DEPTH && copy.left > 0 {
      NothingIsCut(false, sc, n, refs, hops, 0, budget);
    }
  }

  lemma DocumentIsLazy(sc: Scope, doc: YNode, m: Memory)
    requires DistinctNames(doc) && m.anchors == map[] && EvalNode(sc, doc, m).r.Ok?
    ensures var e, refs := EvalNode(sc, doc, m), Collect(doc, map[]);
            && e.mem.anchors.Keys == refs.Keys && |e.mem.anchors| == |refs|
            && Explained(sc, e.mem, refs) && LazyNode(sc, doc, refs, |refs|) == Some(e.r.value)
  {
    var e, refs := EvalNode(sc, doc, m), Collect(doc, map[]);
    CollectMatches(doc, map[]);
    EagerIsLazy(sc, doc, m, refs);
    assert e.mem.anchors.Keys == Names(doc) == refs.Keys;
    assert |e.mem.anchors| == |e.mem.anchors.Keys| && |refs| == |refs.Keys|;
  }

  // The anchors of a document that decodes: the value bound to a name is the value of the
  // name's entry in the anchor map.
  lemma AnchorsAgree(sc: Scope, doc: YNode, m: Memory, name: string, budget: nat)
    requires DistinctNames(doc) && m.anchors == map[] && EvalNode(sc, doc, m).r.Ok?
    requires name in Collect(doc, map[])
    ensures var bound, refs := EvalNode(sc, doc, m).mem.anchors, Collect(doc, map[]);
            var copy := Copy(false, refs[name], refs, 0, budget);
            && name in bound
            && (!copy.cut ==> EvalNode(sc, copy.out, FRESH).r == Ok(bound[name].value))
            && (|refs| <= MAX_ALIAS_DEPTH && copy.left > 0 ==> !copy.cut)
  {
    var refs := Collect(doc, map[]);
    var after := EvalNode(sc, doc, m).mem;
    DocumentIsLazy(sc, doc, m);
    ExplainedName(sc, after, refs, name);
    CopyAgrees(sc, refs[name], refs, |after.anchors| - 1, budget);
  }

  lemma ExplainedName(sc: Scope, m: Memory, refs: map<string, YNode>, name: string)
    requires Explained(sc, m, refs) && name in m.anchors
    ensures |m.anchors| >= 1 && name in refs
    ensures LazyNode(sc, refs[name], refs, |m.anchors| - 1) == Some(m.anchors[name].value)
  {
    hide LazyNode;
    SomeAnchor(m, name);
  }

  // Each entry of an anchor map has the value that the decoder bound to its name.
  ghost predicate EntriesAgree(sc: Scope, out: map<string, YNode>, bound: map<string, Bound>) {
    forall name <- out :: name in bound && EvalNode(sc, out[name], FRESH).r == Ok(bound[name].value)
  }

  lemma {:induction false} NamedAgree(sc: Scope, doc: YNode, m: Memory, names: seq<string>, budget: nat)
    requires DistinctNames(doc) && m.anchors == map[] && EvalNode(sc, doc, m).r.Ok?
    requires forall name <- names :: name in Collect(doc, map[])
    ensures var refs := Collect(doc, map[]);
            var c := CopyNamed(names, refs, budget);
            && (!c.cut ==> EntriesAgree(sc, c.out, EvalNode(sc, doc, m).mem.anchors))
            && (|refs| <= MAX_ALIAS_DEPTH && c.left > 0 ==> !c.cut)
    decreases |names|
  {
    if names != [] {
      var init, last := names[..|names| - 1], names[|names| - 1];
      assert names == init + [last];
      NamedAgree(sc, doc, m, init, budget);
      AnchorsAgree(sc, doc, m, last, CopyNamed(init, Collect(doc, map[]), budget).left);
    }
  }

  // What `build_anchor_map` makes of a document that decodes, in whatever order it takes the
  // names: the decoder's anchors with the decoder's values, unless a copy is cut. With at
  // most a hundred anchors and budget left over at the end none is.
  lemma MapAgrees(sc: Scope, doc: YNode, m: Memory, order: seq<string>, out: map<string, YNode>)
    requires DistinctNames(doc) && m.anchors == map[] && EvalNode(sc, doc, m).r.Ok?
    requires var refs := CollectItems([doc], map[]);
             && (forall name <- order :: name in refs) && out.Keys == refs.Keys
             && out == CopyNamed(order, refs, MAX_ALIAS_NODES).out
    ensures var bound, refs := EvalNode(sc, doc, m).mem.anchors, CollectItems([doc], map[]);
            var c := CopyNamed(order, refs, MAX_ALIAS_NODES);
            && out.Keys == bound.Keys
            && (!c.cut ==> EntriesAgree(sc, out, bound))
            && (|refs| <= MAX_ALIAS_DEPTH && c.left > 0 ==> EntriesAgree(sc, out, bound))
  {
    var docs := [doc];
    assert docs[1..] == [] && CollectItems(docs, map[]) == Collect(doc, map[]);
    NamedAgree(sc, doc, m, order, MAX_ALIAS_NODES);
    DocumentIsLazy(sc, doc, m);
  }

  // Eager equals lazy: the decoder's value of a laid-out document is the value of the tree
  // that the composer makes of it, with the aliases expanded, unless a hop cap or a budget
  // cuts the expansion. With at most a hundred anchors and budget to spare nothing is cut.
  lemma DecodedIsExpanded(sc: Scope, t: Grammar.Tree, rest: seq<Event>, m: Memory, budget: nat)
    requires rest != [] && Grammar.Readable(t, rest, false) && DecodeGrammar.KeepsTags(sc, t)
    requires Grammar.Height(t) <= MAX_DEPTH && m.anchors == map[] && DistinctNames(Grammar.Parsed(t))
    requires Node(sc, Grammar.RenderTree(t, rest), m, 0, false).r.Ok?
    ensures var decoded := Node(sc, Grammar.RenderTree(t, rest), m, 0, false);
            var refs := Collect(Grammar.Parsed(t), map[]);
            var copy := Copy(false, Grammar.Parsed(t), refs, 0, budget);
            && (!copy.cut ==> EvalNode(sc, copy.out, FRESH).r == Ok(OrNull(decoded.r.value)))
            && (|refs| <= MAX_ALIAS_DEPTH && copy.left > 0 ==> !copy.cut)
  {
    var doc := Grammar.Parsed(t);
    var refs := Collect(doc, map[]);
    DecodeGrammar.DecodesTree(sc, t, rest, m, 0, false);
    DocumentIsLazy(sc, doc, m);
    CopyAgrees(sc, doc, refs, |refs|, budget);
  }
}
