// Lazy alias expansion (src/roundtrip/anchors.rs): trees are copied with their aliases
// replaced, under a cap on hops and a budget of nodes shared by the whole copy.
module Anchors {
  import opened Wrappers
  import opened Seqs
  import opened Syntax

  const MAX_ALIAS_DEPTH: nat := 100
  const MAX_ALIAS_NODES: nat := 1_000_000

  // A copy, the budget left, and whether anything was cut to null.
  datatype Copied<+T> = Copied(out: T, left: nat, cut: bool)

  function HopsLeft(depth: nat): nat { if depth > MAX_ALIAS_DEPTH then 0 else MAX_ALIAS_DEPTH + 1 - depth }

  // `expand_aliases`, or with `detach`, `detached_clone`. It ends on any anchors, cyclic
  // ones too: an alias takes a hop, and everything else goes to a smaller tree.
  function Copy(detach: bool, n: YNode, refs: map<string, YNode>, depth: nat, budget: nat): (c: Copied<YNode>)
    ensures c.left <= budget
    decreases HopsLeft(depth), n, 1
  {
    if depth > MAX_ALIAS_DEPTH || budget == 0 then Copied(NULL_NODE, budget, true)
    else
      match n.kind
      case YAlias(name) =>
        if name in refs then Copy(detach, refs[name], refs, depth + 1, budget - 1)
        else Copied(if detach then YNode(YNull, n.tag, None) else NULL_NODE, budget - 1, false)
      case YSequence(items) =>
        var c := CopyItems(detach, items, refs, depth, budget - 1);
        Copied(YNode(YSequence(c.out), n.tag, None), c.left, c.cut)
      case YMapping(pairs) =>
        var c := CopyPairs(detach, pairs, refs, depth, budget - 1);
        Copied(YNode(YMapping(c.out), n.tag, None), c.left, c.cut)
      case _ => Copied(if detach then n.(anchor := None) else n, budget - 1, false)
  }

  function CopyItems(detach: bool, items: seq<YNode>, refs: map<string, YNode>, depth: nat, budget: nat)
    : (c: Copied<seq<YNode>>)
    ensures c.left <= budget
    decreases HopsLeft(depth), items, 0
  {
    if items == [] then Copied([], budget, false)
    else
      var first := Copy(detach, items[0], refs, depth, budget);
      var rest := CopyItems(detach, items[1..], refs, depth, first.left);
      Copied([first.out] + rest.out, rest.left, first.cut || rest.cut)
  }

  function CopyPair(detach: bool, p: YPair, refs: map<string, YNode>, depth: nat, budget: nat): (c: Copied<YPair>)
    ensures c.left <= budget
    decreases HopsLeft(depth), p, 2
  {
    var key := Copy(detach, p.key, refs, depth, budget);
    var val := Copy(detach, p.val, refs, depth, key.left);
    Copied(YPair(key.out, val.out), val.left, key.cut || val.cut)
  }

  function CopyPairs(detach: bool, pairs: seq<YPair>, refs: map<string, YNode>, depth: nat, budget: nat)
    : (c: Copied<seq<YPair>>)
    ensures c.left <= budget
    decreases HopsLeft(depth), pairs, 0
  {
    if pairs == [] then Copied([], budget, false)
    else
      var first := CopyPair(detach, pairs[0], refs, depth, budget);
      var rest := CopyPairs(detach, pairs[1..], refs, depth, first.left);
      Copied([first.out] + rest.out, rest.left, first.cut || rest.cut)
  }

  // ----- What a copy is free of, and what it costs -----

  predicate AliasFree(n: YNode, detach: bool)
    decreases n, 1
  {
    && !n.kind.YAlias? && (detach ==> n.anchor.None?)
    && (n.kind.YSequence? ==> AliasFreeItems(n.kind.items, detach))
    && (n.kind.YMapping? ==> AliasFreePairs(n.kind.pairs, detach))
  }

  predicate AliasFreeItems(items: seq<YNode>, detach: bool)
    decreases items, 0
  {
    items == [] || (AliasFree(items[0], detach) && AliasFreeItems(items[1..], detach))
  }

  predicate AliasFreePair(p: YPair, detach: bool)
    decreases p, 2
  {
    AliasFree(p.key, detach) && AliasFree(p.val, detach)
  }

  predicate AliasFreePairs(pairs: seq<YPair>, detach: bool)
    decreases pairs, 0
  {
    pairs == [] || (AliasFreePair(pairs[0], detach) && AliasFreePairs(pairs[1..], detach))
  }

  // The nodes of a tree, those cut to null not counted.
  function Weight(n: YNode): nat
    decreases n, 1
  {
    if n == NULL_NODE then 0
    else
      1 + match n.kind
          case YSequence(items) => WeightOfItems(items)
          case YMapping(pairs) => WeightOfPairs(pairs)
          case _ => 0
  }

  function WeightOfItems(items: seq<YNode>): nat
    decreases items, 0
  {
    if items == [] then 0 else Weight(items[0]) + WeightOfItems(items[1..])
  }

  function WeightOfPair(p: YPair): nat
    decreases p, 2
  {
    Weight(p.key) + Weight(p.val)
  }

  function WeightOfPairs(pairs: seq<YPair>): nat
    decreases pairs, 0
  {
    if pairs == [] then 0 else WeightOfPair(pairs[0]) + WeightOfPairs(pairs[1..])
  }

  // A copy holds no alias, a detached one no anchor either, and it is no larger than what
  // it took from the budget.
  lemma {:induction false} CopyIsBounded(detach: bool, n: YNode, refs: map<string, YNode>, depth: nat, budget: nat)
    ensures var c := Copy(detach, n, refs, depth, budget);
            AliasFree(c.out, detach) && Weight(c.out) <= budget - c.left
    decreases HopsLeft(depth), n, 1
  {
    if depth <= MAX_ALIAS_DEPTH && budget > 0 {
      match n.kind
      case YAlias(name) =>
        if name in refs {
          CopyIsBounded(detach, refs[name], refs, depth + 1, budget - 1);
        }
      case YSequence(items) => ItemsAreBounded(detach, items, refs, depth, budget - 1);
      case YMapping(pairs) => PairsAreBounded(detach, pairs, refs, depth, budget - 1);
      case _ =>
    }
  }

  lemma {:induction false} ItemsAreBounded(detach: bool, items: seq<YNode>, refs: map<string, YNode>, depth: nat, budget: nat)
    ensures var c := CopyItems(detach, items, refs, depth, budget);
            AliasFreeItems(c.out, detach) && WeightOfItems(c.out) <= budget - c.left
    decreases HopsLeft(depth), items, 0
  {
    if items != [] {
      var first := Copy(detach, items[0], refs, depth, budget);
      CopyIsBounded(detach, items[0], refs, depth, budget);
      ItemsAreBounded(detach, items[1..], refs, depth, first.left);
      var rest := CopyItems(detach, items[1..], refs, depth, first.left);
      assert ([first.out] + rest.out)[1..] == rest.out;
    }
  }

  lemma {:induction false} PairIsBounded(detach: bool, p: YPair, refs: map<string, YNode>, depth: nat, budget: nat)
    ensures var c := CopyPair(detach, p, refs, depth, budget);
            AliasFreePair(c.out, detach) && WeightOfPair(c.out) <= budget - c.left
    decreases HopsLeft(depth), p, 2
  {
    CopyIsBounded(detach, p.key, refs, depth, budget);
    CopyIsBounded(detach, p.val, refs, depth, Copy(detach, p.key, refs, depth, budget).left);
  }

  lemma {:induction false} PairsAreBounded(detach: bool, pairs: seq<YPair>, refs: map<string, YNode>, depth: nat, budget: nat)
    ensures var c := CopyPairs(detach, pairs, refs, depth, budget);
            AliasFreePairs(c.out, detach) && WeightOfPairs(c.out) <= budget - c.left
    decreases HopsLeft(depth), pairs, 0
  {
    if pairs != [] {
      var first := CopyPair(detach, pairs[0], refs, depth, budget);
      PairIsBounded(detach, pairs[0], refs, depth, budget);
      PairsAreBounded(detach, pairs[1..], refs, depth, first.left);
      var rest := CopyPairs(detach, pairs[1..], refs, depth, first.left);
      assert ([first.out] + rest.out)[1..] == rest.out;
    }
  }

  // ----- What a copy holds -----

  // `out` is the tree with its aliases followed, in at most `hops` hops: an alias stands for
  // the node of its name, a scalar is the very scalar, a collection keeps its tag. Only a copy
  // of a scalar that is not detached keeps its anchor.
  predicate Expands(detach: bool, n: YNode, out: YNode, refs: map<string, YNode>, hops: nat)
    decreases hops, n, 1
  {
    match n.kind
    case YAlias(name) =>
      if name in refs then hops > 0 && Expands(detach, refs[name], out, refs, hops - 1)
      else out == YNode(YNull, if detach then n.tag else None, None)
    case YSequence(items) =>
      out.kind.YSequence? && out.tag == n.tag && out.anchor == None && ExpandsItems(detach, items, out.kind.items, refs, hops)
    case YMapping(pairs) =>
      out.kind.YMapping? && out.tag == n.tag && out.anchor == None && ExpandsPairs(detach, pairs, out.kind.pairs, refs, hops)
    case YScalar(text, style) =>
      out == YNode(YScalar(text, style), n.tag, if detach then None else n.anchor)
    case YNull => out == YNode(YNull, n.tag, if detach then None else n.anchor)
  }

  predicate ExpandsItems(detach: bool, items: seq<YNode>, out: seq<YNode>, refs: map<string, YNode>, hops: nat)
    decreases hops, items, 0
  {
    |out| == |items|
    && (items == [] || (Expands(detach, items[0], out[0], refs, hops) && ExpandsItems(detach, items[1..], out[1..], refs, hops)))
  }

  predicate ExpandsPair(detach: bool, p: YPair, out: YPair, refs: map<string, YNode>, hops: nat)
    decreases hops, p, 2
  {
    Expands(detach, p.key, out.key, refs, hops) && Expands(detach, p.val, out.val, refs, hops)
  }

  predicate ExpandsPairs(detach: bool, pairs: seq<YPair>, out: seq<YPair>, refs: map<string, YNode>, hops: nat)
    decreases hops, pairs, 0
  {
    |out| == |pairs|
    && (pairs == [] ||
        (ExpandsPair(detach, pairs[0], out[0], refs, hops) && ExpandsPairs(detach, pairs[1..], out[1..], refs, hops)))
  }

  // What is visited on the way: every node of the copy, and every alias.
  function Visits(n: YNode, refs: map<string, YNode>, hops: nat): nat
    decreases hops, n, 1
  {
    1 + match n.kind
        case YAlias(name) => if name in refs && hops > 0 then Visits(refs[name], refs, hops - 1) else 0
        case YSequence(items) => VisitsInItems(items, refs, hops)
        case YMapping(pairs) => VisitsInPairs(pairs, refs, hops)
        case _ => 0
  }

  function VisitsInItems(items: seq<YNode>, refs: map<string, YNode>, hops: nat): nat
    decreases hops, items, 0
  {
    if items == [] then 0 else Visits(items[0], refs, hops) + VisitsInItems(items[1..], refs, hops)
  }

  function VisitsInPair(p: YPair, refs: map<string, YNode>, hops: nat): nat
    decreases hops, p, 2
  {
    Visits(p.key, refs, hops) + Visits(p.val, refs, hops)
  }

  function VisitsInPairs(pairs: seq<YPair>, refs: map<string, YNode>, hops: nat): nat
    decreases hops, pairs, 0
  {
    if pairs == [] then 0 else VisitsInPair(pairs[0], refs, hops) + VisitsInPairs(pairs[1..], refs, hops)
  }

  // Whether every chain of aliases ends in so many hops.
  predicate Ends(n: YNode, refs: map<string, YNode>, hops: nat)
    decreases hops, n, 1
  {
    match n.kind
    case YAlias(name) => name in refs ==> hops > 0 && Ends(refs[name], refs, hops - 1)
    case YSequence(items) => EndsInItems(items, refs, hops)
    case YMapping(pairs) => EndsInPairs(pairs, refs, hops)
    case _ => true
  }

  predicate EndsInItems(items: seq<YNode>, refs: map<string, YNode>, hops: nat)
    decreases hops, items, 0
  {
    items == [] || (Ends(items[0], refs, hops) && EndsInItems(items[1..], refs, hops))
  }

  predicate EndsInPair(p: YPair, refs: map<string, YNode>, hops: nat)
    decreases hops, p, 2
  {
    Ends(p.key, refs, hops) && Ends(p.val, refs, hops)
  }

  predicate EndsInPairs(pairs: seq<YPair>, refs: map<string, YNode>, hops: nat)
    decreases hops, pairs, 0
  {
    pairs == [] || (EndsInPair(pairs[0], refs, hops) && EndsInPairs(pairs[1..], refs, hops))
  }

  // Nothing is cut exactly if every chain of aliases ends within the hops left, and no more is
  // visited than the budget allows.
  lemma {:induction false} UncutExactly(detach: bool, n: YNode, refs: map<string, YNode>, depth: nat, budget: nat)
    requires depth <= 100
    ensures !Copy(detach, n, refs, depth, budget).cut <==>
            Ends(n, refs, 100 - depth) && Visits(n, refs, 100 - depth) <= budget
    decreases HopsLeft(depth), n, 1
  {
    if budget > 0 {
      match n.kind
      case YAlias(name) =>
        if name in refs && depth < 100 {
          UncutExactly(detach, refs[name], refs, depth + 1, budget - 1);
        }
      case YSequence(items) => ItemsUncutExactly(detach, items, refs, depth, budget - 1);
      case YMapping(pairs) => PairsUncutExactly(detach, pairs, refs, depth, budget - 1);
      case _ =>
    }
  }

  lemma {:induction false} ItemsUncutExactly(detach: bool, items: seq<YNode>, refs: map<string, YNode>, depth: nat, budget: nat)
    requires depth <= 100
    ensures !CopyItems(detach, items, refs, depth, budget).cut <==>
            EndsInItems(items, refs, 100 - depth) && VisitsInItems(items, refs, 100 - depth) <= budget
    decreases HopsLeft(depth), items, 0
  {
    if items != [] {
      var first := Copy(detach, items[0], refs, depth, budget);
      UncutExactly(detach, items[0], refs, depth, budget);
      if !first.cut {
        CopyExpands(detach, items[0], refs, depth, budget);
      }
      ItemsUncutExactly(detach, items[1..], refs, depth, first.left);
    }
  }

  lemma {:induction false} PairUncutExactly(detach: bool, p: YPair, refs: map<string, YNode>, depth: nat, budget: nat)
    requires depth <= 100
    ensures !CopyPair(detach, p, refs, depth, budget).cut <==>
            EndsInPair(p, refs, 100 - depth) && VisitsInPair(p, refs, 100 - depth) <= budget
    decreases HopsLeft(depth), p, 2
  {
    UncutExactly(detach, p.key, refs, depth, budget);
    var key := Copy(detach, p.key, refs, depth, budget);
    if !key.cut {
      CopyExpands(detach, p.key, refs, depth, budget);
    }
    UncutExactly(detach, p.val, refs, depth, key.left);
  }

  lemma {:induction false} PairsUncutExactly(detach: bool, pairs: seq<YPair>, refs: map<string, YNode>, depth: nat, budget: nat)
    requires depth <= 100
    ensures !CopyPairs(detach, pairs, refs, depth, budget).cut <==>
            EndsInPairs(pairs, refs, 100 - depth) && VisitsInPairs(pairs, refs, 100 - depth) <= budget
    decreases HopsLeft(depth), pairs, 0
  {
    if pairs != [] {
      var first := CopyPair(detach, pairs[0], refs, depth, budget);
      PairUncutExactly(detach, pairs[0], refs, depth, budget);
      if !first.cut {
        PairExpands(detach, pairs[0], refs, depth, budget);
      }
      PairsUncutExactly(detach, pairs[1..], refs, depth, first.left);
    }
  }

  // An uncut copy, detached or not, is the tree with its aliases followed, and costs what is
  // visited.
  lemma {:induction false} CopyExpands(detach: bool, n: YNode, refs: map<string, YNode>, depth: nat, budget: nat)
    requires !Copy(detach, n, refs, depth, budget).cut
    ensures depth <= 100
    ensures var c := Copy(detach, n, refs, depth, budget);
            Expands(detach, n, c.out, refs, 100 - depth) && budget == c.left + Visits(n, refs, 100 - depth)
    decreases HopsLeft(depth), n, 1
  {
    match n.kind
    case YAlias(name) =>
      if name in refs {
        CopyExpands(detach, refs[name], refs, depth + 1, budget - 1);
      }
    case YSequence(items) => ItemsExpand(detach, items, refs, depth, budget - 1);
    case YMapping(pairs) => PairsExpand(detach, pairs, refs, depth, budget - 1);
    case _ =>
  }

  lemma {:induction false} ItemsExpand(detach: bool, items: seq<YNode>, refs: map<string, YNode>, depth: nat, budget: nat)
    requires depth <= 100 && !CopyItems(detach, items, refs, depth, budget).cut
    ensures var c := CopyItems(detach, items, refs, depth, budget);
            ExpandsItems(detach, items, c.out, refs, 100 - depth) && budget == c.left + VisitsInItems(items, refs, 100 - depth)
    decreases HopsLeft(depth), items, 0
  {
    if items != [] {
      var first := Copy(detach, items[0], refs, depth, budget);
      CopyExpands(detach, items[0], refs, depth, budget);
      ItemsExpand(detach, items[1..], refs, depth, first.left);
      var rest := CopyItems(detach, items[1..], refs, depth, first.left).out;
      assert ([first.out] + rest)[1..] == rest;
    }
  }

  lemma {:induction false} PairExpands(detach: bool, p: YPair, refs: map<string, YNode>, depth: nat, budget: nat)
    requires depth <= 100 && !CopyPair(detach, p, refs, depth, budget).cut
    ensures var c := CopyPair(detach, p, refs, depth, budget);
            ExpandsPair(detach, p, c.out, refs, 100 - depth) && budget == c.left + VisitsInPair(p, refs, 100 - depth)
    decreases HopsLeft(depth), p, 2
  {
    CopyExpands(detach, p.key, refs, depth, budget);
    CopyExpands(detach, p.val, refs, depth, Copy(detach, p.key, refs, depth, budget).left);
  }

  lemma {:induction false} PairsExpand(detach: bool, pairs: seq<YPair>, refs: map<string, YNode>, depth: nat, budget: nat)
    requires depth <= 100 && !CopyPairs(detach, pairs, refs, depth, budget).cut
    ensures var c := CopyPairs(detach, pairs, refs, depth, budget);
            ExpandsPairs(detach, pairs, c.out, refs, 100 - depth) && budget == c.left + VisitsInPairs(pairs, refs, 100 - depth)
    decreases HopsLeft(depth), pairs, 0
  {
    if pairs != [] {
      var first := CopyPair(detach, pairs[0], refs, depth, budget);
      PairExpands(detach, pairs[0], refs, depth, budget);
      PairsExpand(detach, pairs[1..], refs, depth, first.left);
      var rest := CopyPairs(detach, pairs[1..], refs, depth, first.left).out;
      assert ([first.out] + rest)[1..] == rest;
    }
  }

  // ----- The anchors of a tree -----

  // `collect_anchor_refs`: the first node of each name, a node before its children.
  function Collect(n: YNode, refs: map<string, YNode>): map<string, YNode>
    decreases n, 1
  {
    var own := if n.anchor.Some? && n.anchor.value !in refs then refs[n.anchor.value := n] else refs;
    match n.kind
    case YSequence(items) => CollectItems(items, own)
    case YMapping(pairs) => CollectPairs(pairs, own)
    case _ => own
  }

  function CollectItems(items: seq<YNode>, refs: map<string, YNode>): map<string, YNode>
    decreases items, 0
  {
    if items == [] then refs else CollectItems(items[1..], Collect(items[0], refs))
  }

  function CollectPair(p: YPair, refs: map<string, YNode>): map<string, YNode>
    decreases p, 2
  {
    Collect(p.val, Collect(p.key, refs))
  }

  function CollectPairs(pairs: seq<YPair>, refs: map<string, YNode>): map<string, YNode>
    decreases pairs, 0
  {
    if pairs == [] then refs else CollectPairs(pairs[1..], CollectPair(pairs[0], refs))
  }

  // The nodes of a tree, a node before its children.
  function Preorder(n: YNode): (nodes: seq<YNode>)
    ensures nodes != []
    decreases n, 1
  {
    [n] + match n.kind
          case YSequence(items) => PreorderOfItems(items)
          case YMapping(pairs) => PreorderOfPairs(pairs)
          case _ => []
  }

  function PreorderOfItems(items: seq<YNode>): seq<YNode>
    decreases items, 0
  {
    if items == [] then [] else Preorder(items[0]) + PreorderOfItems(items[1..])
  }

  function PreorderOfPairs(pairs: seq<YPair>): seq<YNode>
    decreases pairs, 0
  {
    if pairs == [] then [] else PreorderOfPair(pairs[0]) + PreorderOfPairs(pairs[1..])
  }

  function PreorderOfPair(p: YPair): seq<YNode>
    decreases p, 2
  {
    Preorder(p.key) + Preorder(p.val)
  }

  // The first node that bears a name.
  function FirstNamed(nodes: seq<YNode>, name: string): Option<YNode> {
    if nodes == [] then None
    else if nodes[0].anchor == Some(name) then Some(nodes[0])
    else FirstNamed(nodes[1..], name)
  }

  function NodeOf(refs: map<string, YNode>, name: string): Option<YNode> {
    if name in refs then Some(refs[name]) else None
  }

  lemma {:induction false} FirstOfBoth(a: seq<YNode>, b: seq<YNode>, name: string)
    ensures FirstNamed(a + b, name) == if FirstNamed(a, name).Some? then FirstNamed(a, name) else FirstNamed(b, name)
  {
    if a == [] {
      assert a + b == b;
    } else {
      assert (a + b)[1..] == a[1..] + b;
      FirstOfBoth(a[1..], b, name);
    }
  }

  // Each name leads to the first of the nodes that bear it, in preorder; a name that was known
  // stays.
  lemma {:induction false} CollectsFirst(n: YNode, refs: map<string, YNode>, name: string)
    ensures NodeOf(Collect(n, refs), name) == if name in refs then Some(refs[name]) else FirstNamed(Preorder(n), name)
    decreases n, 1
  {
    var own := if n.anchor.Some? && n.anchor.value !in refs then refs[n.anchor.value := n] else refs;
    assert FirstNamed([n], name) == if n.anchor == Some(name) then Some(n) else None;
    match n.kind
    case YSequence(items) =>
      FirstOfBoth([n], PreorderOfItems(items), name);
      CollectsFirstOfItems(items, own, name);
    case YMapping(pairs) =>
      FirstOfBoth([n], PreorderOfPairs(pairs), name);
      CollectsFirstOfPairs(pairs, own, name);
    case _ => assert [n] + [] == [n];
  }

  lemma {:induction false} CollectsFirstOfItems(items: seq<YNode>, refs: map<string, YNode>, name: string)
    ensures NodeOf(CollectItems(items, refs), name) ==
            if name in refs then Some(refs[name]) else FirstNamed(PreorderOfItems(items), name)
    decreases items, 0
  {
    if items != [] {
      FirstOfBoth(Preorder(items[0]), PreorderOfItems(items[1..]), name);
      CollectsFirst(items[0], refs, name);
      CollectsFirstOfItems(items[1..], Collect(items[0], refs), name);
    }
  }

  lemma {:induction false} CollectsFirstOfPairs(pairs: seq<YPair>, refs: map<string, YNode>, name: string)
    ensures NodeOf(CollectPairs(pairs, refs), name) ==
            if name in refs then Some(refs[name]) else FirstNamed(PreorderOfPairs(pairs), name)
    decreases pairs, 0
  {
    if pairs != [] {
      FirstOfBoth(PreorderOfPair(pairs[0]), PreorderOfPairs(pairs[1..]), name);
      CollectsFirstOfPair(pairs[0], refs, name);
      CollectsFirstOfPairs(pairs[1..], CollectPair(pairs[0], refs), name);
    }
  }

  lemma {:induction false} CollectsFirstOfPair(p: YPair, refs: map<string, YNode>, name: string)
    ensures NodeOf(CollectPair(p, refs), name) ==
            if name in refs then Some(refs[name]) else FirstNamed(PreorderOfPair(p), name)
    decreases p, 2
  {
    FirstOfBoth(Preorder(p.key), Preorder(p.val), name);
    CollectsFirst(p.key, refs, name);
    CollectsFirst(p.val, Collect(p.key, refs), name);
  }

  method CollectAnchorRefs(n: YNode, refs: map<string, YNode>) returns (out: map<string, YNode>)
    ensures out == Collect(n, refs)
    decreases n, 1
  {
    out := refs;
    if n.anchor.Some? && n.anchor.value !in out {
      out := out[n.anchor.value := n];
    }
    if n.kind.YSequence? {
      out := CollectFromItems(n.kind.items, out);
    } else if n.kind.YMapping? {
      out := CollectFromPairs(n.kind.pairs, out);
    }
  }

  method CollectFromItems(items: seq<YNode>, refs: map<string, YNode>) returns (out: map<string, YNode>)
    ensures out == CollectItems(items, refs)
    decreases items, 0
  {
    out := refs;
    for i := 0 to |items|
      invariant CollectItems(items[i..], out) == CollectItems(items, refs)
    {
      assert items[i..][1..] == items[i + 1..];
      out := CollectAnchorRefs(items[i], out);
    }
  }

  method CollectFromPairs(pairs: seq<YPair>, refs: map<string, YNode>) returns (out: map<string, YNode>)
    ensures out == CollectPairs(pairs, refs)
    decreases pairs, 0
  {
    out := refs;
    for i := 0 to |pairs|
      invariant CollectPairs(pairs[i..], out) == CollectPairs(pairs, refs)
    {
      assert pairs[i..][1..] == pairs[i + 1..];
      out := CollectFromPair(pairs[i], out);
    }
  }

  method CollectFromPair(p: YPair, refs: map<string, YNode>) returns (out: map<string, YNode>)
    ensures out == CollectPair(p, refs)
    decreases p, 2
  {
    out := CollectAnchorRefs(p.key, refs);
    out := CollectAnchorRefs(p.val, out);
  }

  // ----- The copier -----

  // A copy in progress. Its budget is shared by everything that it copies.
  class Copier {
    const refs: map<string, YNode>
    const detach: bool
    var budget: nat

    constructor (refs: map<string, YNode>, detach: bool)
      ensures this.refs == refs && this.detach == detach && budget == MAX_ALIAS_NODES
    {
      this.refs, this.detach := refs, detach;
      budget := MAX_ALIAS_NODES;
    }

    // `expand_aliases` and `detached_clone_budgeted`.
    method CopyNode(n: YNode, depth: nat) returns (out: YNode)
      modifies this`budget
      ensures var c := Copy(detach, n, refs, depth, old(budget)); out == c.out && budget == c.left
      decreases HopsLeft(depth), n, 1
    {
      if depth > MAX_ALIAS_DEPTH || budget == 0 {
        return NULL_NODE;
      }
      budget := budget - 1;
      match n.kind {
        case YAlias(name) =>
          if name in refs {
            out := CopyNode(refs[name], depth + 1);
          } else {
            out := if detach then YNode(YNull, n.tag, None) else NULL_NODE;
          }
        case YSequence(items) =>
          var copies := CopyAllItems(items, depth);
          out := YNode(YSequence(copies), n.tag, None);
        case YMapping(pairs) =>
          var copies := CopyAllPairs(pairs, depth);
          out := YNode(YMapping(copies), n.tag, None);
        case _ =>
          out := if detach then n.(anchor := None) else n;
      }
    }

    method CopyAllItems(items: seq<YNode>, depth: nat) returns (out: seq<YNode>)
      modifies this`budget
      ensures var c := CopyItems(detach, items, refs, depth, old(budget)); out == c.out && budget == c.left
      decreases HopsLeft(depth), items, 0
    {
      out := [];
      ghost var whole := CopyItems(detach, items, refs, depth, budget);
      for i := 0 to |items|
        invariant var c := CopyItems(detach, items[i..], refs, depth, budget);
                  out + c.out == whole.out && c.left == whole.left
      {
        assert items[i..][1..] == items[i + 1..];
        var copy := CopyNode(items[i], depth);
        out := out + [copy];
      }
    }

    method CopyAllPairs(pairs: seq<YPair>, depth: nat) returns (out: seq<YPair>)
      modifies this`budget
      ensures var c := CopyPairs(detach, pairs, refs, depth, old(budget)); out == c.out && budget == c.left
      decreases HopsLeft(depth), pairs, 0
    {
      out := [];
      ghost var whole := CopyPairs(detach, pairs, refs, depth, budget);
      for i := 0 to |pairs|
        invariant var c := CopyPairs(detach, pairs[i..], refs, depth, budget);
                  out + c.out == whole.out && c.left == whole.left
      {
        assert pairs[i..][1..] == pairs[i + 1..];
        var copy := CopyOnePair(pairs[i], depth);
        out := out + [copy];
      }
    }

    method CopyOnePair(p: YPair, depth: nat) returns (out: YPair)
      modifies this`budget
      ensures var c := CopyPair(detach, p, refs, depth, old(budget)); out == c.out && budget == c.left
      decreases HopsLeft(depth), p, 2
    {
      var key := CopyNode(p.key, depth);
      var val := CopyNode(p.val, depth);
      out := YPair(key, val);
    }
  }

  // `detached_clone`: whatever the anchors, free of aliases and anchors and no larger than
  // the budget; and the tree with its aliases followed, if nothing is cut.
  method DetachedClone(n: YNode, refs: map<string, YNode>) returns (out: YNode)
    ensures out == Copy(true, n, refs, 0, MAX_ALIAS_NODES).out
    ensures AliasFree(out, true) && Weight(out) <= 1_000_000
    ensures Ends(n, refs, 100) && Visits(n, refs, 100) <= 1_000_000 ==> Expands(true, n, out, refs, 100)
  {
    var copier := new Copier(refs, true);
    out := copier.CopyNode(n, 0);
    CopyIsBounded(true, n, refs, 0, MAX_ALIAS_NODES);
    UncutExactly(true, n, refs, 0, MAX_ALIAS_NODES);
    if !Copy(true, n, refs, 0, MAX_ALIAS_NODES).cut {
      CopyExpands(true, n, refs, 0, MAX_ALIAS_NODES);
    }
  }

  // The copies of the named nodes, in an order, under one budget.
  function CopyNamed(names: seq<string>, refs: map<string, YNode>, budget: nat): (c: Copied<map<string, YNode>>)
    requires forall name <- names :: name in refs
    ensures c.left <= budget && c.out.Keys == set name | name in names
    decreases |names|
  {
    if names == [] then Copied(map[], budget, false)
    else
      var before := CopyNamed(names[..|names| - 1], refs, budget);
      var last := names[|names| - 1];
      assert names == names[..|names| - 1] + [last];
      var c := Copy(false, refs[last], refs, 0, before.left);
      Copied(before.out[last := c.out], c.left, before.cut || c.cut)
  }

  // The names not in `left` are copied.
  ghost predicate Expanding(refs: map<string, YNode>, order: seq<string>, left: set<string>, out: map<string, YNode>,
                            budget: nat) {
    && left <= refs.Keys && Distinct(order)
    && (forall name :: name in order <==> name in refs.Keys - left)
    && CopyNamed(order, refs, MAX_ALIAS_NODES).out == out
    && CopyNamed(order, refs, MAX_ALIAS_NODES).left == budget
  }

  lemma ExpandOne(refs: map<string, YNode>, order: seq<string>, left: set<string>, out: map<string, YNode>,
                  budget: nat, name: string)
    requires Expanding(refs, order, left, out, budget) && name in left
    ensures var c := Copy(false, refs[name], refs, 0, budget);
            Expanding(refs, order + [name], left - {name}, out[name := c.out], c.left)
  {
    assert (order + [name])[..|order|] == order;
    assert name !in order;
    assert forall i | 0 <= i < |order| :: order[i] in order;
  }

  // `build_anchor_map`: the anchors come in no particular order, but share one budget.
  method BuildAnchorMap(nodes: seq<YNode>) returns (out: map<string, YNode>, ghost order: seq<string>)
    ensures var refs := CollectItems(nodes, map[]);
            && (forall name <- order :: name in refs) && out.Keys == refs.Keys
            && out == CopyNamed(order, refs, MAX_ALIAS_NODES).out
    ensures Distinct(order) && WeightOf(out, order) <= MAX_ALIAS_NODES
    ensures forall name <- out :: AliasFree(out[name], false)
  {
    var refs := CollectFromItems(nodes, map[]);
    var copier := new Copier(refs, false);
    var left := refs.Keys;
    out, order := map[], [];
    while left != {}
      invariant copier.refs == refs && !copier.detach
      invariant Expanding(refs, order, left, out, copier.budget)
      decreases |left|
    {
      var name :| name in left;
      ExpandOne(refs, order, left, out, copier.budget, name);
      left := left - {name};
      order := order + [name];
      var copy := copier.CopyNode(refs[name], 0);
      out := out[name := copy];
    }
    NamedAreBounded(order, refs, MAX_ALIAS_NODES);
    NamedAreAliasFree(order, refs, MAX_ALIAS_NODES);
  }

  function WeightOf(out: map<string, YNode>, names: seq<string>): nat
    requires forall name <- names :: name in out
  {
    if names == [] then 0
    else WeightOf(out, names[..|names| - 1]) + Weight(out[names[|names| - 1]])
  }

  lemma {:induction false} WeightUnchanged(out: map<string, YNode>, names: seq<string>, name: string, n: YNode)
    requires (forall other <- names :: other in out) && name !in names
    ensures WeightOf(out[name := n], names) == WeightOf(out, names)
  {
    if names != [] {
      WeightUnchanged(out, names[..|names| - 1], name, n);
    }
  }

  lemma WeightOfOneMore(out: map<string, YNode>, names: seq<string>, name: string, n: YNode)
    requires (forall other <- names :: other in out) && name !in names
    ensures WeightOf(out[name := n], names + [name]) == WeightOf(out, names) + Weight(n)
  {
    WeightUnchanged(out, names, name, n);
    assert (names + [name])[..|names|] == names;
  }

  // Together the copies are no larger than the one budget.
  lemma {:induction false} NamedAreBounded(names: seq<string>, refs: map<string, YNode>, budget: nat)
    requires (forall name <- names :: name in refs) && Distinct(names)
    ensures var c := CopyNamed(names, refs, budget); WeightOf(c.out, names) <= budget - c.left
    decreases |names|
  {
    if names != [] {
      var init, last := names[..|names| - 1], names[|names| - 1];
      assert names == init + [last];
      NamedAreBounded(init, refs, budget);
      var before := CopyNamed(init, refs, budget);
      CopyIsBounded(false, refs[last], refs, 0, before.left);
      WeightOfOneMore(before.out, init, last, Copy(false, refs[last], refs, 0, before.left).out);
    }
  }

  // None of them holds an alias.
  lemma {:induction false} NamedAreAliasFree(names: seq<string>, refs: map<string, YNode>, budget: nat)
    requires forall name <- names :: name in refs
    ensures forall name <- CopyNamed(names, refs, budget).out :: AliasFree(CopyNamed(names, refs, budget).out[name], false)
    decreases |names|
  {
    if names != [] {
      var init, last := names[..|names| - 1], names[|names| - 1];
      assert names == init + [last];
      NamedAreAliasFree(init, refs, budget);
      CopyIsBounded(false, refs[last], refs, 0, CopyNamed(init, refs, budget).left);
    }
  }
}
