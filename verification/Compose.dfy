// What the round-trip composer computes (src/roundtrip/composer.rs), as functions of the
// events not yet read: the tree itself, with its aliases left in place.
module Compose {
  import opened Wrappers
  import opened Events
  import opened Decode
  import opened Syntax

  // What is left of the events, the anchors seen, and the outcome.
  datatype Made<+T> = Made(rest: seq<Event>, seen: set<string>, r: Result<T, Error>)

  function NodeOrNull(n: Option<YNode>): YNode { if n.Some? then n.value else NULL_NODE }

  // A finished node; only now is its anchor seen.
  function Finished(rest: seq<Event>, seen: set<string>, kind: YKind, tag: Option<string>, anchor: Option<string>)
    : Made<Option<YNode>>
  {
    Made(rest, if anchor.Some? then seen + {anchor.value} else seen, Ok(Some(YNode(kind, tag, anchor))))
  }

  // `compose_node`.
  function CNode(ev: seq<Event>, seen: set<string>, depth: nat, allow: bool): (o: Made<Option<YNode>>)
    ensures |o.rest| <= |ev|
    decreases |ev|, 3
  {
    if depth + 1 > MAX_DEPTH then Made(ev, seen, Err(TooDeep))
    else CInner(ev, seen, depth + 1, allow, None, None)
  }

  // `compose_node_inner`: tags and anchors first.
  function CInner(ev: seq<Event>, seen: set<string>, depth: nat, allow: bool, tag: Option<string>, anchor: Option<string>)
    : (o: Made<Option<YNode>>)
    ensures |o.rest| <= |ev|
    decreases |ev|, 2
  {
    if ev == [] then Made(ev, seen, Ok(None))
    else if ev[0].Tag? then CInner(ev[1..], seen, depth, allow, Some(ev[0].tag), anchor)
    else if ev[0].Anchor? then
      if anchor.Some? then Made(ev, seen, Err(TwoAnchors))
      else CInner(ev[1..], seen, depth, allow, tag, Some(ev[0].name))
    else CContent(ev, seen, depth, allow, tag, anchor)
  }

  function CContent(ev: seq<Event>, seen: set<string>, depth: nat, allow: bool, tag: Option<string>, anchor: Option<string>)
    : (o: Made<Option<YNode>>)
    requires ev != []
    ensures |o.rest| <= |ev|
    decreases |ev|, 1
  {
    var e := ev[0];
    if e.Scalar? then Finished(ev[1..], seen, YScalar(e.text, e.style), tag, anchor)
    else if e.MappingStart? then
      var o := CPairs(ev[1..], seen, depth, e.flow, []);
      match o.r
      case Err(x) => Made(o.rest, o.seen, Err(x))
      case Ok(pairs) => Finished(o.rest, o.seen, YMapping(pairs), tag, anchor)
    else if e.SequenceStart? then
      var o := CItems(ev[1..], seen, depth, e.flow, []);
      match o.r
      case Err(x) => Made(o.rest, o.seen, Err(x))
      case Ok(items) => Finished(o.rest, o.seen, YSequence(items), tag, anchor)
    else if e.Alias? then
      if anchor.Some? || tag.Some? then Made(ev, seen, Err(AliasWithProperties))
      else if e.name !in seen then Made(ev, seen, Err(UnknownAlias(e.name)))
      else Made(ev[1..], seen, Ok(Some(YNode(YAlias(e.name), None, None))))
    else if e.SequenceEntry? && allow then
      var o := CBlockItems(ev, seen, depth, []);
      match o.r
      case Err(x) => Made(o.rest, o.seen, Err(x))
      case Ok(items) => Finished(o.rest, o.seen, YSequence(items), tag, anchor)
    else if IsTerminator(e) then
      if tag.None? && anchor.None? then Made(ev, seen, Ok(None)) else Finished(ev, seen, YNull, tag, anchor)
    else CNode(ev[1..], seen, depth, allow)
  }

  // `compose_mapping`.
  function CPairs(ev: seq<Event>, seen: set<string>, depth: nat, flow: bool, acc: seq<YPair>): (o: Made<seq<YPair>>)
    ensures |o.rest| <= |ev|
    decreases |ev|, 7
  {
    if ev == [] then Made(ev, seen, Ok(acc))
    else if ev[0].MappingEnd? || ev[0].BlockEnd? then Made(ev[1..], seen, Ok(acc))
    else if IsStreamMark(ev[0]) then Made(ev, seen, Ok(acc))
    else if ev[0].FlowEntry? then CPairs(ev[1..], seen, depth, flow, acc)
    else
      var o := CEntry(ev, seen, depth, flow);
      match o.r
      case Err(x) => Made(o.rest, o.seen, Err(x))
      case Ok(p) =>
        if |o.rest| == |ev| then Made(o.rest, o.seen, Ok(acc + [p]))
        else CPairs(o.rest, o.seen, depth, flow, acc + [p])
  }

  function CEntry(ev: seq<Event>, seen: set<string>, depth: nat, flow: bool): (o: Made<YPair>)
    requires ev != []
    ensures |o.rest| <= |ev|
    decreases |ev|, 6
  {
    if ev[0].Key? then CKeyedPair(ev[1..], seen, depth, true) else CBarePair(ev, seen, depth, flow)
  }

  function CKeyedPair(ev: seq<Event>, seen: set<string>, depth: nat, allow: bool): (o: Made<YPair>)
    ensures |o.rest| <= |ev|
    decreases |ev|, 5
  {
    var k := CNode(ev, seen, depth, false);
    match k.r
    case Err(x) => Made(k.rest, k.seen, Err(x))
    case Ok(key) => CPairValue(SkipMark(k.rest), k.seen, depth, allow, NodeOrNull(key))
  }

  function CPairValue(ev: seq<Event>, seen: set<string>, depth: nat, allow: bool, key: YNode): (o: Made<YPair>)
    ensures |o.rest| <= |ev|
    decreases |ev|, 4
  {
    var v := CNode(ev, seen, depth, allow);
    match v.r
    case Err(x) => Made(v.rest, v.seen, Err(x))
    case Ok(val) => Made(v.rest, v.seen, Ok(YPair(key, NodeOrNull(val))))
  }

  function CBarePair(ev: seq<Event>, seen: set<string>, depth: nat, flow: bool): (o: Made<YPair>)
    requires ev != []
    ensures |o.rest| <= |ev|
    decreases |ev|, 5
  {
    if !flow && IsBlockCollection(ev) then Made(ev, seen, Err(BlockCollectionKey))
    else
      var k := CNode(ev, seen, depth, false);
      match k.r
      case Err(x) => Made(k.rest, k.seen, Err(x))
      case Ok(key) =>
        if k.rest != [] && k.rest[0].ValueMark? then CPairValue(k.rest[1..], k.seen, depth, true, NodeOrNull(key))
        else if !flow && ev[0].Scalar? then Made(k.rest, k.seen, Err(MissingColon))
        else Made(k.rest, k.seen, Ok(YPair(NodeOrNull(key), NULL_NODE)))
  }

  function WithNode(acc: seq<YNode>, item: Option<YNode>): seq<YNode> {
    if item.Some? then acc + [item.value] else acc
  }

  // `compose_sequence`: whether an item is a block entry goes by its marker.
  function CItems(ev: seq<Event>, seen: set<string>, depth: nat, flow: bool, acc: seq<YNode>): (o: Made<seq<YNode>>)
    ensures |o.rest| <= |ev|
    decreases |ev|, 6
  {
    if ev == [] then Made(ev, seen, Ok(acc))
    else if ev[0].SequenceEnd? || ev[0].BlockEnd? || ev[0].MappingEnd? then Made(ev[1..], seen, Ok(acc))
    else if IsStreamMark(ev[0]) then Made(ev, seen, Ok(acc))
    else if ev[0].SequenceEntry? || ev[0].FlowEntry? then
      var o := if ev[0].SequenceEntry? then CBlockEntry(ev[1..], seen, depth) else CItem(ev[1..], seen, depth, flow);
      match o.r
      case Err(x) => Made(o.rest, o.seen, Err(x))
      case Ok(item) => CItems(o.rest, o.seen, depth, flow, WithNode(acc, item))
    else
      var o := CItem(ev, seen, depth, flow);
      match o.r
      case Err(x) => Made(o.rest, o.seen, Err(x))
      case Ok(item) =>
        if item.None? || |o.rest| == |ev| then Made(o.rest, o.seen, Ok(WithNode(acc, item)))
        else CItems(o.rest, o.seen, depth, flow, WithNode(acc, item))
  }

  // `compose_sequence_item`.
  function CItem(ev: seq<Event>, seen: set<string>, depth: nat, flow: bool): (o: Made<Option<YNode>>)
    ensures |o.rest| <= |ev|
    decreases |ev|, 5
  {
    if flow && ev != [] && ev[0].Key? then CPairNode(CKeyedPair(ev[1..], seen, depth, false))
    else if flow && ev != [] && ev[0].ValueMark? then CPairNode(CPairValue(ev[1..], seen, depth, false, NULL_NODE))
    else
      var k := CNode(ev, seen, depth, false);
      if k.r.Ok? && k.r.value.Some? && flow && k.rest != [] && k.rest[0].ValueMark? then
        CPairNode(CPairValue(k.rest[1..], k.seen, depth, false, k.r.value.value))
      else k
  }

  function CPairNode(o: Made<YPair>): Made<Option<YNode>> {
    match o.r
    case Err(x) => Made(o.rest, o.seen, Err(x))
    case Ok(p) => Made(o.rest, o.seen, Ok(Some(YNode(YMapping([p]), None, None))))
  }

  // `compose_block_entry`.
  function CBlockEntry(ev: seq<Event>, seen: set<string>, depth: nat): (o: Made<Option<YNode>>)
    ensures |o.rest| <= |ev|
    decreases |ev|, 4
  {
    if ev != [] && EndsIndentlessItem(ev[0]) then Made(ev, seen, Ok(Some(NULL_NODE))) else CNode(ev, seen, depth, false)
  }

  // `compose_block_sequence`.
  function CBlockItems(ev: seq<Event>, seen: set<string>, depth: nat, acc: seq<YNode>): (o: Made<seq<YNode>>)
    ensures |o.rest| <= |ev|
    decreases |ev|, 0
  {
    if ev == [] then Made(ev, seen, Ok(acc))
    else if ev[0].SequenceEntry? then
      var o := CBlockEntry(ev[1..], seen, depth);
      match o.r
      case Err(x) => Made(o.rest, o.seen, Err(x))
      case Ok(item) => CBlockItems(o.rest, o.seen, depth, WithNode(acc, item))
    else if ev[0].MappingEnd? then Made(ev[1..], seen, Ok(acc))
    else Made(ev, seen, Ok(acc))
  }
}
