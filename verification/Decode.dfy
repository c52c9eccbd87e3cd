// What the decoder computes (src/decode/mod.rs), as functions of the events not yet read.
// The class `Decoder` refines them; every function is total on every event sequence, well
// formed or not, and never gives back more events than it was given.
module Decode {
  import opened Wrappers
  import opened Values
  import opened Events
  import Merge
  import T = Directives

  const FRESH := Memory(map[], 0, false)

  // What is left of the events, what is remembered, and the outcome.
  datatype Out<+T> = Out(rest: seq<Event>, mem: Memory, r: Result<T, Error>)

  predicate IsNodeStart(e: Event, allow: bool) {
    e.Scalar? || e.MappingStart? || e.SequenceStart? || e.Alias? || (allow && e.SequenceEntry?)
  }

  // Where an empty node ends.
  predicate IsTerminator(e: Event) {
    e in {SequenceEntry, FlowEntry, ValueMark, StreamEnd, DocumentEnd, DocumentStart, SequenceEnd, MappingEnd, BlockEnd}
    || e.Key?
  }

  // A finished node, bound to its anchor.
  function Bind(rest: seq<Event>, m: Memory, anchor: Option<string>, v: Value): Out<Option<Value>> {
    Out(rest, Remember(m, anchor, v), Ok(Some(v)))
  }

  function Remember(m: Memory, anchor: Option<string>, v: Value): Memory {
    if anchor.Some? then m.(anchors := m.anchors[anchor.value := Bound(v, CountNodes(v))]) else m
  }

  function NoteMerge(m: Memory, merges: bool): Memory { m.(sawMerge := m.sawMerge || merges) }

  const USIZE_MAX: nat := 0xffff_ffff_ffff_ffff

  // `charge_nodes`, a saturating sum.
  function Charged(m: Memory, count: nat): Memory {
    m.(nodes := if m.nodes + count > USIZE_MAX then USIZE_MAX else m.nodes + count)
  }

  function OrNull(v: Option<Value>): Value { if v.Some? then v.value else Null }

  // `decode_node`.
  function Node(sc: Scope, ev: seq<Event>, m: Memory, depth: nat, allow: bool): (o: Out<Option<Value>>)
    ensures |o.rest| <= |ev|
    decreases |ev|, 3
  {
    if depth + 1 > MAX_DEPTH then Out(ev, m, Err(TooDeep))
    else Inner(sc, ev, m, depth + 1, allow, None, None)
  }

  // `decode_node_inner`: tags and anchors first.
  function Inner(sc: Scope, ev: seq<Event>, m: Memory, depth: nat, allow: bool,
                 tag: Option<string>, anchor: Option<string>): (o: Out<Option<Value>>)
    ensures |o.rest| <= |ev|
    decreases |ev|, 2
  {
    if ev == [] then Out(ev, m, Ok(None))
    else
      match ev[0]
      case Tag(t) =>
        if HandleUndefined(sc.handles, t) then Out(ev, m, Err(UndefinedHandle))
        else Inner(sc, ev[1..], m, depth, allow, Some(ExpandTag(sc.handles, t)), anchor)
      case Anchor(name) =>
        if anchor.Some? then Out(ev, m, Err(TwoAnchors))
        else Inner(sc, ev[1..], m, depth, allow, tag, Some(name))
      case _ => Content(sc, ev, m, depth, allow, tag, anchor)
  }

  // The node itself, after its properties.
  function Content(sc: Scope, ev: seq<Event>, m: Memory, depth: nat, allow: bool,
                   tag: Option<string>, anchor: Option<string>): (o: Out<Option<Value>>)
    requires ev != []
    ensures |o.rest| <= |ev|
    decreases |ev|, 1
  {
    var e := ev[0];
    if tag.Some? && !IsNodeStart(e, allow) then
      var r := EmptyValue(sc.config, tag.value);
      Bind(ev, NoteMerge(m, r.merges), anchor, WithTag(tag, r.value))
    else if e.Scalar? then
      var r := ScalarValue(sc.config, e.text, e.style, tag);
      Bind(ev[1..], NoteMerge(m, r.merges), anchor, WithTag(tag, r.value))
    else if e.MappingStart? then
      var o := Pairs(sc, ev[1..], m, depth, e.flow, [], {});
      match o.r
      case Err(e) => Out(o.rest, o.mem, Err(e))
      case Ok(pairs) => Bind(o.rest, o.mem, anchor, WithTag(tag, Mapping(pairs)))
    else if e.SequenceStart? then
      var o := Items(sc, ev[1..], m, depth, e.flow, []);
      match o.r
      case Err(e) => Out(o.rest, o.mem, Err(e))
      case Ok(items) => Bind(o.rest, o.mem, anchor, WithTag(tag, Sequence(items)))
    else if e.Alias? then
      if anchor.Some? || tag.Some? then Out(ev, m, Err(AliasWithProperties)) else Lookup(ev[1..], m, e.name)
    else if e.SequenceEntry? && allow then
      var o := BlockItems(sc, ev, m, depth, []);
      match o.r
      case Err(e) => Out(o.rest, o.mem, Err(e))
      case Ok(items) => Bind(o.rest, o.mem, anchor, Sequence(items))
    else if IsTerminator(e) then
      if anchor.Some? then Out(ev, m.(anchors := m.anchors[anchor.value := Bound(Null, 1)]), Ok(Some(Null)))
      else Out(ev, m, Ok(None))
    else Node(sc, ev[1..], m, depth, allow)
  }

  // An alias: its anchor's value, charged before it is copied.
  function Lookup(rest: seq<Event>, m: Memory, name: string): Out<Option<Value>> {
    if name !in m.anchors then Out(rest, m, Err(UnknownAlias(name)))
    else
      var charged := Charged(m, m.anchors[name].size);
      if charged.nodes > MAX_NODES then Out(rest, charged, Err(TooManyNodes))
      else Out(rest, charged, Ok(Some(m.anchors[name].value)))
  }

  // ----- Mappings -----

  // `reject_complex_key`.
  predicate IsRefused(c: Config, key: Value) { c.rejectComplexKeys && (key.Mapping? || key.Sequence?) }

  // That, and `check_duplicate_key`: the signatures seen, with this one.
  function CheckKey(c: Config, seen: set<string>, key: Value): Result<set<string>, Error> {
    if IsRefused(c, key) then Err(ComplexKey)
    else if !c.duplicateKeysError || Merge.IsMergeKey(key) then Ok(seen)
    else if c.signature(key) in seen then Err(DuplicateKey)
    else Ok(seen + {c.signature(key)})
  }

  // A `:` is skipped if it comes next.
  function SkipMark(ev: seq<Event>): (rest: seq<Event>)
    ensures |rest| <= |ev|
  {
    if ev != [] && ev[0].ValueMark? then ev[1..] else ev
  }

  predicate IsStreamMark(e: Event) { e in {StreamEnd, DocumentEnd, DocumentStart} }

  // `decode_mapping`.
  function Pairs(sc: Scope, ev: seq<Event>, m: Memory, depth: nat, flow: bool,
                 acc: seq<Pair>, seen: set<string>): (o: Out<seq<Pair>>)
    ensures |o.rest| <= |ev|
    decreases |ev|, 7
  {
    if ev == [] then Out(ev, m, Ok(acc))
    else if ev[0].MappingEnd? || ev[0].BlockEnd? then Out(ev[1..], m, Ok(acc))
    else if IsStreamMark(ev[0]) then Out(ev, m, Ok(acc))
    else if ev[0].FlowEntry? then Pairs(sc, ev[1..], m, depth, flow, acc, seen)
    else
      var o := Entry(sc, ev, m, depth, flow);
      match o.r
      case Err(e) => Out(o.rest, o.mem, Err(e))
      case Ok(p) =>
        var checked := CheckKey(sc.config, seen, p.key);
        match checked
        case Err(e) => Out(o.rest, o.mem, Err(e))
        case Ok(now) =>
          if |o.rest| == |ev| then Out(o.rest, o.mem, Ok(acc + [p]))
          else Pairs(sc, o.rest, o.mem, depth, flow, acc + [p], now)
  }

  function Entry(sc: Scope, ev: seq<Event>, m: Memory, depth: nat, flow: bool): (o: Out<Pair>)
    requires ev != []
    ensures |o.rest| <= |ev|
    decreases |ev|, 6
  {
    if ev[0].Key? then KeyedPair(sc, ev[1..], m, depth, true) else BarePair(sc, ev, m, depth, flow)
  }

  // A pair after its `Key` marker. Only a mapping's value may be an indentless sequence.
  function KeyedPair(sc: Scope, ev: seq<Event>, m: Memory, depth: nat, allow: bool): (o: Out<Pair>)
    ensures |o.rest| <= |ev|
    decreases |ev|, 5
  {
    var k := Node(sc, ev, m, depth, false);
    match k.r
    case Err(e) => Out(k.rest, k.mem, Err(e))
    case Ok(key) => PairValue(sc, SkipMark(k.rest), k.mem, depth, allow, OrNull(key))
  }

  // The value of a pair whose key is known.
  function PairValue(sc: Scope, ev: seq<Event>, m: Memory, depth: nat, allow: bool, key: Value): (o: Out<Pair>)
    ensures |o.rest| <= |ev|
    decreases |ev|, 4
  {
    var v := Node(sc, ev, m, depth, allow);
    match v.r
    case Err(e) => Out(v.rest, v.mem, Err(e))
    case Ok(val) => Out(v.rest, v.mem, Ok(Pair(key, OrNull(val))))
  }

  // `block_collection_key_span`: a block collection where a key should be.
  predicate IsBlockCollection(ev: seq<Event>) {
    if ev == [] then false
    else if ev[0].Anchor? || ev[0].Tag? then IsBlockCollection(ev[1..])
    else ev[0] in {MappingStart(false), SequenceStart(false), SequenceEntry}
  }

  // A pair with no `Key` marker. Without a `:` its value is null.
  function BarePair(sc: Scope, ev: seq<Event>, m: Memory, depth: nat, flow: bool): (o: Out<Pair>)
    requires ev != []
    ensures |o.rest| <= |ev|
    decreases |ev|, 5
  {
    if !flow && IsBlockCollection(ev) then Out(ev, m, Err(BlockCollectionKey))
    else
      var k := Node(sc, ev, m, depth, false);
      match k.r
      case Err(e) => Out(k.rest, k.mem, Err(e))
      case Ok(key) =>
        if k.rest != [] && k.rest[0].ValueMark? then PairValue(sc, k.rest[1..], k.mem, depth, true, OrNull(key))
        else if !flow && ev[0].Scalar? then Out(k.rest, k.mem, Err(MissingColon))
        else Out(k.rest, k.mem, Ok(Pair(OrNull(key), Null)))
  }

  // ----- Sequences -----

  // `decode_sequence`.
  function Items(sc: Scope, ev: seq<Event>, m: Memory, depth: nat, flow: bool, acc: seq<Value>): (o: Out<seq<Value>>)
    ensures |o.rest| <= |ev|
    decreases |ev|, 6
  {
    if ev == [] then Out(ev, m, Ok(acc))
    else if ev[0].SequenceEnd? || ev[0].BlockEnd? || ev[0].MappingEnd? then Out(ev[1..], m, Ok(acc))
    else if IsStreamMark(ev[0]) then Out(ev, m, Ok(acc))
    else if ev[0].SequenceEntry? || ev[0].FlowEntry? then
      var o := Item(sc, ev[1..], m, depth, flow);
      match o.r
      case Err(e) => Out(o.rest, o.mem, Err(e))
      case Ok(item) => Items(sc, o.rest, o.mem, depth, flow, WithItem(acc, item))
    else
      var o := Item(sc, ev, m, depth, flow);
      match o.r
      case Err(e) => Out(o.rest, o.mem, Err(e))
      case Ok(item) =>
        if item.None? || |o.rest| == |ev| then Out(o.rest, o.mem, Ok(WithItem(acc, item)))
        else Items(sc, o.rest, o.mem, depth, flow, WithItem(acc, item))
  }

  function WithItem(acc: seq<Value>, item: Option<Value>): seq<Value> {
    if item.Some? then acc + [item.value] else acc
  }

  predicate EndsBlockItem(e: Event) { e in {SequenceEntry, SequenceEnd, MappingEnd, BlockEnd} }

  // `decode_sequence_item`: in a flow sequence `a: b` is a mapping of one pair.
  function Item(sc: Scope, ev: seq<Event>, m: Memory, depth: nat, flow: bool): (o: Out<Option<Value>>)
    ensures |o.rest| <= |ev|
    decreases |ev|, 5
  {
    if !flow && ev != [] && EndsBlockItem(ev[0]) then Out(ev, m, Ok(Some(Null)))
    else if flow && ev != [] && ev[0].Key? then OnePair(sc.config, KeyedPair(sc, ev[1..], m, depth, false))
    else if flow && ev != [] && ev[0].ValueMark? then
      OnePair(sc.config, PairValue(sc, ev[1..], m, depth, false, Null))
    else
      var k := Node(sc, ev, m, depth, false);
      if k.r.Ok? && k.r.value.Some? && flow && k.rest != [] && k.rest[0].ValueMark? then
        OnePair(sc.config, PairValue(sc, k.rest[1..], k.mem, depth, false, k.r.value.value))
      else k
  }

  // A pair as an item. Its key may not be a collection where those are refused.
  function OnePair(c: Config, o: Out<Pair>): Out<Option<Value>> {
    match o.r
    case Err(e) => Out(o.rest, o.mem, Err(e))
    case Ok(p) =>
      if IsRefused(c, p.key) then Out(o.rest, o.mem, Err(ComplexKey))
      else Out(o.rest, o.mem, Ok(Some(Mapping([p]))))
  }

  predicate EndsIndentlessItem(e: Event) { EndsBlockItem(e) || e.Key? }

  // `decode_block_sequence`: a sequence at its key's own indent, with no start or end.
  function BlockItems(sc: Scope, ev: seq<Event>, m: Memory, depth: nat, acc: seq<Value>): (o: Out<seq<Value>>)
    ensures |o.rest| <= |ev|
    decreases |ev|, 0
  {
    if ev == [] then Out(ev, m, Ok(acc))
    else if ev[0].SequenceEntry? then
      if |ev| > 1 && EndsIndentlessItem(ev[1]) then BlockItems(sc, ev[1..], m, depth, acc + [Null])
      else
        var o := Node(sc, ev[1..], m, depth, false);
        match o.r
        case Err(e) => Out(o.rest, o.mem, Err(e))
        case Ok(item) => BlockItems(sc, o.rest, o.mem, depth, WithItem(acc, item))
    else if ev[0].MappingEnd? then Out(ev[1..], m, Ok(acc))
    else Out(ev, m, Ok(acc))
  }

  // ----- The stream -----

  // A run of directives: the handles declared, and what follows the run.
  datatype Run = Run(rest: seq<Event>, handles: map<string, string>, r: Result<(), Error>)

  function Directives(ev: seq<Event>, handles: map<string, string>, seenYaml: bool): (run: Run)
    ensures |run.rest| <= |ev| && (ev != [] && ev[0].Directive? && run.r.Ok? ==> |run.rest| < |ev|)
    decreases |ev|
  {
    if ev == [] || !ev[0].Directive? then Run(ev, handles, Ok(()))
    else
      match T.KindOf(ev[0].text)
      case YamlVersion(valid) =>
        if !valid || seenYaml then Run(ev, handles, Err(BadDirective))
        else Directives(ev[1..], handles, true)
      case TagPrefix(handle, prefix) =>
        if handle in handles then Run(ev, handles, Err(BadDirective))
        else Directives(ev[1..], handles[handle := prefix], seenYaml)
      case OtherDirective => Directives(ev[1..], handles, seenYaml)
  }

  // One directive of a run.
  lemma DirectiveRead(ev: seq<Event>, handles: map<string, string>, seenYaml: bool)
    requires ev != [] && ev[0].Directive?
    ensures var kind, run := T.KindOf(ev[0].text), Directives(ev, handles, seenYaml);
            if kind.YamlVersion? then
              run == if !kind.valid || seenYaml then Run(ev, handles, Err(BadDirective)) else Directives(ev[1..], handles, true)
            else if kind.TagPrefix? then
              run == if kind.handle in handles then Run(ev, handles, Err(BadDirective))
                     else Directives(ev[1..], handles[kind.handle := kind.prefix], seenYaml)
            else run == Directives(ev[1..], handles, seenYaml)
  {
  }

  lemma NoDirectives(ev: seq<Event>, handles: map<string, string>, seenYaml: bool)
    requires ev == [] || !ev[0].Directive?
    ensures Directives(ev, handles, seenYaml) == Run(ev, handles, Ok(()))
  {
  }

  // `expect_document_boundary`.
  predicate AtBoundary(ev: seq<Event>) {
    ev == [] || ev[0].StreamEnd? || ev[0].DocumentStart? || ev[0].DocumentEnd? || ev[0].Directive?
  }

  // Anchors and handles end with their document.
  function Forget(m: Memory): Memory { m.(anchors := map[]) }

  // What a document with a `---` adds to the stream.
  lemma ExplicitRead(c: Config, handles: map<string, string>, ev: seq<Event>, m: Memory, directives: bool, acc: seq<Value>)
    requires ev != [] && ev[0].DocumentStart?
    ensures var o := Node(Scope(c, handles), ev[1..], m, 0, false);
            Documents(c, handles, ev, m, directives, acc) ==
              if o.r.Err? then Out(o.rest, o.mem, Err(o.r.error))
              else if !AtBoundary(o.rest) then Out(o.rest, o.mem, Err(TrailingContent))
              else
                var ended := o.rest != [] && o.rest[0].DocumentEnd?;
                Documents(c, map[], if ended then o.rest[1..] else o.rest, Forget(o.mem), ended, acc + [OrNull(o.r.value)])
  {
    hide Node;
  }

  // And one without.
  lemma ImplicitRead(c: Config, handles: map<string, string>, ev: seq<Event>, m: Memory, directives: bool, acc: seq<Value>)
    requires ev != [] && !(ev[0] in {StreamStart, StreamEnd, DocumentEnd, DocumentStart} || ev[0].Directive?)
    ensures var o := Node(Scope(c, handles), ev, m, 0, false);
            Documents(c, handles, ev, m, directives, acc) ==
              if o.r.Err? then Out(o.rest, o.mem, Err(o.r.error))
              else if o.r.value.Some? && !AtBoundary(o.rest) then Out(o.rest, o.mem, Err(TrailingContent))
              else
                Documents(c, map[], if |o.rest| == |ev| then o.rest[1..] else o.rest, Forget(o.mem), false,
                          if o.r.value.Some? then acc + [o.r.value.value] else acc)
  {
    hide Node;
  }

  // `decode_stream`.
  function Documents(c: Config, handles: map<string, string>, ev: seq<Event>, m: Memory, directives: bool,
                     acc: seq<Value>): (o: Out<seq<Value>>)
    ensures |o.rest| <= |ev|
    decreases |ev|
  {
    if ev == [] then Out(ev, m, Ok(acc))
    else if ev[0].StreamStart? || ev[0].StreamEnd? then Documents(c, handles, ev[1..], m, directives, acc)
    else if ev[0].DocumentEnd? then Documents(c, handles, ev[1..], m, true, acc)
    else if ev[0].DocumentStart? then
      var o := Node(Scope(c, handles), ev[1..], m, 0, false);
      match o.r
      case Err(e) => Out(o.rest, o.mem, Err(e))
      case Ok(root) =>
        if !AtBoundary(o.rest) then Out(o.rest, o.mem, Err(TrailingContent))
        else if o.rest != [] && o.rest[0].DocumentEnd? then
          Documents(c, map[], o.rest[1..], Forget(o.mem), true, acc + [OrNull(root)])
        else Documents(c, map[], o.rest, Forget(o.mem), false, acc + [OrNull(root)])
    else if ev[0].Directive? then
      if !directives then Out(ev, m, Err(BadDirective))
      else
        var run := Directives(ev, handles, false);
        match run.r
        case Err(e) => Out(run.rest, m, Err(e))
        case Ok(_) =>
          if run.rest == [] || !run.rest[0].DocumentStart? then Out(run.rest, m, Err(BadDirective))
          else Documents(c, run.handles, run.rest, m, directives, acc)
    else
      var o := Node(Scope(c, handles), ev, m, 0, false);
      match o.r
      case Err(e) => Out(o.rest, o.mem, Err(e))
      case Ok(root) =>
        if root.Some? && !AtBoundary(o.rest) then Out(o.rest, o.mem, Err(TrailingContent))
        else
          Documents(c, map[], if |o.rest| == |ev| then o.rest[1..] else o.rest, Forget(o.mem), false,
                    if root.Some? then acc + [root.value] else acc)
  }
}
