// The decoder itself (src/decode/mod.rs): a cursor over the events that moves scalar text
// out as it goes. Every method computes the function of `Decode` that bears its name, on
// the events not yet read, and gives the depth back on success and on error alike.
module Decoder {
  import opened Wrappers
  import opened Values
  import opened Events
  import D = Decode
  import T = Directives

  class Decoder {
    const config: Config
    var events: seq<Event>
    var pos: nat
    var depth: nat
    var nodes: nat
    var anchors: map<string, Bound>
    var handles: map<string, string>
    var sawMerge: bool

    constructor (config: Config, events: seq<Event>)
      ensures this.config == config && Valid() && Unread() == events && Mem() == D.FRESH
      ensures depth == 0 && handles == map[]
    {
      this.config := config;
      this.events := events;
      pos, depth, nodes := 0, 0, 0;
      anchors, handles, sawMerge := map[], map[], false;
    }

    ghost predicate Valid()
      reads this
    {
      pos <= |events|
    }

    ghost function Unread(): (u: seq<Event>)
      requires Valid()
      reads this
      ensures |u| == |events| - pos
      ensures pos < |events| ==> u[0] == events[pos] && u[1..] == events[pos + 1..]
    {
      events[pos..]
    }

    ghost function Mem(): Memory
      reads this
    {
      Memory(anchors, nodes, sawMerge)
    }

    ghost function Here(): Scope
      reads this
    {
      Scope(config, handles)
    }

    // The position has not moved back, nor past the end, and the depth is what it was.
    twostate predicate Advanced()
      reads this
    {
      && Valid()
      && |events| == old(|events|) && old(pos) <= pos
      && depth == old(depth) && handles == old(handles)
    }

    // `take_scalar`: the text leaves its event, which is not read again.
    method TakeScalar() returns (text: string)
      requires pos < |events| && events[pos].Scalar?
      modifies this`events, this`pos
      ensures Advanced() && pos == old(pos) + 1
      ensures text == old(events[pos].text) && Unread() == old(Unread())[1..]
    {
      text := events[pos].text;
      events := events[pos := Scalar("", events[pos].style)];
      pos := pos + 1;
      assert events[pos..] == old(events)[pos..];
    }

    // Binds a finished node to its anchor.
    method BindAnchor(anchor: Option<string>, v: Value)
      modifies this`anchors
      ensures Mem() == D.Remember(old(Mem()), anchor, v)
    {
      if anchor.Some? {
        anchors := anchors[anchor.value := Bound(v, CountNodes(v))];
      }
    }

    // `charge_nodes`.
    method ChargeNodes(count: nat) returns (ok: bool)
      modifies this`nodes
      ensures Mem() == D.Charged(old(Mem()), count) && (ok <==> nodes <= MAX_NODES)
    {
      nodes := if nodes + count > D.USIZE_MAX then D.USIZE_MAX else nodes + count;
      ok := nodes <= MAX_NODES;
    }

    method DecodeNode(allow: bool) returns (r: Result<Option<Value>, Error>)
      requires Valid()
      modifies this
      ensures Advanced()
      ensures D.Out(Unread(), Mem(), r) == old(D.Node(Here(), Unread(), Mem(), depth, allow))
      decreases |events| - pos, 4
    {
      depth := depth + 1;
      if depth > MAX_DEPTH {
        depth := depth - 1;
        return Err(TooDeep);
      }
      r := DecodeNodeInner(allow);
      depth := depth - 1;
    }

    method DecodeNodeInner(allow: bool) returns (r: Result<Option<Value>, Error>)
      requires Valid()
      modifies this
      ensures Advanced()
      ensures D.Out(Unread(), Mem(), r) == old(D.Inner(Here(), Unread(), Mem(), depth, allow, None, None))
      decreases |events| - pos, 3
    {
      hide D.Content;
      ghost var goal := D.Inner(Here(), Unread(), Mem(), depth, allow, None, None);
      var tag: Option<string>, anchor: Option<string> := None, None;
      while pos < |events| && (events[pos].Tag? || events[pos].Anchor?)
        invariant Advanced() && Mem() == old(Mem())
        invariant D.Inner(Here(), Unread(), Mem(), depth, allow, tag, anchor) == goal
        decreases |events| - pos
      {
        if events[pos].Tag? {
          var t := events[pos].tag;
          if HandleUndefined(handles, t) {
            return Err(UndefinedHandle);
          }
          tag := Some(ExpandTag(handles, t));
        } else {
          if anchor.Some? {
            return Err(TwoAnchors);
          }
          anchor := Some(events[pos].name);
        }
        pos := pos + 1;
      }
      if pos == |events| {
        return Ok(None);
      }
      r := DecodeContent(allow, tag, anchor);
    }

    method DecodeContent(allow: bool, tag: Option<string>, anchor: Option<string>)
      returns (r: Result<Option<Value>, Error>)
      requires pos < |events|
      modifies this
      ensures Advanced()
      ensures D.Out(Unread(), Mem(), r) == old(D.Content(Here(), Unread(), Mem(), depth, allow, tag, anchor))
      decreases |events| - pos, 2
    {
      hide D.Node, D.Pairs, D.Items, D.BlockItems;
      var e := events[pos];
      if tag.Some? && !D.IsNodeStart(e, allow) {
        r := DecodeEmpty(tag.value, anchor);
      } else if e.Scalar? {
        r := DecodeScalar(tag, anchor);
      } else if e.MappingStart? {
        r := DecodeMappingNode(allow, tag, anchor);
      } else if e.SequenceStart? {
        r := DecodeSequenceNode(allow, tag, anchor);
      } else if e.SequenceEntry? && allow {
        r := DecodeIndentless(tag, anchor);
      } else if e.Alias? {
        if anchor.Some? || tag.Some? {
          return Err(AliasWithProperties);
        }
        r := DecodeAlias();
      } else if D.IsTerminator(e) {
        r := DecodeNothing(anchor);
      } else {
        pos := pos + 1;
        r := DecodeNode(allow);
      }
    }

    // The size is charged before the value is copied.
    method DecodeAlias() returns (r: Result<Option<Value>, Error>)
      requires pos < |events| && events[pos].Alias?
      modifies this`pos, this`nodes
      ensures Advanced()
      ensures D.Out(Unread(), Mem(), r) == D.Lookup(old(Unread())[1..], old(Mem()), old(events[pos].name))
    {
      var name := events[pos].name;
      pos := pos + 1;
      if name !in anchors {
        return Err(UnknownAlias(name));
      }
      var ok := ChargeNodes(anchors[name].size);
      if !ok {
        return Err(TooManyNodes);
      }
      r := Ok(Some(anchors[name].value));
    }

    // An empty node, which exists only if an anchor marks it.
    method DecodeNothing(anchor: Option<string>) returns (r: Result<Option<Value>, Error>)
      requires Valid()
      modifies this`anchors
      ensures D.Out(Unread(), Mem(), r) ==
              if anchor.Some? then
                D.Out(old(Unread()), old(Mem()).(anchors := old(anchors)[anchor.value := Bound(Null, 1)]), Ok(Some(Null)))
              else D.Out(old(Unread()), old(Mem()), Ok(None))
    {
      if anchor.Some? {
        anchors := anchors[anchor.value := Bound(Null, 1)];
        return Ok(Some(Null));
      }
      r := Ok(None);
    }

    // A tag whose node is empty. What ends the node stays unread.
    method DecodeEmpty(tag: string, anchor: Option<string>) returns (r: Result<Option<Value>, Error>)
      requires Valid()
      modifies this`sawMerge, this`anchors
      ensures var e := EmptyValue(config, tag);
              D.Out(Unread(), Mem(), r) ==
                D.Bind(old(Unread()), D.NoteMerge(old(Mem()), e.merges), anchor, WithTag(Some(tag), e.value))
    {
      var e := EmptyValue(config, tag);
      if e.merges {
        sawMerge := true;
      }
      BindAnchor(anchor, WithTag(Some(tag), e.value));
      r := Ok(Some(WithTag(Some(tag), e.value)));
    }

    method DecodeScalar(tag: Option<string>, anchor: Option<string>) returns (r: Result<Option<Value>, Error>)
      requires pos < |events| && events[pos].Scalar?
      modifies this
      ensures Advanced()
      ensures var s := ScalarValue(config, old(events[pos].text), old(events[pos].style), tag);
              D.Out(Unread(), Mem(), r) ==
                D.Bind(old(Unread())[1..], D.NoteMerge(old(Mem()), s.merges), anchor, WithTag(tag, s.value))
    {
      var style := events[pos].style;
      var text := TakeScalar();
      var s := ScalarValue(config, text, style, tag);
      if s.merges {
        sawMerge := true;
      }
      BindAnchor(anchor, WithTag(tag, s.value));
      r := Ok(Some(WithTag(tag, s.value)));
    }

    method DecodeMappingNode(allow: bool, tag: Option<string>, anchor: Option<string>)
      returns (r: Result<Option<Value>, Error>)
      requires pos < |events| && events[pos].MappingStart?
      modifies this
      ensures Advanced()
      ensures D.Out(Unread(), Mem(), r) == old(D.Content(Here(), Unread(), Mem(), depth, allow, tag, anchor))
      decreases |events| - pos, 1
    {
      var flow := events[pos].flow;
      pos := pos + 1;
      var pairs := DecodeMapping(flow);
      if pairs.Err? {
        return Err(pairs.error);
      }
      BindAnchor(anchor, WithTag(tag, Mapping(pairs.value)));
      r := Ok(Some(WithTag(tag, Mapping(pairs.value))));
    }

    method DecodeSequenceNode(allow: bool, tag: Option<string>, anchor: Option<string>)
      returns (r: Result<Option<Value>, Error>)
      requires pos < |events| && events[pos].SequenceStart?
      modifies this
      ensures Advanced()
      ensures D.Out(Unread(), Mem(), r) == old(D.Content(Here(), Unread(), Mem(), depth, allow, tag, anchor))
      decreases |events| - pos, 1
    {
      var flow := events[pos].flow;
      pos := pos + 1;
      var items := DecodeSequence(flow);
      if items.Err? {
        return Err(items.error);
      }
      BindAnchor(anchor, WithTag(tag, Sequence(items.value)));
      r := Ok(Some(WithTag(tag, Sequence(items.value))));
    }

    // A block sequence at its key's own indent. Its tag, if any, is dropped.
    method DecodeIndentless(tag: Option<string>, anchor: Option<string>) returns (r: Result<Option<Value>, Error>)
      requires pos < |events| && events[pos].SequenceEntry?
      modifies this
      ensures Advanced()
      ensures D.Out(Unread(), Mem(), r) == old(D.Content(Here(), Unread(), Mem(), depth, true, tag, anchor))
      decreases |events| - pos, 1
    {
      var items := DecodeBlockSequence();
      if items.Err? {
        return Err(items.error);
      }
      BindAnchor(anchor, Sequence(items.value));
      r := Ok(Some(Sequence(items.value)));
    }

    method DecodeMapping(flow: bool) returns (r: Result<seq<Pair>, Error>)
      requires Valid()
      modifies this
      ensures Advanced()
      ensures D.Out(Unread(), Mem(), r) == old(D.Pairs(Here(), Unread(), Mem(), depth, flow, [], {}))
      decreases |events| - pos, 8
    {
      hide D.Entry, D.CheckKey;
      ghost var goal := D.Pairs(Here(), Unread(), Mem(), depth, flow, [], {});
      var pairs: seq<Pair>, seen: set<string> := [], {};
      while pos < |events|
        invariant Advanced()
        invariant D.Pairs(Here(), Unread(), Mem(), depth, flow, pairs, seen) == goal
        decreases |events| - pos
      {
        var e := events[pos];
        if e.MappingEnd? || e.BlockEnd? {
          pos := pos + 1;
          return Ok(pairs);
        } else if D.IsStreamMark(e) {
          return Ok(pairs);
        } else if e.FlowEntry? {
          pos := pos + 1;
        } else {
          var start := pos;
          var pair := DecodeEntry(flow);
          if pair.Err? {
            return Err(pair.error);
          }
          var checked := D.CheckKey(config, seen, pair.value.key);
          if checked.Err? {
            return Err(checked.error);
          }
          seen := checked.value;
          pairs := pairs + [pair.value];
          if pos <= start {
            return Ok(pairs);
          }
        }
      }
      return Ok(pairs);
    }

    method DecodeEntry(flow: bool) returns (r: Result<Pair, Error>)
      requires pos < |events|
      modifies this
      ensures Advanced()
      ensures D.Out(Unread(), Mem(), r) == old(D.Entry(Here(), Unread(), Mem(), depth, flow))
      decreases |events| - pos, 7
    {
      if events[pos].Key? {
        pos := pos + 1;
        r := DecodeKeyedPair(true);
      } else {
        r := DecodeBarePair(flow);
      }
    }

    method DecodeKeyedPair(allow: bool) returns (r: Result<Pair, Error>)
      requires Valid()
      modifies this
      ensures Advanced()
      ensures D.Out(Unread(), Mem(), r) == old(D.KeyedPair(Here(), Unread(), Mem(), depth, allow))
      decreases |events| - pos, 6
    {
      var key := DecodeNode(false);
      if key.Err? {
        return Err(key.error);
      }
      if pos < |events| && events[pos].ValueMark? {
        pos := pos + 1;
      }
      r := DecodePairValue(allow, D.OrNull(key.value));
    }

    method DecodePairValue(allow: bool, key: Value) returns (r: Result<Pair, Error>)
      requires Valid()
      modifies this
      ensures Advanced()
      ensures D.Out(Unread(), Mem(), r) == old(D.PairValue(Here(), Unread(), Mem(), depth, allow, key))
      decreases |events| - pos, 5
    {
      var val := DecodeNode(allow);
      if val.Err? {
        return Err(val.error);
      }
      r := Ok(Pair(key, D.OrNull(val.value)));
    }

    method DecodeBarePair(flow: bool) returns (r: Result<Pair, Error>)
      requires pos < |events|
      modifies this
      ensures Advanced()
      ensures D.Out(Unread(), Mem(), r) == old(D.BarePair(Here(), Unread(), Mem(), depth, flow))
      decreases |events| - pos, 6
    {
      var bareScalar := events[pos].Scalar?;
      var blocked := AtBlockCollection();
      if !flow && blocked {
        return Err(BlockCollectionKey);
      }
      var key := DecodeNode(false);
      if key.Err? {
        return Err(key.error);
      }
      if pos < |events| && events[pos].ValueMark? {
        pos := pos + 1;
        r := DecodePairValue(true, D.OrNull(key.value));
      } else if !flow && bareScalar {
        r := Err(MissingColon);
      } else {
        r := Ok(Pair(D.OrNull(key.value), Null));
      }
    }

    // `block_collection_key_span`: looks past the properties.
    method AtBlockCollection() returns (found: bool)
      requires Valid()
      ensures found == D.IsBlockCollection(Unread())
    {
      var i := pos;
      while i < |events| && (events[i].Anchor? || events[i].Tag?)
        invariant pos <= i <= |events|
        invariant D.IsBlockCollection(events[i..]) == D.IsBlockCollection(Unread())
      {
        assert events[i..][1..] == events[i + 1..];
        i := i + 1;
      }
      found := i < |events| && events[i] in {MappingStart(false), SequenceStart(false), SequenceEntry};
    }

    method DecodeSequence(flow: bool) returns (r: Result<seq<Value>, Error>)
      requires Valid()
      modifies this
      ensures Advanced()
      ensures D.Out(Unread(), Mem(), r) == old(D.Items(Here(), Unread(), Mem(), depth, flow, []))
      decreases |events| - pos, 7
    {
      hide D.Item, D.Node;
      ghost var goal := D.Items(Here(), Unread(), Mem(), depth, flow, []);
      var items: seq<Value> := [];
      while pos < |events|
        invariant Advanced()
        invariant D.Items(Here(), Unread(), Mem(), depth, flow, items) == goal
        decreases |events| - pos
      {
        var e := events[pos];
        if e.SequenceEnd? || e.BlockEnd? || e.MappingEnd? {
          pos := pos + 1;
          return Ok(items);
        } else if D.IsStreamMark(e) {
          return Ok(items);
        } else if e.SequenceEntry? || e.FlowEntry? {
          pos := pos + 1;
          var item := DecodeSequenceItem(flow);
          if item.Err? {
            return Err(item.error);
          }
          items := D.WithItem(items, item.value);
        } else {
          var start := pos;
          var item := DecodeSequenceItem(flow);
          if item.Err? {
            return Err(item.error);
          }
          items := D.WithItem(items, item.value);
          if item.value.None? || pos <= start {
            return Ok(items);
          }
        }
      }
      return Ok(items);
    }

    method DecodeSequenceItem(flow: bool) returns (r: Result<Option<Value>, Error>)
      requires Valid()
      modifies this
      ensures Advanced()
      ensures D.Out(Unread(), Mem(), r) == old(D.Item(Here(), Unread(), Mem(), depth, flow))
      decreases |events| - pos, 6
    {
      hide D.Node, D.KeyedPair, D.PairValue;
      if !flow && pos < |events| && D.EndsBlockItem(events[pos]) {
        return Ok(Some(Null));
      }
      var pair;
      if flow && pos < |events| && events[pos].Key? {
        pos := pos + 1;
        pair := DecodeKeyedPair(false);
      } else if flow && pos < |events| && events[pos].ValueMark? {
        pos := pos + 1;
        pair := DecodePairValue(false, Null);
      } else {
        var key := DecodeNode(false);
        if key.Err? || key.value.None? || !(flow && pos < |events| && events[pos].ValueMark?) {
          return key;
        }
        pos := pos + 1;
        pair := DecodePairValue(false, key.value.value);
      }
      if pair.Err? {
        r := Err(pair.error);
      } else if D.IsRefused(config, pair.value.key) {
        r := Err(ComplexKey);
      } else {
        r := Ok(Some(Mapping([pair.value])));
      }
    }

    method DecodeBlockSequence() returns (r: Result<seq<Value>, Error>)
      requires Valid()
      modifies this
      ensures Advanced()
      ensures D.Out(Unread(), Mem(), r) == old(D.BlockItems(Here(), Unread(), Mem(), depth, []))
      decreases |events| - pos, 0
    {
      hide D.Node;
      ghost var goal := D.BlockItems(Here(), Unread(), Mem(), depth, []);
      var items: seq<Value> := [];
      while pos < |events|
        invariant Advanced()
        invariant D.BlockItems(Here(), Unread(), Mem(), depth, items) == goal
        decreases |events| - pos
      {
        if events[pos].SequenceEntry? {
          pos := pos + 1;
          if pos < |events| && D.EndsIndentlessItem(events[pos]) {
            items := items + [Null];
          } else {
            var item := DecodeNode(false);
            if item.Err? {
              return Err(item.error);
            }
            items := D.WithItem(items, item.value);
          }
        } else {
          if events[pos].MappingEnd? {
            pos := pos + 1;
          }
          return Ok(items);
        }
      }
      return Ok(items);
    }

    // ----- The stream -----

    // A run of directives, into the handles of the document that follows.
    method ReadDirectives() returns (ok: bool)
      requires Valid()
      modifies this`pos, this`handles
      ensures Valid() && old(pos) <= pos
      ensures var run := old(D.Directives(Unread(), handles, false));
              Unread() == run.rest && handles == run.handles && ok == run.r.Ok?
              && (!ok ==> run.r == Err(BadDirective))
    {
      hide D.Directives;
      ghost var goal := D.Directives(Unread(), handles, false);
      var seenYaml := false;
      while pos < |events| && events[pos].Directive?
        invariant Valid() && old(pos) <= pos
        invariant D.Directives(Unread(), handles, seenYaml) == goal
        decreases |events| - pos
      {
        var kind := T.KindOf(events[pos].text);
        D.DirectiveRead(Unread(), handles, seenYaml);
        if kind.YamlVersion? {
          if !kind.valid || seenYaml {
            return false;
          }
          seenYaml := true;
        } else if kind.TagPrefix? {
          if kind.handle in handles {
            return false;
          }
          handles := handles[kind.handle := kind.prefix];
        }
        pos := pos + 1;
      }
      D.NoDirectives(Unread(), handles, seenYaml);
      return true;
    }

    method AtBoundary() returns (r: bool)
      requires Valid()
      ensures r == D.AtBoundary(Unread())
    {
      r := pos == |events| || events[pos].StreamEnd? || events[pos].DocumentStart?
           || events[pos].DocumentEnd? || events[pos].Directive?;
    }

    // Handles and anchors go out of scope with their document.
    method EndDocument()
      requires Valid()
      modifies this`handles, this`anchors
      ensures handles == map[] && Mem() == D.Forget(old(Mem()))
    {
      handles, anchors := map[], map[];
    }

    // The end of a document, and the `...` behind it if there is one.
    method CloseDocument() returns (ended: bool)
      requires Valid()
      modifies this`pos, this`handles, this`anchors
      ensures Valid() && old(pos) <= pos && handles == map[] && Mem() == D.Forget(old(Mem()))
      ensures var rest := old(Unread());
              ended == (rest != [] && rest[0].DocumentEnd?) && Unread() == if ended then rest[1..] else rest
    {
      EndDocument();
      ended := pos < |events| && events[pos].DocumentEnd?;
      if ended {
        pos := pos + 1;
      }
    }

    // A document that `---` introduces, even an empty one.
    method ExplicitDocument(ghost allowed: bool, documents: seq<Value>)
      returns (r: Result<seq<Value>, Error>, directives: bool)
      requires pos < |events| && events[pos].DocumentStart? && depth == 0
      modifies this
      ensures Valid() && old(pos) < pos && |events| == old(|events|) && depth == 0
      ensures var goal := old(D.Documents(config, handles, Unread(), Mem(), allowed, documents));
              if r.Ok? then D.Documents(config, handles, Unread(), Mem(), directives, r.value) == goal
              else D.Out(Unread(), Mem(), Err(r.error)) == goal
    {
      hide D.Node, D.Documents, D.AtBoundary, D.Forget, D.OrNull;
      D.ExplicitRead(config, handles, Unread(), Mem(), allowed, documents);
      pos := pos + 1;
      var root := DecodeNode(false);
      if root.Err? {
        return Err(root.error), false;
      }
      var ends := AtBoundary();
      if !ends {
        return Err(TrailingContent), false;
      }
      directives := CloseDocument();
      r := Ok(documents + [D.OrNull(root.value)]);
    }

    // A document without a marker, if there is a node at all; at least one event is read.
    method ImplicitDocument(ghost allowed: bool, documents: seq<Value>) returns (r: Result<seq<Value>, Error>)
      requires pos < |events| && depth == 0
      requires !(events[pos] in {StreamStart, StreamEnd, DocumentEnd, DocumentStart} || events[pos].Directive?)
      modifies this
      ensures Valid() && |events| == old(|events|) && depth == 0
      ensures old(pos) <= pos && (r.Ok? ==> old(pos) < pos)
      ensures var goal := old(D.Documents(config, handles, Unread(), Mem(), allowed, documents));
              if r.Ok? then D.Documents(config, handles, Unread(), Mem(), false, r.value) == goal
              else D.Out(Unread(), Mem(), Err(r.error)) == goal
    {
      hide D.Node, D.Documents, D.AtBoundary, D.Forget, D.OrNull;
      D.ImplicitRead(config, handles, Unread(), Mem(), allowed, documents);
      var start := pos;
      var root := DecodeNode(false);
      if root.Err? {
        return Err(root.error);
      }
      r := Ok(documents);
      if root.value.Some? {
        r := Ok(documents + [root.value.value]);
        var ends := AtBoundary();
        if !ends {
          return Err(TrailingContent);
        }
      }
      EndDocument();
      if pos <= start {
        pos := pos + 1;
      }
    }

    // `decode_stream`.
    method DecodeStream() returns (r: Result<seq<Value>, Error>)
      requires Valid() && depth == 0
      modifies this
      ensures Valid() && old(pos) <= pos && |events| == old(|events|) && depth == 0
      ensures D.Out(Unread(), Mem(), r) == old(D.Documents(config, handles, Unread(), Mem(), true, []))
    {
      hide D.Node, D.Directives;
      ghost var goal := D.Documents(config, handles, Unread(), Mem(), true, []);
      var documents: seq<Value>, allowed := [], true;
      while pos < |events|
        invariant Valid() && old(pos) <= pos && |events| == old(|events|) && depth == 0
        invariant D.Documents(config, handles, Unread(), Mem(), allowed, documents) == goal
        decreases |events| - pos
      {
        var e := events[pos];
        if e.StreamStart? || e.StreamEnd? {
          pos := pos + 1;
        } else if e.DocumentEnd? {
          pos := pos + 1;
          allowed := true;
        } else if e.Directive? {
          if !allowed {
            return Err(BadDirective);
          }
          var ok := ReadDirectives();
          if !ok || pos == |events| || !events[pos].DocumentStart? {
            return Err(BadDirective);
          }
        } else {
          var now;
          if e.DocumentStart? {
            now, allowed := ExplicitDocument(allowed, documents);
          } else {
            now := ImplicitDocument(allowed, documents);
            allowed := false;
          }
          if now.Err? {
            return Err(now.error);
          }
          documents := now.value;
        }
      }
      return Ok(documents);
    }
  }
}
