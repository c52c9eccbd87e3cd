// The composer itself (src/roundtrip/composer.rs): the decoder's twin cursor. Every method
// computes the function of `Compose` that bears its name. A node's properties wait in two
// fields until the node is met; none waits between nodes while events are left.
module Composer {
  import opened Wrappers
  import opened Events
  import opened Syntax
  import C = Compose
  import D = Decode

  class Composer {
    const events: seq<Event>
    var pos: nat
    var depth: nat
    var pendingTag: Option<string>
    var pendingAnchor: Option<string>
    var anchorsSeen: set<string>

    constructor (events: seq<Event>)
      ensures this.events == events && Ready() && Unread() == events && depth == 0 && anchorsSeen == {}
    {
      this.events := events;
      pos, depth, anchorsSeen := 0, 0, {};
      pendingTag, pendingAnchor := None, None;
    }

    ghost predicate Valid()
      reads this
    {
      pos <= |events|
    }

    // No property waits while events are left.
    ghost predicate Ready()
      reads this
    {
      Valid() && (pos < |events| ==> pendingTag.None? && pendingAnchor.None?)
    }

    ghost function Unread(): (u: seq<Event>)
      requires Valid()
      reads this
      ensures |u| == |events| - pos
      ensures pos < |events| ==> u[0] == events[pos] && u[1..] == events[pos + 1..]
    {
      events[pos..]
    }

    twostate predicate Advanced()
      reads this
    {
      Valid() && old(pos) <= pos && depth == old(depth)
    }

    method ComposeNode(allow: bool) returns (r: Result<Option<YNode>, Error>)
      requires Ready()
      modifies this
      ensures Advanced() && (r.Ok? ==> Ready())
      ensures C.Made(Unread(), anchorsSeen, r) == old(C.CNode(Unread(), anchorsSeen, depth, allow))
      decreases |events| - pos, 4
    {
      depth := depth + 1;
      if depth > MAX_DEPTH {
        depth := depth - 1;
        return Err(TooDeep);
      }
      r := ComposeNodeInner(allow);
      depth := depth - 1;
    }

    method ComposeNodeInner(allow: bool) returns (r: Result<Option<YNode>, Error>)
      requires Ready()
      modifies this
      ensures Advanced() && (r.Ok? ==> Ready())
      ensures C.Made(Unread(), anchorsSeen, r) == old(C.CInner(Unread(), anchorsSeen, depth, allow, None, None))
      decreases |events| - pos, 3
    {
      if pos == |events| {
        return Ok(None);
      }
      ghost var goal := C.CInner(Unread(), anchorsSeen, depth, allow, None, None);
      while pos < |events| && (events[pos].Tag? || events[pos].Anchor?)
        invariant Advanced() && anchorsSeen == old(anchorsSeen)
        invariant C.CInner(Unread(), anchorsSeen, depth, allow, pendingTag, pendingAnchor) == goal
        decreases |events| - pos
      {
        if events[pos].Tag? {
          pendingTag := Some(events[pos].tag);
        } else {
          if pendingAnchor.Some? {
            return Err(TwoAnchors);
          }
          pendingAnchor := Some(events[pos].name);
        }
        pos := pos + 1;
      }
      if pos == |events| {
        return Ok(None);
      }
      var tag, anchor := pendingTag, pendingAnchor;
      pendingTag, pendingAnchor := None, None;
      r := ComposeContent(allow, tag, anchor);
    }

    // The node is made before its anchor is seen, so it cannot refer to itself.
    method FinishNode(kind: YKind, tag: Option<string>, anchor: Option<string>) returns (r: Result<Option<YNode>, Error>)
      requires Valid()
      modifies this`anchorsSeen
      ensures C.Made(Unread(), anchorsSeen, r) == C.Finished(old(Unread()), old(anchorsSeen), kind, tag, anchor)
    {
      if anchor.Some? {
        anchorsSeen := anchorsSeen + {anchor.value};
      }
      r := Ok(Some(YNode(kind, tag, anchor)));
    }

    method ComposeContent(allow: bool, tag: Option<string>, anchor: Option<string>)
      returns (r: Result<Option<YNode>, Error>)
      requires Ready() && pos < |events|
      modifies this
      ensures Advanced() && (r.Ok? ==> Ready())
      ensures C.Made(Unread(), anchorsSeen, r) == old(C.CContent(Unread(), anchorsSeen, depth, allow, tag, anchor))
      decreases |events| - pos, 2
    {
      var e := events[pos];
      if e.Scalar? {
        pos := pos + 1;
        r := FinishNode(YScalar(e.text, e.style), tag, anchor);
      } else if e.MappingStart? || e.SequenceStart? || (e.SequenceEntry? && allow) {
        r := ComposeCollection(allow, tag, anchor);
      } else if e.Alias? {
        if anchor.Some? || tag.Some? {
          return Err(AliasWithProperties);
        }
        if e.name !in anchorsSeen {
          return Err(UnknownAlias(e.name));
        }
        pos := pos + 1;
        r := Ok(Some(YNode(YAlias(e.name), None, None)));
      } else if D.IsTerminator(e) {
        if tag.None? && anchor.None? {
          return Ok(None);
        }
        r := FinishNode(YNull, tag, anchor);
      } else {
        pos := pos + 1;
        r := ComposeNode(allow);
      }
    }

    method ComposeCollection(allow: bool, tag: Option<string>, anchor: Option<string>)
      returns (r: Result<Option<YNode>, Error>)
      requires Ready() && pos < |events|
      requires var e := events[pos]; e.MappingStart? || e.SequenceStart? || (e.SequenceEntry? && allow)
      modifies this
      ensures Advanced() && (r.Ok? ==> Ready())
      ensures C.Made(Unread(), anchorsSeen, r) == old(C.CContent(Unread(), anchorsSeen, depth, allow, tag, anchor))
      decreases |events| - pos, 1
    {
      hide C.CPairs, C.CItems, C.CBlockItems;
      var e := events[pos];
      if e.MappingStart? {
        pos := pos + 1;
        var pairs := ComposeMapping(e.flow);
        if pairs.Err? {
          return Err(pairs.error);
        }
        r := FinishNode(YMapping(pairs.value), tag, anchor);
      } else {
        var items;
        if e.SequenceStart? {
          pos := pos + 1;
          items := ComposeSequence(e.flow);
        } else {
          items := ComposeBlockSequence();
        }
        if items.Err? {
          return Err(items.error);
        }
        r := FinishNode(YSequence(items.value), tag, anchor);
      }
    }

    method ComposeMapping(flow: bool) returns (r: Result<seq<YPair>, Error>)
      requires Ready()
      modifies this
      ensures Advanced() && (r.Ok? ==> Ready())
      ensures C.Made(Unread(), anchorsSeen, r) == old(C.CPairs(Unread(), anchorsSeen, depth, flow, []))
      decreases |events| - pos, 8
    {
      hide C.CEntry;
      ghost var goal := C.CPairs(Unread(), anchorsSeen, depth, flow, []);
      var pairs: seq<YPair> := [];
      while pos < |events|
        invariant Advanced() && Ready()
        invariant C.CPairs(Unread(), anchorsSeen, depth, flow, pairs) == goal
        decreases |events| - pos
      {
        var e := events[pos];
        if e.MappingEnd? || e.BlockEnd? {
          pos := pos + 1;
          return Ok(pairs);
        } else if D.IsStreamMark(e) {
          return Ok(pairs);
        } else if e.FlowEntry? {
          pos := pos + 1;
        } else {
          var start := pos;
          var pair := ComposeEntry(flow);
          if pair.Err? {
            return Err(pair.error);
          }
          pairs := pairs + [pair.value];
          if pos <= start {
            return Ok(pairs);
          }
        }
      }
      return Ok(pairs);
    }

    method ComposeEntry(flow: bool) returns (r: Result<YPair, Error>)
      requires Ready() && pos < |events|
      modifies this
      ensures Advanced() && (r.Ok? ==> Ready())
      ensures C.Made(Unread(), anchorsSeen, r) == old(C.CEntry(Unread(), anchorsSeen, depth, flow))
      decreases |events| - pos, 7
    {
      if events[pos].Key? {
        pos := pos + 1;
        r := ComposeKeyedPair(true);
      } else {
        r := ComposeBarePair(flow);
      }
    }

    method ComposeKeyedPair(allow: bool) returns (r: Result<YPair, Error>)
      requires Ready()
      modifies this
      ensures Advanced() && (r.Ok? ==> Ready())
      ensures C.Made(Unread(), anchorsSeen, r) == old(C.CKeyedPair(Unread(), anchorsSeen, depth, allow))
      decreases |events| - pos, 6
    {
      var key := ComposeNode(false);
      if key.Err? {
        return Err(key.error);
      }
      if pos < |events| && events[pos].ValueMark? {
        pos := pos + 1;
      }
      r := ComposePairValue(allow, C.NodeOrNull(key.value));
    }

    method ComposePairValue(allow: bool, key: YNode) returns (r: Result<YPair, Error>)
      requires Ready()
      modifies this
      ensures Advanced() && (r.Ok? ==> Ready())
      ensures C.Made(Unread(), anchorsSeen, r) == old(C.CPairValue(Unread(), anchorsSeen, depth, allow, key))
      decreases |events| - pos, 5
    {
      var val := ComposeNode(allow);
      if val.Err? {
        return Err(val.error);
      }
      r := Ok(YPair(key, C.NodeOrNull(val.value)));
    }

    method ComposeBarePair(flow: bool) returns (r: Result<YPair, Error>)
      requires Ready() && pos < |events|
      modifies this
      ensures Advanced() && (r.Ok? ==> Ready())
      ensures C.Made(Unread(), anchorsSeen, r) == old(C.CBarePair(Unread(), anchorsSeen, depth, flow))
      decreases |events| - pos, 6
    {
      var bareScalar := events[pos].Scalar?;
      if !flow && D.IsBlockCollection(events[pos..]) {
        return Err(BlockCollectionKey);
      }
      var key := ComposeNode(false);
      if key.Err? {
        return Err(key.error);
      }
      if pos < |events| && events[pos].ValueMark? {
        pos := pos + 1;
        r := ComposePairValue(true, C.NodeOrNull(key.value));
      } else if !flow && bareScalar {
        r := Err(MissingColon);
      } else {
        r := Ok(YPair(C.NodeOrNull(key.value), NULL_NODE));
      }
    }

    method ComposeSequence(flow: bool) returns (r: Result<seq<YNode>, Error>)
      requires Ready()
      modifies this
      ensures Advanced() && (r.Ok? ==> Ready())
      ensures C.Made(Unread(), anchorsSeen, r) == old(C.CItems(Unread(), anchorsSeen, depth, flow, []))
      decreases |events| - pos, 7
    {
      ghost var goal := C.CItems(Unread(), anchorsSeen, depth, flow, []);
      var items: seq<YNode> := [];
      while pos < |events|
        invariant Advanced() && Ready()
        invariant C.CItems(Unread(), anchorsSeen, depth, flow, items) == goal
        decreases |events| - pos
      {
        var e := events[pos];
        if e.SequenceEnd? || e.BlockEnd? || e.MappingEnd? {
          pos := pos + 1;
          return Ok(items);
        } else if D.IsStreamMark(e) {
          return Ok(items);
        }
        if e.SequenceEntry? || e.FlowEntry? {
          var item := ComposeMarkedItem(flow);
          if item.Err? {
            return Err(item.error);
          }
          items := C.WithNode(items, item.value);
        } else {
          var start := pos;
          var item := ComposeSequenceItem(flow);
          if item.Err? {
            return Err(item.error);
          }
          items := C.WithNode(items, item.value);
          if item.value.None? || pos <= start {
            return Ok(items);
          }
        }
      }
      return Ok(items);
    }

    // An item behind its marker: only a dash opens a block entry.
    method ComposeMarkedItem(flow: bool) returns (r: Result<Option<YNode>, Error>)
      requires Ready() && pos < |events| && (events[pos].SequenceEntry? || events[pos].FlowEntry?)
      modifies this
      ensures Advanced() && (r.Ok? ==> Ready()) && old(pos) < pos
      ensures C.Made(Unread(), anchorsSeen, r) ==
              old(if events[pos].SequenceEntry? then C.CBlockEntry(Unread()[1..], anchorsSeen, depth)
                  else C.CItem(Unread()[1..], anchorsSeen, depth, flow))
      decreases |events| - pos, 6
    {
      var block := events[pos].SequenceEntry?;
      pos := pos + 1;
      if block {
        r := ComposeBlockEntry();
      } else {
        r := ComposeSequenceItem(flow);
      }
    }

    method ComposeSequenceItem(flow: bool) returns (r: Result<Option<YNode>, Error>)
      requires Ready()
      modifies this
      ensures Advanced() && (r.Ok? ==> Ready())
      ensures C.Made(Unread(), anchorsSeen, r) == old(C.CItem(Unread(), anchorsSeen, depth, flow))
      decreases |events| - pos, 6
    {
      hide C.CNode, C.CKeyedPair, C.CPairValue;
      var pair;
      if flow && pos < |events| && events[pos].Key? {
        pos := pos + 1;
        pair := ComposeKeyedPair(false);
      } else if flow && pos < |events| && events[pos].ValueMark? {
        pos := pos + 1;
        pair := ComposePairValue(false, NULL_NODE);
      } else {
        var key := ComposeNode(false);
        if key.Err? || key.value.None? || !(flow && pos < |events| && events[pos].ValueMark?) {
          return key;
        }
        pos := pos + 1;
        pair := ComposePairValue(false, key.value.value);
      }
      if pair.Err? {
        return Err(pair.error);
      }
      r := Ok(Some(YNode(YMapping([pair.value]), None, None)));
    }

    method ComposeBlockEntry() returns (r: Result<Option<YNode>, Error>)
      requires Ready()
      modifies this
      ensures Advanced() && (r.Ok? ==> Ready())
      ensures C.Made(Unread(), anchorsSeen, r) == old(C.CBlockEntry(Unread(), anchorsSeen, depth))
      decreases |events| - pos, 5
    {
      if pos < |events| && D.EndsIndentlessItem(events[pos]) {
        return Ok(Some(NULL_NODE));
      }
      r := ComposeNode(false);
    }

    method ComposeBlockSequence() returns (r: Result<seq<YNode>, Error>)
      requires Ready()
      modifies this
      ensures Advanced() && (r.Ok? ==> Ready())
      ensures C.Made(Unread(), anchorsSeen, r) == old(C.CBlockItems(Unread(), anchorsSeen, depth, []))
      decreases |events| - pos, 0
    {
      ghost var goal := C.CBlockItems(Unread(), anchorsSeen, depth, []);
      var items: seq<YNode> := [];
      while pos < |events|
        invariant Advanced() && Ready()
        invariant C.CBlockItems(Unread(), anchorsSeen, depth, items) == goal
        decreases |events| - pos
      {
        if events[pos].SequenceEntry? {
          pos := pos + 1;
          var item := ComposeBlockEntry();
          if item.Err? {
            return Err(item.error);
          }
          items := C.WithNode(items, item.value);
        } else {
          if events[pos].MappingEnd? {
            pos := pos + 1;
          }
          return Ok(items);
        }
      }
      return Ok(items);
    }
  }
}
