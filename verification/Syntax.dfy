// Document trees (src/roundtrip/ast.rs, the data of `YamlNode`), and what one means: its
// value, with aliases resolved from the anchors met before them.
module Syntax {
  import opened Wrappers
  import opened Values
  import opened Events
  import opened Decode
  import Resolver

  datatype YNode = YNode(kind: YKind, tag: Option<string>, anchor: Option<string>)

  datatype YKind =
    | YNull
    | YScalar(text: string, style: Resolver.ScalarStyle)
    | YAlias(name: string)
    | YSequence(items: seq<YNode>)
    | YMapping(pairs: seq<YPair>)

  datatype YPair = YPair(key: YNode, val: YNode)

  const NULL_NODE := YNode(YNull, None, None)

  // A meaning, and what is remembered after it.
  datatype Meaning<+T> = Meaning(mem: Memory, r: Result<T, Error>)

  function Expanded(sc: Scope, tag: Option<string>): Option<string> {
    if tag.Some? then Some(ExpandTag(sc.handles, tag.value)) else None
  }

  predicate TagUndefined(sc: Scope, tag: Option<string>) { tag.Some? && HandleUndefined(sc.handles, tag.value) }

  function Finish(m: Memory, anchor: Option<string>, v: Value): Meaning<Value> {
    Meaning(Remember(m, anchor, v), Ok(v))
  }

  function EvalNode(sc: Scope, n: YNode, m: Memory): Meaning<Value>
    decreases n, 1
  {
    if TagUndefined(sc, n.tag) then Meaning(m, Err(UndefinedHandle))
    else
      var tag := Expanded(sc, n.tag);
      match n.kind
      case YNull =>
        if tag.None? then Finish(m, n.anchor, Null)
        else
          var r := EmptyValue(sc.config, tag.value);
          Finish(NoteMerge(m, r.merges), n.anchor, WithTag(tag, r.value))
      case YScalar(text, style) =>
        var r := ScalarValue(sc.config, text, style, tag);
        Finish(NoteMerge(m, r.merges), n.anchor, WithTag(tag, r.value))
      case YAlias(name) => if n.anchor.Some? || n.tag.Some? then Meaning(m, Err(AliasWithProperties)) else EvalAlias(name, m)
      case YSequence(items) =>
        var o := EvalItems(sc, items, m, []);
        (match o.r
         case Err(e) => Meaning(o.mem, Err(e))
         case Ok(values) => Finish(o.mem, n.anchor, WithTag(tag, Sequence(values))))
      case YMapping(pairs) =>
        var o := EvalPairs(sc, pairs, m, [], {});
        match o.r
        case Err(e) => Meaning(o.mem, Err(e))
        case Ok(values) => Finish(o.mem, n.anchor, WithTag(tag, Mapping(values)))
  }

  function EvalAlias(name: string, m: Memory): Meaning<Value> {
    if name !in m.anchors then Meaning(m, Err(UnknownAlias(name)))
    else
      var charged := Charged(m, m.anchors[name].size);
      Meaning(charged, if charged.nodes > MAX_NODES then Err(TooManyNodes) else Ok(m.anchors[name].value))
  }

  function EvalItems(sc: Scope, items: seq<YNode>, m: Memory, acc: seq<Value>): Meaning<seq<Value>>
    decreases items, 0
  {
    if items == [] then Meaning(m, Ok(acc))
    else
      var o := EvalNode(sc, items[0], m);
      match o.r
      case Err(e) => Meaning(o.mem, Err(e))
      case Ok(v) => EvalItems(sc, items[1..], o.mem, acc + [v])
  }

  function EvalPair(sc: Scope, p: YPair, m: Memory): Meaning<Pair>
    decreases p, 2
  {
    var k := EvalNode(sc, p.key, m);
    match k.r
    case Err(e) => Meaning(k.mem, Err(e))
    case Ok(key) =>
      var v := EvalNode(sc, p.val, k.mem);
      match v.r
      case Err(e) => Meaning(v.mem, Err(e))
      case Ok(val) => Meaning(v.mem, Ok(Pair(key, val)))
  }

  function EvalPairs(sc: Scope, pairs: seq<YPair>, m: Memory, acc: seq<Pair>, seen: set<string>): Meaning<seq<Pair>>
    decreases pairs, 0
  {
    if pairs == [] then Meaning(m, Ok(acc))
    else
      var o := EvalPair(sc, pairs[0], m);
      match o.r
      case Err(e) => Meaning(o.mem, Err(e))
      case Ok(p) =>
        var checked := CheckKey(sc.config, seen, p.key);
        match checked
        case Err(e) => Meaning(o.mem, Err(e))
        case Ok(now) => EvalPairs(sc, pairs[1..], o.mem, acc + [p], now)
  }
}
