// Decoded values (src/decode/mod.rs, `Value`).
module Values {
  import opened Timestamps

  datatype Value =
    | Null
    | Bool(b: bool)
    | Int(i: int)
    | BigInt(digits: string)
    | Float(bits: nat)              // the bit pattern: equality is equality of bits
    | Str(text: string)
    | Stamp(t: Timestamp)
    | Sequence(items: seq<Value>)
    | Mapping(pairs: seq<Pair>)
    | Tagged(tag: string, inner: Value)

  datatype Pair = Pair(key: Value, val: Value)

  // `count_nodes`.
  function CountNodes(v: Value): (n: nat)
    ensures n >= 1
    decreases v, 1
  {
    1 + match v
        case Sequence(items) => CountItems(items)
        case Mapping(pairs) => CountPairs(pairs)
        case Tagged(_, inner) => CountNodes(inner)
        case _ => 0
  }

  function CountItems(items: seq<Value>): nat
    decreases items, 0
  {
    if items == [] then 0 else CountNodes(items[0]) + CountItems(items[1..])
  }

  function CountPair(p: Pair): nat
    decreases p, 2
  {
    CountNodes(p.key) + CountNodes(p.val)
  }

  function CountPairs(pairs: seq<Pair>): nat
    decreases pairs, 0
  {
    if pairs == [] then 0 else CountPair(pairs[0]) + CountPairs(pairs[1..])
  }

  // A value and the values inside it, tagged ones and keys included.
  function Nodes(v: Value): seq<Value>
    decreases v, 1
  {
    [v] + match v
          case Sequence(items) => NodesOfItems(items)
          case Mapping(pairs) => NodesOfPairs(pairs)
          case Tagged(_, inner) => Nodes(inner)
          case _ => []
  }

  function NodesOfItems(items: seq<Value>): seq<Value>
    decreases items, 0
  {
    if items == [] then [] else Nodes(items[0]) + NodesOfItems(items[1..])
  }

  function NodesOfPairs(pairs: seq<Pair>): seq<Value>
    decreases pairs, 0
  {
    if pairs == [] then [] else NodesOfPair(pairs[0]) + NodesOfPairs(pairs[1..])
  }

  function NodesOfPair(p: Pair): seq<Value>
    decreases p, 2
  {
    Nodes(p.key) + Nodes(p.val)
  }

  lemma {:induction false} CountIsNodes(v: Value)
    ensures CountNodes(v) == |Nodes(v)|
    decreases v, 1
  {
    match v
    case Sequence(items) => CountIsItems(items);
    case Mapping(pairs) => CountIsPairs(pairs);
    case Tagged(_, inner) => CountIsNodes(inner);
    case _ =>
  }

  lemma {:induction false} CountIsItems(items: seq<Value>)
    ensures CountItems(items) == |NodesOfItems(items)|
    decreases items, 0
  {
    if items != [] {
      CountIsNodes(items[0]);
      CountIsItems(items[1..]);
    }
  }

  lemma {:induction false} CountIsPairs(pairs: seq<Pair>)
    ensures CountPairs(pairs) == |NodesOfPairs(pairs)|
    decreases pairs, 0
  {
    if pairs != [] {
      CountIsPair(pairs[0]);
      CountIsPairs(pairs[1..]);
    }
  }

  lemma {:induction false} CountIsPair(p: Pair)
    ensures CountPair(p) == |NodesOfPair(p)|
    decreases p, 2
  {
    CountIsNodes(p.key);
    CountIsNodes(p.val);
  }

  lemma {:induction false} CountMoreItems(items: seq<Value>, more: seq<Value>)
    ensures CountItems(items + more) == CountItems(items) + CountItems(more)
  {
    if items == [] {
      assert items + more == more;
    } else {
      assert (items + more)[1..] == items[1..] + more;
      CountMoreItems(items[1..], more);
    }
  }

  lemma {:induction false} CountMorePairs(pairs: seq<Pair>, more: seq<Pair>)
    ensures CountPairs(pairs + more) == CountPairs(pairs) + CountPairs(more)
  {
    if pairs == [] {
      assert pairs + more == more;
    } else {
      assert (pairs + more)[1..] == pairs[1..] + more;
      CountMorePairs(pairs[1..], more);
    }
  }

  lemma CountOneMore(items: seq<Value>, item: Value)
    ensures CountItems(items + [item]) == CountItems(items) + CountNodes(item)
  {
    CountMoreItems(items, [item]);
    assert [item][1..] == [];
  }

  lemma CountOnePair(pairs: seq<Pair>, key: Value, val: Value)
    ensures CountPairs(pairs + [Pair(key, val)]) == CountPairs(pairs) + CountNodes(key) + CountNodes(val)
  {
    CountMorePairs(pairs, [Pair(key, val)]);
    assert [Pair(key, val)][1..] == [];
  }

  // The values the decoder can build: an integer's text holds no separator of the
  // signature code, and a timestamp is a real one.
  predicate WellFormed(v: Value) {
    match v
    case BigInt(digits) => ';' !in digits
    case Stamp(t) => InRange(t)
    case Sequence(items) => forall item <- items :: WellFormed(item)
    case Mapping(pairs) => forall p <- pairs :: WellFormed(p.key) && WellFormed(p.val)
    case Tagged(_, inner) => WellFormed(inner)
    case _ => true
  }
}
