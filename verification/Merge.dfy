// Merge keys (src/decode/merge.rs): what a mapping with `<<` means as a list of
// contributions, and the indexed rebuild that computes it.
module Merge {
  import opened Wrappers
  import opened Seqs
  import opened Values
  import opened KeySig

  const MERGE_TAG := "tag:yaml.org,2002:merge"
  const LITERAL := Str("<<")

  // The marker a plain `<<` decodes to; a quoted "<<" is only a string.
  const MARKER := Tagged(MERGE_TAG, LITERAL)

  predicate IsMergeKey(key: Value) { key.Tagged? && key.tag == MERGE_TAG }

  // ----- The meaning -----

  // What a mapping's entries contribute, in document order: a pair written out, a pair
  // pulled in from a merge source, or a `<<` value that cannot be merged.
  datatype Contribution = Explicit(pair: Pair) | Pulled(pair: Pair) | Left(value: Value)

  function KeyOf(c: Contribution): Value { if c.Left? then LITERAL else c.pair.key }

  // The contributed keys, each once, in order of first appearance.
  function KeysOf(cs: seq<Contribution>): seq<Value> {
    if cs == [] then []
    else
      var keys, key := KeysOf(cs[..|cs| - 1]), KeyOf(cs[|cs| - 1]);
      if key in keys then keys else keys + [key]
  }

  function LastExplicit(cs: seq<Contribution>, key: Value): Option<Value> {
    if cs == [] then None
    else
      var c := cs[|cs| - 1];
      if c.Explicit? && c.pair.key == key then Some(c.pair.val) else LastExplicit(cs[..|cs| - 1], key)
  }

  // The first contribution to a key that is not written out.
  function FirstImplicit(cs: seq<Contribution>, key: Value): Option<Contribution> {
    if cs == [] then None
    else
      var earlier, c := FirstImplicit(cs[..|cs| - 1], key), cs[|cs| - 1];
      if earlier == None && !c.Explicit? && KeyOf(c) == key then Some(c) else earlier
  }

  function Leftovers(cs: seq<Contribution>): seq<Value> {
    if cs == [] then []
    else
      var c := cs[|cs| - 1];
      Leftovers(cs[..|cs| - 1]) + if c.Left? then [c.value] else []
  }

  // Several leftovers share the one `<<`, as a sequence, sequences flattened one level.
  function Collected(values: seq<Value>): Value {
    if |values| == 1 then values[0] else Sequence(Flattened(values))
  }

  function Flattened(values: seq<Value>): seq<Value> {
    if values == [] then []
    else Flattened(values[..|values| - 1]) + ItemsOf(values[|values| - 1])
  }

  function ItemsOf(v: Value): seq<Value> { if v.Sequence? then v.items else [v] }

  // An explicit value wins, the last one; else the earliest merge source; else the
  // leftovers, when the first `<<` of all is a leftover.
  function ValueOf(cs: seq<Contribution>, key: Value): Value {
    match LastExplicit(cs, key)
    case Some(val) => val
    case None =>
      match FirstImplicit(cs, key)
      case Some(Pulled(p)) => p.val
      case _ => Collected(Leftovers(cs))
  }

  function Meaning(cs: seq<Contribution>): (r: seq<Pair>)
    ensures |r| == |KeysOf(cs)|
  {
    var keys := KeysOf(cs);
    seq(|keys|, i requires 0 <= i < |keys| => Pair(keys[i], ValueOf(cs, keys[i])))
  }

  // A mapping as data: a repeated key has its last value, at its first position.
  function LastWins(pairs: seq<Pair>): seq<Pair> { Meaning(AllExplicit(pairs)) }

  function AllExplicit(pairs: seq<Pair>): seq<Contribution> {
    seq(|pairs|, i requires 0 <= i < |pairs| => Explicit(pairs[i]))
  }

  function AllPulled(pairs: seq<Pair>): seq<Contribution> {
    seq(|pairs|, i requires 0 <= i < |pairs| => Pulled(pairs[i]))
  }

  // What a `<<` value pulls in: a mapping its data, a sequence its elements in turn.
  function Pulls(merge: Value): seq<Contribution>
    decreases merge, 1
  {
    match merge
    case Mapping(pairs) => AllPulled(LastWins(pairs))
    case Sequence(items) => PullsOfAll(items)
    case _ => []
  }

  function PullsOfAll(items: seq<Value>): seq<Contribution>
    decreases items, 0
  {
    if items == [] then [] else PullsOfAll(items[..|items| - 1]) + Pulls(items[|items| - 1])
  }

  // What is left of a `<<` value after that.
  function Rest(merge: Value): Option<Value>
    decreases merge, 1
  {
    match merge
    case Mapping(_) => None
    case Null => None
    case Sequence(items) =>
      var left := RestOfAll(items);
      if left == [] then None else Some(Sequence(left))
    case _ => Some(merge)
  }

  function RestOfAll(items: seq<Value>): seq<Value>
    decreases items, 0
  {
    if items == [] then []
    else
      var rest := Rest(items[|items| - 1]);
      RestOfAll(items[..|items| - 1]) + if rest.Some? then [rest.value] else []
  }

  function Contributions(pairs: seq<Pair>): seq<Contribution> {
    if pairs == [] then []
    else Contributions(pairs[..|pairs| - 1]) + ContributionsOf(pairs[|pairs| - 1])
  }

  function ContributionsOf(p: Pair): seq<Contribution> {
    if !IsMergeKey(p.key) then [Explicit(p)]
    else Pulls(p.val) + if Rest(p.val).Some? then [Left(Rest(p.val).value)] else []
  }

  // A marker that is no direct key of a mapping is the plain string `<<`.
  function Stripped(v: Value): Value
    decreases v, 1
  {
    match v
    case Tagged(tag, inner) => if tag == MERGE_TAG then LITERAL else Tagged(tag, Stripped(inner))
    case Sequence(items) => Sequence(StrippedItems(items))
    case Mapping(pairs) => Mapping(StrippedPairs(pairs))
    case _ => v
  }

  function StrippedItems(items: seq<Value>): (r: seq<Value>)
    ensures |r| == |items|
    decreases items, 0
  {
    if items == [] then [] else [Stripped(items[0])] + StrippedItems(items[1..])
  }

  function StrippedPairs(pairs: seq<Pair>): (r: seq<Pair>)
    ensures |r| == |pairs|
    decreases pairs, 0
  {
    if pairs == [] then [] else [StrippedPair(pairs[0])] + StrippedPairs(pairs[1..])
  }

  function StrippedPair(p: Pair): Pair
    decreases p, 2
  {
    Pair(Stripped(p.key), Stripped(p.val))
  }

  // `apply_merge_keys`: every mapping of the tree replaced by its meaning, inside out.
  function Merged(v: Value): Value
    decreases v, 1
  {
    match v
    case Mapping(pairs) =>
      var ps := MergedPairs(pairs);
      Mapping(if HasMergeKey(ps) then Meaning(Contributions(ps)) else ps)
    case Sequence(items) => Sequence(MergedItems(items))
    case Tagged(tag, inner) => if tag == MERGE_TAG then LITERAL else Tagged(tag, Merged(inner))
    case _ => v
  }

  predicate HasMergeKey(pairs: seq<Pair>) { exists p <- pairs :: IsMergeKey(p.key) }

  function MergedItems(items: seq<Value>): (r: seq<Value>)
    ensures |r| == |items|
    decreases items, 0
  {
    if items == [] then [] else [Merged(items[0])] + MergedItems(items[1..])
  }

  function MergedPairs(pairs: seq<Pair>): (r: seq<Pair>)
    ensures |r| == |pairs|
    decreases pairs, 0
  {
    if pairs == [] then [] else [MergedPair(pairs[0])] + MergedPairs(pairs[1..])
  }

  function MergedPair(p: Pair): Pair
    decreases p, 2
  {
    Pair(if IsMergeKey(p.key) then p.key else Stripped(p.key), Merged(p.val))
  }

  // ----- What the meaning promises -----

  // The position of the first contribution to a key.
  function FirstAt(cs: seq<Contribution>, key: Value): (i: nat)
    ensures i <= |cs| && (i < |cs| ==> KeyOf(cs[i]) == key)
    ensures forall j | 0 <= j < i :: KeyOf(cs[j]) != key
  {
    if cs == [] || KeyOf(cs[0]) == key then 0 else 1 + FirstAt(cs[1..], key)
  }

  // The keys come out once each, in the order in which they first appear.
  lemma {:induction false} KeysInOrder(cs: seq<Contribution>, i: nat, j: nat)
    requires i < j < |KeysOf(cs)|
    ensures KeysOf(cs)[i] != KeysOf(cs)[j]
    ensures FirstAt(cs, KeysOf(cs)[i]) < FirstAt(cs, KeysOf(cs)[j]) < |cs|
  {
    var n := |cs| - 1;
    var before := cs[..n];
    forall key | key in KeysOf(before) ensures FirstAt(cs, key) == FirstAt(before, key) < n {
      KeyIsContributed(before, key);
      var at := FirstAt(before, key);
      assert cs[at] == before[at];
      assert forall k | 0 <= k < at :: cs[k] == before[k];
    }
    if j < |KeysOf(before)| {
      KeysInOrder(before, i, j);
    } else {
      var last := KeyOf(cs[n]);
      KeyIsContributed(before, last);
      assert forall k | 0 <= k < n :: cs[k] == before[k] && before[k] in before;
      assert FirstAt(cs, last) == n;
    }
  }

  // A key written out has the value of its last explicit pair, whatever is merged.
  lemma {:induction false} LastExplicitWins(cs: seq<Contribution>, i: nat)
    requires i < |cs| && cs[i].Explicit?
    requires forall j | i < j < |cs| :: !(cs[j].Explicit? && cs[j].pair.key == cs[i].pair.key)
    ensures LastExplicit(cs, cs[i].pair.key) == Some(cs[i].pair.val)
    ensures ValueOf(cs, cs[i].pair.key) == cs[i].pair.val
  {
    if i < |cs| - 1 {
      LastExplicitWins(cs[..|cs| - 1], i);
    }
  }

  // A key that is only pulled in has the value of the earliest source that holds it.
  lemma {:induction false} EarliestSourceWins(cs: seq<Contribution>, i: nat)
    requires i < |cs| && cs[i].Pulled?
    requires forall c <- cs :: !(c.Explicit? && c.pair.key == cs[i].pair.key)
    requires forall j | 0 <= j < i :: KeyOf(cs[j]) != cs[i].pair.key
    ensures ValueOf(cs, cs[i].pair.key) == cs[i].pair.val
  {
    var key := cs[i].pair.key;
    NoneExplicit(cs, key);
    NoneImplicit(cs[..i], key);
    FirstStays(cs, i);
  }

  lemma {:induction false} NoneExplicit(cs: seq<Contribution>, key: Value)
    requires forall c <- cs :: !(c.Explicit? && c.pair.key == key)
    ensures LastExplicit(cs, key) == None
  {
    if cs != [] {
      assert cs[|cs| - 1] in cs;
      NoneExplicit(cs[..|cs| - 1], key);
    }
  }

  lemma {:induction false} NoneImplicit(cs: seq<Contribution>, key: Value)
    requires forall c <- cs :: KeyOf(c) != key
    ensures FirstImplicit(cs, key) == None
  {
    if cs != [] {
      assert cs[|cs| - 1] in cs;
      NoneImplicit(cs[..|cs| - 1], key);
    }
  }

  lemma {:induction false} FirstStays(cs: seq<Contribution>, i: nat)
    requires i < |cs| && !cs[i].Explicit? && FirstImplicit(cs[..i], KeyOf(cs[i])) == None
    ensures FirstImplicit(cs, KeyOf(cs[i])) == Some(cs[i])
  {
    var init := cs[..|cs| - 1];
    if i < |cs| - 1 {
      assert init[..i] == cs[..i];
      FirstStays(init, i);
    } else {
      assert init == cs[..i];
    }
  }

  predicate HasExplicit(cs: seq<Contribution>, key: Value) { exists c <- cs :: c.Explicit? && c.pair.key == key }

  // Exactly when the values that cannot be merged are kept: where the literal key is never
  // written out, and the first to contribute to it is one of them. Otherwise the key has its
  // last explicit value, or that of the source that held it first, and they are lost.
  lemma LeftoversAreKeptExactly(cs: seq<Contribution>)
    requires Leftovers(cs) != []
    ensures FirstAt(cs, LITERAL) < |cs| && LITERAL in KeysOf(cs)
    ensures HasExplicit(cs, LITERAL) ==> LastExplicit(cs, LITERAL).Some?
    ensures var first := cs[FirstAt(cs, LITERAL)];
            ValueOf(cs, LITERAL) ==
              if HasExplicit(cs, LITERAL) then LastExplicit(cs, LITERAL).value
              else if first.Left? then Collected(Leftovers(cs))
              else first.pair.val
  {
    KeyIsContributed(cs, LITERAL);
    var i := FirstAt(cs, LITERAL);
    var c :| c in cs && KeyOf(c) == LITERAL;
    if HasExplicit(cs, LITERAL) {
      SomeExplicit(cs, LITERAL);
    } else {
      NoneExplicit(cs, LITERAL);
      NoneImplicit(cs[..i], LITERAL);
      FirstStays(cs, i);
    }
  }

  // Such a loss is real: behind a literal key, a deferred `<<` leaves nothing.
  lemma DeferredIsLost(own: Pair, deferred: Pair)
    requires own == Pair(LITERAL, Int(1)) && deferred == Pair(MARKER, Tagged("!include", Str("a")))
    ensures Merged(Mapping([own, deferred])) == Mapping([own])
  {
    var ps := [own, deferred];
    assert [deferred][1..] == [] && MergedPairs([]) == [];
    assert MergedPair(deferred) == deferred && MergedPairs([deferred]) == [deferred];
    assert ps[1..] == [deferred] && MergedPair(own) == own;
    assert MergedPairs(ps) == ps;
    assert ps[1] in ps;
    ContributionsOfTwo(own, deferred);
    MeaningOfTwo(own, deferred.val);
  }

  // So is one behind a source that holds the literal key.
  lemma DeferredIsLostToSource(source: Pair, deferred: Pair)
    requires source == Pair(MARKER, Mapping([Pair(LITERAL, Int(1))]))
    requires deferred == Pair(MARKER, Tagged("!include", Str("a")))
    ensures Merged(Mapping([source, deferred])) == Mapping([Pair(LITERAL, Int(1))])
  {
    var ps, own := [source, deferred], Pair(LITERAL, Int(1));
    assert [deferred][1..] == [] && MergedPairs([]) == [] && ps[1..] == [deferred];
    assert MergedPair(deferred) == deferred && MergedPairs([deferred]) == [deferred];
    SourceIsMerged(source, own);
    hide MergedPair, Contributions, Meaning;
    assert MergedPairs(ps) == ps && ps[1] in ps;
    ContributionsOfPulled(source, own, deferred);
    MeaningOfPulled(own, deferred.val);
  }

  lemma SourceIsMerged(source: Pair, own: Pair)
    requires source == Pair(MARKER, Mapping([own])) && own == Pair(LITERAL, Int(1))
    ensures MergedPair(source) == source
  {
    assert [own][1..] == [] && MergedPairs([]) == [];
    assert MergedPair(own) == own && MergedPairs([own]) == [own] && !HasMergeKey([own]);
  }

  lemma ContributionsOfPulled(source: Pair, own: Pair, deferred: Pair)
    requires source == Pair(MARKER, Mapping([own])) && IsMergeKey(deferred.key) && deferred.val.Tagged?
    ensures Contributions([source, deferred]) == [Pulled(own), Left(deferred.val)]
  {
    PullsOfOne(own);
    assert [source, deferred][..1] == [source] && [source][..0] == [] && Contributions([]) == [];
    assert Contributions([source]) == [Pulled(own)];
  }

  lemma PullsOfOne(own: Pair)
    ensures LastWins([own]) == [own] && Pulls(Mapping([own])) == [Pulled(own)]
  {
    ExplicitStep([], own);
    assert AllExplicit([own]) == [] + [Explicit(own)] && Meaning([]) == [];
  }

  lemma MeaningOfPulled(own: Pair, v: Value)
    requires own.key == LITERAL
    ensures Meaning([Pulled(own), Left(v)]) == [own]
  {
    var one := [Pulled(own)];
    assert one == [] + [Pulled(own)] && one + [Left(v)] == [Pulled(own), Left(v)];
    PulledStep([], own);
    assert Meaning([]) == [] && KeysOf([]) == [] && Meaning(one) == [own];
    LeftStep(one, v);
    assert one[..0] == [] && FirstImplicit([], LITERAL) == None;
    assert FirstImplicit(one, LITERAL) == Some(Pulled(own)) && KeysOf(one) == [LITERAL];
  }

  lemma ContributionsOfTwo(own: Pair, deferred: Pair)
    requires !IsMergeKey(own.key) && IsMergeKey(deferred.key) && deferred.val.Tagged?
    ensures Contributions([own, deferred]) == [Explicit(own), Left(deferred.val)]
  {
    assert [own, deferred][..1] == [own] && [own][..0] == [];
    assert Contributions([own]) == [Explicit(own)];
  }

  lemma MeaningOfTwo(own: Pair, v: Value)
    requires own.key == LITERAL
    ensures Meaning([Explicit(own), Left(v)]) == [own]
  {
    var one := [Explicit(own)];
    assert one == [] + [Explicit(own)] && one + [Left(v)] == [Explicit(own), Left(v)];
    ExplicitStep([], own);
    assert Meaning([]) == [] && Meaning(one) == [own];
    LeftStep(one, v);
    assert LastExplicit(one, LITERAL) == Some(own.val);
    assert KeysOf(one) == [LITERAL] by {
      assert one[..0] == [];
    }
  }

  lemma {:induction false} SomeExplicit(cs: seq<Contribution>, key: Value)
    requires HasExplicit(cs, key)
    ensures LastExplicit(cs, key).Some?
  {
    var last := cs[|cs| - 1];
    if !(last.Explicit? && last.pair.key == key) {
      var c :| c in cs && c.Explicit? && c.pair.key == key;
      assert cs == cs[..|cs| - 1] + [last];
      assert c in cs[..|cs| - 1];
      SomeExplicit(cs[..|cs| - 1], key);
    }
  }

  // ----- What one more contribution changes -----

  // The slot that later leftovers still collect into.
  function Slot(cs: seq<Contribution>): Option<nat> {
    if LastExplicit(cs, LITERAL) == None && FirstImplicit(cs, LITERAL).Some?
       && FirstImplicit(cs, LITERAL).value.Left? && LITERAL in KeysOf(cs)
    then Some(IndexOf(KeysOf(cs), LITERAL))
    else None
  }

  function IndexOf(keys: seq<Value>, key: Value): (i: nat)
    requires key in keys
    ensures i < |keys| && keys[i] == key && key !in keys[..i]
  {
    if keys[0] == key then 0 else 1 + IndexOf(keys[1..], key)
  }

  lemma {:induction false} KeysAreDistinct(cs: seq<Contribution>)
    ensures Distinct(KeysOf(cs))
  {
    if cs != [] {
      KeysAreDistinct(cs[..|cs| - 1]);
    }
  }

  // Which keys are there, and where their values can come from.
  lemma KeyIsContributed(cs: seq<Contribution>, key: Value)
    ensures key in KeysOf(cs) <==> exists c <- cs :: KeyOf(c) == key
    ensures key in KeysOf(cs) <==> LastExplicit(cs, key).Some? || FirstImplicit(cs, key).Some?
    ensures var c := FirstImplicit(cs, key); c.Some? ==> KeyOf(c.value) == key && !c.value.Explicit?
    ensures key == LITERAL && Leftovers(cs) != [] ==> FirstImplicit(cs, key).Some?
    ensures FirstImplicit(cs, key).Some? && FirstImplicit(cs, key).value.Left? ==> Leftovers(cs) != []
  {
    hide KeysOf, LastExplicit, FirstImplicit, Leftovers;
    KeyHasContribution(cs, key);
    KeyHasSource(cs, key);
    LeftoverIsImplicit(cs, key);
  }

  lemma {:induction false} KeyHasContribution(cs: seq<Contribution>, key: Value)
    ensures key in KeysOf(cs) <==> exists c <- cs :: KeyOf(c) == key
  {
    if cs != [] {
      KeyHasContribution(cs[..|cs| - 1], key);
      assert cs == cs[..|cs| - 1] + [cs[|cs| - 1]];
    }
  }

  lemma {:induction false} KeyHasSource(cs: seq<Contribution>, key: Value)
    ensures key in KeysOf(cs) <==> LastExplicit(cs, key).Some? || FirstImplicit(cs, key).Some?
  {
    if cs != [] {
      KeyHasSource(cs[..|cs| - 1], key);
    }
  }

  lemma {:induction false} LeftoverIsImplicit(cs: seq<Contribution>, key: Value)
    ensures var c := FirstImplicit(cs, key); c.Some? ==> KeyOf(c.value) == key && !c.value.Explicit?
    ensures key == LITERAL && Leftovers(cs) != [] ==> FirstImplicit(cs, key).Some?
    ensures FirstImplicit(cs, key).Some? && FirstImplicit(cs, key).value.Left? ==> Leftovers(cs) != []
  {
    if cs != [] {
      LeftoverIsImplicit(cs[..|cs| - 1], key);
    }
  }

  lemma OneMore(cs: seq<Contribution>, c: Contribution)
    ensures (cs + [c])[..|cs + [c]| - 1] == cs
  {
  }

  lemma ExplicitSources(cs: seq<Contribution>, p: Pair, key: Value)
    ensures LastExplicit(cs + [Explicit(p)], key) == if p.key == key then Some(p.val) else LastExplicit(cs, key)
    ensures FirstImplicit(cs + [Explicit(p)], key) == FirstImplicit(cs, key)
    ensures Leftovers(cs + [Explicit(p)]) == Leftovers(cs)
    ensures KeysOf(cs + [Explicit(p)]) == if p.key in KeysOf(cs) then KeysOf(cs) else KeysOf(cs) + [p.key]
  {
    OneMore(cs, Explicit(p));
    assert Leftovers(cs) + [] == Leftovers(cs);
  }

  lemma ExplicitValue(cs: seq<Contribution>, p: Pair, key: Value)
    ensures ValueOf(cs + [Explicit(p)], key) == if p.key == key then p.val else ValueOf(cs, key)
  {
    ExplicitSources(cs, p, key);
  }

  lemma ExplicitReplaces(cs: seq<Contribution>, p: Pair)
    requires p.key in KeysOf(cs)
    ensures Meaning(cs + [Explicit(p)]) == Meaning(cs)[IndexOf(KeysOf(cs), p.key) := p]
  {
    var keys := KeysOf(cs);
    var r, expected := Meaning(cs + [Explicit(p)]), Meaning(cs)[IndexOf(keys, p.key) := p];
    ExplicitSources(cs, p, p.key);
    KeysAreDistinct(cs);
    forall i | 0 <= i < |keys| ensures r[i] == expected[i] {
      ExplicitValue(cs, p, keys[i]);
    }
  }

  lemma ExplicitAppends(cs: seq<Contribution>, p: Pair)
    requires p.key !in KeysOf(cs)
    ensures Meaning(cs + [Explicit(p)]) == Meaning(cs) + [p]
  {
    var keys := KeysOf(cs);
    var r := Meaning(cs + [Explicit(p)]);
    ExplicitSources(cs, p, p.key);
    ExplicitValue(cs, p, p.key);
    forall i | 0 <= i < |keys| ensures r[i] == Meaning(cs)[i] {
      assert keys[i] in keys;
      ExplicitValue(cs, p, keys[i]);
    }
  }

  // An explicit pair overrides in place or is appended.
  lemma ExplicitStep(cs: seq<Contribution>, p: Pair)
    ensures var r := Meaning(cs + [Explicit(p)]);
            var keys := KeysOf(cs);
            r == if p.key in keys then Meaning(cs)[IndexOf(keys, p.key) := p] else Meaning(cs) + [p]
  {
    if p.key in KeysOf(cs) {
      ExplicitReplaces(cs, p);
    } else {
      ExplicitAppends(cs, p);
    }
  }

  lemma ExplicitSlot(cs: seq<Contribution>, p: Pair)
    ensures Slot(cs + [Explicit(p)]) == if p.key == LITERAL then None else Slot(cs)
  {
    ExplicitSources(cs, p, LITERAL);
    if p.key != LITERAL && LITERAL in KeysOf(cs) {
      SameIndex(KeysOf(cs), p.key);
    }
  }

  // A pulled pair only fills a gap.
  lemma PulledStep(cs: seq<Contribution>, p: Pair)
    ensures Meaning(cs + [Pulled(p)]) == if p.key in KeysOf(cs) then Meaning(cs) else Meaning(cs) + [p]
  {
    OneMore(cs, Pulled(p));
    forall i | 0 <= i < |KeysOf(cs)|
      ensures ValueOf(cs + [Pulled(p)], KeysOf(cs)[i]) == ValueOf(cs, KeysOf(cs)[i])
    {
      PulledKeeps(cs, p, KeysOf(cs)[i]);
    }
    if p.key !in KeysOf(cs) {
      PulledFills(cs, p);
    }
  }

  lemma PulledFills(cs: seq<Contribution>, p: Pair)
    requires p.key !in KeysOf(cs)
    ensures ValueOf(cs + [Pulled(p)], p.key) == p.val
  {
    OneMore(cs, Pulled(p));
    KeyIsContributed(cs, p.key);
  }

  lemma PulledKeeps(cs: seq<Contribution>, p: Pair, key: Value)
    requires key in KeysOf(cs)
    ensures ValueOf(cs + [Pulled(p)], key) == ValueOf(cs, key)
  {
    OneMore(cs, Pulled(p));
    assert Leftovers(cs + [Pulled(p)]) == Leftovers(cs);
    KeyIsContributed(cs, key);
  }

  lemma PulledSources(cs: seq<Contribution>, p: Pair, key: Value)
    ensures LastExplicit(cs + [Pulled(p)], key) == LastExplicit(cs, key)
    ensures var first := FirstImplicit(cs, key);
            FirstImplicit(cs + [Pulled(p)], key) == if first == None && p.key == key then Some(Pulled(p)) else first
    ensures KeysOf(cs + [Pulled(p)]) == if p.key in KeysOf(cs) then KeysOf(cs) else KeysOf(cs) + [p.key]
  {
    OneMore(cs, Pulled(p));
  }

  lemma PulledSlot(cs: seq<Contribution>, p: Pair)
    ensures Slot(cs + [Pulled(p)]) == Slot(cs)
  {
    PulledSources(cs, p, LITERAL);
    KeyIsContributed(cs, LITERAL);
    if LITERAL in KeysOf(cs) {
      SameIndex(KeysOf(cs), p.key);
    }
  }

  lemma {:induction false} SameIndex(keys: seq<Value>, more: Value)
    requires LITERAL in keys
    ensures IndexOf(keys + [more], LITERAL) == IndexOf(keys, LITERAL)
  {
    if keys[0] != LITERAL {
      assert (keys + [more])[1..] == keys[1..] + [more];
      SameIndex(keys[1..], more);
    }
  }

  lemma LeftKeeps(cs: seq<Contribution>, v: Value, key: Value)
    requires key in KeysOf(cs) && (key != LITERAL || Slot(cs) == None)
    ensures ValueOf(cs + [Left(v)], key) == ValueOf(cs, key)
  {
    OneMore(cs, Left(v));
    KeyIsContributed(cs, key);
  }

  lemma LeftSources(cs: seq<Contribution>, v: Value)
    ensures var more, first := cs + [Left(v)], FirstImplicit(cs, LITERAL);
            && LastExplicit(more, LITERAL) == LastExplicit(cs, LITERAL)
            && FirstImplicit(more, LITERAL) == (if first == None then Some(Left(v)) else first)
            && Leftovers(more) == Leftovers(cs) + [v]
            && KeysOf(more) == (if LITERAL in KeysOf(cs) then KeysOf(cs) else KeysOf(cs) + [LITERAL])
  {
    OneMore(cs, Left(v));
  }

  // The value of the literal key once a leftover has the say.
  lemma LeftCollects(cs: seq<Contribution>, v: Value)
    requires LITERAL in KeysOf(cs) ==> Slot(cs).Some?
    ensures ValueOf(cs + [Left(v)], LITERAL) ==
              if LITERAL in KeysOf(cs) then Sequence(ItemsOf(ValueOf(cs, LITERAL)) + ItemsOf(v)) else v
  {
    LeftSources(cs, v);
    KeyIsContributed(cs, LITERAL);
    CollectStep(Leftovers(cs), v);
    assert ValueOf(cs + [Left(v)], LITERAL) == Collected(Leftovers(cs) + [v]);
  }

  lemma SlotHolds(cs: seq<Contribution>, i: nat)
    requires Slot(cs) == Some(i)
    ensures i < |Meaning(cs)| && Meaning(cs)[i].key == LITERAL && LITERAL in KeysOf(cs)
    ensures i == IndexOf(KeysOf(cs), LITERAL) && Meaning(cs)[i].val == ValueOf(cs, LITERAL)
  {
  }

  lemma LeftIsCollected(cs: seq<Contribution>, v: Value, i: nat)
    requires Slot(cs) == Some(i) && i < |Meaning(cs)|
    ensures Meaning(cs + [Left(v)]) ==
            Meaning(cs)[i := Pair(LITERAL, Sequence(ItemsOf(Meaning(cs)[i].val) + ItemsOf(v)))]
  {
    SlotHolds(cs, i);
    LeftSources(cs, v);
    KeysAreDistinct(cs);
    LeftCollects(cs, v);
    var keys, r := KeysOf(cs), Meaning(cs + [Left(v)]);
    forall k | 0 <= k < |keys| && k != i ensures r[k] == Meaning(cs)[k] {
      LeftKeeps(cs, v, keys[k]);
    }
  }

  lemma LeftIsLost(cs: seq<Contribution>, v: Value)
    requires Slot(cs) == None && LITERAL in KeysOf(cs)
    ensures Meaning(cs + [Left(v)]) == Meaning(cs)
  {
    LeftSources(cs, v);
    var keys, r := KeysOf(cs), Meaning(cs + [Left(v)]);
    forall k | 0 <= k < |keys| ensures r[k] == Meaning(cs)[k] {
      LeftKeeps(cs, v, keys[k]);
    }
  }

  lemma LeftIsFirst(cs: seq<Contribution>, v: Value)
    requires Slot(cs) == None && LITERAL !in KeysOf(cs)
    ensures Meaning(cs + [Left(v)]) == Meaning(cs) + [Pair(LITERAL, v)]
  {
    LeftSources(cs, v);
    LeftCollects(cs, v);
    var keys, r := KeysOf(cs), Meaning(cs + [Left(v)]);
    forall k | 0 <= k < |keys| ensures r[k] == Meaning(cs)[k] {
      LeftKeeps(cs, v, keys[k]);
    }
  }

  // A leftover joins the earlier ones, or claims the literal key if it is free, or is lost.
  lemma LeftStep(cs: seq<Contribution>, v: Value)
    ensures var r := Meaning(cs + [Left(v)]);
            r == if Slot(cs).Some? then
                   var i := Slot(cs).value;
                   Meaning(cs)[i := Pair(LITERAL, Sequence(ItemsOf(Meaning(cs)[i].val) + ItemsOf(v)))]
                 else if LITERAL in KeysOf(cs) then Meaning(cs)
                 else Meaning(cs) + [Pair(LITERAL, v)]
  {
    if Slot(cs).Some? {
      SlotHolds(cs, Slot(cs).value);
      LeftIsCollected(cs, v, Slot(cs).value);
    } else if LITERAL in KeysOf(cs) {
      LeftIsLost(cs, v);
    } else {
      LeftIsFirst(cs, v);
    }
  }

  lemma LeftSlot(cs: seq<Contribution>, v: Value)
    ensures Slot(cs + [Left(v)]) == if LITERAL in KeysOf(cs) then Slot(cs) else Some(|KeysOf(cs)|)
  {
    LeftSources(cs, v);
    KeyIsContributed(cs, LITERAL);
    if LITERAL !in KeysOf(cs) {
      LastIndex(KeysOf(cs));
    }
  }

  lemma {:induction false} LastIndex(keys: seq<Value>)
    requires LITERAL !in keys
    ensures IndexOf(keys + [LITERAL], LITERAL) == |keys|
  {
    if keys != [] {
      assert (keys + [LITERAL])[1..] == keys[1..] + [LITERAL];
      LastIndex(keys[1..]);
    }
  }

  lemma CollectStep(values: seq<Value>, v: Value)
    ensures values != [] ==> Collected(values + [v]) == Sequence(ItemsOf(Collected(values)) + ItemsOf(v))
    ensures values == [] ==> Collected(values + [v]) == v
  {
    assert (values + [v])[..|values|] == values;
    if |values| == 1 {
      assert values[..0] == [];
      assert Flattened(values) == ItemsOf(values[0]);
    }
  }

  // ----- The rebuild: a result and a hash index over key signatures -----

  // `index` maps the signature of each key of `result` to its slot, and nothing else.
  ghost predicate Indexed(index: map<string, nat>, result: seq<Pair>) {
    && (forall i | 0 <= i < |result| ::
          Signature(result[i].key) in index && index[Signature(result[i].key)] == i)
    && forall sig <- index :: index[sig] < |result| && Signature(result[index[sig]].key) == sig
  }

  predicate WellFormedKeys(cs: seq<Contribution>) { forall c <- cs :: WellFormed(KeyOf(c)) }

  // The index finds a key exactly when it is there, at its slot.
  lemma Lookup(index: map<string, nat>, cs: seq<Contribution>, key: Value)
    requires Indexed(index, Meaning(cs)) && WellFormedKeys(cs) && WellFormed(key)
    ensures Signature(key) in index <==> key in KeysOf(cs)
    ensures key in KeysOf(cs) ==> index[Signature(key)] == IndexOf(KeysOf(cs), key)
  {
    if key in KeysOf(cs) {
      var i := IndexOf(KeysOf(cs), key);
      assert Meaning(cs)[i].key == key;
    } else if Signature(key) in index {
      var i := index[Signature(key)];
      var other := KeysOf(cs)[i];
      assert Meaning(cs)[i].key == other;
      KeyIsContributed(cs, other);
      SignatureIsInjective(key, other);
    }
  }

  lemma Appended(index: map<string, nat>, result: seq<Pair>, p: Pair)
    requires Indexed(index, result) && Signature(p.key) !in index
    ensures Indexed(index[Signature(p.key) := |result|], result + [p])
  {
  }

  lemma Updated(index: map<string, nat>, result: seq<Pair>, i: nat, p: Pair)
    requires Indexed(index, result) && i < |result| && result[i].key == p.key
    ensures Indexed(index, result[i := p])
  {
  }

  lemma SlotOf(cs: seq<Contribution>, key: Value)
    ensures key in KeysOf(cs) && key != LITERAL ==> Slot(cs) != Some(IndexOf(KeysOf(cs), key))
    ensures key in KeysOf(cs) && key == LITERAL ==>
              Slot(cs) == None || Slot(cs) == Some(IndexOf(KeysOf(cs), key))
    ensures LITERAL !in KeysOf(cs) ==> Slot(cs) == None
  {
  }

  lemma ExplicitInPlace(index: map<string, nat>, cs: seq<Contribution>, p: Pair)
    requires Indexed(index, Meaning(cs)) && WellFormedKeys(cs) && WellFormed(p.key)
    requires Signature(p.key) in index
    ensures var i, more := index[Signature(p.key)], cs + [Explicit(p)];
            && i < |Meaning(cs)| && Meaning(cs)[i].key == p.key
            && Meaning(more) == Meaning(cs)[i := p] && Indexed(index, Meaning(more))
            && Slot(more) == (if Slot(cs) == Some(i) then None else Slot(cs))
            && WellFormedKeys(more)
  {
    Lookup(index, cs, p.key);
    ExplicitStep(cs, p);
    ExplicitSlot(cs, p);
    SlotOf(cs, p.key);
    Updated(index, Meaning(cs), index[Signature(p.key)], p);
  }

  lemma ExplicitAppended(index: map<string, nat>, cs: seq<Contribution>, p: Pair)
    requires Indexed(index, Meaning(cs)) && WellFormedKeys(cs) && WellFormed(p.key)
    requires Signature(p.key) !in index
    ensures var more := cs + [Explicit(p)];
            && Meaning(more) == Meaning(cs) + [p]
            && Indexed(index[Signature(p.key) := |Meaning(cs)|], Meaning(more))
            && Slot(more) == Slot(cs) && WellFormedKeys(more)
  {
    Lookup(index, cs, p.key);
    ExplicitStep(cs, p);
    ExplicitSlot(cs, p);
    SlotOf(cs, p.key);
    Appended(index, Meaning(cs), p);
  }

  // A pulled pair is appended, or changes nothing.
  lemma PulledIn(index: map<string, nat>, cs: seq<Contribution>, p: Pair)
    requires Indexed(index, Meaning(cs)) && WellFormedKeys(cs) && WellFormed(p.key)
    ensures var more := cs + [Pulled(p)];
            && Slot(more) == Slot(cs) && WellFormedKeys(more)
            && if Signature(p.key) in index then Meaning(more) == Meaning(cs)
               else Meaning(more) == Meaning(cs) + [p] && Indexed(index[Signature(p.key) := |Meaning(cs)|], Meaning(more))
  {
    Lookup(index, cs, p.key);
    PulledStep(cs, p);
    PulledSlot(cs, p);
    if Signature(p.key) !in index {
      Appended(index, Meaning(cs), p);
    }
  }

  // A leftover while others have the literal key: it joins them.
  lemma LeftJoins(index: map<string, nat>, cs: seq<Contribution>, v: Value, i: nat, joined: Pair)
    requires Indexed(index, Meaning(cs)) && WellFormedKeys(cs) && Slot(cs) == Some(i)
    requires i < |Meaning(cs)|
    requires joined == Pair(Meaning(cs)[i].key, Sequence(ItemsOf(Meaning(cs)[i].val) + ItemsOf(v)))
    ensures var more := cs + [Left(v)];
            && Meaning(more) == Meaning(cs)[i := joined] && Indexed(index, Meaning(more))
            && Slot(more) == Slot(cs) && WellFormedKeys(more)
  {
    SlotHolds(cs, i);
    LeftIsCollected(cs, v, i);
    LeftSlot(cs, v);
    Updated(index, Meaning(cs), i, joined);
  }

  // Otherwise it claims the literal key, or is lost to an explicit or pulled value.
  lemma LeftClaims(index: map<string, nat>, cs: seq<Contribution>, v: Value)
    requires Indexed(index, Meaning(cs)) && WellFormedKeys(cs) && Slot(cs) == None
    ensures var more := cs + [Left(v)];
            && WellFormedKeys(more)
            && if Signature(LITERAL) in index then Meaning(more) == Meaning(cs) && Slot(more) == None
               else
                 && Meaning(more) == Meaning(cs) + [Pair(LITERAL, v)] && Slot(more) == Some(|Meaning(cs)|)
                 && Indexed(index[Signature(LITERAL) := |Meaning(cs)|], Meaning(more))
  {
    Lookup(index, cs, LITERAL);
    LeftSlot(cs, v);
    if Signature(LITERAL) in index {
      LeftIsLost(cs, v);
    } else {
      LeftIsFirst(cs, v);
      Appended(index, Meaning(cs), Pair(LITERAL, v));
    }
  }

  class Rebuild {
    var result: seq<Pair>
    var index: map<string, nat>
    var preservedSlot: Option<nat>
    // What has been contributed so far.
    ghost var done: seq<Contribution>

    constructor ()
      ensures Valid() && done == []
    {
      result, index, preservedSlot, done := [], map[], None, [];
    }

    ghost predicate Valid()
      reads this
    {
      && result == Meaning(done)
      && Indexed(index, result)
      && preservedSlot == Slot(done)
      && WellFormedKeys(done)
    }

    method InsertExplicit(p: Pair)
      requires Valid() && WellFormed(p.key)
      modifies this
      ensures Valid() && done == old(done) + [Explicit(p)]
    {
      var sig := Signature(p.key);
      if sig in index {
        ExplicitInPlace(index, done, p);
        var i := index[sig];
        result := result[i := Pair(result[i].key, p.val)];
        if preservedSlot == Some(i) {
          preservedSlot := None;
        }
      } else {
        ExplicitAppended(index, done, p);
        index := index[sig := |result|];
        result := result + [p];
      }
      done := done + [Explicit(p)];
    }

    method InsertPulled(p: Pair)
      requires Valid() && WellFormed(p.key)
      modifies this
      ensures Valid() && done == old(done) + [Pulled(p)]
    {
      PulledIn(index, done, p);
      var sig := Signature(p.key);
      if sig !in index {
        index := index[sig := |result|];
        result := result + [p];
      }
      done := done + [Pulled(p)];
    }

    // A `<<` value that cannot be merged: kept under the literal key.
    method Preserve(unmerged: Value)
      requires Valid()
      modifies this
      ensures Valid() && done == old(done) + [Left(unmerged)]
    {
      match preservedSlot {
        case Some(i) => Join(i, unmerged);
        case None => Claim(unmerged);
      }
    }

    method Join(i: nat, unmerged: Value)
      requires Valid() && preservedSlot == Some(i)
      modifies this
      ensures Valid() && done == old(done) + [Left(unmerged)]
    {
      hide Meaning, Slot, Indexed, WellFormedKeys;
      SlotHolds(done, i);
      var collected := CollectPreserved(result[i].val, unmerged);
      var joined := Pair(result[i].key, collected);
      LeftJoins(index, done, unmerged, i, joined);
      result := result[i := joined];
      done := done + [Left(unmerged)];
    }

    method Claim(unmerged: Value)
      requires Valid() && preservedSlot == None
      modifies this
      ensures Valid() && done == old(done) + [Left(unmerged)]
    {
      LeftClaims(index, done, unmerged);
      if Signature(LITERAL) !in index {
        index := index[Signature(LITERAL) := |result|];
        preservedSlot := Some(|result|);
        result := result + [Pair(LITERAL, unmerged)];
      }
      done := done + [Left(unmerged)];
    }

    // Adds what a `<<` value contributes; hands back what cannot be merged.
    method MergeInto(merge: Value) returns (unmerged: Option<Value>)
      requires Valid() && WellFormed(merge)
      modifies this
      ensures Valid() && done == old(done) + Pulls(merge) && unmerged == Rest(merge)
      decreases merge, 1
    {
      match merge {
        case Mapping(pairs) =>
          var data := DedupLastWins(pairs);
          LastWinsIsWellFormed(pairs);
          PullAll(data);
          return None;
        case Sequence(items) =>
          var leftover := MergeEach(items);
          return if leftover == [] then None else Some(Sequence(leftover));
        case Null =>
          return None;
        case _ =>
          return Some(merge);
      }
    }

    method PullAll(data: seq<Pair>)
      requires Valid() && forall p <- data :: WellFormed(p.key)
      modifies this
      ensures Valid() && done == old(done) + AllPulled(data)
    {
      for i := 0 to |data|
        invariant Valid() && done == old(done) + AllPulled(data[..i])
      {
        PulledMore(data, i);
        InsertPulled(data[i]);
      }
      TakeAll(data);
    }

    method MergeEach(items: seq<Value>) returns (leftover: seq<Value>)
      requires Valid() && forall item <- items :: WellFormed(item)
      modifies this
      ensures Valid() && done == old(done) + PullsOfAll(items) && leftover == RestOfAll(items)
      decreases items, 0
    {
      hide Meaning, Slot, Indexed, WellFormedKeys;
      leftover := [];
      for i := 0 to |items|
        invariant Valid() && done == old(done) + PullsOfAll(items[..i])
        invariant leftover == RestOfAll(items[..i])
      {
        PullsOfMore(items, i);
        Regroup(old(done), PullsOfAll(items[..i]), Pulls(items[i]));
        var rest := MergeInto(items[i]);
        if rest.Some? {
          leftover := leftover + [rest.value];
        }
      }
      TakeAll(items);
    }
  }

  lemma PullsOfMore(items: seq<Value>, i: nat)
    requires i < |items|
    ensures PullsOfAll(items[..i + 1]) == PullsOfAll(items[..i]) + Pulls(items[i])
    ensures RestOfAll(items[..i + 1]) ==
            RestOfAll(items[..i]) + if Rest(items[i]).Some? then [Rest(items[i]).value] else []
  {
    OneFewer(items, i);
  }

  lemma PulledMore(pairs: seq<Pair>, i: nat)
    requires i < |pairs|
    ensures AllPulled(pairs[..i + 1]) == AllPulled(pairs[..i]) + [Pulled(pairs[i])]
  {
  }

  lemma ExplicitMore(pairs: seq<Pair>, i: nat)
    requires i < |pairs|
    ensures AllExplicit(pairs[..i + 1]) == AllExplicit(pairs[..i]) + [Explicit(pairs[i])]
  {
  }

  lemma OneFewer<T>(s: seq<T>, i: nat)
    requires i < |s|
    ensures s[..i + 1][..i] == s[..i]
  {
  }

  // A merge source as data: the last value of a repeated key counts.
  method DedupLastWins(pairs: seq<Pair>) returns (out: seq<Pair>)
    requires forall p <- pairs :: WellFormed(p.key)
    ensures out == LastWins(pairs)
  {
    var seen: map<string, nat> := map[];
    out := [];
    for i := 0 to |pairs|
      invariant out == LastWins(pairs[..i]) && Indexed(seen, out)
    {
      var p := pairs[i];
      ExplicitMore(pairs, i);
      var sig := Signature(p.key);
      if sig in seen {
        ExplicitInPlace(seen, AllExplicit(pairs[..i]), p);
        out := out[seen[sig] := Pair(out[seen[sig]].key, p.val)];
      } else {
        ExplicitAppended(seen, AllExplicit(pairs[..i]), p);
        seen := seen[sig := |out|];
        out := out + [p];
      }
    }
    TakeAll(pairs);
  }

  method CollectPreserved(existing: Value, new_: Value) returns (r: Value)
    ensures r == Sequence((if existing.Sequence? then existing.items else [existing])
                          + (if new_.Sequence? then new_.items else [new_]))
  {
    var items := if existing.Sequence? then existing.items else [existing];
    items := items + if new_.Sequence? then new_.items else [new_];
    return Sequence(items);
  }

  // ----- What is left, and what a marker becomes -----

  lemma {:induction false} RestOfBoth(a: seq<Value>, b: seq<Value>)
    ensures RestOfAll(a + b) == RestOfAll(a) + RestOfAll(b)
  {
    if b == [] {
      assert a + b == a && RestOfAll(a) + [] == RestOfAll(a);
    } else {
      var init := b[..|b| - 1];
      assert (a + b)[..|a + b| - 1] == a + init;
      RestOfBoth(a, init);
    }
  }

  // Mappings and nulls are used up, other values are left, and of a sequence those that are.
  lemma {:induction false} RestExactly(merge: Value)
    ensures merge.Mapping? || merge == Null ==> Rest(merge) == None
    ensures !merge.Mapping? && merge != Null && !merge.Sequence? ==> Rest(merge) == Some(merge)
    ensures merge.Sequence? && (forall v <- merge.items :: v.Mapping? || v == Null) ==> Rest(merge) == None
    ensures merge.Sequence? && merge.items != [] && (forall v <- merge.items :: !v.Mapping? && v != Null && !v.Sequence?) ==>
              Rest(merge) == Some(merge)
  {
    if merge.Sequence? {
      if forall v <- merge.items :: v.Mapping? || v == Null {
        UsedUp(merge.items);
      }
      if forall v <- merge.items :: !v.Mapping? && v != Null && !v.Sequence? {
        AllLeft(merge.items);
      }
    }
  }

  lemma {:induction false} UsedUp(items: seq<Value>)
    requires forall v <- items :: v.Mapping? || v == Null
    ensures RestOfAll(items) == []
  {
    if items != [] {
      assert items[|items| - 1] in items;
      UsedUp(items[..|items| - 1]);
    }
  }

  lemma {:induction false} AllLeft(items: seq<Value>)
    requires forall v <- items :: !v.Mapping? && v != Null && !v.Sequence?
    ensures RestOfAll(items) == items
  {
    if items != [] {
      var init, last := items[..|items| - 1], items[|items| - 1];
      assert last in items && items == init + [last];
      AllLeft(init);
    }
  }

  // `w` is `v` with the string `<<` for each marker in it, and nothing else changed.
  predicate Unmarked(v: Value, w: Value)
    decreases v
  {
    match v
    case Tagged(tag, inner) =>
      if tag == "tag:yaml.org,2002:merge" then w == Str("<<") else w.Tagged? && w.tag == tag && Unmarked(inner, w.inner)
    case Sequence(items) => w.Sequence? && |w.items| == |items| && forall i | 0 <= i < |items| :: Unmarked(items[i], w.items[i])
    case Mapping(pairs) =>
      w.Mapping? && |w.pairs| == |pairs|
      && forall i | 0 <= i < |pairs| :: Unmarked(pairs[i].key, w.pairs[i].key) && Unmarked(pairs[i].val, w.pairs[i].val)
    case _ => w == v
  }

  lemma {:induction false} StrippedIsUnmarked(v: Value)
    ensures Unmarked(v, Stripped(v))
    decreases v, 1
  {
    match v
    case Tagged(tag, inner) => StrippedIsUnmarked(inner);
    case Sequence(items) =>
      forall i | 0 <= i < |items| ensures Unmarked(items[i], StrippedItems(items)[i]) {
        StrippedItemAt(items, i);
        StrippedIsUnmarked(items[i]);
      }
    case Mapping(pairs) =>
      forall i | 0 <= i < |pairs|
        ensures var w := StrippedPairs(pairs)[i]; Unmarked(pairs[i].key, w.key) && Unmarked(pairs[i].val, w.val)
      {
        StrippedPairAt(pairs, i);
        StrippedIsUnmarked(pairs[i].key);
        StrippedIsUnmarked(pairs[i].val);
      }
    case _ =>
  }

  lemma {:induction false} StrippedItemAt(items: seq<Value>, i: nat)
    requires i < |items|
    ensures StrippedItems(items)[i] == Stripped(items[i])
  {
    if i > 0 {
      StrippedItemAt(items[1..], i - 1);
    }
  }

  lemma {:induction false} StrippedPairAt(pairs: seq<Pair>, i: nat)
    requires i < |pairs|
    ensures StrippedPairs(pairs)[i] == StrippedPair(pairs[i])
  {
    if i > 0 {
      StrippedPairAt(pairs[1..], i - 1);
    }
  }

  // Two deferred merges of one mapping are both kept, in order.
  lemma TwoDeferredAreKept(pairs: seq<Pair>, a: Value, b: Value)
    requires a == Tagged("!include", Str("a")) && b == Tagged("!include", Str("b"))
    requires pairs == [Pair(Tagged("tag:yaml.org,2002:merge", Str("<<")), a),
                       Pair(Tagged("tag:yaml.org,2002:merge", Str("<<")), b)]
    ensures Merged(Mapping(pairs)) == Mapping([Pair(Str("<<"), Sequence([a, b]))])
  {
    var p, q := pairs[0], pairs[1];
    assert pairs[1..] == [q] && [q][1..] == [] && MergedPairs([]) == [] && MergedPairs([q]) == [q];
    assert MergedPair(p) == p && MergedPair(q) == q && MergedPairs(pairs) == pairs && p in pairs;
    hide MergedPair, MergedPairs;
    LeftContributions(p, q);
    MeaningOfLeft(a, b);
  }

  lemma LeftContributions(p: Pair, q: Pair)
    requires IsMergeKey(p.key) && IsMergeKey(q.key) && p.val.Tagged? && q.val.Tagged?
    ensures Contributions([p, q]) == [Left(p.val), Left(q.val)]
  {
    assert [p, q][..1] == [p] && [p][..0] == [] && Contributions([]) == [];
    assert Contributions([p]) == [Left(p.val)];
  }

  lemma MeaningOfLeft(a: Value, b: Value)
    requires a.Tagged? && b.Tagged?
    ensures Meaning([Left(a), Left(b)]) == [Pair(Str("<<"), Sequence([a, b]))]
  {
    var one := [Left(a)];
    assert one == [] + [Left(a)] && one + [Left(b)] == [Left(a), Left(b)];
    LeftStep([], a);
    assert Meaning([]) == [] && KeysOf([]) == [] && Slot([]) == None && Meaning(one) == [Pair(LITERAL, a)];
    assert one[..0] == [] && FirstImplicit([], LITERAL) == None && LastExplicit([], LITERAL) == None;
    assert KeysOf(one) == [LITERAL] && FirstImplicit(one, LITERAL) == Some(Left(a)) && LastExplicit(one, LITERAL) == None;
    LeftStep(one, b);
    assert Slot(one) == Some(0) && ItemsOf(a) + ItemsOf(b) == [a, b];
    assert [Pair(LITERAL, a)][0 := Pair(LITERAL, Sequence([a, b]))] == [Pair(LITERAL, Sequence([a, b]))];
  }

  // ----- What a clean tree is, and that merging leaves one -----

  // A well-formed value that holds no merge marker.
  predicate Clean(v: Value) {
    match v
    case Sequence(items) => forall item <- items :: Clean(item)
    case Mapping(pairs) => forall p <- pairs :: Clean(p.key) && Clean(p.val)
    case Tagged(tag, inner) => tag != MERGE_TAG && Clean(inner)
    case _ => WellFormed(v)
  }

  lemma CleanIsWellFormed(v: Value)
    requires Clean(v)
    ensures WellFormed(v)
  {
  }

  lemma {:induction false} StrippedIsClean(v: Value)
    requires WellFormed(v)
    ensures Clean(Stripped(v))
    decreases v, 1
  {
    match v
    case Sequence(items) => StrippedItemsAreClean(items);
    case Mapping(pairs) => StrippedPairsAreClean(pairs);
    case Tagged(_, inner) => StrippedIsClean(inner);
    case _ =>
  }

  lemma {:induction false} StrippedItemsAreClean(items: seq<Value>)
    requires forall item <- items :: WellFormed(item)
    ensures forall item <- StrippedItems(items) :: Clean(item)
    decreases items, 0
  {
    if items != [] {
      StrippedIsClean(items[0]);
      StrippedItemsAreClean(items[1..]);
    }
  }

  lemma {:induction false} StrippedPairsAreClean(pairs: seq<Pair>)
    requires forall p <- pairs :: WellFormed(p.key) && WellFormed(p.val)
    ensures forall p <- StrippedPairs(pairs) :: Clean(p.key) && Clean(p.val)
    decreases pairs, 0
  {
    if pairs != [] {
      StrippedPairIsClean(pairs[0]);
      StrippedPairsAreClean(pairs[1..]);
    }
  }

  lemma {:induction false} StrippedPairIsClean(p: Pair)
    requires WellFormed(p.key) && WellFormed(p.val)
    ensures Clean(StrippedPair(p).key) && Clean(StrippedPair(p).val)
    decreases p, 2
  {
    StrippedIsClean(p.key);
    StrippedIsClean(p.val);
  }

  predicate CleanContribution(c: Contribution) {
    if c.Left? then Clean(c.value) else Clean(c.pair.key) && Clean(c.pair.val)
  }

  predicate AllClean(cs: seq<Contribution>) { forall c <- cs :: CleanContribution(c) }

  lemma {:induction false} SourcesAreClean(cs: seq<Contribution>, key: Value)
    requires AllClean(cs)
    ensures LastExplicit(cs, key).Some? ==> Clean(LastExplicit(cs, key).value)
    ensures FirstImplicit(cs, key).Some? ==> CleanContribution(FirstImplicit(cs, key).value)
    ensures forall v <- Leftovers(cs) :: Clean(v)
  {
    if cs != [] {
      assert cs[|cs| - 1] in cs;
      assert forall c <- cs[..|cs| - 1] :: c in cs;
      SourcesAreClean(cs[..|cs| - 1], key);
    }
  }

  lemma {:induction false} FlattenedIsClean(values: seq<Value>)
    requires forall v <- values :: Clean(v)
    ensures forall v <- Flattened(values) :: Clean(v)
  {
    if values != [] {
      assert values[|values| - 1] in values;
      assert forall v <- values[..|values| - 1] :: v in values;
      FlattenedIsClean(values[..|values| - 1]);
    }
  }

  lemma MeaningIsClean(cs: seq<Contribution>)
    requires AllClean(cs)
    ensures forall p <- Meaning(cs) :: Clean(p.key) && Clean(p.val)
  {
    forall i | 0 <= i < |Meaning(cs)|
      ensures Clean(Meaning(cs)[i].key) && Clean(Meaning(cs)[i].val)
    {
      var key := KeysOf(cs)[i];
      KeyIsContributed(cs, key);
      SourcesAreClean(cs, key);
      FlattenedIsClean(Leftovers(cs));
    }
  }

  lemma LastWinsIsClean(pairs: seq<Pair>)
    requires forall p <- pairs :: Clean(p.key) && Clean(p.val)
    ensures forall p <- LastWins(pairs) :: Clean(p.key) && Clean(p.val)
  {
    MeaningIsClean(AllExplicit(pairs));
  }

  lemma LastWinsIsWellFormed(pairs: seq<Pair>)
    requires forall p <- pairs :: WellFormed(p.key)
    ensures forall p <- LastWins(pairs) :: WellFormed(p.key)
  {
    var cs := AllExplicit(pairs);
    forall i | 0 <= i < |LastWins(pairs)| ensures WellFormed(LastWins(pairs)[i].key) {
      KeyIsContributed(cs, KeysOf(cs)[i]);
    }
  }

  lemma {:induction false} PullsAreClean(merge: Value)
    requires Clean(merge)
    ensures AllClean(Pulls(merge)) && (Rest(merge).Some? ==> Clean(Rest(merge).value))
    decreases merge, 1
  {
    match merge
    case Mapping(pairs) => LastWinsIsClean(pairs);
    case Sequence(items) => PullsOfAllAreClean(items);
    case _ =>
  }

  lemma {:induction false} PullsOfAllAreClean(items: seq<Value>)
    requires forall item <- items :: Clean(item)
    ensures AllClean(PullsOfAll(items)) && forall v <- RestOfAll(items) :: Clean(v)
    decreases items, 0
  {
    if items != [] {
      PullsAreClean(items[|items| - 1]);
      PullsOfAllAreClean(items[..|items| - 1]);
    }
  }

  lemma {:induction false} ContributionsAreClean(pairs: seq<Pair>)
    requires forall p <- pairs :: (IsMergeKey(p.key) || Clean(p.key)) && Clean(p.val)
    ensures AllClean(Contributions(pairs))
  {
    if pairs != [] {
      ContributionsAreClean(pairs[..|pairs| - 1]);
      PullsAreClean(pairs[|pairs| - 1].val);
    }
  }

  // No merge marker survives anywhere in the result.
  lemma {:induction false} MergedIsClean(v: Value)
    requires WellFormed(v)
    ensures Clean(Merged(v))
    decreases v, 1
  {
    match v
    case Sequence(items) => MergedItemsAreClean(items);
    case Mapping(pairs) =>
      MergedPairsAreClean(pairs);
      var ps := MergedPairs(pairs);
      ContributionsAreClean(ps);
      MeaningIsClean(Contributions(ps));
    case Tagged(_, inner) => MergedIsClean(inner);
    case _ =>
  }

  lemma {:induction false} MergedItemsAreClean(items: seq<Value>)
    requires forall item <- items :: WellFormed(item)
    ensures forall item <- MergedItems(items) :: Clean(item)
    decreases items, 0
  {
    if items != [] {
      MergedIsClean(items[0]);
      MergedItemsAreClean(items[1..]);
    }
  }

  lemma {:induction false} MergedPairsAreClean(pairs: seq<Pair>)
    requires forall p <- pairs :: WellFormed(p.key) && WellFormed(p.val)
    ensures forall p <- MergedPairs(pairs) :: (IsMergeKey(p.key) || Clean(p.key)) && Clean(p.val)
    decreases pairs, 0
  {
    if pairs != [] {
      MergedPairIsClean(pairs[0]);
      MergedPairsAreClean(pairs[1..]);
    }
  }

  lemma {:induction false} MergedPairIsClean(p: Pair)
    requires WellFormed(p.key) && WellFormed(p.val)
    ensures IsMergeKey(MergedPair(p).key) || Clean(MergedPair(p).key)
    ensures Clean(MergedPair(p).val)
    decreases p, 2
  {
    StrippedIsClean(p.key);
    MergedIsClean(p.val);
  }

  // On a clean tree there is nothing to do; so merging twice is merging once.
  lemma {:induction false} CleanIsStripped(v: Value)
    requires Clean(v)
    ensures Stripped(v) == v
    decreases v, 1
  {
    match v
    case Sequence(items) =>
      CleanItems(items);
    case Mapping(pairs) =>
      CleanPairs(pairs);
    case Tagged(_, inner) => CleanIsStripped(inner);
    case _ =>
  }

  lemma {:induction false} CleanItems(items: seq<Value>)
    requires forall item <- items :: Clean(item)
    ensures StrippedItems(items) == items
    decreases items, 0
  {
    if items != [] {
      CleanIsStripped(items[0]);
      CleanItems(items[1..]);
    }
  }

  lemma {:induction false} CleanPairs(pairs: seq<Pair>)
    requires forall p <- pairs :: Clean(p.key) && Clean(p.val)
    ensures StrippedPairs(pairs) == pairs
    decreases pairs, 0
  {
    if pairs != [] {
      CleanPair(pairs[0]);
      CleanPairs(pairs[1..]);
    }
  }

  lemma {:induction false} CleanPair(p: Pair)
    requires Clean(p.key) && Clean(p.val)
    ensures StrippedPair(p) == p
    decreases p, 2
  {
    CleanIsStripped(p.key);
    CleanIsStripped(p.val);
  }

  lemma {:induction false} CleanIsMerged(v: Value)
    requires Clean(v)
    ensures Merged(v) == v
    decreases v, 1
  {
    hide Stripped, Meaning, Contributions;
    match v
    case Sequence(items) => CleanItemsMerged(items);
    case Mapping(pairs) => CleanPairsMerged(pairs);
    case Tagged(_, inner) => CleanIsMerged(inner);
    case _ =>
  }

  lemma {:induction false} CleanItemsMerged(items: seq<Value>)
    requires forall item <- items :: Clean(item)
    ensures MergedItems(items) == items
    decreases items, 0
  {
    if items != [] {
      CleanIsMerged(items[0]);
      CleanItemsMerged(items[1..]);
    }
  }

  lemma {:induction false} CleanPairsMerged(pairs: seq<Pair>)
    requires forall p <- pairs :: Clean(p.key) && Clean(p.val)
    ensures MergedPairs(pairs) == pairs
    decreases pairs, 0
  {
    if pairs != [] {
      CleanPairMerged(pairs[0]);
      CleanPairsMerged(pairs[1..]);
    }
  }

  lemma {:induction false} CleanPairMerged(p: Pair)
    requires Clean(p.key) && Clean(p.val)
    ensures MergedPair(p) == p
    decreases p, 2
  {
    CleanIsStripped(p.key);
    CleanIsMerged(p.val);
  }

  lemma MergingIsIdempotent(v: Value)
    requires WellFormed(v)
    ensures Merged(Merged(v)) == Merged(v)
  {
    MergedIsClean(v);
    CleanIsMerged(Merged(v));
  }

  // ----- Merging never grows the tree -----

  // What a contribution can add at most: a leftover also pays for a sequence around it.
  function Weight(c: Contribution): nat {
    if c.Left? then 1 + CountNodes(c.value) else CountPair(c.pair)
  }

  function WeightOf(cs: seq<Contribution>): nat {
    if cs == [] then 0 else WeightOf(cs[..|cs| - 1]) + Weight(cs[|cs| - 1])
  }

  lemma {:induction false} WeightOfMore(cs: seq<Contribution>, more: seq<Contribution>)
    ensures WeightOf(cs + more) == WeightOf(cs) + WeightOf(more)
  {
    if more == [] {
      assert cs + more == cs;
    } else {
      var all := cs + more;
      assert all[..|all| - 1] == cs + more[..|more| - 1];
      WeightOfMore(cs, more[..|more| - 1]);
    }
  }

  lemma {:induction false} CountUpdated(pairs: seq<Pair>, i: nat, p: Pair)
    requires i < |pairs|
    ensures CountPairs(pairs[i := p]) == CountPairs(pairs) - CountPair(pairs[i]) + CountPair(p)
  {
    if i == 0 {
      assert pairs[0 := p][1..] == pairs[1..];
    } else {
      assert pairs[i := p][1..] == pairs[1..][i - 1 := p];
      CountUpdated(pairs[1..], i - 1, p);
    }
  }

  lemma CountOneAppended(pairs: seq<Pair>, p: Pair)
    ensures CountPairs(pairs + [p]) == CountPairs(pairs) + CountPair(p)
  {
    CountMorePairs(pairs, [p]);
    assert [p][1..] == [];
  }

  lemma CountOfItems(v: Value)
    ensures CountItems(ItemsOf(v)) <= CountNodes(v)
    ensures v.Sequence? ==> 1 + CountItems(ItemsOf(v)) == CountNodes(v)
  {
    if !v.Sequence? {
      assert [v][1..] == [];
    }
  }

  lemma OneMoreWeighs(cs: seq<Contribution>, c: Contribution)
    ensures CountPairs(Meaning(cs + [c])) <= CountPairs(Meaning(cs)) + Weight(c)
  {
    KeysAreDistinct(cs);
    match c
    case Explicit(p) =>
      ExplicitStep(cs, p);
      CountOneAppended(Meaning(cs), p);
      if p.key in KeysOf(cs) {
        CountUpdated(Meaning(cs), IndexOf(KeysOf(cs), p.key), p);
      }
    case Pulled(p) =>
      PulledStep(cs, p);
      CountOneAppended(Meaning(cs), p);
    case Left(v) =>
      LeftStep(cs, v);
      if Slot(cs).Some? {
        var i := Slot(cs).value;
        var old_ := Meaning(cs)[i].val;
        CountMoreItems(ItemsOf(old_), ItemsOf(v));
        CountOfItems(old_);
        CountOfItems(v);
        CountUpdated(Meaning(cs), i, Pair(LITERAL, Sequence(ItemsOf(old_) + ItemsOf(v))));
      } else {
        CountOneAppended(Meaning(cs), Pair(LITERAL, v));
      }
  }

  lemma {:induction false} MeaningWeighs(cs: seq<Contribution>)
    ensures CountPairs(Meaning(cs)) <= WeightOf(cs)
  {
    if cs != [] {
      var n := |cs| - 1;
      assert cs == cs[..n] + [cs[n]];
      MeaningWeighs(cs[..n]);
      OneMoreWeighs(cs[..n], cs[n]);
    }
  }

  lemma {:induction false} SnocPairs(pairs: seq<Pair>)
    requires pairs != []
    ensures CountPairs(pairs) == CountPairs(pairs[..|pairs| - 1]) + CountPair(pairs[|pairs| - 1])
  {
    assert pairs == pairs[..|pairs| - 1] + [pairs[|pairs| - 1]];
    CountOneAppended(pairs[..|pairs| - 1], pairs[|pairs| - 1]);
  }

  lemma {:induction false} PlainWeights(pairs: seq<Pair>)
    ensures WeightOf(AllExplicit(pairs)) == CountPairs(pairs) == WeightOf(AllPulled(pairs))
  {
    if pairs != [] {
      var n := |pairs| - 1;
      assert AllExplicit(pairs)[..n] == AllExplicit(pairs[..n]);
      assert AllPulled(pairs)[..n] == AllPulled(pairs[..n]);
      PlainWeights(pairs[..n]);
      SnocPairs(pairs);
    }
  }

  function RestCount(rest: Option<Value>): nat { if rest.Some? then CountNodes(rest.value) else 0 }

  lemma {:induction false} PullsWeigh(merge: Value)
    ensures WeightOf(Pulls(merge)) + RestCount(Rest(merge)) <= CountNodes(merge)
    decreases merge, 1
  {
    match merge
    case Mapping(pairs) =>
      PlainWeights(pairs);
      MeaningWeighs(AllExplicit(pairs));
      PlainWeights(LastWins(pairs));
    case Sequence(items) => PullsOfAllWeigh(items);
    case _ =>
  }

  lemma {:induction false} PullsOfAllWeigh(items: seq<Value>)
    ensures WeightOf(PullsOfAll(items)) + CountItems(RestOfAll(items)) <= CountItems(items)
    decreases items, 0
  {
    if items != [] {
      var n := |items| - 1;
      assert items == items[..n] + [items[n]];
      CountOneMore(items[..n], items[n]);
      PullsOfAllWeigh(items[..n]);
      PullsWeigh(items[n]);
      WeightOfMore(PullsOfAll(items[..n]), Pulls(items[n]));
      if Rest(items[n]).Some? {
        CountOneMore(RestOfAll(items[..n]), Rest(items[n]).value);
      } else {
        assert RestOfAll(items) == RestOfAll(items[..n]);
      }
    }
  }

  lemma {:induction false} ContributionsWeigh(pairs: seq<Pair>)
    ensures WeightOf(Contributions(pairs)) <= CountPairs(pairs)
  {
    if pairs != [] {
      var n := |pairs| - 1;
      SnocPairs(pairs);
      ContributionsWeigh(pairs[..n]);
      OneContributionWeighs(pairs[n]);
      WeightOfMore(Contributions(pairs[..n]), ContributionsOf(pairs[n]));
    }
  }

  lemma OneContributionWeighs(p: Pair)
    ensures WeightOf(ContributionsOf(p)) <= CountPair(p)
  {
    if IsMergeKey(p.key) {
      PullsWeigh(p.val);
      if Rest(p.val).Some? {
        WeightOfMore(Pulls(p.val), [Left(Rest(p.val).value)]);
        assert [Left(Rest(p.val).value)][..0] == [];
      } else {
        assert Pulls(p.val) + [] == Pulls(p.val);
      }
    } else {
      assert [Explicit(p)][..0] == [];
    }
  }

  lemma {:induction false} StrippedIsNoBigger(v: Value)
    ensures CountNodes(Stripped(v)) <= CountNodes(v)
    decreases v, 1
  {
    match v
    case Sequence(items) => StrippedItemsAreNoBigger(items);
    case Mapping(pairs) => StrippedPairsAreNoBigger(pairs);
    case Tagged(_, inner) => StrippedIsNoBigger(inner);
    case _ =>
  }

  lemma {:induction false} StrippedItemsAreNoBigger(items: seq<Value>)
    ensures CountItems(StrippedItems(items)) <= CountItems(items)
    decreases items, 0
  {
    if items != [] {
      StrippedIsNoBigger(items[0]);
      StrippedItemsAreNoBigger(items[1..]);
    }
  }

  lemma {:induction false} StrippedPairsAreNoBigger(pairs: seq<Pair>)
    ensures CountPairs(StrippedPairs(pairs)) <= CountPairs(pairs)
    decreases pairs, 0
  {
    if pairs != [] {
      StrippedPairIsNoBigger(pairs[0]);
      StrippedPairsAreNoBigger(pairs[1..]);
    }
  }

  lemma {:induction false} StrippedPairIsNoBigger(p: Pair)
    ensures CountPair(StrippedPair(p)) <= CountPair(p)
    decreases p, 2
  {
    StrippedIsNoBigger(p.key);
    StrippedIsNoBigger(p.val);
  }

  // The node count never grows, so a bound on the decoder's output survives merging.
  lemma {:induction false} MergedIsNoBigger(v: Value)
    ensures CountNodes(Merged(v)) <= CountNodes(v)
    decreases v, 1
  {
    match v
    case Sequence(items) => MergedItemsAreNoBigger(items);
    case Mapping(pairs) =>
      MergedPairsAreNoBigger(pairs);
      var ps := MergedPairs(pairs);
      ContributionsWeigh(ps);
      MeaningWeighs(Contributions(ps));
    case Tagged(_, inner) => MergedIsNoBigger(inner);
    case _ =>
  }

  lemma {:induction false} MergedItemsAreNoBigger(items: seq<Value>)
    ensures CountItems(MergedItems(items)) <= CountItems(items)
    decreases items, 0
  {
    if items != [] {
      MergedIsNoBigger(items[0]);
      MergedItemsAreNoBigger(items[1..]);
    }
  }

  lemma {:induction false} MergedPairsAreNoBigger(pairs: seq<Pair>)
    ensures CountPairs(MergedPairs(pairs)) <= CountPairs(pairs)
    decreases pairs, 0
  {
    if pairs != [] {
      MergedPairIsNoBigger(pairs[0]);
      MergedPairsAreNoBigger(pairs[1..]);
    }
  }

  lemma {:induction false} MergedPairIsNoBigger(p: Pair)
    ensures CountPair(MergedPair(p)) <= CountPair(p)
    decreases p, 2
  {
    StrippedIsNoBigger(p.key);
    MergedIsNoBigger(p.val);
  }

  // ----- Walking the tree -----

  method StripMergeMarkers(v: Value) returns (r: Value)
    ensures r == Stripped(v)
    decreases v, 1
  {
    match v {
      case Tagged(tag, inner) =>
        if tag == MERGE_TAG {
          return LITERAL;
        }
        var stripped := StripMergeMarkers(inner);
        return Tagged(tag, stripped);
      case Sequence(items) =>
        var out: seq<Value> := [];
        for i := 0 to |items|
          invariant out + StrippedItems(items[i..]) == StrippedItems(items)
        {
          var item := StripMergeMarkers(items[i]);
          assert items[i..][1..] == items[i + 1..];
          out := out + [item];
        }
        return Sequence(out);
      case Mapping(pairs) =>
        var out: seq<Pair> := [];
        for i := 0 to |pairs|
          invariant out + StrippedPairs(pairs[i..]) == StrippedPairs(pairs)
        {
          var key := StripMergeMarkers(pairs[i].key);
          var val := StripMergeMarkers(pairs[i].val);
          assert pairs[i..][1..] == pairs[i + 1..];
          out := out + [Pair(key, val)];
        }
        return Mapping(out);
      case _ =>
        return v;
    }
  }

  method ApplyMergeKeys(v: Value) returns (r: Value)
    requires WellFormed(v)
    ensures r == Merged(v)
    decreases v, 1
  {
    match v {
      case Mapping(pairs) =>
        var ps := ApplyToPairs(pairs);
        var any := false;
        for i := 0 to |ps|
          invariant any <==> HasMergeKey(ps[..i])
        {
          TakeMore(ps, i);
          any := any || IsMergeKey(ps[i].key);
        }
        TakeAll(ps);
        if !any {
          return Mapping(ps);
        }
        MergedPairsAreWellFormed(pairs);
        var rebuilt := RebuildPairs(ps);
        return Mapping(rebuilt);
      case Sequence(items) =>
        var out: seq<Value> := [];
        for i := 0 to |items|
          invariant out + MergedItems(items[i..]) == MergedItems(items)
        {
          var item := ApplyMergeKeys(items[i]);
          assert items[i..][1..] == items[i + 1..];
          out := out + [item];
        }
        return Sequence(out);
      case Tagged(tag, inner) =>
        if tag == MERGE_TAG {
          return LITERAL;
        }
        var merged := ApplyMergeKeys(inner);
        return Tagged(tag, merged);
      case _ =>
        return v;
    }
  }

  method ApplyToPairs(pairs: seq<Pair>) returns (out: seq<Pair>)
    requires forall p <- pairs :: WellFormed(p.key) && WellFormed(p.val)
    ensures out == MergedPairs(pairs)
    decreases pairs, 0
  {
    out := [];
    for i := 0 to |pairs|
      invariant out + MergedPairs(pairs[i..]) == MergedPairs(pairs)
    {
      var p := ApplyToPair(pairs[i]);
      assert pairs[i..][1..] == pairs[i + 1..];
      out := out + [p];
    }
  }

  method ApplyToPair(p: Pair) returns (r: Pair)
    requires WellFormed(p.key) && WellFormed(p.val)
    ensures r == MergedPair(p)
    decreases p, 2
  {
    var key := p.key;
    if !IsMergeKey(key) {
      key := StripMergeMarkers(key);
    }
    var val := ApplyMergeKeys(p.val);
    return Pair(key, val);
  }

  lemma MergedPairsAreWellFormed(pairs: seq<Pair>)
    requires forall p <- pairs :: WellFormed(p.key) && WellFormed(p.val)
    ensures forall p <- MergedPairs(pairs) ::
              (!IsMergeKey(p.key) ==> WellFormed(p.key)) && WellFormed(p.val)
  {
    MergedPairsAreClean(pairs);
    forall p <- MergedPairs(pairs)
      ensures (!IsMergeKey(p.key) ==> WellFormed(p.key)) && WellFormed(p.val)
    {
      CleanIsWellFormed(p.val);
      if !IsMergeKey(p.key) {
        CleanIsWellFormed(p.key);
      }
    }
  }

  // The mapping rebuilt in source order.
  method RebuildPairs(ps: seq<Pair>) returns (r: seq<Pair>)
    requires forall p <- ps :: (!IsMergeKey(p.key) ==> WellFormed(p.key)) && WellFormed(p.val)
    ensures r == Meaning(Contributions(ps))
  {
    hide Meaning, Slot, Indexed, WellFormedKeys, Pulls, Rest;
    var rebuild := new Rebuild();
    for i := 0 to |ps|
      invariant rebuild.Valid() && fresh(rebuild)
      invariant rebuild.done == Contributions(ps[..i])
    {
      var p := ps[i];
      OneFewer(ps, i);
      if IsMergeKey(p.key) {
        var unmerged := rebuild.MergeInto(p.val);
        if unmerged.Some? {
          rebuild.Preserve(unmerged.value);
        }
      } else {
        rebuild.InsertExplicit(p);
      }
    }
    TakeAll(ps);
    return rebuild.result;
  }
}
