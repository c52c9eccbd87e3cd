// What one mapping with merge keys becomes, told from its pairs and the mappings that its
// `<<` values name (src/decode/merge.rs).
module MergedMappings {
  import opened Wrappers
  import opened Seqs
  import opened Values
  import opened Merge

  // ----- A mapping's pairs, its sources, and what cannot be merged -----

  // The mappings that a `<<` value names: itself, or those of its elements in turn.
  function SourcesOf(merge: Value): seq<seq<Pair>>
    decreases merge, 1
  {
    match merge
    case Mapping(pairs) => [pairs]
    case Sequence(items) => SourcesOfAll(items)
    case _ => []
  }

  function SourcesOfAll(items: seq<Value>): seq<seq<Pair>>
    decreases items, 0
  {
    if items == [] then [] else SourcesOfAll(items[..|items| - 1]) + SourcesOf(items[|items| - 1])
  }

  function Sources(pairs: seq<Pair>): seq<seq<Pair>> {
    if pairs == [] then []
    else
      var p := pairs[|pairs| - 1];
      Sources(pairs[..|pairs| - 1]) + if IsMergeKey(p.key) then SourcesOf(Merged(p.val)) else []
  }

  predicate LeavesSome(p: Pair) { IsMergeKey(p.key) && Rest(Merged(p.val)).Some? }

  function Unmerged(pairs: seq<Pair>): seq<Value> {
    if pairs == [] then []
    else
      var p := pairs[|pairs| - 1];
      Unmerged(pairs[..|pairs| - 1]) + if LeavesSome(p) then [Rest(Merged(p.val)).value] else []
  }

  // The value of the last pair that writes a key out.
  function LastWritten(pairs: seq<Pair>, key: Value): Option<Value> {
    if pairs == [] then None
    else
      var p := pairs[|pairs| - 1];
      if !IsMergeKey(p.key) && Stripped(p.key) == key then Some(Merged(p.val))
      else LastWritten(pairs[..|pairs| - 1], key)
  }

  function LastIn(source: seq<Pair>, key: Value): Option<Value> {
    if source == [] then None
    else
      var p := source[|source| - 1];
      if p.key == key then Some(p.val) else LastIn(source[..|source| - 1], key)
  }

  // The value of a key in the first source that holds it.
  function FirstHeld(sources: seq<seq<Pair>>, key: Value): Option<Value> {
    if sources == [] then None
    else
      var earlier := FirstHeld(sources[..|sources| - 1], key);
      if earlier.Some? then earlier else LastIn(sources[|sources| - 1], key)
  }

  // Something that cannot be merged comes before every source with a literal `<<`.
  predicate LeftComesFirst(pairs: seq<Pair>) { exists i | 0 <= i < |pairs| :: IsFirstLeft(pairs, i) }

  predicate IsFirstLeft(pairs: seq<Pair>, i: nat)
    requires i < |pairs|
  {
    LeavesSome(pairs[i]) && FirstHeld(Sources(pairs[..i + 1]), LITERAL) == None
  }

  // ----- What becomes of it -----

  function KeysIn(pairs: seq<Pair>): seq<Value> { seq(|pairs|, i requires 0 <= i < |pairs| => pairs[i].key) }

  function KeysInAll(sources: seq<seq<Pair>>): seq<Value> {
    if sources == [] then [] else KeysInAll(sources[..|sources| - 1]) + KeysIn(sources[|sources| - 1])
  }

  // What several values become when they must share one key: a single one stays, more are a
  // sequence, in which a sequence among them has its own elements at its place.
  function Together(values: seq<Value>): Value {
    if |values| == 1 then values[0] else Sequence(Elements(values))
  }

  function Elements(values: seq<Value>): seq<Value> {
    if values == [] then []
    else
      match values[0]
      case Sequence(items) => items + Elements(values[1..])
      case _ => [values[0]] + Elements(values[1..])
  }

  // The keys in document order, those of the sources at their `<<`.
  function Offered(pairs: seq<Pair>): seq<Value> {
    if pairs == [] then [] else Offered(pairs[..|pairs| - 1]) + OfferedBy(pairs[|pairs| - 1])
  }

  function OfferedBy(p: Pair): seq<Value> {
    if !IsMergeKey(p.key) then [Stripped(p.key)]
    else KeysInAll(SourcesOf(Merged(p.val))) + if LeavesSome(p) then [LITERAL] else []
  }

  // Written out: the last value. Else that of the first source, but for a `<<` that holds
  // what could not be merged.
  function Chosen(pairs: seq<Pair>, key: Value): Value {
    if LastWritten(pairs, key).Some? then LastWritten(pairs, key).value
    else if FirstHeld(Sources(pairs), key).Some? && !(key == LITERAL && LeftComesFirst(pairs))
    then FirstHeld(Sources(pairs), key).value
    else Together(Unmerged(pairs))
  }

  // ----- Contributions put together -----

  function Names(cs: seq<Contribution>): seq<Value> { seq(|cs|, i requires 0 <= i < |cs| => KeyOf(cs[i])) }

  lemma {:induction false} KeysAreUniques(cs: seq<Contribution>)
    ensures KeysOf(cs) == Uniques(Names(cs))
  {
    if cs != [] {
      KeysAreUniques(cs[..|cs| - 1]);
      assert Names(cs)[..|cs| - 1] == Names(cs[..|cs| - 1]);
    }
  }

  lemma {:induction false} Joined(a: seq<Contribution>, b: seq<Contribution>, key: Value)
    ensures LastExplicit(a + b, key) ==
            if LastExplicit(b, key).Some? then LastExplicit(b, key) else LastExplicit(a, key)
    ensures FirstImplicit(a + b, key) ==
            if FirstImplicit(a, key).Some? then FirstImplicit(a, key) else FirstImplicit(b, key)
    ensures Leftovers(a + b) == Leftovers(a) + Leftovers(b)
  {
    if b == [] {
      assert a + b == a && Leftovers(a) + [] == Leftovers(a);
    } else {
      var init := b[..|b| - 1];
      assert (a + b)[..|a + b| - 1] == a + init;
      Joined(a, init, key);
    }
  }

  lemma {:induction false} FirstHeldJoined(a: seq<seq<Pair>>, b: seq<seq<Pair>>, key: Value)
    ensures FirstHeld(a + b, key) == if FirstHeld(a, key).Some? then FirstHeld(a, key) else FirstHeld(b, key)
  {
    if b == [] {
      assert a + b == a;
    } else {
      var init := b[..|b| - 1];
      assert (a + b)[..|a + b| - 1] == a + init;
      FirstHeldJoined(a, init, key);
    }
  }

  lemma {:induction false} KeysInJoined(a: seq<seq<Pair>>, b: seq<seq<Pair>>)
    ensures KeysInAll(a + b) == KeysInAll(a) + KeysInAll(b)
  {
    hide KeysIn;
    if b == [] {
      assert a + b == a && KeysInAll(a) + [] == KeysInAll(a);
    } else {
      var n := |b| - 1;
      assert (a + b)[..|a + b| - 1] == a + b[..n] && (a + b)[|a + b| - 1] == b[n];
      KeysInJoined(a, b[..n]);
      Regroup(KeysInAll(a), KeysInAll(b[..n]), KeysIn(b[n]));
    }
  }

  // ----- Leftovers -----

  lemma {:induction false} ElementsJoined(a: seq<Value>, b: seq<Value>)
    ensures Elements(a + b) == Elements(a) + Elements(b)
  {
    if a == [] {
      assert a + b == b;
    } else {
      assert (a + b)[1..] == a[1..] + b;
      ElementsJoined(a[1..], b);
    }
  }

  lemma {:induction false} FlattenedElements(values: seq<Value>)
    ensures Flattened(values) == Elements(values)
  {
    if values != [] {
      var init, last := values[..|values| - 1], values[|values| - 1];
      FlattenedElements(init);
      assert values == init + [last] && [last][1..] == [];
      ElementsJoined(init, [last]);
      assert Elements([]) == [];
    }
  }

  lemma CollectedTogether(values: seq<Value>)
    ensures Collected(values) == Together(values)
  {
    FlattenedElements(values);
  }

  // Values of which none is a sequence are kept as they are, in order.
  lemma {:induction false} PlainElements(values: seq<Value>)
    requires forall v <- values :: !v.Sequence?
    ensures Elements(values) == values
  {
    if values != [] {
      PlainElements(values[1..]);
      assert [values[0]] + values[1..] == values;
    }
  }

  // What cannot be merged is kept whole under the literal key, where the key is free: two or
  // more values of which none is a sequence as a sequence of just those values.
  lemma LeftoversStayWhole(cs: seq<Contribution>)
    requires !HasExplicit(cs, Str("<<")) && |Leftovers(cs)| >= 2
    requires FirstAt(cs, Str("<<")) < |cs| && cs[FirstAt(cs, Str("<<"))].Left?
    requires forall v <- Leftovers(cs) :: !v.Sequence?
    ensures ValueOf(cs, Str("<<")) == Sequence(Leftovers(cs))
  {
    LeftoversAreKeptExactly(cs);
    CollectedTogether(Leftovers(cs));
    PlainElements(Leftovers(cs));
  }

  // And a sequence among them gives its own elements at its place.
  lemma LeftoverSequenceStays(cs: seq<Contribution>, before: seq<Value>, items: seq<Value>, after: seq<Value>)
    requires !HasExplicit(cs, Str("<<")) && Leftovers(cs) == before + [Sequence(items)] + after && |before + after| >= 1
    requires FirstAt(cs, Str("<<")) < |cs| && cs[FirstAt(cs, Str("<<"))].Left?
    requires forall v <- before + after :: !v.Sequence?
    ensures ValueOf(cs, Str("<<")) == Sequence(before + items + after)
  {
    hide Elements, Leftovers, ValueOf, HasExplicit, FirstAt;
    LeftoversAreKeptExactly(cs);
    CollectedTogether(Leftovers(cs));
    ElementsAround(before, items, after);
  }

  lemma ElementsAround(before: seq<Value>, items: seq<Value>, after: seq<Value>)
    requires forall v <- before + after :: !v.Sequence?
    ensures Elements(before + [Sequence(items)] + after) == before + items + after
  {
    assert forall v <- before :: v in before + after;
    assert forall v <- after :: v in before + after;
    PlainElements(before);
    PlainElements(after);
    assert [Sequence(items)][1..] == [] && Elements([Sequence(items)]) == items + [];
    hide Elements;
    ElementsJoined(before + [Sequence(items)], after);
    ElementsJoined(before, [Sequence(items)]);
  }

  // ----- One source -----

  lemma {:induction false} WrittenOut(pairs: seq<Pair>, key: Value)
    ensures LastExplicit(AllExplicit(pairs), key) == LastIn(pairs, key)
    ensures FirstImplicit(AllExplicit(pairs), key) == None
    ensures Names(AllExplicit(pairs)) == KeysIn(pairs)
  {
    if pairs != [] {
      var init := pairs[..|pairs| - 1];
      assert AllExplicit(pairs)[..|pairs| - 1] == AllExplicit(init);
      WrittenOut(init, key);
    }
  }

  // The first pair with a key is the one pulled in.
  lemma {:induction false} PulledPairs(pairs: seq<Pair>, key: Value)
    ensures LastExplicit(AllPulled(pairs), key) == None
    ensures Leftovers(AllPulled(pairs)) == []
    ensures Names(AllPulled(pairs)) == KeysIn(pairs)
    ensures key in KeysIn(pairs) ==>
              exists i | 0 <= i < |pairs| ::
                pairs[i].key == key && FirstImplicit(AllPulled(pairs), key) == Some(Pulled(pairs[i]))
    ensures key !in KeysIn(pairs) ==> FirstImplicit(AllPulled(pairs), key) == None
  {
    if pairs != [] {
      var init := pairs[..|pairs| - 1];
      assert AllPulled(pairs)[..|pairs| - 1] == AllPulled(init);
      assert KeysIn(pairs) == KeysIn(init) + [pairs[|pairs| - 1].key];
      PulledPairs(init, key);
    }
  }

  // What a merge value pulls in, key by key.
  ghost predicate PullsFrom(cs: seq<Contribution>, sources: seq<seq<Pair>>, key: Value) {
    && LastExplicit(cs, key) == None && Leftovers(cs) == []
    && Uniques(Names(cs)) == Uniques(KeysInAll(sources))
    && FirstImplicit(cs, key) ==
       match FirstHeld(sources, key) case None => None case Some(val) => Some(Pulled(Pair(key, val)))
  }

  lemma PullsOfSource(pairs: seq<Pair>, key: Value)
    ensures PullsFrom(AllPulled(LastWins(pairs)), [pairs], key)
  {
    var cs, data := AllExplicit(pairs), LastWins(pairs);
    WrittenOut(pairs, key);
    KeyIsContributed(cs, key);
    PulledPairs(data, key);
    KeysAreUniques(cs);
    assert KeysIn(data) == KeysOf(cs);
    assert [pairs][..0] == [];
    assert KeysInAll([pairs]) == KeysIn(pairs) by {
      assert KeysInAll([]) + KeysIn(pairs) == KeysIn(pairs);
    }
    assert FirstHeld([pairs], key) == LastIn(pairs, key);
    UniquesWithin([], KeysIn(pairs));
    assert [] + KeysIn(pairs) == KeysIn(pairs) && [] + Uniques(KeysIn(pairs)) == Uniques(KeysIn(pairs));
    if key in KeysIn(data) {
      var i :| 0 <= i < |data| && data[i].key == key && FirstImplicit(AllPulled(data), key) == Some(Pulled(data[i]));
      assert data[i] == Pair(key, ValueOf(cs, key));
    }
  }

  lemma PullsJoined(
    a: seq<Contribution>, b: seq<Contribution>, from: seq<seq<Pair>>, more: seq<seq<Pair>>, key: Value)
    requires PullsFrom(a, from, key) && PullsFrom(b, more, key)
    ensures PullsFrom(a + b, from + more, key)
  {
    Joined(a, b, key);
    FirstHeldJoined(from, more, key);
    KeysInJoined(from, more);
    assert Names(a + b) == Names(a) + Names(b);
    UniquesJoined(Names(a), KeysInAll(from), Names(b), KeysInAll(more));
  }

  lemma {:induction false} PullsFromSources(merge: Value, key: Value)
    ensures PullsFrom(Pulls(merge), SourcesOf(merge), key)
    decreases merge, 1
  {
    match merge
    case Mapping(pairs) => PullsOfSource(pairs, key);
    case Sequence(items) => PullsFromAll(items, key);
    case _ =>
  }

  lemma {:induction false} PullsFromAll(items: seq<Value>, key: Value)
    ensures PullsFrom(PullsOfAll(items), SourcesOfAll(items), key)
    decreases items, 0
  {
    if items != [] {
      var n := |items| - 1;
      PullsFromAll(items[..n], key);
      PullsFromSources(items[n], key);
      PullsJoined(PullsOfAll(items[..n]), Pulls(items[n]), SourcesOfAll(items[..n]), SourcesOf(items[n]), key);
    }
  }

  // ----- The whole mapping -----

  lemma {:induction false} MergedOneMore(pairs: seq<Pair>)
    requires pairs != []
    ensures MergedPairs(pairs) == MergedPairs(pairs[..|pairs| - 1]) + [MergedPair(pairs[|pairs| - 1])]
  {
    if |pairs| > 1 {
      MergedOneMore(pairs[1..]);
      assert pairs[1..][..|pairs| - 2] == pairs[..|pairs| - 1][1..];
    }
  }

  lemma ContributionsOneMore(pairs: seq<Pair>)
    requires pairs != []
    ensures var n := |pairs| - 1;
            Contributions(MergedPairs(pairs)) ==
              Contributions(MergedPairs(pairs[..n])) + ContributionsOf(MergedPair(pairs[n]))
  {
    MergedOneMore(pairs);
    var n := |pairs| - 1;
    assert MergedPairs(pairs)[..n] == MergedPairs(pairs[..n]);
  }

  // What the contributions of a merged mapping offer for a key.
  ghost predicate Offers(cs: seq<Contribution>, pairs: seq<Pair>, key: Value) {
    && Uniques(Names(cs)) == Uniques(Offered(pairs))
    && Leftovers(cs) == Unmerged(pairs)
    && LastExplicit(cs, key) == LastWritten(pairs, key)
    && OffersFirst(FirstImplicit(cs, key), pairs, key)
  }

  ghost predicate OffersFirst(first: Option<Contribution>, pairs: seq<Pair>, key: Value) {
    match first
    case None => FirstHeld(Sources(pairs), key) == None && (key == LITERAL ==> Unmerged(pairs) == [])
    case Some(Left(_)) => key == LITERAL && LeftComesFirst(pairs)
    case Some(Pulled(p)) => FirstHeld(Sources(pairs), key) == Some(p.val) && (key == LITERAL ==> !LeftComesFirst(pairs))
    case _ => false
  }

  lemma {:induction false} ContributionsOffer(pairs: seq<Pair>, key: Value)
    ensures Offers(Contributions(MergedPairs(pairs)), pairs, key)
  {
    if pairs != [] {
      var n := |pairs| - 1;
      ContributionsOffer(pairs[..n], key);
      ContributionsOneMore(pairs);
      if IsMergeKey(pairs[n].key) {
        OfferedByMerge(Contributions(MergedPairs(pairs[..n])), pairs, key);
      } else {
        OfferedByPair(Contributions(MergedPairs(pairs[..n])), pairs, key);
      }
    }
  }

  lemma LeftFirstOneMore(pairs: seq<Pair>)
    requires pairs != []
    ensures LeftComesFirst(pairs) <==> LeftComesFirst(pairs[..|pairs| - 1]) || IsFirstLeft(pairs, |pairs| - 1)
  {
    var init := pairs[..|pairs| - 1];
    forall i: nat | i < |init| ensures IsFirstLeft(pairs, i) <==> IsFirstLeft(init, i) {
      assert init[..i + 1] == pairs[..i + 1] && init[i] == pairs[i];
    }
  }

  lemma PairContributes(p: Pair)
    requires !IsMergeKey(p.key)
    ensures ContributionsOf(MergedPair(p)) == [Explicit(Pair(Stripped(p.key), Merged(p.val)))]
  {
    assert !IsMergeKey(Stripped(p.key));
  }

  lemma PairOffers(pairs: seq<Pair>, key: Value)
    requires pairs != [] && !IsMergeKey(pairs[|pairs| - 1].key)
    ensures var init, p := pairs[..|pairs| - 1], pairs[|pairs| - 1];
            && Offered(pairs) == Offered(init) + [Stripped(p.key)]
            && LastWritten(pairs, key) ==
               if Stripped(p.key) == key then Some(Merged(p.val)) else LastWritten(init, key)
  {
  }

  lemma NoNewSource(first: Option<Contribution>, pairs: seq<Pair>, key: Value)
    requires pairs != [] && !IsMergeKey(pairs[|pairs| - 1].key)
    requires OffersFirst(first, pairs[..|pairs| - 1], key)
    ensures Unmerged(pairs) == Unmerged(pairs[..|pairs| - 1])
    ensures OffersFirst(first, pairs, key)
  {
    LeftFirstOneMore(pairs);
    assert Sources(pairs[..|pairs| - 1]) + [] == Sources(pairs[..|pairs| - 1]);
    assert Unmerged(pairs[..|pairs| - 1]) + [] == Unmerged(pairs[..|pairs| - 1]);
  }

  lemma OfferedByPair(cs: seq<Contribution>, pairs: seq<Pair>, key: Value)
    requires pairs != [] && !IsMergeKey(pairs[|pairs| - 1].key) && Offers(cs, pairs[..|pairs| - 1], key)
    ensures Offers(cs + ContributionsOf(MergedPair(pairs[|pairs| - 1])), pairs, key)
  {
    var init, p := pairs[..|pairs| - 1], pairs[|pairs| - 1];
    hide ContributionsOf, MergedPair, Merged, Stripped, Sources, Unmerged, LeftComesFirst, IsMergeKey;
    hide Uniques, LastExplicit, FirstImplicit, FirstHeld, Leftovers, Names, Offered, LastWritten, KeysOf, OffersFirst;
    var own := Pair(Stripped(p.key), Merged(p.val));
    PairContributes(p);
    PairOffers(pairs, key);
    NoNewSource(FirstImplicit(cs, key), pairs, key);
    ExplicitSources(cs, own, key);
    NamesTogether(cs, [Explicit(own)]);
    OneName(own);
    UniquesJoined(Names(cs), Offered(init), [own.key], [own.key]);
  }

  lemma OneName(p: Pair)
    ensures Names([Explicit(p)]) == [p.key]
  {
  }

  lemma LeftOffers(p: Pair, left: seq<Contribution>, key: Value)
    requires left == if LeavesSome(p) then [Left(Rest(Merged(p.val)).value)] else []
    ensures LastExplicit(left, key) == None
    ensures FirstImplicit(left, key) == if LeavesSome(p) && key == LITERAL then Some(left[0]) else None
    ensures Leftovers(left) == if LeavesSome(p) then [Rest(Merged(p.val)).value] else []
    ensures Names(left) == if LeavesSome(p) then [LITERAL] else []
  {
    if LeavesSome(p) {
      assert left[..0] == [];
    }
  }

  // What one merge key contributes.
  lemma MergeOffers(p: Pair, key: Value)
    requires IsMergeKey(p.key)
    ensures var cs, sources := ContributionsOf(MergedPair(p)), SourcesOf(Merged(p.val));
            && LastExplicit(cs, key) == None
            && Leftovers(cs) == (if LeavesSome(p) then [Rest(Merged(p.val)).value] else [])
            && Uniques(Names(cs)) == Uniques(OfferedBy(p))
            && FirstImplicit(cs, key) ==
               match FirstHeld(sources, key)
               case Some(val) => Some(Pulled(Pair(key, val)))
               case None => if LeavesSome(p) && key == LITERAL then Some(Left(Rest(Merged(p.val)).value)) else None
  {
    var pulls, left := Pulls(Merged(p.val)), if LeavesSome(p) then [Left(Rest(Merged(p.val)).value)] else [];
    assert ContributionsOf(MergedPair(p)) == pulls + left;
    PullsFromSources(Merged(p.val), key);
    LeftOffers(p, left, key);
    hide Pulls, Rest, Merged, SourcesOf, Uniques, KeysInAll, LastExplicit, FirstImplicit, Leftovers, FirstHeld;
    Joined(pulls, left, key);
    assert Names(pulls + left) == Names(pulls) + Names(left);
    UniquesJoined(Names(pulls), KeysInAll(SourcesOf(Merged(p.val))), Names(left), Names(left));
  }

  lemma OfferedByMerge(cs: seq<Contribution>, pairs: seq<Pair>, key: Value)
    requires pairs != [] && IsMergeKey(pairs[|pairs| - 1].key) && Offers(cs, pairs[..|pairs| - 1], key)
    ensures Offers(cs + ContributionsOf(MergedPair(pairs[|pairs| - 1])), pairs, key)
  {
    var init, p := pairs[..|pairs| - 1], pairs[|pairs| - 1];
    var more := ContributionsOf(MergedPair(p));
    assert Offered(pairs) == Offered(init) + OfferedBy(p) && LastWritten(pairs, key) == LastWritten(init, key);
    assert Unmerged(pairs) == Unmerged(init) + if LeavesSome(p) then [Rest(Merged(p.val)).value] else [];
    hide ContributionsOf, Rest, Merged, MergedPair, SourcesOf, Uniques, Names, OffersFirst;
    hide LastExplicit, FirstImplicit, Leftovers, FirstHeld, OfferedBy, Offered, LastWritten, Unmerged, Sources;
    MergeOffers(p, key);
    Joined(cs, more, key);
    NamesTogether(cs, more);
    UniquesJoined(Names(cs), Offered(init), Names(more), OfferedBy(p));
    FirstOfMerge(FirstImplicit(cs, key), FirstImplicit(more, key), pairs, key);
  }

  lemma FirstOfMerge(earlier: Option<Contribution>, last: Option<Contribution>, pairs: seq<Pair>, key: Value)
    requires pairs != [] && IsMergeKey(pairs[|pairs| - 1].key) && OffersFirst(earlier, pairs[..|pairs| - 1], key)
    requires var p := pairs[|pairs| - 1];
             last == match FirstHeld(SourcesOf(Merged(p.val)), key)
                     case Some(val) => Some(Pulled(Pair(key, val)))
                     case None =>
                       if LeavesSome(p) && key == LITERAL then Some(Left(Rest(Merged(p.val)).value)) else None
    ensures OffersFirst(if earlier.Some? then earlier else last, pairs, key)
  {
    var init, p := pairs[..|pairs| - 1], pairs[|pairs| - 1];
    assert pairs[..|pairs|] == pairs;
    LeftFirstOneMore(pairs);
    if LeftComesFirst(init) {
      SomethingIsLeft(init);
    }
    hide Rest, Merged, SourcesOf, LeftComesFirst, FirstHeld;
    FirstHeldJoined(Sources(init), SourcesOf(Merged(p.val)), key);
  }

  lemma NamesTogether(a: seq<Contribution>, b: seq<Contribution>)
    ensures Names(a + b) == Names(a) + Names(b)
  {
  }

  lemma {:induction false} SomethingIsLeft(pairs: seq<Pair>)
    requires LeftComesFirst(pairs)
    ensures Unmerged(pairs) != []
  {
    LeftFirstOneMore(pairs);
    if LeftComesFirst(pairs[..|pairs| - 1]) {
      SomethingIsLeft(pairs[..|pairs| - 1]);
    }
  }

  lemma MergeKeysStay(pairs: seq<Pair>)
    requires HasMergeKey(pairs)
    ensures HasMergeKey(MergedPairs(pairs))
  {
    var i :| 0 <= i < |pairs| && IsMergeKey(pairs[i].key);
    MergedAt(pairs, i);
    assert MergedPairs(pairs)[i] in MergedPairs(pairs);
  }

  lemma {:induction false} MergedAt(pairs: seq<Pair>, i: nat)
    requires i < |pairs|
    ensures MergedPairs(pairs)[i] == MergedPair(pairs[i])
  {
    if i > 0 {
      MergedAt(pairs[1..], i - 1);
    }
  }

  // A mapping with a merge key becomes the mapping of the keys it offers, each once and in
  // order, each with the value chosen for it.
  lemma MergedMapping(pairs: seq<Pair>)
    requires HasMergeKey(pairs)
    ensures Merged(Mapping(pairs)).Mapping?
    ensures KeysIn(Merged(Mapping(pairs)).pairs) == Uniques(Offered(pairs))
    ensures Distinct(KeysIn(Merged(Mapping(pairs)).pairs))
    ensures forall p <- Merged(Mapping(pairs)).pairs :: p.val == Chosen(pairs, p.key)
  {
    MergeKeysStay(pairs);
    var cs := Contributions(MergedPairs(pairs));
    assert Merged(Mapping(pairs)) == Mapping(Meaning(cs));
    ContributionsOffer(pairs, LITERAL);
    KeysAreUniques(cs);
    assert KeysIn(Meaning(cs)) == KeysOf(cs);
    UniquesHold(Offered(pairs), LITERAL);
    forall p | p in Meaning(cs) ensures p.val == Chosen(pairs, p.key) {
      ContributionsOffer(pairs, p.key);
      KeyIsContributed(cs, p.key);
      assert p.key in KeysOf(cs) && p.val == ValueOf(cs, p.key);
      CollectedTogether(Unmerged(pairs));
    }
  }
}
