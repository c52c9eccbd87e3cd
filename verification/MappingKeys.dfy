// Which keys a mapping may have (src/decode/mod.rs, `reject_complex_key` and
// `check_duplicate_key`): what the two options promise, on any events and of any tree.
module MappingKeys {
  import opened Wrappers
  import opened Seqs
  import opened Values
  import opened Events
  import opened Decode
  import opened Syntax

  predicate IsMerge(key: Value) { key.Tagged? && key.tag == "tag:yaml.org,2002:merge" }

  // No key is a collection where those are refused, and where keys must differ no two that
  // are not merge keys have the same signature.
  predicate KeysAccepted(c: Config, pairs: seq<Pair>) {
    && (c.rejectComplexKeys ==> forall i | 0 <= i < |pairs| :: !pairs[i].key.Mapping? && !pairs[i].key.Sequence?)
    && (c.duplicateKeysError ==>
          forall i, j | 0 <= i < j < |pairs| && !IsMerge(pairs[i].key) && !IsMerge(pairs[j].key) ::
            c.signature(pairs[i].key) != c.signature(pairs[j].key))
  }

  // The signatures noted so far are those of the keys so far.
  predicate Noted(c: Config, pairs: seq<Pair>, seen: set<string>) {
    c.duplicateKeysError ==>
      && (forall i | 0 <= i < |pairs| && !IsMerge(pairs[i].key) :: c.signature(pairs[i].key) in seen)
      && forall s <- seen :: exists i :: 0 <= i < |pairs| && !IsMerge(pairs[i].key) && c.signature(pairs[i].key) == s
  }

  // One key more.
  lemma KeyChecked(c: Config, pairs: seq<Pair>, seen: set<string>, p: Pair)
    requires KeysAccepted(c, pairs) && Noted(c, pairs, seen)
    ensures var r := CheckKey(c, seen, p.key);
            && (r.Ok? <==> KeysAccepted(c, pairs + [p]))
            && (r.Ok? ==> Noted(c, pairs + [p], r.value))
            && (r.Err? ==>
                  r.error == if c.rejectComplexKeys && (p.key.Mapping? || p.key.Sequence?) then ComplexKey else DuplicateKey)
  {
    var more := pairs + [p];
    assert more[|pairs|] == p && forall i | 0 <= i < |pairs| :: more[i] == pairs[i];
    if c.duplicateKeysError && !IsMerge(p.key) {
      if c.signature(p.key) in seen {
        var i :| 0 <= i < |pairs| && !IsMerge(pairs[i].key) && c.signature(pairs[i].key) == c.signature(p.key);
        assert more[i] == pairs[i] && !KeysAccepted(c, more) by {
          assert 0 <= i < |pairs| < |more|;
        }
      } else {
        forall s <- seen + {c.signature(p.key)}
          ensures exists i :: 0 <= i < |more| && !IsMerge(more[i].key) && c.signature(more[i].key) == s
        {
          if s in seen {
            var i :| 0 <= i < |pairs| && !IsMerge(pairs[i].key) && c.signature(pairs[i].key) == s;
            assert more[i] == pairs[i];
          }
        }
      }
    } else if c.duplicateKeysError {
      forall s <- seen
        ensures exists i :: 0 <= i < |more| && !IsMerge(more[i].key) && c.signature(more[i].key) == s
      {
        var i :| 0 <= i < |pairs| && !IsMerge(pairs[i].key) && c.signature(pairs[i].key) == s;
        assert more[i] == pairs[i];
      }
    }
  }

  // ----- On any events -----

  // Whatever the events of a mapping, the pairs that the decoder makes of them have keys
  // that may stand together.
  lemma {:induction false} DecodedKeysAreAccepted(sc: Scope, ev: seq<Event>, m: Memory, depth: nat, flow: bool,
                                                  acc: seq<Pair>, seen: set<string>)
    requires KeysAccepted(sc.config, acc) && Noted(sc.config, acc, seen)
    ensures var o := Pairs(sc, ev, m, depth, flow, acc, seen); o.r.Ok? ==> KeysAccepted(sc.config, o.r.value)
    decreases |ev|
  {
    hide Decode.Entry, KeysAccepted, Noted, CheckKey;
    if ev == [] || ev[0].MappingEnd? || ev[0].BlockEnd? || IsStreamMark(ev[0]) {
    } else if ev[0].FlowEntry? {
      DecodedKeysAreAccepted(sc, ev[1..], m, depth, flow, acc, seen);
    } else {
      var o := Decode.Entry(sc, ev, m, depth, flow);
      if o.r.Ok? {
        KeyChecked(sc.config, acc, seen, o.r.value);
        var checked := CheckKey(sc.config, seen, o.r.value.key);
        if checked.Ok? && |o.rest| < |ev| {
          DecodedKeysAreAccepted(sc, o.rest, o.mem, depth, flow, acc + [o.r.value], checked.value);
        }
      }
    }
  }

  lemma NoKeysYet(c: Config)
    ensures KeysAccepted(c, []) && Noted(c, [], {})
  {
  }

  lemma DecodedMappingKeys(sc: Scope, ev: seq<Event>, m: Memory, depth: nat, flow: bool)
    ensures var o := Pairs(sc, ev, m, depth, flow, [], {}); o.r.Ok? ==> KeysAccepted(sc.config, o.r.value)
  {
    NoKeysYet(sc.config);
    DecodedKeysAreAccepted(sc, ev, m, depth, flow, [], {});
  }

  // ----- Of a tree -----

  // The pairs of a mapping as they would be without a word on their keys.
  function FreePairs(sc: Scope, pairs: seq<YPair>, m: Memory, acc: seq<Pair>): Meaning<seq<Pair>>
    decreases pairs
  {
    if pairs == [] then Meaning(m, Ok(acc))
    else
      var o := EvalPair(sc, pairs[0], m);
      match o.r
      case Err(e) => Meaning(o.mem, Err(e))
      case Ok(p) => FreePairs(sc, pairs[1..], o.mem, acc + [p])
  }

  lemma {:induction false} FreeGoesOn(sc: Scope, pairs: seq<YPair>, m: Memory, acc: seq<Pair>)
    ensures var o := FreePairs(sc, pairs, m, acc); o.r.Ok? ==> acc <= o.r.value
    decreases pairs
  {
    hide EvalPair;
    if pairs != [] {
      var o := EvalPair(sc, pairs[0], m);
      if o.r.Ok? {
        FreeGoesOn(sc, pairs[1..], o.mem, acc + [o.r.value]);
      }
    }
  }

  lemma AcceptedBefore(c: Config, pairs: seq<Pair>, more: seq<Pair>)
    requires KeysAccepted(c, more) && pairs <= more
    ensures KeysAccepted(c, pairs)
  {
    assert forall i | 0 <= i < |pairs| :: pairs[i] == more[i];
  }

  lemma {:induction false} PairsExactly(sc: Scope, pairs: seq<YPair>, m: Memory, acc: seq<Pair>, seen: set<string>)
    requires KeysAccepted(sc.config, acc) && Noted(sc.config, acc, seen)
    ensures var o, free := EvalPairs(sc, pairs, m, acc, seen), FreePairs(sc, pairs, m, acc);
            && (o.r.Ok? <==> free.r.Ok? && KeysAccepted(sc.config, free.r.value))
            && (o.r.Ok? ==> o == free)
            && (free.r.Ok? && o.r.Err? ==> o.r.error in {ComplexKey, DuplicateKey})
    decreases pairs
  {
    hide EvalPair, KeysAccepted, Noted, CheckKey;
    if pairs != [] {
      var o := EvalPair(sc, pairs[0], m);
      if o.r.Ok? {
        KeyChecked(sc.config, acc, seen, o.r.value);
        FreeGoesOn(sc, pairs[1..], o.mem, acc + [o.r.value]);
        var checked, free := CheckKey(sc.config, seen, o.r.value.key), FreePairs(sc, pairs[1..], o.mem, acc + [o.r.value]);
        if checked.Ok? {
          PairsExactly(sc, pairs[1..], o.mem, acc + [o.r.value], checked.value);
        } else if free.r.Ok? && KeysAccepted(sc.config, free.r.value) {
          AcceptedBefore(sc.config, acc + [o.r.value], free.r.value);
        }
      }
    }
  }

  // A mapping has a value exactly when its pairs have theirs and their keys may stand together.
  lemma MappingExactly(sc: Scope, pairs: seq<YPair>, tag: Option<string>, anchor: Option<string>, m: Memory)
    requires !TagUndefined(sc, tag)
    ensures var free := FreePairs(sc, pairs, m, []);
            EvalNode(sc, YNode(YMapping(pairs), tag, anchor), m).r.Ok? <==> free.r.Ok? && KeysAccepted(sc.config, free.r.value)
  {
    NoKeysYet(sc.config);
    PairsExactly(sc, pairs, m, [], {});
    hide EvalPairs, FreePairs, KeysAccepted, ExpandTag, HandleUndefined;
  }
}
