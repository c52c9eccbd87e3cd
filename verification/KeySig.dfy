// Key signatures (src/decode/merge.rs, `key_sig`): a string per key, so that a hash map
// can find a key. The code is prefix-free, so no key can pass for another.
module KeySig {
  import opened Wrappers
  import opened Seqs
  import opened Text
  import opened Timestamps
  import opened Values

  // String lengths are byte lengths.
  function ByteLength(s: string): nat {
    if s == "" then 0 else Utf8Width(s[0]) + ByteLength(s[1..])
  }

  function LengthPrefixed(s: string): string { Decimal(ByteLength(s)) + ":" + s }

  // A signature opens with its value's kind.
  function Signature(v: Value): string
    decreases v, 3
  {
    Kind(v) + Body(v)
  }

  function Kind(v: Value): string {
    match v
    case Null => "0"
    case Bool(_) => "1"
    case Int(_) => "2:"
    case BigInt(_) => "3:"
    case Float(_) => "4:"
    case Str(_) => "5:"
    case Tagged(_, _) => "6:"
    case Sequence(_) => "7:"
    case Mapping(_) => "8:"
    case Stamp(_) => "9:"
  }

  function Body(v: Value): string
    decreases v, 1
  {
    match v
    case Null => ""
    case Bool(b) => if b then "1" else "0"
    case Int(i) => SignedDecimal(i) + ";"
    case BigInt(digits) => digits + ";"
    case Float(bits) => Decimal(bits) + ";"
    case Str(text) => LengthPrefixed(text)
    case Stamp(t) => ToIso(t) + ";"
    case Tagged(tag, inner) => LengthPrefixed(tag) + Signature(inner)
    case Sequence(items) => Decimal(|items|) + ":" + SignatureOfItems(items)
    case Mapping(pairs) => Decimal(|pairs|) + ":" + SignatureOfPairs(pairs)
  }

  function SignatureOfItems(items: seq<Value>): string
    decreases items, 0
  {
    if items == [] then "" else Signature(items[0]) + SignatureOfItems(items[1..])
  }

  function SignatureOfPairs(pairs: seq<Pair>): string
    decreases pairs, 0
  {
    if pairs == [] then "" else SignatureOfPair(pairs[0]) + SignatureOfPairs(pairs[1..])
  }

  function SignatureOfPair(p: Pair): string
    decreases p, 2
  {
    Signature(p.key) + Signature(p.val)
  }

  // ----- The pieces of the code -----

  lemma {:induction false} SplitAtMark(s: string, t: string, x: string, y: string, mark: char)
    requires mark !in s && mark !in t && s + [mark] + x == t + [mark] + y
    ensures s == t && x == y
  {
    var l, r := s + [mark] + x, t + [mark] + y;
    assert r[|s|] == mark && l[|t|] == mark;
    assert s == l[..|s|] && t == r[..|t|] && x == l[|s| + 1..] && y == r[|t| + 1..];
  }

  lemma DecimalsDiffer(a: nat, b: nat)
    requires Decimal(a) == Decimal(b)
    ensures a == b
  {
    DecimalNumber(a);
    DecimalNumber(b);
  }

  lemma SignedDecimalsDiffer(a: int, b: int)
    requires SignedDecimal(a) == SignedDecimal(b)
    ensures a == b
  {
    assert (a >= 0 ==> IsDigit(Decimal(a)[0])) && (b >= 0 ==> IsDigit(Decimal(b)[0]));
    if a < 0 && b < 0 {
      assert SignedDecimal(a)[1..] == Decimal(-a) && SignedDecimal(b)[1..] == Decimal(-b);
      DecimalsDiffer(-a, -b);
    } else if a >= 0 && b >= 0 {
      DecimalsDiffer(a, b);
    }
  }

  lemma DecimalHasNoMark(n: nat, mark: char)
    requires !IsDigit(mark)
    ensures mark !in Decimal(n)
  {
  }

  lemma {:induction false} LongerIsHeavier(s: string, more: string)
    requires more != ""
    ensures ByteLength(s + more) > ByteLength(s)
  {
    if s == "" {
      assert s + more == more;
    } else {
      assert (s + more)[1..] == s[1..] + more;
      LongerIsHeavier(s[1..], more);
    }
  }

  // Equally heavy strings at the front of one text are the same string.
  lemma SplitAtLength(s: string, t: string, x: string, y: string)
    requires ByteLength(s) == ByteLength(t) && s + x == t + y
    ensures s == t && x == y
  {
    var l, r := s + x, t + y;
    if |s| < |t| {
      var more := t[|s|..];
      assert t == s + more by {
        assert s == l[..|s|] == r[..|s|] == t[..|s|];
      }
      LongerIsHeavier(s, more);
    } else if |t| < |s| {
      var more := s[|t|..];
      assert s == t + more by {
        assert t == r[..|t|] == l[..|t|] == s[..|t|];
      }
      LongerIsHeavier(t, more);
    } else {
      assert s == l[..|s|] && t == r[..|s|] && x == l[|s|..] && y == r[|s|..];
    }
  }

  lemma SplitAtPrefix(s: string, t: string, x: string, y: string)
    requires LengthPrefixed(s) + x == LengthPrefixed(t) + y
    ensures s == t && x == y
  {
    var m, n := Decimal(ByteLength(s)), Decimal(ByteLength(t));
    assert LengthPrefixed(s) + x == m + [':'] + (s + x);
    assert LengthPrefixed(t) + y == n + [':'] + (t + y);
    DecimalHasNoMark(ByteLength(s), ':');
    DecimalHasNoMark(ByteLength(t), ':');
    SplitAtMark(m, n, s + x, t + y, ':');
    DecimalsDiffer(ByteLength(s), ByteLength(t));
    SplitAtLength(s, t, x, y);
  }

  lemma SplitAtCount(m: nat, n: nat, x: string, y: string)
    requires Decimal(m) + ":" + x == Decimal(n) + ":" + y
    ensures m == n && x == y
  {
    DecimalHasNoMark(m, ':');
    DecimalHasNoMark(n, ':');
    SplitAtMark(Decimal(m), Decimal(n), x, y, ':');
    DecimalsDiffer(m, n);
  }

  // ----- The code is prefix-free -----

  lemma KindFirst(a: Value, b: Value, x: string, y: string)
    requires Signature(a) + x == Signature(b) + y
    ensures Kind(a) == Kind(b) && Body(a) + x == Body(b) + y
  {
    Regroup(Kind(a), Body(a), x);
    Regroup(Kind(b), Body(b), y);
    SplitKinds(a, b, Body(a) + x, Body(b) + y);
  }

  lemma SplitKinds(a: Value, b: Value, s: string, t: string)
    requires Kind(a) + s == Kind(b) + t
    ensures Kind(a) == Kind(b) && s == t
  {
    var l, r := Kind(a) + s, Kind(b) + t;
    assert l[0] == Kind(a)[0] && r[0] == Kind(b)[0];
    assert l[|Kind(a)|..] == s && r[|Kind(b)|..] == t;
  }

  // A signature never runs into what follows it, so it identifies its value.
  lemma {:induction false} SignatureIsPrefixFree(a: Value, b: Value, x: string, y: string)
    requires WellFormed(a) && WellFormed(b) && Signature(a) + x == Signature(b) + y
    ensures a == b && x == y
    decreases a, 1
  {
    KindFirst(a, b, x, y);
    match a
    case Tagged(tag, inner) =>
      SplitTagged(a, b, x, y);
      SignatureIsPrefixFree(inner, b.inner, x, y);
    case Sequence(items) =>
      SplitCount(|items|, |b.items|, SignatureOfItems(items), SignatureOfItems(b.items), x, y);
      ItemsArePrefixFree(items, b.items, x, y);
    case Mapping(pairs) =>
      SplitCount(|pairs|, |b.pairs|, SignatureOfPairs(pairs), SignatureOfPairs(b.pairs), x, y);
      PairsArePrefixFree(pairs, b.pairs, x, y);
    case _ =>
      LeafIsPrefixFree(a, b, x, y);
  }

  lemma SplitTagged(a: Value, b: Value, x: string, y: string)
    requires a.Tagged? && b.Tagged? && Body(a) + x == Body(b) + y
    ensures a.tag == b.tag && Signature(a.inner) + x == Signature(b.inner) + y
  {
    var s, t := Signature(a.inner), Signature(b.inner);
    Regroup(LengthPrefixed(a.tag), s, x);
    Regroup(LengthPrefixed(b.tag), t, y);
    SplitAtPrefix(a.tag, b.tag, s + x, t + y);
  }

  lemma SplitCount(m: nat, n: nat, s: string, t: string, x: string, y: string)
    requires Decimal(m) + ":" + s + x == Decimal(n) + ":" + t + y
    ensures m == n && s + x == t + y
  {
    assert Decimal(m) + ":" + s + x == Decimal(m) + ":" + (s + x);
    assert Decimal(n) + ":" + t + y == Decimal(n) + ":" + (t + y);
    SplitAtCount(m, n, s + x, t + y);
  }

  lemma LeafIsPrefixFree(a: Value, b: Value, x: string, y: string)
    requires WellFormed(a) && WellFormed(b)
    requires !a.Tagged? && !a.Sequence? && !a.Mapping?
    requires Kind(a) == Kind(b) && Body(a) + x == Body(b) + y
    ensures a == b && x == y
  {
    match a
    case Null =>
      assert Body(a) + x == x && Body(b) + y == y;
    case Bool(_) =>
      assert (Body(a) + x)[1..] == x && (Body(b) + y)[1..] == y;
    case Int(i) =>
      NumeralEnds(i, b.i, x, y);
    case BigInt(digits) =>
      SplitAtMark(digits, b.digits, x, y, ';');
    case Float(bits) =>
      NumeralEnds(bits, b.bits, x, y);
    case Str(text) =>
      SplitAtPrefix(text, b.text, x, y);
    case Stamp(t) =>
      IsoHasNoMark(t);
      IsoHasNoMark(b.t);
      SplitAtMark(ToIso(t), ToIso(b.t), x, y, ';');
      IsoReadsBack(t);
      IsoReadsBack(b.t);
  }

  lemma NumeralEnds(i: int, j: int, x: string, y: string)
    requires SignedDecimal(i) + ";" + x == SignedDecimal(j) + ";" + y
    ensures i == j && x == y
  {
    SplitAtMark(SignedDecimal(i), SignedDecimal(j), x, y, ';');
    SignedDecimalsDiffer(i, j);
  }

  predicate Unmarked(s: string) { ';' !in s }

  lemma UnmarkedConcat(a: string, c: char, b: string)
    requires Unmarked(a) && c != ';' && Unmarked(b)
    ensures Unmarked(a + ([c] + b))
  {
  }

  lemma ZoneHasNoMark(offset: Option<int>)
    ensures Unmarked(IsoZone(offset))
  {
    if offset.Some? {
      var minutes := if offset.value < 0 then -offset.value else offset.value;
      UnmarkedConcat(Padded(minutes / 60, 2), ':', Padded(minutes % 60, 2));
      UnmarkedConcat("", if offset.value < 0 then '-' else '+', IsoMinutes(minutes));
    }
  }

  lemma TimeHasNoMark(t: Timestamp)
    requires t.DateTime?
    ensures Unmarked(IsoTime(t))
  {
    ZoneHasNoMark(t.offset);
    var tail := IsoTail(t.microsecond, t.offset);
    if t.microsecond > 0 {
      UnmarkedConcat("", '.', Padded(t.microsecond, 6));
    }
    assert Unmarked(tail);
    var second := Padded(t.second, 2) + tail;
    UnmarkedConcat(Padded(t.minute, 2), ':', second);
    UnmarkedConcat(Padded(t.hour, 2), ':', Padded(t.minute, 2) + ([':'] + second));
    UnmarkedConcat("", 'T', Padded(t.hour, 2) + ([':'] + (Padded(t.minute, 2) + ([':'] + second))));
  }

  lemma IsoHasNoMark(t: Timestamp)
    ensures ';' !in ToIso(t)
  {
    var time := if t.Date? then "" else IsoTime(t);
    if t.DateTime? {
      TimeHasNoMark(t);
    }
    var day := Padded(t.day, 2) + time;
    UnmarkedConcat(Padded(t.month, 2), '-', day);
    UnmarkedConcat(Padded(t.year, 4), '-', Padded(t.month, 2) + (['-'] + day));
  }

  lemma {:induction false} ItemsArePrefixFree(a: seq<Value>, b: seq<Value>, x: string, y: string)
    requires |a| == |b| && SignatureOfItems(a) + x == SignatureOfItems(b) + y
    requires (forall v <- a :: WellFormed(v)) && forall v <- b :: WellFormed(v)
    ensures a == b && x == y
    decreases a, 0
  {
    if a == [] {
      assert "" + x == x && "" + y == y;
    } else {
      var s, t := SignatureOfItems(a[1..]) + x, SignatureOfItems(b[1..]) + y;
      Regroup(Signature(a[0]), SignatureOfItems(a[1..]), x);
      Regroup(Signature(b[0]), SignatureOfItems(b[1..]), y);
      SignatureIsPrefixFree(a[0], b[0], s, t);
      ItemsArePrefixFree(a[1..], b[1..], x, y);
    }
  }

  lemma {:induction false} PairsArePrefixFree(a: seq<Pair>, b: seq<Pair>, x: string, y: string)
    requires |a| == |b| && SignatureOfPairs(a) + x == SignatureOfPairs(b) + y
    requires (forall p <- a :: WellFormed(p.key) && WellFormed(p.val))
    requires forall p <- b :: WellFormed(p.key) && WellFormed(p.val)
    ensures a == b && x == y
    decreases a, 0
  {
    if a == [] {
      assert "" + x == x && "" + y == y;
    } else {
      var s, t := SignatureOfPairs(a[1..]) + x, SignatureOfPairs(b[1..]) + y;
      Regroup(SignatureOfPair(a[0]), SignatureOfPairs(a[1..]), x);
      Regroup(SignatureOfPair(b[0]), SignatureOfPairs(b[1..]), y);
      PairIsPrefixFree(a[0], b[0], s, t);
      PairsArePrefixFree(a[1..], b[1..], x, y);
    }
  }

  lemma {:induction false} PairIsPrefixFree(p: Pair, q: Pair, s: string, t: string)
    requires SignatureOfPair(p) + s == SignatureOfPair(q) + t
    requires WellFormed(p.key) && WellFormed(p.val) && WellFormed(q.key) && WellFormed(q.val)
    ensures p == q && s == t
    decreases p, 2
  {
    Regroup(Signature(p.key), Signature(p.val), s);
    Regroup(Signature(q.key), Signature(q.val), t);
    SignatureIsPrefixFree(p.key, q.key, Signature(p.val) + s, Signature(q.val) + t);
    SignatureIsPrefixFree(p.val, q.val, s, t);
  }

  // Two keys share a signature exactly when they are the same key.
  lemma SignatureIsInjective(a: Value, b: Value)
    requires WellFormed(a) && WellFormed(b)
    ensures Signature(a) == Signature(b) <==> a == b
  {
    if Signature(a) == Signature(b) {
      SignatureIsPrefixFree(a, b, "", "");
    }
  }

  // `write_key_sig`: appends the signature to a buffer.
  method WriteKeySig(buf: string, v: Value) returns (out: string)
    ensures out == buf + Signature(v)
    decreases v, 3
  {
    out := WriteBody(buf + Kind(v), v);
  }

  method WriteBody(buf: string, v: Value) returns (out: string)
    ensures out == buf + Body(v)
    decreases v, 1
  {
    match v {
      case Tagged(tag, inner) =>
        var prefix := LengthPrefixed(tag);
        out := WriteKeySig(buf + prefix, inner);
        Regroup(buf, prefix, Signature(inner));
      case Sequence(items) =>
        var prefix := Decimal(|items|) + ":";
        out := WriteItems(buf + prefix, items);
        Regroup(buf, prefix, SignatureOfItems(items));
      case Mapping(pairs) =>
        var prefix := Decimal(|pairs|) + ":";
        out := WritePairs(buf + prefix, pairs);
        Regroup(buf, prefix, SignatureOfPairs(pairs));
      case _ =>
        out := buf + Body(v);
    }
  }

  method WriteItems(buf: string, items: seq<Value>) returns (out: string)
    ensures out == buf + SignatureOfItems(items)
    decreases items, 0
  {
    out := buf;
    for i := 0 to |items|
      invariant out + SignatureOfItems(items[i..]) == buf + SignatureOfItems(items)
    {
      assert items[i..][1..] == items[i + 1..];
      out := WriteKeySig(out, items[i]);
    }
  }

  method WritePairs(buf: string, pairs: seq<Pair>) returns (out: string)
    ensures out == buf + SignatureOfPairs(pairs)
    decreases pairs, 0
  {
    out := buf;
    for i := 0 to |pairs|
      invariant out + SignatureOfPairs(pairs[i..]) == buf + SignatureOfPairs(pairs)
    {
      assert pairs[i..][1..] == pairs[i + 1..];
      out := WritePair(out, pairs[i]);
    }
  }

  method WritePair(buf: string, p: Pair) returns (out: string)
    ensures out == buf + SignatureOfPair(p)
    decreases p, 2
  {
    out := WriteKeySig(buf, p.key);
    out := WriteKeySig(out, p.val);
    Regroup(buf, Signature(p.key), Signature(p.val));
  }
}
