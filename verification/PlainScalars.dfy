// Plain scalars against a reader written from YAML 1.2.2: section 5.1 and 5.4 (which
// characters there are), 5.3 (indicators), 7.3.3 (the plain style, on one line) and 9.1.2.
module PlainScalars {
  import opened Wrappers
  import opened Strings
  import opened Text
  import opened Quotes
  import opened Resolver
  import opened Quoting

  predicate IsFlowIndicator(c: char) { c in {',', '[', ']', '{', '}'} }

  predicate HasFlowIndicator(value: string) { exists c <- value :: IsFlowIndicator(c) }

  // ----- Reading -----

  // `ns-char`.
  predicate IsContent(c: char) { IsLineChar(c) && !IsBlank(c) }

  // `ns-plain-safe`: in a flow collection its indicators end a scalar.
  predicate IsPlainSafe(c: char, flow: bool) { IsContent(c) && (flow ==> !IsFlowIndicator(c)) }

  predicate SafeAt(s: string, i: nat, flow: bool) { i < |s| && IsPlainSafe(s[i], flow) }

  // `ns-plain-first`.
  predicate StartsPlain(s: string, flow: bool) {
    s != "" && IsContent(s[0]) && (IsIndicator(s[0]) ==> s[0] in {'?', ':', '-'} && SafeAt(s, 1, flow))
  }

  // `ns-plain-char`: a `:` needs more behind it, and a `#` something before it.
  predicate GoesOnPlain(s: string, i: nat, flow: bool) {
    SafeAt(s, i, flow)
    && (s[i] == ':' ==> SafeAt(s, i + 1, flow))
    && (s[i] == '#' ==> i > 0 && IsContent(s[i - 1]))
  }

  // Past the blanks from position `i` on.
  function PastBlanks(s: string, i: nat): (j: nat)
    requires i <= |s|
    ensures i <= j <= |s| && (forall k | i <= k < j :: IsBlank(s[k])) && (j < |s| ==> !IsBlank(s[j]))
    decreases |s| - i
  {
    if i < |s| && IsBlank(s[i]) then PastBlanks(s, i + 1) else i
  }

  // Where a scalar that holds the first `i` characters ends: blanks count only where more of
  // it comes after them.
  function PlainEnd(s: string, i: nat, flow: bool): (n: nat)
    requires i <= |s|
    ensures i <= n <= |s|
    decreases |s| - i
  {
    var j := PastBlanks(s, i);
    if GoesOnPlain(s, j, flow) then PlainEnd(s, j + 1, flow) else i
  }

  // A whole plain scalar on one line, and what follows it.
  function ReadPlain(s: string, flow: bool): Option<Scalar> {
    if IsMarker(s) || !StartsPlain(s, flow) then None
    else Some(Scalar(s[..PlainEnd(s, 1, flow)], s[PlainEnd(s, 1, flow)..]))
  }

  // What may follow a plain scalar: the end of the line, a `:` that ends a key, an indicator
  // of the flow collection it is in, and blanks before one of those or before a comment.
  predicate EndsPlain(rest: string, flow: bool) {
    rest == "" || IsBreak(rest[0])
    || (rest[0] == ':' && !SafeAt(rest, 1, flow))
    || (flow && IsFlowIndicator(rest[0]))
    || (IsBlank(rest[0]) && (EndsPlain(rest[1..], flow) || rest[1] == '#'))
  }

  predicate EndsAfterBlank(rest: string, flow: bool) { EndsPlain(rest, flow) || rest[0] == '#' }

  // ----- A plain string reads back -----

  lemma ContentOrBlank(value: string, i: nat)
    requires i < |value| && !CannotStandPlain(value) && BYTE_ORDER_MARK !in value
    ensures IsContent(value[i]) || value[i] == ' '
  {
    assert !IsUnsafe(value[i]) && value[i] in value;
    NonPrintableExactly(value[i]);
  }

  lemma GoesOnInside(value: string, rest: string, j: nat, flow: bool)
    requires 0 < j < |value| && value[j] != ' ' && !CannotStandPlain(value) && BYTE_ORDER_MARK !in value
    requires flow ==> !HasFlowIndicator(value)
    ensures GoesOnPlain(value + rest, j, flow)
  {
    var s := value + rest;
    assert s[j] == value[j] && value[j] in value && s[j - 1] == value[j - 1];
    ContentOrBlank(value, j);
    ContentOrBlank(value, j - 1);
    assert !HasStructureAt(value, j);
    if value[j] == ':' {
      assert s[j + 1] == value[j + 1] && value[j + 1] in value;
      ContentOrBlank(value, j + 1);
    }
  }

  lemma {:induction false} BlanksEnd(s: string, i: nat, flow: bool)
    requires i <= |s| && EndsAfterBlank(s[i..], flow) && (i < |s| && s[i] == '#' ==> i > 0 && !IsContent(s[i - 1]))
    ensures !GoesOnPlain(s, PastBlanks(s, i), flow)
    decreases |s| - i
  {
    if i < |s| {
      assert s[i..][0] == s[i] && (i + 1 < |s| ==> s[i..][1] == s[i + 1]);
      if IsBlank(s[i]) {
        assert s[i..][1..] == s[i + 1..];
        BlanksEnd(s, i + 1, flow);
      }
    }
  }

  lemma {:induction false} EndsAtValue(value: string, rest: string, i: nat, flow: bool)
    requires 0 < i <= |value| && !CannotStandPlain(value) && BYTE_ORDER_MARK !in value
    requires (flow ==> !HasFlowIndicator(value)) && EndsPlain(rest, flow)
    ensures PlainEnd(value + rest, i, flow) == |value|
    decreases |value| - i
  {
    var s := value + rest;
    if i == |value| {
      assert s[i..] == rest;
      BlanksEnd(s, i, flow);
    } else {
      BlanksStayInside(value, rest, i);
      var j := PastBlanks(s, i);
      GoesOnInside(value, rest, j, flow);
      EndsAtValue(value, rest, j + 1, flow);
    }
  }

  lemma BlanksStayInside(value: string, rest: string, i: nat)
    requires 0 < i < |value| && !CannotStandPlain(value)
    ensures PastBlanks(value + rest, i) < |value| && value[PastBlanks(value + rest, i)] != ' '
  {
    var j := PastBlanks(value + rest, i);
    assert (value + rest)[|value| - 1] == value[|value| - 1];
    if j < |value| {
      assert (value + rest)[j] == value[j];
    }
  }

  lemma NoMarker(value: string, rest: string, flow: bool)
    requires value != "" && value != "..." && !CannotStandPlain(value) && EndsPlain(rest, flow)
    ensures !IsMarker(value + rest)
  {
    var s := value + rest;
    assert s[0] == value[0] && value[0] != '-';
    if |value| > 3 {
      assert value[..3] == s[..3] && s[3] == value[3];
      assert !IsUnsafe(value[3]);
    } else if |value| == 3 {
      assert value == s[..3];
    } else if |s| >= 3 {
      assert s[|value|] == rest[0] && s[..3][|value|] == s[|value|];
    }
  }

  // What `needs_quoting` leaves plain is read whole, and the scalar ends where the emitter
  // ended it, exactly if it holds no byte order mark.
  lemma PlainReadsBack(f: Floats, value: string, schema: Schema, flow: bool, rest: string)
    requires !NeedsQuoting(f, value, schema) && (flow ==> !HasFlowIndicator(value)) && EndsPlain(rest, flow)
    ensures ReadPlain(value + rest, flow) == Some(Scalar(value, rest)) <==> BYTE_ORDER_MARK !in value
  {
    var s := value + rest;
    NoMarker(value, rest, flow);
    if BYTE_ORDER_MARK in value {
      MarkStops(value, rest, flow);
    } else {
      ContentOrBlank(value, 0);
      assert s[0] == value[0];
      EndsAtValue(value, rest, 1, flow);
      assert s[..|value|] == value && s[|value|..] == rest;
    }
  }

  // Such a string is real: this one stays plain, and is no plain scalar of YAML 1.2.2.
  lemma MarkStaysPlain(f: Floats, value: string)
    requires value == ['a', BYTE_ORDER_MARK]
    ensures !NeedsQuoting(f, value, Yaml12) && ReadPlain(value, false) != Some(Scalar(value, ""))
  {
    forall i: nat | i < |value| ensures !HasStructureAt(value, i) {
      assert i == 0 || i == 1;
    }
    assert forall i | 0 <= i < |value| :: !IsUnsafe(value[i]);
    assert !IsKeyword(value) by {
      assert value[1] == BYTE_ORDER_MARK;
    }
    assert value + "" == value && value[1] in value;
    PlainReadsBack(f, value, Yaml12, false, "");
  }

  lemma MarkStops(value: string, rest: string, flow: bool)
    requires BYTE_ORDER_MARK in value
    ensures ReadPlain(value + rest, flow) != Some(Scalar(value, rest))
  {
    var s := value + rest;
    if ReadPlain(s, flow).Some? {
      HoldsNoMark(s, 1, flow);
      var i :| 0 <= i < |value| && value[i] == BYTE_ORDER_MARK;
      assert s[i] == value[i];
    }
  }

  lemma {:induction false} HoldsNoMark(s: string, i: nat, flow: bool)
    requires i <= |s| && BYTE_ORDER_MARK !in s[..i]
    ensures BYTE_ORDER_MARK !in s[..PlainEnd(s, i, flow)]
    decreases |s| - i
  {
    var j := PastBlanks(s, i);
    if GoesOnPlain(s, j, flow) {
      forall k | 0 <= k < j + 1 ensures s[k] != BYTE_ORDER_MARK {
        assert k < i ==> s[k] == s[..i][k];
      }
      HoldsNoMark(s, j + 1, flow);
    }
  }
}
