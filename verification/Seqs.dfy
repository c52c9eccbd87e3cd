// Facts about sequences that the loops of the other modules step through.
module Seqs {
  lemma TakeMore<T>(s: seq<T>, i: nat)
    requires i < |s|
    ensures s[..i + 1] == s[..i] + [s[i]]
  {
  }

  lemma TakeAll<T>(s: seq<T>)
    ensures s[..|s|] == s
  {
  }

  lemma Regroup<T>(a: seq<T>, b: seq<T>, c: seq<T>)
    ensures (a + b) + c == a + (b + c)
  {
  }

  // Each element once, at its first place.
  function Uniques<T(==)>(s: seq<T>): seq<T> {
    if s == [] then []
    else
      var earlier, last := Uniques(s[..|s| - 1]), s[|s| - 1];
      if last in earlier then earlier else earlier + [last]
  }

  lemma {:induction false} UniquesHold<T>(s: seq<T>, x: T)
    ensures x in Uniques(s) <==> x in s
    ensures Distinct(Uniques(s))
  {
    if s != [] {
      var init := s[..|s| - 1];
      UniquesHold(init, x);
      UniquesHold(init, s[|s| - 1]);
      assert s == init + [s[|s| - 1]];
    }
  }

  lemma {:induction false} UniquesWithin<T>(a: seq<T>, b: seq<T>)
    ensures Uniques(a + Uniques(b)) == Uniques(a + b)
  {
    if b == [] {
      assert a + Uniques(b) == a + b;
    } else {
      var init, last := b[..|b| - 1], b[|b| - 1];
      UniquesWithin(a, init);
      assert (a + b)[..|a + b| - 1] == a + init;
      if last in Uniques(init) {
        UniquesHold(a + Uniques(init), last);
      } else {
        assert (a + Uniques(b))[..|a + Uniques(b)| - 1] == a + Uniques(init);
      }
    }
  }

  lemma UniquesOneMore<T>(s: seq<T>, x: T)
    ensures Uniques(s + [x]) == if x in Uniques(s) then Uniques(s) else Uniques(s) + [x]
  {
    assert (s + [x])[..|s + [x]| - 1] == s;
  }

  lemma {:induction false} UniquesBefore<T>(a: seq<T>, b: seq<T>, more: seq<T>)
    requires Uniques(a) == Uniques(b)
    ensures Uniques(a + more) == Uniques(b + more)
  {
    hide Uniques;
    if more == [] {
      assert a + more == a && b + more == b;
    } else {
      var init, last := more[..|more| - 1], more[|more| - 1];
      UniquesBefore(a, b, init);
      UniquesOneMore(a + init, last);
      UniquesOneMore(b + init, last);
      assert more == init + [last];
      Regroup(a, init, [last]);
      Regroup(b, init, [last]);
    }
  }

  lemma UniquesJoined<T>(a: seq<T>, b: seq<T>, c: seq<T>, d: seq<T>)
    requires Uniques(a) == Uniques(b) && Uniques(c) == Uniques(d)
    ensures Uniques(a + c) == Uniques(b + d)
  {
    UniquesBefore(a, b, c);
    UniquesWithin(b, c);
    UniquesWithin(b, d);
  }

  predicate Distinct<T(==)>(s: seq<T>) { forall i, j | 0 <= i < j < |s| :: s[i] != s[j] }
}
