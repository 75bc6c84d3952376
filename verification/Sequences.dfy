/** Sequences without repetition. */
module Sequences {
  predicate Distinct(s: seq<nat>) {
    forall i, j :: 0 <= i < j < |s| ==> s[i] != s[j]
  }

  function Without(s: seq<nat>, a: nat): seq<nat> {
    if s == [] then [] else if s[0] == a then s[1..] else [s[0]] + Without(s[1..], a)
  }

  lemma {:induction false} WithoutAll(s: seq<nat>, a: nat)
    requires Distinct(s)
    ensures Distinct(Without(s, a))
    ensures forall x :: x in Without(s, a) <==> x in s && x != a
  {
    if s != [] {
      WithoutAll(s[1..], a);
      assert forall x :: x in s <==> x == s[0] || x in s[1..];
      if s[0] != a {
        var r := Without(s[1..], a);
        assert s[0] !in r;
        assert forall x :: x in [s[0]] + r <==> x == s[0] || x in r;
      } else {
        assert s[0] !in s[1..];
      }
    }
  }

  lemma {:induction false} WithoutAt(s: seq<nat>, k: nat)
    requires k < |s| && Distinct(s)
    ensures Without(s, s[k]) == s[..k] + s[k + 1..]
  {
    if k > 0 {
      WithoutAt(s[1..], k - 1);
      assert s[1..][k - 1] == s[k];
      assert s[1..][..k - 1] == s[1..k];
    }
  }

  lemma {:induction false} WithoutShorter(s: seq<nat>, a: nat)
    ensures |Without(s, a)| == |s| - if a in s then 1 else 0
    ensures a !in s ==> Without(s, a) == s
  {
    if s != [] {
      WithoutShorter(s[1..], a);
      assert a in s <==> a == s[0] || a in s[1..];
    }
  }
}
