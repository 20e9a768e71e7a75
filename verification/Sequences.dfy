/** Sequences without repetitions, as the kernel's lists are, and taking one entry out. */
module Sequences {
  ghost predicate NoDup<T>(s: seq<T>) {
    forall i, j :: 0 <= i < j < |s| ==> s[i] != s[j]
  }

  /** s without the (first) entry x: what unlinking x's node leaves. */
  function Without(s: seq<nat>, x: nat): seq<nat> {
    if s == [] then [] else if s[0] == x then s[1..] else [s[0]] + Without(s[1..], x)
  }

  lemma {:induction false} WithoutContents(s: seq<nat>, x: nat)
    requires NoDup(s) && x in s
    ensures |Without(s, x)| == |s| - 1 && NoDup(Without(s, x))
    ensures forall y :: y in Without(s, x) <==> y in s && y != x
  {
    assert s == [s[0]] + s[1..];
    if s[0] != x {
      assert x in s[1..];
      WithoutContents(s[1..], x);
      var w := Without(s[1..], x);
      assert forall y :: y in w ==> y in s[1..];
      assert s[0] !in s[1..];
    }
  }

  /** s without its entry at position i. */
  function Dropped<T>(s: seq<T>, i: nat): seq<T>
    requires i < |s|
  {
    s[..i] + s[i + 1..]
  }

  /** On a list without repetitions, taking the node at a position out of the links is taking its entry
      out of the sequence. */
  lemma {:induction false} WithoutIsDropped(s: seq<nat>, i: nat)
    requires NoDup(s) && i < |s|
    ensures Without(s, s[i]) == Dropped(s, i)
  {
    if i > 0 {
      WithoutIsDropped(s[1..], i - 1);
      assert s[1..][i - 1] == s[i] && s[0] != s[i];
      assert Dropped(s, i) == [s[0]] + Dropped(s[1..], i - 1);
    }
  }
}
