/** Python's `max`, `min`, `sum` and numpy's mean over sequences of reals. */
module Numeric {

  /** `max(s)`; Python raises on an empty sequence. */
  function MaxOf(s: seq<real>): (m: real)
    requires |s| > 0
    ensures m in s
    ensures forall i :: 0 <= i < |s| ==> s[i] <= m
  {
    if |s| == 1 then s[0]
    else
      var rest := MaxOf(s[1..]);
      assert forall i :: 1 <= i < |s| ==> s[i] == s[1..][i - 1];
      if s[0] >= rest then s[0] else rest
  }

  /** `min(s)`; Python raises on an empty sequence. */
  function MinOf(s: seq<real>): (m: real)
    requires |s| > 0
    ensures m in s
    ensures forall i :: 0 <= i < |s| ==> m <= s[i]
  {
    if |s| == 1 then s[0]
    else
      var rest := MinOf(s[1..]);
      assert forall i :: 1 <= i < |s| ==> s[i] == s[1..][i - 1];
      if s[0] <= rest then s[0] else rest
  }

  /** `sum(s)`, adding from the left. */
  function Sum(s: seq<real>): real {
    if s == [] then 0.0 else Sum(s[..|s| - 1]) + s[|s| - 1]
  }

  /** The arithmetic mean (numpy's `mean`). */
  function Mean(s: seq<real>): real
    requires |s| > 0
  {
    Sum(s) / |s| as real
  }

  lemma {:induction false} SumAtLeast(s: seq<real>, lo: real)
    requires forall i :: 0 <= i < |s| ==> lo <= s[i]
    ensures |s| as real * lo <= Sum(s)
  {
    if s != [] {
      SumAtLeast(s[..|s| - 1], lo);
    }
  }

  lemma {:induction false} SumAtMost(s: seq<real>, hi: real)
    requires forall i :: 0 <= i < |s| ==> s[i] <= hi
    ensures Sum(s) <= |s| as real * hi
  {
    if s != [] {
      SumAtMost(s[..|s| - 1], hi);
    }
  }

  lemma MeanAtLeast(s: seq<real>, lo: real)
    requires |s| > 0
    requires forall i :: 0 <= i < |s| ==> lo <= s[i]
    ensures lo <= Mean(s)
  {
    SumAtLeast(s, lo);
  }

  lemma MeanAtMost(s: seq<real>, hi: real)
    requires |s| > 0
    requires forall i :: 0 <= i < |s| ==> s[i] <= hi
    ensures Mean(s) <= hi
  {
    SumAtMost(s, hi);
  }

  /** The mean lies between the smallest and the largest element. */
  lemma MeanBetweenMinAndMax(s: seq<real>)
    requires |s| > 0
    ensures MinOf(s) <= Mean(s) <= MaxOf(s)
  {
    MeanAtLeast(s, MinOf(s));
    MeanAtMost(s, MaxOf(s));
  }

  /** The maximum and the minimum depend only on which values occur, not on their order or multiplicity. */
  lemma MaxMinSameElements(s: seq<real>, t: seq<real>)
    requires |s| > 0 && |t| > 0
    requires forall x :: x in s <==> x in t
    ensures MaxOf(s) == MaxOf(t) && MinOf(s) == MinOf(t)
  {
    var a, b := MaxOf(s), MaxOf(t);
    var i :| 0 <= i < |s| && s[i] == a;
    var j :| 0 <= j < |t| && t[j] == b;
    assert a in t && b in s;
    var c, d := MinOf(s), MinOf(t);
    assert c in t && d in s;
  }

  /** A sum of non-negative terms is at least each of its terms. */
  lemma {:induction false} SumAtLeastTerm(s: seq<real>, k: int)
    requires forall i :: 0 <= i < |s| ==> 0.0 <= s[i]
    requires 0 <= k < |s|
    ensures s[k] <= Sum(s)
  {
    var n := |s| - 1;
    SumAtLeast(s[..n], 0.0);
    if k < n {
      SumAtLeastTerm(s[..n], k);
    }
  }

  /** A sum of non-negative terms is zero exactly when every term is zero. */
  lemma SumZeroIffAllZero(s: seq<real>)
    requires forall i :: 0 <= i < |s| ==> 0.0 <= s[i]
    ensures Sum(s) == 0.0 <==> forall i :: 0 <= i < |s| ==> s[i] == 0.0
  {
    if forall i :: 0 <= i < |s| ==> s[i] == 0.0 {
      SumAtLeast(s, 0.0);
      SumAtMost(s, 0.0);
    } else {
      var k :| 0 <= k < |s| && s[k] != 0.0;
      SumAtLeastTerm(s, k);
    }
  }

  /** `random.uniform(a, b)`: `a + (b - a) * t` for a unit fraction t from `random()`. */
  function Uniform(a: real, b: real, t: real): (v: real)
    ensures 0.0 <= t <= 1.0 && a <= b ==> a <= v <= b
    ensures 0.0 <= t <= 1.0 && b <= a ==> b <= v <= a
    ensures t == 0.0 ==> v == a
  {
    var v := a + (b - a) * t;
    UniformWithin(a, b, t, v);
    v
  }

  /** The point a unit fraction of the way from a to b lies between them. */
  lemma UniformWithin(a: real, b: real, t: real, v: real)
    requires v == a + (b - a) * t
    ensures 0.0 <= t <= 1.0 && a <= b ==> a <= v <= b
    ensures 0.0 <= t <= 1.0 && b <= a ==> b <= v <= a
    ensures t == 0.0 ==> v == a
  {
    if 0.0 <= t <= 1.0 {
      var d := b - a;
      if 0.0 <= d {
        assert 0.0 <= d * t <= d * 1.0;
      } else {
        assert d * 1.0 <= d * t <= 0.0;
      }
    }
  }
}
