/** Row-selection operations of pandas and Python lists, over sequences of records:
    boolean-mask filtering, `drop_duplicates(subset=...)` keeping the first row,
    positional slicing, and collecting the accepted items of a stream of candidates. */
module Frames {
  import opened Base

  /** `df[mask]`: the rows for which `keep` holds, in their original order. */
  function Filter<T>(s: seq<T>, keep: T -> bool): (r: seq<T>)
    ensures |r| <= |s|
    ensures forall i :: 0 <= i < |r| ==> keep(r[i])
  {
    if s == [] then []
    else (if keep(s[0]) then [s[0]] else []) + Filter(s[1..], keep)
  }

  /** `r` is `s` with some rows removed: same rows, same order, no field changed. */
  predicate IsSubsequence<T(==)>(r: seq<T>, s: seq<T>)
    decreases |s|
  {
    if r == [] then true
    else if s == [] then false
    else (r[0] == s[0] && IsSubsequence(r[1..], s[1..])) || IsSubsequence(r, s[1..])
  }

  lemma {:induction false} FilterAppend<T>(s: seq<T>, x: T, keep: T -> bool)
    ensures Filter(s + [x], keep) == Filter(s, keep) + (if keep(x) then [x] else [])
    decreases |s|
  {
    if s == [] {
      assert [x][1..] == [];
    } else {
      FilterAppend(s[1..], x, keep);
      assert (s + [x])[1..] == s[1..] + [x];
    }
  }

  /** A row is kept exactly when it is in the input and passes the mask. */
  lemma {:induction false} FilterMembers<T>(s: seq<T>, keep: T -> bool, x: T)
    ensures x in Filter(s, keep) <==> x in s && keep(x)
    decreases |s|
  {
    if s != [] {
      FilterMembers(s[1..], keep, x);
      assert x in s <==> x == s[0] || x in s[1..];
    }
  }

  lemma {:induction false} SubsequenceOfItself<T>(s: seq<T>)
    ensures IsSubsequence(s, s)
    decreases |s|
  {
    if s != [] {
      SubsequenceOfItself(s[1..]);
    }
  }

  lemma {:induction false} FilterIsSubsequence<T>(s: seq<T>, keep: T -> bool)
    ensures IsSubsequence(Filter(s, keep), s)
    decreases |s|
  {
    if s != [] {
      FilterIsSubsequence(s[1..], keep);
      var r := Filter(s, keep);
      if keep(s[0]) {
        assert r[0] == s[0] && r[1..] == Filter(s[1..], keep);
      } else {
        assert r == Filter(s[1..], keep);
      }
    }
  }

  /** Removing rows twice removes rows once. */
  lemma {:induction false} SubsequenceTransitive<T>(a: seq<T>, b: seq<T>, c: seq<T>)
    requires IsSubsequence(a, b) && IsSubsequence(b, c)
    ensures IsSubsequence(a, c)
    decreases |c|
  {
    if a != [] {
      if IsSubsequence(b, c[1..]) {
        SubsequenceTransitive(a, b, c[1..]);
      } else if a[0] == b[0] && IsSubsequence(a[1..], b[1..]) {
        SubsequenceTransitive(a[1..], b[1..], c[1..]);
      } else {
        SubsequenceTransitive(a, b[1..], c[1..]);
      }
    }
  }

  lemma {:induction false} SubsequenceMembers<T>(r: seq<T>, s: seq<T>, x: T)
    requires IsSubsequence(r, s) && x in r
    ensures x in s
    decreases |s|
  {
    if r[0] == s[0] && IsSubsequence(r[1..], s[1..]) {
      if x != r[0] {
        assert x in r[1..];
        SubsequenceMembers(r[1..], s[1..], x);
      }
    } else {
      SubsequenceMembers(r, s[1..], x);
    }
  }

  /** The mask that drops every row whose key is `k`. */
  function KeyDiffers<T, K(==)>(key: T -> K, k: K): T -> bool {
    y => key(y) != k
  }

  /** `drop_duplicates(subset=key)` with pandas' default `keep='first'`. */
  function DropDuplicates<T, K(==)>(s: seq<T>, key: T -> K): (r: seq<T>)
    ensures |r| <= |s|
    decreases |s|
  {
    if s == [] then []
    else [s[0]] + DropDuplicates(Filter(s[1..], KeyDiffers(key, key(s[0]))), key)
  }

  /** No two rows of `s` share a key. */
  predicate DistinctKeys<T, K(==)>(s: seq<T>, key: T -> K) {
    forall i, j :: 0 <= i < j < |s| ==> key(s[i]) != key(s[j])
  }

  /** The rows left by `drop_duplicates` are rows of the input, in input order, with distinct keys,
      and every key of the input is still present. */
  lemma {:induction false} DropDuplicatesSpec<T, K>(s: seq<T>, key: T -> K)
    ensures IsSubsequence(DropDuplicates(s, key), s)
    ensures DistinctKeys(DropDuplicates(s, key), key)
    ensures forall i :: 0 <= i < |s| ==> exists j :: 0 <= j < |DropDuplicates(s, key)| && key(DropDuplicates(s, key)[j]) == key(s[i])
    decreases |s|
  {
    if s != [] {
      var rest := Filter(s[1..], KeyDiffers(key, key(s[0])));
      var d := DropDuplicates(rest, key);
      DropDuplicatesSpec(rest, key);
      var r := DropDuplicates(s, key);
      assert r == [s[0]] + d;
      FilterIsSubsequence(s[1..], KeyDiffers(key, key(s[0])));
      SubsequenceTransitive(d, rest, s[1..]);
      assert r[1..] == d;
      forall i, j | 0 <= i < j < |r|
        ensures key(r[i]) != key(r[j])
      {
        if i == 0 {
          assert r[j] == d[j - 1] && r[j] in d;
          SubsequenceMembers(d, rest, r[j]);
          assert r[j] in rest;
          var m :| 0 <= m < |rest| && rest[m] == r[j];
          assert KeyDiffers(key, key(s[0]))(rest[m]);
        }
      }
      forall i | 0 <= i < |s|
        ensures exists j :: 0 <= j < |r| && key(r[j]) == key(s[i])
      {
        if key(s[i]) == key(s[0]) {
          assert key(r[0]) == key(s[i]);
        } else {
          FilterMembers(s[1..], KeyDiffers(key, key(s[0])), s[i]);
          assert s[i] in s[1..] by { assert s[i] == s[1..][i - 1]; }
          var m :| 0 <= m < |rest| && rest[m] == s[i];
          var j :| 0 <= j < |d| && key(d[j]) == key(rest[m]);
          assert key(r[j + 1]) == key(s[i]);
        }
      }
    }
  }

  /** When no two rows share a key there is nothing to drop. */
  lemma {:induction false} DropDuplicatesOfDistinct<T, K>(s: seq<T>, key: T -> K)
    requires DistinctKeys(s, key)
    ensures DropDuplicates(s, key) == s
    decreases |s|
  {
    if s != [] {
      FilterAllKept(s[1..], KeyDiffers(key, key(s[0])));
      DropDuplicatesOfDistinct(s[1..], key);
      assert s == [s[0]] + s[1..];
    }
  }

  lemma {:induction false} FilterAllKept<T>(s: seq<T>, keep: T -> bool)
    requires forall i :: 0 <= i < |s| ==> keep(s[i])
    ensures Filter(s, keep) == s
    decreases |s|
  {
    if s != [] {
      FilterAllKept(s[1..], keep);
      assert s == [s[0]] + s[1..];
    }
  }

  lemma {:induction false} FilterConcat<T>(a: seq<T>, b: seq<T>, keep: T -> bool)
    ensures Filter(a + b, keep) == Filter(a, keep) + Filter(b, keep)
    decreases |a|
  {
    if a == [] {
      assert a + b == b;
    } else {
      FilterConcat(a[1..], b, keep);
      assert (a + b)[1..] == a[1..] + b;
    }
  }

  /** A kept row sits in the filtered rows right after what its predecessors leave. */
  lemma FilterSplitAt<T>(s: seq<T>, keep: T -> bool, i: int)
    requires 0 <= i < |s| && keep(s[i])
    ensures var m := |Filter(s[..i], keep)|;
      m < |Filter(s, keep)| && Filter(s, keep)[m] == s[i] && Filter(s, keep)[..m] == Filter(s[..i], keep)
  {
    assert s == s[..i] + ([s[i]] + s[i + 1..]);
    FilterConcat(s[..i], [s[i]] + s[i + 1..], keep);
    FilterConcat([s[i]], s[i + 1..], keep);
    assert Filter([s[i]], keep) == [s[i]] by {
      assert [s[i]][1..] == [];
    }
  }

  /** `keep='first'`: the first row of every key is the one kept. */
  lemma {:induction false} DropDuplicatesKeepsFirst<T, K>(s: seq<T>, key: T -> K, i: int)
    requires 0 <= i < |s|
    requires forall j :: 0 <= j < i ==> key(s[j]) != key(s[i])
    ensures s[i] in DropDuplicates(s, key)
    decreases |s|
  {
    if i > 0 {
      var t := s[1..];
      var f := KeyDiffers(key, key(s[0]));
      var rest := Filter(t, f);
      assert t[i - 1] == s[i];
      FilterSplitAt(t, f, i - 1);
      var m := |Filter(t[..i - 1], f)|;
      forall j | 0 <= j < m
        ensures key(rest[j]) != key(rest[m])
      {
        assert rest[j] in Filter(t[..i - 1], f);
        FilterMembers(t[..i - 1], f, rest[j]);
        var k :| 0 <= k < i - 1 && t[..i - 1][k] == rest[j];
        assert rest[j] == s[k + 1];
      }
      DropDuplicatesKeepsFirst(rest, key, m);
    }
  }

  /** Filtering twice keeps the rows passing both masks. */
  lemma {:induction false} FilterFilter<T>(s: seq<T>, p: T -> bool, q: T -> bool, both: T -> bool)
    requires forall x :: both(x) == (p(x) && q(x))
    ensures Filter(Filter(s, p), q) == Filter(s, both)
    decreases |s|
  {
    if s != [] {
      FilterFilter(s[1..], p, q, both);
      var fp := Filter(s, p);
      if p(s[0]) {
        assert fp == [s[0]] + Filter(s[1..], p);
        assert fp[0] == s[0] && fp[1..] == Filter(s[1..], p);
        assert Filter(fp, q) == (if q(s[0]) then [s[0]] else []) + Filter(Filter(s[1..], p), q);
      } else {
        assert fp == Filter(s[1..], p);
        assert !both(s[0]);
      }
    }
  }

  /** The filter keeps nothing exactly when no row passes the mask. */
  lemma {:induction false} FilterEmptyIff<T>(s: seq<T>, keep: T -> bool)
    ensures Filter(s, keep) == [] <==> forall i :: 0 <= i < |s| ==> !keep(s[i])
    decreases |s|
  {
    if s != [] {
      FilterEmptyIff(s[1..], keep);
      if forall i :: 0 <= i < |s[1..]| ==> !keep(s[1..][i]) {
        if !keep(s[0]) {
          forall i | 0 <= i < |s|
            ensures !keep(s[i])
          {
            if i > 0 {
              assert s[i] == s[1..][i - 1];
            }
          }
        }
      } else {
        var i :| 0 <= i < |s[1..]| && keep(s[1..][i]);
        assert keep(s[i + 1]);
      }
    }
  }

  /** The filter keeps every row exactly when every row passes the mask. */
  lemma {:induction false} FilterFullIff<T>(s: seq<T>, keep: T -> bool)
    ensures |Filter(s, keep)| == |s| <==> forall i :: 0 <= i < |s| ==> keep(s[i])
    decreases |s|
  {
    if s != [] {
      FilterFullIff(s[1..], keep);
      if forall i :: 0 <= i < |s[1..]| ==> keep(s[1..][i]) {
        if keep(s[0]) {
          forall i | 0 <= i < |s|
            ensures keep(s[i])
          {
            if i > 0 {
              assert s[i] == s[1..][i - 1];
            }
          }
        }
      } else {
        var i :| 0 <= i < |s[1..]| && !keep(s[1..][i]);
        assert !keep(s[i + 1]);
      }
    }
  }

  /** Python's slice index: a negative bound counts from the end, and both are clamped to the length. */
  function SliceIndex(i: int, n: nat): (k: nat)
    ensures k <= n
    ensures 0 <= i <= n ==> k == i
    ensures i < 0 && -i <= n ==> k == n + i
    ensures i < 0 && -i > n ==> k == 0
    ensures i > n ==> k == n
  {
    if i < 0 then (if n as int + i < 0 then 0 else n + i) else if i > n then n else i
  }

  /** `s[lo:hi]` with Python's rules; an empty result when the bounds cross. */
  function PySlice<T>(s: seq<T>, lo: int, hi: int): (r: seq<T>)
    ensures |r| <= |s|
    ensures var a, b := SliceIndex(lo, |s|), SliceIndex(hi, |s|);
      |r| == (if a <= b then b - a else 0) && forall i :: 0 <= i < |r| ==> r[i] == s[a + i]
  {
    var a, b := SliceIndex(lo, |s|), SliceIndex(hi, |s|);
    if a <= b then s[a..b] else []
  }

  /** `[f(x) for x in s]`. */
  function Map<A, B>(s: seq<A>, f: A -> B): (r: seq<B>)
    ensures |r| == |s|
    ensures forall i :: 0 <= i < |s| ==> r[i] == f(s[i])
  {
    if s == [] then [] else Map(s[..|s| - 1], f) + [f(s[|s| - 1])]
  }


  /** Each item's contribution, concatenated in order (a loop of `extend` calls). */
  function FlatMap<A, B>(s: seq<A>, f: A -> seq<B>): seq<B> {
    if s == [] then [] else FlatMap(s[..|s| - 1], f) + f(s[|s| - 1])
  }

  lemma FlatMapSnoc<A, B>(s: seq<A>, x: A, f: A -> seq<B>)
    ensures FlatMap(s + [x], f) == FlatMap(s, f) + f(x)
  {
    assert (s + [x])[..|s|] == s;
  }

  /** Items contribute independently: the contributions of a concatenation concatenate. */
  lemma {:induction false} FlatMapConcat<A, B>(a: seq<A>, b: seq<A>, f: A -> seq<B>)
    ensures FlatMap(a + b, f) == FlatMap(a, f) + FlatMap(b, f)
    decreases |b|
  {
    if b == [] {
      assert a + b == a;
    } else {
      var n := |b| - 1;
      calc {
        FlatMap(a + b, f);
        { assert a + b == (a + b[..n]) + [b[n]]; FlatMapSnoc(a + b[..n], b[n], f); }
        FlatMap(a + b[..n], f) + f(b[n]);
        { FlatMapConcat(a, b[..n], f); }
        (FlatMap(a, f) + FlatMap(b[..n], f)) + f(b[n]);
        FlatMap(a, f) + (FlatMap(b[..n], f) + f(b[n]));
        { assert b == b[..n] + [b[n]]; FlatMapSnoc(b[..n], b[n], f); }
        FlatMap(a, f) + FlatMap(b, f);
      }
    }
  }

  /** An item is produced exactly when some input item contributes it. */
  lemma {:induction false} FlatMapMembers<A, B>(s: seq<A>, f: A -> seq<B>, y: B)
    ensures y in FlatMap(s, f) <==> exists i :: 0 <= i < |s| && y in f(s[i])
    decreases |s|
  {
    if s != [] {
      var n := |s| - 1;
      FlatMapMembers(s[..n], f, y);
      if exists i :: 0 <= i < n && y in f(s[..n][i]) {
        var i :| 0 <= i < n && y in f(s[..n][i]);
        assert s[..n][i] == s[i];
      }
      if exists i :: 0 <= i < |s| && y in f(s[i]) {
        var i :| 0 <= i < |s| && y in f(s[i]);
        if i < n {
          assert s[..n][i] == s[i];
        }
      }
    }
  }

  /** The items accepted from a finite stream of candidates, in stream order; `accept` gives the
      item kept for a candidate, or None when the candidate is rejected. */
  function Collect<A, B>(cands: seq<A>, accept: A -> Option<B>): (r: seq<B>)
    ensures |r| <= |cands|
  {
    if cands == [] then []
    else
      var last := accept(cands[|cands| - 1]);
      Collect(cands[..|cands| - 1], accept) + (if last.Some? then [last.value] else [])
  }

  /** Every collected item is the accepted form of some candidate. */
  lemma {:induction false} CollectMembers<A, B>(cands: seq<A>, accept: A -> Option<B>, j: int)
    requires 0 <= j < |Collect(cands, accept)|
    ensures exists i :: 0 <= i < |cands| && accept(cands[i]) == Some(Collect(cands, accept)[j])
    decreases |cands|
  {
    var n := |cands| - 1;
    var front := Collect(cands[..n], accept);
    if j < |front| {
      CollectMembers(cands[..n], accept, j);
      var i :| 0 <= i < n && accept(cands[..n][i]) == Some(front[j]);
      assert cands[..n][i] == cands[i];
    } else {
      assert accept(cands[n]) == Some(Collect(cands, accept)[j]);
    }
  }

  /** Looking at more of the stream only appends: what a prefix yields is a prefix of what the whole yields. */
  lemma {:induction false} CollectPrefix<A, B>(cands: seq<A>, accept: A -> Option<B>, k: nat)
    requires k <= |cands|
    ensures Collect(cands[..k], accept) <= Collect(cands, accept)
    decreases |cands|
  {
    if k < |cands| {
      var n := |cands| - 1;
      assert cands[..n][..k] == cands[..k];
      CollectPrefix(cands[..n], accept, k);
    } else {
      assert cands[..k] == cands;
    }
  }

  /** One more candidate adds at most its own item. */
  lemma CollectStep<A, B>(cands: seq<A>, accept: A -> Option<B>, k: nat)
    requires k < |cands|
    ensures var c := accept(cands[k]);
      Collect(cands[..k + 1], accept) == Collect(cands[..k], accept) + (if c.Some? then [c.value] else [])
  {
    assert cands[..k + 1][..k] == cands[..k];
  }

  /** How a rejection loop over a finite stream of candidates ends. The scripts loop until they hold
      the number of items asked for, with no bound on attempts; over a finite stream the loop can also
      run out of candidates. */
  datatype Drawn<T> =
    | Complete(items: seq<T>)
    | DrawsExhausted(items: seq<T>)

  /** The outcome of asking for n accepted items when the stream yields `kept`: its first n items, or
      all of them when it yields fewer. A negative n asks for nothing. */
  function FirstN<T>(kept: seq<T>, n: int): (r: Drawn<T>)
    ensures r.Complete? <==> n <= |kept|
    ensures r.Complete? ==> |r.items| == (if n < 0 then 0 else n) && r.items <= kept
    ensures r.DrawsExhausted? ==> r.items == kept && |r.items| < n
  {
    var want := if n < 0 then 0 else n;
    if want <= |kept| then Complete(kept[..want]) else DrawsExhausted(kept)
  }

  /** When a loop that collects from the first i candidates stops, either because it holds n items or
      because the stream ended, it holds exactly what `FirstN` promises. */
  lemma CollectUntil<A, B>(cands: seq<A>, accept: A -> Option<B>, n: int, i: int, held: seq<B>)
    requires 0 <= i <= |cands|
    requires held == Collect(cands[..i], accept)
    requires n >= 0 ==> |held| <= n
    requires n < 0 ==> held == []
    requires |held| < n ==> i == |cands|
    ensures var r := FirstN(Collect(cands, accept), n);
      r.items == held && (r.Complete? <==> |held| >= n)
  {
    CollectPrefix(cands, accept, i);
    if |held| < n {
      assert cands[..i] == cands;
    }
  }
}
