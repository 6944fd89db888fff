/** A stable sort by key, as Python's `list.sort(key=...)` promises: the result is ordered by
    the key, is a permutation of the input, and rows whose keys compare equal keep their input order. */
module Sorting {

  /** `le` orders keys totally (ties allowed): every two keys compare, and the order is transitive. */
  ghost predicate TotalPreorder<K(!new)>(le: (K, K) -> bool) {
    && (forall a, b :: le(a, b) || le(b, a))
    && (forall a, b, c :: le(a, b) && le(b, c) ==> le(a, c))
  }

  /** Every row comes no later than the rows after it. */
  predicate SortedBy<T, K>(s: seq<T>, key: T -> K, le: (K, K) -> bool) {
    forall i, j :: 0 <= i < j < |s| ==> le(key(s[i]), key(s[j]))
  }

  /** `x` placed after every row of `t` whose key is not above its own. */
  function Insert<T, K>(x: T, t: seq<T>, key: T -> K, le: (K, K) -> bool): (r: seq<T>)
    ensures |r| == |t| + 1
  {
    if t == [] then [x]
    else if le(key(t[0]), key(x)) then [t[0]] + Insert(x, t[1..], key, le)
    else [x] + t
  }

  /** Insertion sort: each row in input order is inserted into the sorted rows before it. */
  function SortBy<T, K>(s: seq<T>, key: T -> K, le: (K, K) -> bool): (r: seq<T>)
    ensures |r| == |s|
  {
    if s == [] then []
    else Insert(s[|s| - 1], SortBy(s[..|s| - 1], key, le), key, le)
  }

  lemma {:induction false} InsertPermutes<T, K>(x: T, t: seq<T>, key: T -> K, le: (K, K) -> bool)
    ensures multiset(Insert(x, t, key, le)) == multiset(t) + multiset{x}
    decreases |t|
  {
    if t != [] {
      assert t == [t[0]] + t[1..];
      if le(key(t[0]), key(x)) {
        InsertPermutes(x, t[1..], key, le);
      }
    }
  }

  lemma {:induction false} InsertSorted<T, K(!new)>(x: T, t: seq<T>, key: T -> K, le: (K, K) -> bool)
    requires TotalPreorder(le)
    requires SortedBy(t, key, le)
    ensures SortedBy(Insert(x, t, key, le), key, le)
    decreases |t|
  {
    var r := Insert(x, t, key, le);
    if t != [] {
      if le(key(t[0]), key(x)) {
        var rest := Insert(x, t[1..], key, le);
        InsertSorted(x, t[1..], key, le);
        InsertPermutes(x, t[1..], key, le);
        forall j | 0 <= j < |rest|
          ensures le(key(t[0]), key(rest[j]))
        {
          assert rest[j] in multiset(rest);
          if rest[j] != x {
            assert rest[j] in multiset(t[1..]);
            var m :| 0 <= m < |t[1..]| && t[1..][m] == rest[j];
            assert t[m + 1] == rest[j];
          }
        }
        assert r == [t[0]] + rest;
      } else {
        assert le(key(x), key(t[0]));
        assert r == [x] + t;
        forall i, j | 0 <= i < j < |r|
          ensures le(key(r[i]), key(r[j]))
        {
          if i == 0 && j > 1 {
            assert le(key(t[0]), key(t[j - 1]));
          }
        }
      }
    }
  }

  /** The sorted rows are the input rows, each as often as in the input. */
  lemma {:induction false} SortPermutes<T, K>(s: seq<T>, key: T -> K, le: (K, K) -> bool)
    ensures multiset(SortBy(s, key, le)) == multiset(s)
    decreases |s|
  {
    if s != [] {
      var n := |s| - 1;
      SortPermutes(s[..n], key, le);
      InsertPermutes(s[n], SortBy(s[..n], key, le), key, le);
      assert s == s[..n] + [s[n]];
    }
  }

  /** The rows come out ordered by their keys. */
  lemma {:induction false} SortSorted<T, K(!new)>(s: seq<T>, key: T -> K, le: (K, K) -> bool)
    requires TotalPreorder(le)
    ensures SortedBy(SortBy(s, key, le), key, le)
    decreases |s|
  {
    if s != [] {
      var n := |s| - 1;
      SortSorted(s[..n], key, le);
      InsertSorted(s[n], SortBy(s[..n], key, le), key, le);
    }
  }

  /** The rows of `s` whose key is tied with `k`, in their order in `s`. */
  function Ties<T, K>(s: seq<T>, key: T -> K, le: (K, K) -> bool, k: K): (r: seq<T>)
    ensures |r| <= |s|
  {
    if s == [] then []
    else
      var x := s[|s| - 1];
      Ties(s[..|s| - 1], key, le, k) + (if le(key(x), k) && le(k, key(x)) then [x] else [])
  }

  lemma {:induction false} TiesConcat<T, K>(a: seq<T>, b: seq<T>, key: T -> K, le: (K, K) -> bool, k: K)
    ensures Ties(a + b, key, le, k) == Ties(a, key, le, k) + Ties(b, key, le, k)
    decreases |b|
  {
    if b == [] {
      assert a + b == a;
    } else {
      var n := |b| - 1;
      var last := if le(key(b[n]), k) && le(k, key(b[n])) then [b[n]] else [];
      assert (a + b)[..|a + b| - 1] == a + b[..n];
      assert (a + b)[|a + b| - 1] == b[n];
      assert Ties(a + b, key, le, k) == Ties(a + b[..n], key, le, k) + last;
      assert Ties(b, key, le, k) == Ties(b[..n], key, le, k) + last;
      TiesConcat(a, b[..n], key, le, k);
      ConcatAssociates(Ties(a, key, le, k), Ties(b[..n], key, le, k), last);
    }
  }

  /** No row of `t` is tied with `k`. */
  lemma {:induction false} NoTies<T, K>(t: seq<T>, key: T -> K, le: (K, K) -> bool, k: K)
    requires forall i :: 0 <= i < |t| ==> !(le(key(t[i]), k) && le(k, key(t[i])))
    ensures Ties(t, key, le, k) == []
    decreases |t|
  {
    if t != [] {
      NoTies(t[..|t| - 1], key, le, k);
    }
  }

  /** Inserting `x` adds it after the rows of `t` tied with it, so ties stay in arrival order. */
  lemma {:induction false} InsertKeepsTieOrder<T, K(!new)>(x: T, t: seq<T>, key: T -> K, le: (K, K) -> bool, k: K)
    requires TotalPreorder(le)
    requires SortedBy(t, key, le)
    ensures Ties(Insert(x, t, key, le), key, le, k)
         == Ties(t, key, le, k) + Ties([x], key, le, k)
    decreases |t|
  {
    if t == [] {
      assert [x] == [] + [x];
    } else if le(key(t[0]), key(x)) {
      InsertKeepsTieOrder(x, t[1..], key, le, k);
      TiesPassedOver(x, t, key, le, k);
    } else {
      TiesBeforeInsertion(x, t, key, le, k);
    }
  }

  lemma TiesPassedOver<T, K>(x: T, t: seq<T>, key: T -> K, le: (K, K) -> bool, k: K)
    requires t != [] && le(key(t[0]), key(x))
    requires Ties(Insert(x, t[1..], key, le), key, le, k) == Ties(t[1..], key, le, k) + Ties([x], key, le, k)
    ensures Ties(Insert(x, t, key, le), key, le, k) == Ties(t, key, le, k) + Ties([x], key, le, k)
  {
    assert Insert(x, t, key, le) == [t[0]] + Insert(x, t[1..], key, le);
    assert [t[0]] + t[1..] == t;
    TiesAfterPrefix([t[0]], Insert(x, t[1..], key, le), t[1..], [x], key, le, k);
  }

  /** Ties split over a common prefix: if `b`'s ties are `c`'s followed by `d`'s, the same holds after `a`. */
  lemma TiesAfterPrefix<T, K>(a: seq<T>, b: seq<T>, c: seq<T>, d: seq<T>, key: T -> K, le: (K, K) -> bool, k: K)
    requires Ties(b, key, le, k) == Ties(c, key, le, k) + Ties(d, key, le, k)
    ensures Ties(a + b, key, le, k) == Ties(a + c, key, le, k) + Ties(d, key, le, k)
  {
    TiesConcat(a, b, key, le, k);
    TiesConcat(a, c, key, le, k);
    ConcatAssociates(Ties(a, key, le, k), Ties(c, key, le, k), Ties(d, key, le, k));
  }

  lemma ConcatAssociates<T>(a: seq<T>, b: seq<T>, c: seq<T>)
    ensures a + (b + c) == (a + b) + c
  {
  }

  lemma TiesBeforeInsertion<T, K(!new)>(x: T, t: seq<T>, key: T -> K, le: (K, K) -> bool, k: K)
    requires TotalPreorder(le)
    requires SortedBy(t, key, le)
    requires t != [] && !le(key(t[0]), key(x))
    ensures Ties(Insert(x, t, key, le), key, le, k) == Ties(t, key, le, k) + Ties([x], key, le, k)
  {
    TiesConcat([x], t, key, le, k);
    if le(key(x), k) && le(k, key(x)) {
      NoTiesAbove(x, t, key, le, k);
    } else {
      assert Ties([x], key, le, k) == Ties([], key, le, k);
    }
  }

  /** When every row of sorted `t` is strictly above `x`, and `x` is tied with `k`, no row of `t` is. */
  lemma NoTiesAbove<T, K(!new)>(x: T, t: seq<T>, key: T -> K, le: (K, K) -> bool, k: K)
    requires TotalPreorder(le)
    requires SortedBy(t, key, le)
    requires t != [] && !le(key(t[0]), key(x))
    requires le(key(x), k) && le(k, key(x))
    ensures Ties(t, key, le, k) == []
  {
    forall i | 0 <= i < |t|
      ensures !(le(key(t[i]), k) && le(k, key(t[i])))
    {
      if i > 0 {
        assert le(key(t[0]), key(t[i]));
      }
    }
    NoTies(t, key, le, k);
  }

  /** Stability: the rows tied with any key keep their input order. */
  lemma {:induction false} SortStable<T, K(!new)>(s: seq<T>, key: T -> K, le: (K, K) -> bool, k: K)
    requires TotalPreorder(le)
    ensures Ties(SortBy(s, key, le), key, le, k) == Ties(s, key, le, k)
    decreases |s|
  {
    if s != [] {
      var n := |s| - 1;
      SortStable(s[..n], key, le, k);
      SortSorted(s[..n], key, le);
      InsertKeepsTieOrder(s[n], SortBy(s[..n], key, le), key, le, k);
      TiesConcat(s[..n], [s[n]], key, le, k);
      assert s[..n] + [s[n]] == s;
    }
  }

  /** Two rows: the second goes after the first exactly when the first's key is not above it. */
  lemma SortTwo<T, K>(x: T, y: T, key: T -> K, le: (K, K) -> bool)
    ensures SortBy([x, y], key, le) == if le(key(x), key(y)) then [x, y] else [y, x]
  {
    assert [x, y][..1] == [x];
    assert [x][..0] == [];
    assert SortBy([x], key, le) == [x];
    assert SortBy([x, y], key, le) == Insert(y, [x], key, le);
    assert [x][1..] == [];
    assert Insert(y, [], key, le) == [y];
  }
}
