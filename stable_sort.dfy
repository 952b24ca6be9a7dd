/**
 * `Array.prototype.sort` with a numeric comparator `(a, b) => key(a) - key(b)`.
 * The ECMAScript standard requires this sort to be stable, so it is modelled
 * as a stable insertion sort by an integer key, and proved sorted, a
 * permutation of its input, and order-preserving among equal keys.
 */
module StableSort {

  predicate SortedBy<T>(s: seq<T>, key: T -> int) {
    forall i, j :: 0 <= i < j < |s| ==> key(s[i]) <= key(s[j])
  }

  /** The elements of `s` whose key is `k`, in their order in `s`. */
  function WithKey<T>(s: seq<T>, key: T -> int, k: int): seq<T> {
    if s == [] then []
    else (if key(s[0]) == k then [s[0]] else []) + WithKey(s[1..], key, k)
  }

  /** Places `x` in front of the first element whose key is not below `x`'s. */
  function Insert<T>(x: T, s: seq<T>, key: T -> int): (r: seq<T>)
    ensures |r| == |s| + 1
  {
    if s == [] || key(x) <= key(s[0]) then [x] + s
    else [s[0]] + Insert(x, s[1..], key)
  }

  function SortBy<T>(s: seq<T>, key: T -> int): (r: seq<T>)
    ensures |r| == |s|
  {
    if s == [] then [] else Insert(s[0], SortBy(s[1..], key), key)
  }

  lemma {:induction false} InsertPermutes<T>(x: T, s: seq<T>, key: T -> int)
    ensures multiset(Insert(x, s, key)) == multiset{x} + multiset(s)
  {
    if s != [] && key(x) > key(s[0]) {
      InsertPermutes(x, s[1..], key);
      assert s == [s[0]] + s[1..];
    }
  }

  lemma {:induction false} InsertSorted<T>(x: T, s: seq<T>, key: T -> int)
    requires SortedBy(s, key)
    ensures SortedBy(Insert(x, s, key), key)
  {
    if s != [] && key(x) > key(s[0]) {
      var t := s[1..];
      assert SortedBy(t, key) by {
        forall i, j | 0 <= i < j < |t| ensures key(t[i]) <= key(t[j]) {
          assert t[i] == s[i + 1] && t[j] == s[j + 1];
        }
      }
      InsertSorted(x, t, key);
      var r := Insert(x, t, key);
      assert forall q :: 0 <= q < |r| ==> key(s[0]) <= key(r[q]) by {
        forall q | 0 <= q < |r| ensures key(s[0]) <= key(r[q]) {
          InsertPermutes(x, t, key);
          assert r[q] in multiset(r);
          if r[q] != x {
            assert r[q] in multiset(t);
            var m :| 0 <= m < |t| && t[m] == r[q];
            assert s[m + 1] == r[q];
          }
        }
      }
      var w := [s[0]] + r;
      forall i, j | 0 <= i < j < |w| ensures key(w[i]) <= key(w[j]) {
        assert w[j] == r[j - 1];
        if i > 0 {
          assert w[i] == r[i - 1];
        }
      }
      assert Insert(x, s, key) == w;
    }
  }

  lemma {:induction false} InsertWithKey<T>(x: T, s: seq<T>, key: T -> int, k: int)
    ensures WithKey(Insert(x, s, key), key, k) == (if key(x) == k then [x] else []) + WithKey(s, key, k)
  {
    if s == [] || key(x) <= key(s[0]) {
      WithKeyCons(x, s, key, k);
    } else {
      InsertWithKey(x, s[1..], key, k);
      WithKeyCons(s[0], Insert(x, s[1..], key), key, k);
      WithKeyCons(s[0], s[1..], key, k);
      assert [s[0]] + s[1..] == s;
    }
  }

  lemma WithKeyCons<T>(y: T, t: seq<T>, key: T -> int, k: int)
    ensures WithKey([y] + t, key, k) == (if key(y) == k then [y] else []) + WithKey(t, key, k)
  {
    assert ([y] + t)[0] == y;
    assert ([y] + t)[1..] == t;
  }

  /** The result is sorted by key and is a permutation of the input. */
  lemma {:induction false} SortBySortedPermutation<T>(s: seq<T>, key: T -> int)
    ensures SortedBy(SortBy(s, key), key)
    ensures multiset(SortBy(s, key)) == multiset(s)
  {
    if s != [] {
      SortBySortedPermutation(s[1..], key);
      InsertSorted(s[0], SortBy(s[1..], key), key);
      InsertPermutes(s[0], SortBy(s[1..], key), key);
      assert s == [s[0]] + s[1..];
    }
  }

  /** Stability: elements with equal keys keep their relative order. */
  lemma {:induction false} SortByStable<T>(s: seq<T>, key: T -> int, k: int)
    ensures WithKey(SortBy(s, key), key, k) == WithKey(s, key, k)
  {
    if s != [] {
      SortByStable(s[1..], key, k);
      InsertWithKey(s[0], SortBy(s[1..], key), key, k);
    }
  }

  /** `rel` holds between every two elements at different positions of `s`. */
  predicate Pairwise<T>(s: seq<T>, rel: (T, T) -> bool) {
    forall i, j :: 0 <= i < j < |s| ==> rel(s[i], s[j])
  }

  lemma {:induction false} InsertSplits<T>(x: T, s: seq<T>, key: T -> int)
    ensures exists m :: 0 <= m <= |s| && Insert(x, s, key) == s[..m] + [x] + s[m..]
  {
    if s == [] || key(x) <= key(s[0]) {
      assert Insert(x, s, key) == s[..0] + [x] + s[0..];
    } else {
      InsertSplits(x, s[1..], key);
      var m :| 0 <= m <= |s[1..]| && Insert(x, s[1..], key) == s[1..][..m] + [x] + s[1..][m..];
      assert s[..m + 1] == [s[0]] + s[1..][..m];
      assert s[m + 1..] == s[1..][m..];
      assert Insert(x, s, key) == s[..m + 1] + [x] + s[m + 1..];
    }
  }

  lemma PairwiseSplice<T>(x: T, s: seq<T>, m: nat, rel: (T, T) -> bool)
    requires m <= |s|
    requires forall a, b :: rel(a, b) == rel(b, a)
    requires Pairwise(s, rel)
    requires forall q :: 0 <= q < |s| ==> rel(x, s[q])
    ensures Pairwise(s[..m] + [x] + s[m..], rel)
  {
    var r := s[..m] + [x] + s[m..];
    forall i, j | 0 <= i < j < |r| ensures rel(r[i], r[j]) {
      if j < m {
        assert r[i] == s[i] && r[j] == s[j];
      } else if j == m {
        assert r[i] == s[i] && r[j] == x;
        assert rel(x, s[i]);
      } else if i == m {
        assert r[i] == x && r[j] == s[j - 1];
      } else if i < m {
        assert r[i] == s[i] && r[j] == s[j - 1];
      } else {
        assert r[i] == s[i - 1] && r[j] == s[j - 1];
      }
    }
  }

  /** Sorting keeps a symmetric pairwise relation, such as "do not overlap". */
  lemma {:induction false} SortByKeepsPairwise<T>(s: seq<T>, key: T -> int, rel: (T, T) -> bool)
    requires forall a, b :: rel(a, b) == rel(b, a)
    requires Pairwise(s, rel)
    ensures Pairwise(SortBy(s, key), rel)
  {
    if s != [] {
      assert Pairwise(s[1..], rel) by {
        forall i, j | 0 <= i < j < |s[1..]| ensures rel(s[1..][i], s[1..][j]) {
          assert s[1..][i] == s[i + 1] && s[1..][j] == s[j + 1];
        }
      }
      SortByKeepsPairwise(s[1..], key, rel);
      var t := SortBy(s[1..], key);
      SortBySortedPermutation(s[1..], key);
      forall q | 0 <= q < |t| ensures rel(s[0], t[q]) {
        assert t[q] in multiset(s[1..]);
        var p :| 0 <= p < |s[1..]| && s[1..][p] == t[q];
        assert s[p + 1] == t[q];
      }
      InsertSplits(s[0], t, key);
      var m :| 0 <= m <= |t| && Insert(s[0], t, key) == t[..m] + [s[0]] + t[m..];
      PairwiseSplice(s[0], t, m, rel);
    }
  }

  lemma PairwiseUnsplice<T>(x: T, s: seq<T>, m: nat, rel: (T, T) -> bool)
    requires m <= |s|
    requires forall a, b :: rel(a, b) == rel(b, a)
    requires Pairwise(s[..m] + [x] + s[m..], rel)
    ensures Pairwise(s, rel)
    ensures forall q :: 0 <= q < |s| ==> rel(x, s[q])
  {
    var r := s[..m] + [x] + s[m..];
    forall i, j | 0 <= i < j < |s| ensures rel(s[i], s[j]) {
      var i' := if i < m then i else i + 1;
      var j' := if j < m then j else j + 1;
      assert r[i'] == s[i] && r[j'] == s[j];
    }
    forall q | 0 <= q < |s| ensures rel(x, s[q]) {
      if q < m {
        assert r[q] == s[q] && r[m] == x;
      } else {
        assert r[m] == x && r[q + 1] == s[q];
      }
    }
  }

  /** Conversely, a symmetric relation that holds pairwise after sorting held pairwise before. */
  lemma {:induction false} SortByReflectsPairwise<T>(s: seq<T>, key: T -> int, rel: (T, T) -> bool)
    requires forall a, b :: rel(a, b) == rel(b, a)
    requires Pairwise(SortBy(s, key), rel)
    ensures Pairwise(s, rel)
  {
    if s != [] {
      var t := SortBy(s[1..], key);
      InsertSplits(s[0], t, key);
      var m :| 0 <= m <= |t| && Insert(s[0], t, key) == t[..m] + [s[0]] + t[m..];
      PairwiseUnsplice(s[0], t, m, rel);
      SortByReflectsPairwise(s[1..], key, rel);
      SortBySortedPermutation(s[1..], key);
      forall i, j | 0 <= i < j < |s| ensures rel(s[i], s[j]) {
        if i == 0 {
          assert s[j] == s[1..][j - 1];
          assert s[j] in multiset(t);
          var q :| 0 <= q < |t| && t[q] == s[j];
        } else {
          assert s[i] == s[1..][i - 1] && s[j] == s[1..][j - 1];
        }
      }
    }
  }
}
