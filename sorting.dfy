/**
 * The two orderings the Rust code applies to vectors: a stable sort by a
 * key (`sort_by_key`, `sort` on a comparator that is a key order), and
 * `sort()` followed by `dedup()`.
 */
module Sorting {

  // ---------------------------------------------------------------------
  // Stable sort by a natural-number key
  // ---------------------------------------------------------------------

  /** Inserts `x` after every element of `s` whose key is at most `key(x)`. */
  function InsertByKey<T>(s: seq<T>, x: T, key: T -> nat): (r: seq<T>)
    ensures |r| == |s| + 1
  {
    if |s| == 0 then [x]
    else if key(s[|s| - 1]) <= key(x) then s + [x]
    else
      InsertByKey(s[..|s| - 1], x, key) + [s[|s| - 1]]
  }

  /** Insertion sort that keeps equal keys in their original order. */
  function SortByKey<T>(s: seq<T>, key: T -> nat): (r: seq<T>)
    ensures |r| == |s|
  {
    if |s| == 0 then []
    else
      InsertByKey(SortByKey(s[..|s| - 1], key), s[|s| - 1], key)
  }

  ghost predicate SortedByKey<T>(s: seq<T>, key: T -> nat) {
    forall i, j :: 0 <= i < j < |s| ==> key(s[i]) <= key(s[j])
  }

  /** The elements of `s` whose key is `k`, in order. */
  function WithKey<T>(s: seq<T>, key: T -> nat, k: nat): seq<T> {
    if |s| == 0 then []
    else WithKey(s[..|s| - 1], key, k) + (if key(s[|s| - 1]) == k then [s[|s| - 1]] else [])
  }

  lemma WithKeyAppend<T>(a: seq<T>, b: seq<T>, key: T -> nat, k: nat)
    ensures WithKey(a + b, key, k) == WithKey(a, key, k) + WithKey(b, key, k)
  {
    if |b| == 0 {
      assert a + b == a;
    } else {
      assert (a + b)[..|a + b| - 1] == a + b[..|b| - 1];
      WithKeyAppend(a, b[..|b| - 1], key, k);
    }
  }

  /** What `WithKey` keeps are elements of `s` with key `k`. */
  lemma {:induction false} WithKeyElements<T>(s: seq<T>, key: T -> nat, k: nat)
    ensures forall x :: x in WithKey(s, key, k) ==> x in s && key(x) == k
  {
    if |s| > 0 {
      WithKeyElements(s[..|s| - 1], key, k);
      assert s == s[..|s| - 1] + [s[|s| - 1]];
    }
  }

  /** An element with key `k` sits in `WithKey` after those of the prefix before it. */
  lemma WithKeyPlace<T>(s: seq<T>, key: T -> nat, k: nat, i: nat)
    requires i < |s| && key(s[i]) == k
    ensures |WithKey(s[..i], key, k)| < |WithKey(s, key, k)|
    ensures WithKey(s, key, k)[|WithKey(s[..i], key, k)|] == s[i]
  {
    assert s == s[..i + 1] + s[i + 1..];
    assert s[..i + 1][..i] == s[..i];
    WithKeyAppend(s[..i + 1], s[i + 1..], key, k);
  }

  /** A later prefix holds more elements of key `k` once an element of that key lies between. */
  lemma WithKeyGrows<T>(s: seq<T>, key: T -> nat, k: nat, i: nat, j: nat)
    requires i < j <= |s| && key(s[i]) == k
    ensures |WithKey(s[..i], key, k)| < |WithKey(s[..j], key, k)|
  {
    WithKeyPlace(s[..j], key, k, i);
    assert s[..j][..i] == s[..i];
  }

  lemma {:induction false} InsertByKeySorted<T>(s: seq<T>, x: T, key: T -> nat)
    requires SortedByKey(s, key)
    ensures SortedByKey(InsertByKey(s, x, key), key)
  {
    if |s| > 0 && key(s[|s| - 1]) > key(x) {
      var init, last := s[..|s| - 1], s[|s| - 1];
      InsertByKeySorted(init, x, key);
      var m := InsertByKey(init, x, key);
      forall i | 0 <= i < |m| ensures key(m[i]) <= key(last) {
        InsertByKeyElement(init, x, key, i);
      }
    }
  }

  /** Every element of the insertion result is `x` or comes from `s`. */
  lemma {:induction false} InsertByKeyElement<T>(s: seq<T>, x: T, key: T -> nat, i: nat)
    requires i < |s| + 1
    ensures InsertByKey(s, x, key)[i] == x || exists j :: 0 <= j < |s| && InsertByKey(s, x, key)[i] == s[j]
  {
    var r := InsertByKey(s, x, key);
    if |s| > 0 && key(s[|s| - 1]) > key(x) && i < |s| {
      InsertByKeyElement(s[..|s| - 1], x, key, i);
      var r' := InsertByKey(s[..|s| - 1], x, key);
      assert r[i] == r'[i];
      if r'[i] != x {
        var j :| 0 <= j < |s| - 1 && r'[i] == s[..|s| - 1][j];
        assert r[i] == s[j];
      }
    } else if |s| > 0 && key(s[|s| - 1]) > key(x) {
      assert r[i] == s[|s| - 1];
    } else if |s| > 0 && i < |s| {
      assert r[i] == s[i];
    }
  }

  lemma {:induction false} InsertByKeyPermutation<T>(s: seq<T>, x: T, key: T -> nat)
    ensures multiset(InsertByKey(s, x, key)) == multiset(s) + multiset{x}
  {
    if |s| > 0 && key(s[|s| - 1]) > key(x) {
      InsertByKeyPermutation(s[..|s| - 1], x, key);
      assert s == s[..|s| - 1] + [s[|s| - 1]];
    }
  }

  lemma {:induction false} SortByKeyPermutation<T>(s: seq<T>, key: T -> nat)
    ensures multiset(SortByKey(s, key)) == multiset(s)
  {
    if |s| > 0 {
      SortByKeyPermutation(s[..|s| - 1], key);
      InsertByKeyPermutation(SortByKey(s[..|s| - 1], key), s[|s| - 1], key);
      assert s == s[..|s| - 1] + [s[|s| - 1]];
    }
  }

  lemma {:induction false} InsertByKeyWithKey<T>(s: seq<T>, x: T, key: T -> nat, k: nat)
    ensures WithKey(InsertByKey(s, x, key), key, k) == WithKey(s, key, k) + (if key(x) == k then [x] else [])
  {
    if |s| == 0 {
      assert WithKey([x], key, k) == WithKey([x][..0], key, k) + (if key(x) == k then [x] else []);
    } else if key(s[|s| - 1]) <= key(x) {
      WithKeyAppend(s, [x], key, k);
      assert WithKey([x], key, k) == WithKey([x][..0], key, k) + (if key(x) == k then [x] else []);
    } else {
      var init, last := s[..|s| - 1], s[|s| - 1];
      InsertByKeyWithKey(init, x, key, k);
      var m := InsertByKey(init, x, key);
      assert (m + [last])[..|m + [last]| - 1] == m;
      if key(x) == k {
        assert key(last) != k;
      }
    }
  }

  lemma {:induction false} SortByKeyWithKey<T>(s: seq<T>, key: T -> nat, k: nat)
    ensures WithKey(SortByKey(s, key), key, k) == WithKey(s, key, k)
  {
    if |s| > 0 {
      SortByKeyWithKey(s[..|s| - 1], key, k);
      InsertByKeyWithKey(SortByKey(s[..|s| - 1], key), s[|s| - 1], key, k);
    }
  }

  lemma {:induction false} SortByKeySorted<T>(s: seq<T>, key: T -> nat)
    ensures SortedByKey(SortByKey(s, key), key)
  {
    if |s| > 0 {
      SortByKeySorted(s[..|s| - 1], key);
      InsertByKeySorted(SortByKey(s[..|s| - 1], key), s[|s| - 1], key);
    }
  }

  /**
   * `SortByKey` is a stable sort: its result is ordered by key, is a
   * permutation of the input, and lists the elements of each key in their
   * input order. These three facts determine the result uniquely.
   */
  lemma SortByKeyCorrect<T>(s: seq<T>, key: T -> nat)
    ensures SortedByKey(SortByKey(s, key), key)
    ensures multiset(SortByKey(s, key)) == multiset(s)
    ensures forall k :: WithKey(SortByKey(s, key), key, k) == WithKey(s, key, k)
  {
    SortByKeySorted(s, key);
    SortByKeyPermutation(s, key);
    forall k ensures WithKey(SortByKey(s, key), key, k) == WithKey(s, key, k) {
      SortByKeyWithKey(s, key, k);
    }
  }

  /** The scan position found by the insertion loop is where `InsertByKey` puts `x`. */
  lemma {:induction false} InsertByKeyAt<T>(r: seq<T>, x: T, key: T -> nat, j: nat)
    requires j <= |r|
    requires forall m :: j <= m < |r| ==> key(r[m]) > key(x)
    requires j == 0 || key(r[j - 1]) <= key(x)
    ensures InsertByKey(r, x, key) == r[..j] + [x] + r[j..]
    decreases |r|
  {
    if j == |r| {
      assert r[..j] == r && r[j..] == [];
    } else {
      var init, last := r[..|r| - 1], r[|r| - 1];
      InsertByKeyAt(init, x, key, j);
      assert init[..j] == r[..j];
      assert init[j..] + [last] == r[j..];
    }
  }

  lemma SortByKeyPrefix<T>(s: seq<T>, key: T -> nat, i: nat)
    requires i < |s|
    ensures SortByKey(s[..i + 1], key) == InsertByKey(SortByKey(s[..i], key), s[i], key)
  {
    assert s[..i + 1][..i] == s[..i];
  }

  /**
   * An insertion sort that yields the same stable order as `sort_by_key`
   * (a merge sort in the standard library): each element is placed by
   * scanning back over the sorted prefix past every larger key.
   */
  method StableSortByKey<T>(s: seq<T>, key: T -> nat) returns (r: seq<T>)
    ensures r == SortByKey(s, key)
  {
    r := [];
    var i := 0;
    while i < |s|
      invariant 0 <= i <= |s|
      invariant r == SortByKey(s[..i], key)
    {
      var x := s[i];
      var j := |r|;
      while j > 0 && key(r[j - 1]) > key(x)
        invariant 0 <= j <= |r|
        invariant forall m :: j <= m < |r| ==> key(r[m]) > key(x)
      {
        j := j - 1;
      }
      InsertByKeyAt(r, x, key, j);
      SortByKeyPrefix(s, key, i);
      r := r[..j] + [x] + r[j..];
      i := i + 1;
    }
    assert s[..i] == s;
  }

  // ---------------------------------------------------------------------
  // sort() followed by dedup()
  // ---------------------------------------------------------------------

  ghost predicate StrictTotalOrder<T(!new)>(lt: (T, T) -> bool) {
    && (forall x :: !lt(x, x))
    && (forall x, y, z :: lt(x, y) && lt(y, z) ==> lt(x, z))
    && (forall x, y :: x == y || lt(x, y) || lt(y, x))
  }

  ghost predicate StrictlySorted<T>(s: seq<T>, lt: (T, T) -> bool) {
    forall i, j :: 0 <= i < j < |s| ==> lt(s[i], s[j])
  }

  /** Non-decreasing: no later element is smaller than an earlier one. */
  ghost predicate Sorted<T>(s: seq<T>, lt: (T, T) -> bool) {
    forall i, j :: 0 <= i < j < |s| ==> !lt(s[j], s[i])
  }

  /** Inserts `x` into a strictly sorted list unless it is already there. */
  function InsertUnique<T(==,!new)>(s: seq<T>, x: T, lt: (T, T) -> bool): (r: seq<T>)
    ensures forall y :: y in r <==> y in s || y == x
  {
    if |s| == 0 then [x]
    else if s[|s| - 1] == x then s
    else if lt(s[|s| - 1], x) then s + [x]
    else
      var r := InsertUnique(s[..|s| - 1], x, lt) + [s[|s| - 1]];
      assert s == s[..|s| - 1] + [s[|s| - 1]];
      r
  }

  /** The distinct elements of `s` in increasing order. */
  function SortDedup<T(==,!new)>(s: seq<T>, lt: (T, T) -> bool): (r: seq<T>)
    ensures forall y :: y in r <==> y in s
  {
    if |s| == 0 then []
    else
      var r := InsertUnique(SortDedup(s[..|s| - 1], lt), s[|s| - 1], lt);
      assert s == s[..|s| - 1] + [s[|s| - 1]];
      r
  }

  lemma {:induction false} InsertUniqueSorted<T(!new)>(s: seq<T>, x: T, lt: (T, T) -> bool)
    requires StrictTotalOrder(lt) && StrictlySorted(s, lt)
    ensures StrictlySorted(InsertUnique(s, x, lt), lt)
  {
    if |s| > 0 && s[|s| - 1] != x && !lt(s[|s| - 1], x) {
      var init, last := s[..|s| - 1], s[|s| - 1];
      InsertUniqueSorted(init, x, lt);
      var m := InsertUnique(init, x, lt);
      assert lt(x, last);
      forall i | 0 <= i < |m| ensures lt(m[i], last) {
        assert m[i] in m;
      }
    }
  }

  lemma {:induction false} SortDedupSorted<T(!new)>(s: seq<T>, lt: (T, T) -> bool)
    requires StrictTotalOrder(lt)
    ensures StrictlySorted(SortDedup(s, lt), lt)
  {
    if |s| > 0 {
      SortDedupSorted(s[..|s| - 1], lt);
      InsertUniqueSorted(SortDedup(s[..|s| - 1], lt), s[|s| - 1], lt);
    }
  }

  /** In a strictly sorted list every element is the last one or below it. */
  lemma LastIsGreatest<T(!new)>(s: seq<T>, y: T, lt: (T, T) -> bool)
    requires StrictlySorted(s, lt) && y in s
    ensures y == s[|s| - 1] || lt(y, s[|s| - 1])
  {
    var i :| 0 <= i < |s| && s[i] == y;
    if i < |s| - 1 {
      assert lt(s[i], s[|s| - 1]);
    }
  }

  /** Two strictly sorted lists with the same elements are equal. */
  lemma {:induction false} StrictlySortedUnique<T(!new)>(a: seq<T>, b: seq<T>, lt: (T, T) -> bool)
    requires StrictTotalOrder(lt)
    requires StrictlySorted(a, lt) && StrictlySorted(b, lt)
    requires forall y :: y in a <==> y in b
    ensures a == b
    decreases |a| + |b|, if |a| > 0 then 0 else 1
  {
    if |a| > 0 {
      assert a[|a| - 1] in b;
      var la, lb := a[|a| - 1], b[|b| - 1];
      LastIsGreatest(b, la, lt);
      LastIsGreatest(a, lb, lt);
      assert la == lb;
      var a', b' := a[..|a| - 1], b[..|b| - 1];
      forall y ensures y in a' <==> y in b' {
        if y in a' {
          var i :| 0 <= i < |a'| && a'[i] == y;
          assert lt(a[i], la);
          assert y in b;
          assert y == lb || y in b' by { assert b == b' + [lb]; }
        }
        if y in b' {
          var i :| 0 <= i < |b'| && b'[i] == y;
          assert lt(b[i], lb);
          assert y in a;
          assert y == la || y in a' by { assert a == a' + [la]; }
        }
      }
      StrictlySortedUnique(a', b', lt);
      assert a == a' + [la] && b == b' + [lb];
    } else if |b| > 0 {
      StrictlySortedUnique(b, a, lt);
    }
  }

  /** `Vec::dedup`: drops every element equal to its predecessor. */
  function Dedup<T(==,!new)>(s: seq<T>): (r: seq<T>)
    ensures forall y :: y in r <==> y in s
    ensures |s| > 0 ==> |r| > 0 && r[|r| - 1] == s[|s| - 1]
  {
    if |s| <= 1 then s
    else
      var r := Dedup(s[..|s| - 1]) + (if s[|s| - 2] == s[|s| - 1] then [] else [s[|s| - 1]]);
      assert s == s[..|s| - 1] + [s[|s| - 1]];
      assert s[|s| - 2] == s[..|s| - 1][|s| - 2];
      r
  }

  lemma {:induction false} DedupOfSorted<T(!new)>(s: seq<T>, lt: (T, T) -> bool)
    requires StrictTotalOrder(lt) && Sorted(s, lt)
    ensures StrictlySorted(Dedup(s), lt)
  {
    if |s| > 1 {
      var init, last := s[..|s| - 1], s[|s| - 1];
      DedupOfSorted(init, lt);
      var d := Dedup(init);
      if s[|s| - 2] != last {
        assert lt(s[|s| - 2], last);
        forall i | 0 <= i < |d| ensures lt(d[i], last) {
          assert d[i] in init;
          var j :| 0 <= j < |init| && init[j] == d[i];
          if j < |s| - 2 {
            assert !lt(s[|s| - 2], s[j]);
            assert s[j] == s[|s| - 2] || lt(s[j], s[|s| - 2]);
          }
        }
      }
    }
  }

  /**
   * Whatever sorted permutation `sort()` produces, `dedup()` of it is
   * `SortDedup`: the model's insertion is the Rust `sort(); dedup();`.
   */
  lemma SortThenDedup<T(!new)>(s: seq<T>, sorted: seq<T>, lt: (T, T) -> bool)
    requires StrictTotalOrder(lt)
    requires Sorted(sorted, lt) && multiset(sorted) == multiset(s)
    ensures Dedup(sorted) == SortDedup(s, lt)
  {
    DedupOfSorted(sorted, lt);
    SortDedupSorted(s, lt);
    forall y ensures y in Dedup(sorted) <==> y in SortDedup(s, lt) {
      assert y in sorted <==> y in multiset(sorted);
      assert y in s <==> y in multiset(s);
    }
    StrictlySortedUnique(Dedup(sorted), SortDedup(s, lt), lt);
  }
}
