/**
 * Stable sorting by an integer key: a reference insertion sort on sequences,
 * its three properties (ordered, permutation, stable), and the in-place
 * array insertion sort proved to compute it.
 */
module StableSort {

  predicate SortedByKey<T>(s: seq<T>, key: T -> int) {
    forall i, j :: 0 <= i < j < |s| ==> key(s[i]) <= key(s[j])
  }

  /** The elements of `s` whose key is `k`, in their order in `s`. */
  function WithKey<T>(s: seq<T>, key: T -> int, k: int): seq<T> {
    if s == [] then []
    else WithKey(s[..|s| - 1], key, k) + (if key(s[|s| - 1]) == k then [s[|s| - 1]] else [])
  }

  /** Insert `x` into `s` behind every element of equal or smaller key, scanning from the back. */
  function Insert<T>(s: seq<T>, x: T, key: T -> int): seq<T> {
    if s == [] || key(s[|s| - 1]) <= key(x) then s + [x]
    else Insert(s[..|s| - 1], x, key) + [s[|s| - 1]]
  }

  /** Insertion sort: insert each element, front to back, into the sorted prefix. */
  function SortByKey<T>(s: seq<T>, key: T -> int): seq<T> {
    if s == [] then [] else Insert(SortByKey(s[..|s| - 1], key), s[|s| - 1], key)
  }

  lemma {:induction false} InsertPermutes<T>(s: seq<T>, x: T, key: T -> int)
    ensures multiset(Insert(s, x, key)) == multiset(s) + multiset{x}
  {
    if s != [] && key(s[|s| - 1]) > key(x) {
      InsertPermutes(s[..|s| - 1], x, key);
      assert s == s[..|s| - 1] + [s[|s| - 1]];
    }
  }

  lemma {:induction false} InsertSorted<T>(s: seq<T>, x: T, key: T -> int)
    requires SortedByKey(s, key)
    ensures SortedByKey(Insert(s, x, key), key)
  {
    if s != [] && key(s[|s| - 1]) > key(x) {
      var init, last := s[..|s| - 1], s[|s| - 1];
      SortedInit(s, key);
      InsertSorted(init, x, key);
      InsertPermutes(init, x, key);
      var t := Insert(init, x, key);
      forall i | 0 <= i < |t| ensures key(t[i]) <= key(last) {
        assert t[i] in multiset(init) + multiset{x};
        if t[i] in multiset(init) {
          var j :| 0 <= j < |init| && init[j] == t[i];
          assert s[j] == init[j];
        }
      }
      assert Insert(s, x, key) == t + [last];
    }
  }

  lemma WithKeyAppend<T>(s: seq<T>, y: T, key: T -> int, k: int)
    ensures WithKey(s + [y], key, k) == WithKey(s, key, k) + (if key(y) == k then [y] else [])
  {
    assert (s + [y])[..|s|] == s;
  }

  /** Dropping the last element keeps a sequence sorted, and that element is its largest. */
  lemma SortedInit<T>(s: seq<T>, key: T -> int)
    requires s != [] && SortedByKey(s, key)
    ensures SortedByKey(s[..|s| - 1], key)
    ensures forall i :: 0 <= i < |s| - 1 ==> key(s[i]) <= key(s[|s| - 1])
  {
  }

  /** Inserting into a sorted sequence puts `x` behind every element of its own key. */
  lemma {:induction false} InsertStable<T>(s: seq<T>, x: T, key: T -> int, k: int)
    requires SortedByKey(s, key)
    ensures WithKey(Insert(s, x, key), key, k) == WithKey(s, key, k) + (if key(x) == k then [x] else [])
  {
    if s == [] || key(s[|s| - 1]) <= key(x) {
      WithKeyAppend(s, x, key, k);
    } else {
      var init, last := s[..|s| - 1], s[|s| - 1];
      SortedInit(s, key);
      var t := Insert(init, x, key);
      assert Insert(s, x, key) == t + [last];
      InsertStable(init, x, key, k);
      WithKeyAppend(t, last, key, k);
      assert s == init + [last];
      WithKeyAppend(init, last, key, k);
      assert key(x) != k || key(last) != k;
    }
  }

  /** The reference sort orders by key, permutes, and keeps equal keys in their input order. */
  lemma {:induction false} SortByKeyIsStableSort<T>(s: seq<T>, key: T -> int)
    ensures SortedByKey(SortByKey(s, key), key)
    ensures multiset(SortByKey(s, key)) == multiset(s) && |SortByKey(s, key)| == |s|
    ensures forall k :: WithKey(SortByKey(s, key), key, k) == WithKey(s, key, k)
  {
    if s != [] {
      var init, last := s[..|s| - 1], s[|s| - 1];
      SortByKeyIsStableSort(init, key);
      InsertSorted(SortByKey(init, key), last, key);
      InsertPermutes(SortByKey(init, key), last, key);
      assert s == init + [last];
      forall k ensures WithKey(SortByKey(s, key), key, k) == WithKey(s, key, k) {
        InsertStable(SortByKey(init, key), last, key, k);
        WithKeyAppend(init, last, key, k);
      }
    }
    assert |multiset(SortByKey(s, key))| == |multiset(s)|;
  }

  /** Two elements with different keys come out in key order, whatever order they came in. */
  lemma SortTwo<T>(x: T, y: T, key: T -> int)
    requires key(x) < key(y)
    ensures SortByKey([x, y], key) == [x, y] && SortByKey([y, x], key) == [x, y]
  {
    SortOne(x, key);
    SortOne(y, key);
    var xy, yx := [x, y], [y, x];
    assert xy[..1] == [x] && xy[1] == y;
    assert yx[..1] == [y] && yx[1] == x;
    assert SortByKey(xy, key) == Insert([x], y, key);
    assert SortByKey(yx, key) == Insert([y], x, key);
    assert [y][..0] == [];
    assert Insert([y], x, key) == Insert([], x, key) + [y];
  }

  lemma SortOne<T>(x: T, key: T -> int)
    ensures SortByKey([x], key) == [x]
  {
    assert [x][..0] == [];
    assert SortByKey([x], key) == Insert([], x, key);
  }

  /**
   * Where the insertion scan stops: when everything from `j` on is larger
   * than `x` and the element before `j` is not, `x` goes in at `j`.
   */
  lemma {:induction false} InsertAt<T>(s: seq<T>, x: T, key: T -> int, j: int)
    requires 0 <= j <= |s|
    requires j == 0 || key(s[j - 1]) <= key(x)
    requires forall m :: j <= m < |s| ==> key(s[m]) > key(x)
    ensures Insert(s, x, key) == s[..j] + [x] + s[j..]
    decreases |s|
  {
    if j == |s| {
      assert s[..j] == s && s[j..] == [];
    } else {
      var init, last := s[..|s| - 1], s[|s| - 1];
      InsertAt(init, x, key, j);
      assert init[..j] == s[..j];
      assert init[j..] + [last] == s[j..];
    }
  }

  /**
   * Move `a[i]` left past every larger-keyed element of the sorted prefix
   * `a[..i]`, shifting those one place right.
   */
  method InsertIntoPrefix<T>(a: array<T>, i: int, key: T -> int)
    requires 0 <= i < a.Length
    modifies a
    ensures a[..i + 1] == Insert(old(a[..i]), old(a[i]), key)
    ensures a[i + 1..] == old(a[i + 1..])
  {
    var x := a[i];
    ghost var sorted := a[..i];
    ghost var rest := a[i + 1..];
    var j := i;
    while j > 0 && key(a[j - 1]) > key(x)
      invariant 0 <= j <= i
      invariant forall m :: 0 <= m < j ==> a[m] == sorted[m]
      invariant forall m :: j < m <= i ==> a[m] == sorted[m - 1]
      invariant forall m :: i < m < a.Length ==> a[m] == rest[m - i - 1]
      invariant forall m :: j <= m < i ==> key(sorted[m]) > key(x)
    {
      a[j] := a[j - 1];
      j := j - 1;
    }
    InsertAt(sorted, x, key, j);
    a[j] := x;
    ghost var result := sorted[..j] + [x] + sorted[j..i];
    forall m | 0 <= m <= i
      ensures a[m] == result[m]
    {
      if m > j {
        assert result[m] == sorted[m - 1];
      }
    }
    assert a[..i + 1] == result;
    assert a[i + 1..] == rest;
  }

  /** In-place stable insertion sort by `key`. */
  method InsertionSort<T>(a: array<T>, key: T -> int)
    modifies a
    ensures a[..] == SortByKey(old(a[..]), key)
  {
    ghost var orig := a[..];
    var i := 0;
    while i < a.Length
      invariant 0 <= i <= a.Length
      invariant a[..i] == SortByKey(orig[..i], key)
      invariant a[i..] == orig[i..]
    {
      assert orig[..i + 1] == orig[..i] + [orig[i]];
      InsertIntoPrefix(a, i, key);
      i := i + 1;
    }
    assert a[..] == a[..a.Length];
    assert orig == orig[..a.Length];
  }
}
