// Sorting by a C-style three-way comparator (the model of `qsort`) and the
// median of a list of ints (the model of the `FindMedianInt` utility).

module Sorting {

  /**
   * A comparator the source hands to `qsort`: negative means "before",
   * positive "after".  `Connex` is all the sort below needs: of two
   * elements, at least one may precede the other.
   */
  ghost predicate Connex<T(!new)>(cmp: (T, T) -> int)
  {
    forall a: T, b: T :: cmp(a, b) <= 0 || cmp(b, a) <= 0
  }

  /** Each element compares at most 0 against its successor. */
  ghost predicate SortedBy<T>(s: seq<T>, cmp: (T, T) -> int)
  {
    forall k {:trigger s[k]} :: 0 <= k < |s| - 1 ==> cmp(s[k], s[k + 1]) <= 0
  }

  function Insert<T>(x: T, s: seq<T>, cmp: (T, T) -> int): (r: seq<T>)
    ensures |r| == |s| + 1
    ensures multiset(r) == multiset(s) + multiset{x}
    decreases |s|
  {
    if s == [] || cmp(x, s[0]) <= 0 then [x] + s
    else
      assert s == [s[0]] + s[1..];
      [s[0]] + Insert(x, s[1..], cmp)
  }

  /** Insertion sort: one fixed arrangement among those `qsort` may produce. */
  function SortBy<T>(s: seq<T>, cmp: (T, T) -> int): (r: seq<T>)
    ensures |r| == |s|
    ensures multiset(r) == multiset(s)
    decreases |s|
  {
    if s == [] then []
    else
      assert s == [s[0]] + s[1..];
      Insert(s[0], SortBy(s[1..], cmp), cmp)
  }

  lemma {:induction false} InsertSorted<T(!new)>(x: T, s: seq<T>, cmp: (T, T) -> int)
    requires Connex(cmp) && SortedBy(s, cmp)
    ensures SortedBy(Insert(x, s, cmp), cmp)
    ensures s != [] ==> Insert(x, s, cmp)[0] == x || Insert(x, s, cmp)[0] == s[0]
    decreases |s|
  {
    if s == [] || cmp(x, s[0]) <= 0 {
      ConsSorted(x, s, cmp);
    } else {
      var t := Insert(x, s[1..], cmp);
      InsertSorted(x, s[1..], cmp);
      assert cmp(s[0], x) <= 0;
      if s[1..] == [] {
        assert t[0] == x;
      } else {
        assert t[0] == x || t[0] == s[1];
        assert cmp(s[0], s[1]) <= 0;
      }
      SortedTail(s, cmp);
      ConsSorted(s[0], t, cmp);
    }
  }

  /** A sorted list stays sorted with an element in front that precedes its head. */
  lemma ConsSorted<T>(y: T, t: seq<T>, cmp: (T, T) -> int)
    requires SortedBy(t, cmp) && (t != [] ==> cmp(y, t[0]) <= 0)
    ensures SortedBy([y] + t, cmp)
  {
    var r := [y] + t;
    forall k | 0 <= k < |r| - 1 ensures cmp(r[k], r[k + 1]) <= 0 {
      if k > 0 {
        assert r[k] == t[k - 1] && r[k + 1] == t[k];
      }
    }
  }

  /** The tail of a sorted list is sorted. */
  lemma SortedTail<T>(s: seq<T>, cmp: (T, T) -> int)
    requires SortedBy(s, cmp) && s != []
    ensures SortedBy(s[1..], cmp)
  {
    forall k | 0 <= k < |s| - 2 ensures cmp(s[1..][k], s[1..][k + 1]) <= 0 {
      assert s[1..][k] == s[k + 1] && s[1..][k + 1] == s[k + 2];
    }
  }

  lemma {:induction false} SortBySorted<T(!new)>(s: seq<T>, cmp: (T, T) -> int)
    requires Connex(cmp)
    ensures SortedBy(SortBy(s, cmp), cmp)
    decreases |s|
  {
    if s != [] {
      SortBySorted(s[1..], cmp);
      InsertSorted(s[0], SortBy(s[1..], cmp), cmp);
    }
  }

  /** Sorting a list that is already sorted leaves it as it is. */
  lemma {:induction false} SortBySortedUnchanged<T>(s: seq<T>, cmp: (T, T) -> int)
    requires SortedBy(s, cmp)
    ensures SortBy(s, cmp) == s
    decreases |s|
  {
    if s != [] {
      SortedTail(s, cmp);
      SortBySortedUnchanged(s[1..], cmp);
      assert [s[0]] + s[1..] == s;
    }
  }

  function IntCompare(a: int, b: int): int
  {
    if a < b then -1 else if a > b then 1 else 0
  }

  /** The median of a non-empty list: its middle element once sorted. */
  function Median(s: seq<int>): (m: int)
    requires |s| > 0
    ensures m in multiset(s)
  {
    var t := SortBy(s, IntCompare);
    assert t[|s| / 2] in multiset(t);
    t[|s| / 2]
  }

  /** The median lies between the least and the greatest element. */
  lemma MedianBetween(s: seq<int>, lo: int, hi: int)
    requires |s| > 0
    requires forall k :: 0 <= k < |s| ==> lo <= s[k] <= hi
    ensures lo <= Median(s) <= hi
  {
    var m := Median(s);
    assert m in multiset(s);
    assert m in s;
  }
}
