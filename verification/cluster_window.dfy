// The neighbour windows scanned by the cluster engine's `Make` and `Build`
// passes (TGM_Cluster.c).  Point i looks at the points j whose first
// attribute lies within i's first bound; among those, the ones whose second
// attribute also lies within i's second bound are its neighbours.  Both passes
// carry a low-water index `lastLowIndex` from one point to the next.

module ClusterWindow {
  import opened Numeric
  import opened PairRecords

  /**
   * The first n points each have an entry in the bounds table, and every
   * first bound is non-negative (with a negative one the scans would run off
   * the end of the array).
   */
  predicate Bounded(a: seq<Attrbt>, b: seq<Two<real>>, n: nat)
  {
    n <= |a| && forall i | 0 <= i < n :: a[i].readGrpID < |b| && b[a[i].readGrpID].first >= 0.0
  }

  /** The first and second bounds of point i, looked up through its read group. */
  function FirstBound(a: seq<Attrbt>, b: seq<Two<real>>, n: nat, i: nat): (r: real)
    requires Bounded(a, b, n) && i < n
    ensures r >= 0.0
  {
    b[a[i].readGrpID].first
  }

  function SecondBound(a: seq<Attrbt>, b: seq<Two<real>>, n: nat, i: nat): real
    requires Bounded(a, b, n) && i < n
  {
    b[a[i].readGrpID].second
  }

  /** Point j lies so far below point i in the first attribute that i skips it. */
  predicate Below(a: seq<Attrbt>, b: seq<Two<real>>, n: nat, i: nat, j: nat)
    requires Bounded(a, b, n) && i < n && j < n
  {
    a[i].first - a[j].first > FirstBound(a, b, n, i)
  }

  /** j is within i's first bound. */
  predicate Near1(a: seq<Attrbt>, b: seq<Two<real>>, n: nat, i: nat, j: nat)
    requires Bounded(a, b, n) && i < n && j < n
  {
    AbsReal(a[i].first - a[j].first) <= FirstBound(a, b, n, i)
  }

  /** j is within i's second bound. */
  predicate Near2(a: seq<Attrbt>, b: seq<Two<real>>, n: nat, i: nat, j: nat)
    requires Bounded(a, b, n) && i < n && j < n
  {
    AbsReal(a[i].second - a[j].second) <= SecondBound(a, b, n, i)
  }

  /**
   * The first loop of each pass: from j, skip the points below i.  It stops
   * at the first point not below i, which is never past i itself.
   */
  function Advance(a: seq<Attrbt>, b: seq<Two<real>>, n: nat, i: nat, j: nat): (r: nat)
    requires Bounded(a, b, n) && i < n && j <= n
    ensures j <= r <= n
    ensures forall k | j <= k < r :: Below(a, b, n, i, k)
    ensures r < n ==> !Below(a, b, n, i, r)
    ensures j <= i ==> r <= i
    decreases n - j
  {
    if j < n && Below(a, b, n, i, j) then Advance(a, b, n, i, j + 1) else j
  }

  /** `lastLowIndex` once point i has been processed: where i's window starts. */
  function Low(a: seq<Attrbt>, b: seq<Two<real>>, n: nat, i: nat): (r: nat)
    requires Bounded(a, b, n) && i < n
    ensures r <= i
  {
    Advance(a, b, n, i, if i == 0 then 0 else Low(a, b, n, i - 1))
  }

  /**
   * The second loop of each pass: from j, run over the points within i's
   * first bound; it also stops at the end of the array.
   */
  function WindowEnd(a: seq<Attrbt>, b: seq<Two<real>>, n: nat, i: nat, j: nat): (r: nat)
    requires Bounded(a, b, n) && i < n && j < n
    ensures j <= r <= n
    ensures forall k | j <= k < r :: Near1(a, b, n, i, k)
    ensures r < n ==> !Near1(a, b, n, i, r)
    decreases n - j
  {
    if !Near1(a, b, n, i, j) then j
    else if j + 1 == n then n
    else WindowEnd(a, b, n, i, j + 1)
  }

  /** The number of points in [lo, hi) within i's second bound. */
  function CountNear2(a: seq<Attrbt>, b: seq<Two<real>>, n: nat, i: nat, lo: nat, hi: nat): (c: nat)
    requires Bounded(a, b, n) && i < n && lo <= hi <= n
    ensures c <= hi - lo
    decreases hi - lo
  {
    if lo == hi then 0
    else CountNear2(a, b, n, i, lo, hi - 1) + (if Near2(a, b, n, i, hi - 1) then 1 else 0)
  }

  /** What `Make` adds to `pCount[i]`: the neighbours found in i's window. */
  function Density(a: seq<Attrbt>, b: seq<Two<real>>, n: nat, i: nat): nat
    requires Bounded(a, b, n) && i < n
  {
    var lo := Low(a, b, n, i);
    CountNear2(a, b, n, i, lo, WindowEnd(a, b, n, i, lo))
  }

  /** The window start never moves backwards. */
  lemma {:induction false} LowMonotone(a: seq<Attrbt>, b: seq<Two<real>>, n: nat, i: nat, i': nat)
    requires Bounded(a, b, n) && i <= i' < n
    ensures Low(a, b, n, i) <= Low(a, b, n, i')
    decreases i' - i
  {
    if i < i' {
      LowMonotone(a, b, n, i, i' - 1);
    }
  }

  // ---------------------------------------------------------------------
  // With the points sorted by first attribute and one first bound for all,
  // the window holds exactly the points within the first bound, so the
  // density is the plain neighbour count.

  predicate SortedByFirst(a: seq<Attrbt>, n: nat)
    requires n <= |a|
  {
    forall p, q | 0 <= p <= q < n :: a[p].first <= a[q].first
  }

  predicate UniformFirstBound(a: seq<Attrbt>, b: seq<Two<real>>, n: nat)
    requires Bounded(a, b, n)
  {
    forall p | 0 <= p < n :: FirstBound(a, b, n, p) == FirstBound(a, b, n, 0)
  }

  /** #{j < hi : j within both of i's bounds}. */
  function NeighbourCount(a: seq<Attrbt>, b: seq<Two<real>>, n: nat, i: nat, hi: nat): (c: nat)
    requires Bounded(a, b, n) && i < n && hi <= n
    ensures c <= hi
  {
    if hi == 0 then 0
    else NeighbourCount(a, b, n, i, hi - 1) + (if Near1(a, b, n, i, hi - 1) && Near2(a, b, n, i, hi - 1) then 1 else 0)
  }

  /** Every point before i's window start is below i. */
  lemma {:induction false} LowSkipsBelow(a: seq<Attrbt>, b: seq<Two<real>>, n: nat, i: nat, k: nat)
    requires Bounded(a, b, n) && SortedByFirst(a, n) && UniformFirstBound(a, b, n)
    requires i < n && k < Low(a, b, n, i)
    ensures Below(a, b, n, i, k)
  {
    var start := if i == 0 then 0 else Low(a, b, n, i - 1);
    if k < start {
      LowSkipsBelow(a, b, n, i - 1, k);
      assert a[i - 1].first <= a[i].first;
    }
  }

  /** Point k is within i's first bound exactly when it lies in i's window. */
  lemma WindowIsFirstNeighbourhood(a: seq<Attrbt>, b: seq<Two<real>>, n: nat, i: nat, k: nat)
    requires Bounded(a, b, n) && SortedByFirst(a, n) && UniformFirstBound(a, b, n)
    requires i < n && k < n
    ensures var lo := Low(a, b, n, i);
      lo <= i < WindowEnd(a, b, n, i, lo) &&
      (Near1(a, b, n, i, k) <==> lo <= k < WindowEnd(a, b, n, i, lo))
  {
    var lo := Low(a, b, n, i);
    var e := WindowEnd(a, b, n, i, lo);
    assert !Below(a, b, n, i, lo);
    forall q | lo <= q <= i ensures Near1(a, b, n, i, q) {
      assert a[lo].first <= a[q].first <= a[i].first;
    }
    if k < lo {
      LowSkipsBelow(a, b, n, i, k);
    } else if e <= k {
      assert !Near1(a, b, n, i, e);
      assert a[i].first <= a[e].first <= a[k].first;
    }
  }

  /** x clamped to [lo, hi]. */
  function Clamp(x: int, lo: int, hi: int): int
  {
    if x < lo then lo else if x > hi then hi else x
  }

  /**
   * Counting the neighbours of i among the first hi points counts the
   * points near in the second attribute within i's window, cut at hi.
   */
  lemma {:induction false} NeighbourCountSplit(a: seq<Attrbt>, b: seq<Two<real>>, n: nat, i: nat, lo: nat, e: nat, hi: nat)
    requires Bounded(a, b, n) && SortedByFirst(a, n) && UniformFirstBound(a, b, n)
    requires i < n && hi <= n
    requires lo == Low(a, b, n, i) && e == WindowEnd(a, b, n, i, lo)
    ensures NeighbourCount(a, b, n, i, hi) == CountNear2(a, b, n, i, lo, Clamp(hi, lo, e))
  {
    if hi > 0 {
      NeighbourCountSplit(a, b, n, i, lo, e, hi - 1);
      WindowIsFirstNeighbourhood(a, b, n, i, hi - 1);
      if hi - 1 < lo {
        assert !Near1(a, b, n, i, hi - 1);
      } else if hi - 1 < e {
        assert Near1(a, b, n, i, hi - 1) && Clamp(hi, lo, e) == hi && Clamp(hi - 1, lo, e) == hi - 1;
      } else {
        assert !Near1(a, b, n, i, hi - 1);
      }
    }
  }

  lemma {:induction false} CountNear2Positive(a: seq<Attrbt>, b: seq<Two<real>>, n: nat, i: nat, lo: nat, hi: nat, k: nat)
    requires Bounded(a, b, n) && i < n && lo <= k < hi <= n && Near2(a, b, n, i, k)
    ensures CountNear2(a, b, n, i, lo, hi) >= 1
    decreases hi - lo
  {
    if k < hi - 1 {
      CountNear2Positive(a, b, n, i, lo, hi - 1, k);
    }
  }

  /**
   * With sorted points, one first bound for all and non-negative second
   * bounds, the density of i is the number of points within both of i's
   * bounds, and it counts i itself.
   */
  lemma DensityIsNeighbourCount(a: seq<Attrbt>, b: seq<Two<real>>, n: nat, i: nat)
    requires Bounded(a, b, n) && SortedByFirst(a, n) && UniformFirstBound(a, b, n)
    requires forall p | 0 <= p < n :: SecondBound(a, b, n, p) >= 0.0
    requires i < n
    ensures Density(a, b, n, i) == NeighbourCount(a, b, n, i, n)
    ensures Density(a, b, n, i) >= 1
  {
    var lo := Low(a, b, n, i);
    var e := WindowEnd(a, b, n, i, lo);
    NeighbourCountSplit(a, b, n, i, lo, e, n);
    WindowIsFirstNeighbourhood(a, b, n, i, i);
    assert SecondBound(a, b, n, i) >= 0.0;
    CountNear2Positive(a, b, n, i, lo, e, i);
  }

  // ---------------------------------------------------------------------
  // The center `Build` picks for point i.

  /** The best neighbour so far and its count (`centerIndex`, `maxCount`). */
  datatype Pick = Pick(center: nat, maxCount: int)

  /**
   * The scan over [lo, hi) of i's window: a neighbour replaces the current
   * pick only with a strictly greater count; the initial pick is (0, 0).
   */
  function CenterScan(a: seq<Attrbt>, b: seq<Two<real>>, n: nat, cnt: seq<int>, i: nat, lo: nat, hi: nat): (p: Pick)
    requires Bounded(a, b, n) && i < n && lo <= hi <= n && n <= |cnt|
    ensures p.center < n
    decreases hi - lo
  {
    if lo == hi then Pick(0, 0)
    else
      var p := CenterScan(a, b, n, cnt, i, lo, hi - 1);
      if Near2(a, b, n, i, hi - 1) && cnt[hi - 1] > p.maxCount then Pick(hi - 1, cnt[hi - 1]) else p
  }

  /** The point `Build` connects i to. */
  function Center(a: seq<Attrbt>, b: seq<Two<real>>, n: nat, cnt: seq<int>, i: nat): (c: nat)
    requires Bounded(a, b, n) && i < n && n <= |cnt|
    ensures c < n
  {
    var lo := Low(a, b, n, i);
    CenterScan(a, b, n, cnt, i, lo, WindowEnd(a, b, n, i, lo)).center
  }

  /** j is one of i's neighbours inside the scanned range [lo, hi). */
  predicate InScan(a: seq<Attrbt>, b: seq<Two<real>>, n: nat, i: nat, lo: nat, hi: nat, j: nat)
    requires Bounded(a, b, n) && i < n && hi <= n
  {
    lo <= j < hi && Near2(a, b, n, i, j)
  }

  /**
   * The pick of a scan: with no neighbour of positive count it is (0, 0);
   * otherwise it is the lowest-index neighbour whose count is the greatest.
   */
  lemma {:induction false} CenterScanPicksDensest(a: seq<Attrbt>, b: seq<Two<real>>, n: nat, cnt: seq<int>, i: nat, lo: nat, hi: nat)
    requires Bounded(a, b, n) && i < n && lo <= hi <= n && n <= |cnt|
    ensures var p := CenterScan(a, b, n, cnt, i, lo, hi);
      if forall j: nat | InScan(a, b, n, i, lo, hi, j) :: cnt[j] <= 0 then p == Pick(0, 0)
      else
        InScan(a, b, n, i, lo, hi, p.center) && p.maxCount == cnt[p.center] > 0 &&
        (forall j: nat | InScan(a, b, n, i, lo, hi, j) :: cnt[j] <= cnt[p.center]) &&
        (forall j: nat | InScan(a, b, n, i, lo, p.center, j) :: cnt[j] < cnt[p.center])
    decreases hi - lo
  {
    if lo < hi {
      CenterScanPicksDensest(a, b, n, cnt, i, lo, hi - 1);
    }
  }

  /**
   * `Build`'s center for i, read off the whole window: a window neighbour of
   * greatest positive count, the first one of them, or 0 when every window
   * neighbour has count 0.
   */
  lemma CenterIsDensestNeighbour(a: seq<Attrbt>, b: seq<Two<real>>, n: nat, cnt: seq<int>, i: nat)
    requires Bounded(a, b, n) && i < n && n <= |cnt|
    ensures var lo := Low(a, b, n, i);
      var e := WindowEnd(a, b, n, i, lo);
      var c := Center(a, b, n, cnt, i);
      c < n &&
      if forall j: nat | InScan(a, b, n, i, lo, e, j) :: cnt[j] <= 0 then c == 0
      else
        InScan(a, b, n, i, lo, e, c) && Near1(a, b, n, i, c) && cnt[c] > 0 &&
        (forall j: nat | InScan(a, b, n, i, lo, e, j) :: cnt[j] <= cnt[c]) &&
        (forall j: nat | InScan(a, b, n, i, lo, c, j) :: cnt[j] < cnt[c])
  {
    var lo := Low(a, b, n, i);
    var e := WindowEnd(a, b, n, i, lo);
    CenterScanPicksDensest(a, b, n, cnt, i, lo, e);
  }

  // ---------------------------------------------------------------------
  // The inner loops of `Make` and `Build`, over the attribute array a, the
  // bounds table b and the point count n.

  /** The first inner loop of `Make` and `Build`: from `from`, skip the points below i. */
  method SkipBelow(a: seq<Attrbt>, b: seq<Two<real>>, n: nat, i: nat, from: nat) returns (j: nat)
    requires Bounded(a, b, n) && i < n && from <= n
    ensures j == Advance(a, b, n, i, from)
  {
    j := from;
    var firstBound := b[a[i].readGrpID].first;
    while j < n && a[i].first - a[j].first > firstBound
      invariant from <= j <= n
      invariant Advance(a, b, n, i, j) == Advance(a, b, n, i, from)
      decreases n - j
    {
      j := j + 1;
    }
  }

  /**
   * The second inner loop of `Make`: the points of i's window, from lo on,
   * that lie within i's second bound.
   */
  method WindowCount(a: seq<Attrbt>, b: seq<Two<real>>, n: nat, i: nat, lo: nat) returns (c: nat)
    requires Bounded(a, b, n) && i < n && lo < n
    ensures c == CountNear2(a, b, n, i, lo, WindowEnd(a, b, n, i, lo))
  {
    var firstBound := b[a[i].readGrpID].first;
    var secondBound := b[a[i].readGrpID].second;
    var j := lo;
    c := 0;
    while AbsReal(a[i].first - a[j].first) <= firstBound
      invariant lo <= j < n
      invariant WindowEnd(a, b, n, i, j) == WindowEnd(a, b, n, i, lo)
      invariant c == CountNear2(a, b, n, i, lo, j)
      decreases n - j
    {
      if AbsReal(a[i].second - a[j].second) <= secondBound {
        c := c + 1;
      }
      j := j + 1;
      if j == n {
        break;
      }
    }
  }

  /** One point of `Make`: where i's window starts and how many neighbours it holds. */
  method DensityAt(a: seq<Attrbt>, b: seq<Two<real>>, n: nat, i: nat, lastLowIndex: nat) returns (lo: nat, c: nat)
    requires Bounded(a, b, n) && i < n
    requires lastLowIndex == (if i == 0 then 0 else Low(a, b, n, i - 1))
    ensures lo == Low(a, b, n, i) && c == Density(a, b, n, i)
  {
    lo := SkipBelow(a, b, n, i, lastLowIndex);
    c := WindowCount(a, b, n, i, lo);
  }

  /**
   * The second inner loop of `Build`: scan i's window from lo on for the
   * neighbour with the strictly greatest count.
   */
  method WindowCenter(a: seq<Attrbt>, b: seq<Two<real>>, n: nat, cnt: seq<int>, i: nat, lo: nat) returns (centerIndex: nat)
    requires Bounded(a, b, n) && i < n && lo < n && n <= |cnt|
    ensures centerIndex == CenterScan(a, b, n, cnt, i, lo, WindowEnd(a, b, n, i, lo)).center
  {
    var firstBound := b[a[i].readGrpID].first;
    var secondBound := b[a[i].readGrpID].second;
    var j := lo;
    var maxCount := 0;
    centerIndex := 0;
    while AbsReal(a[i].first - a[j].first) <= firstBound
      invariant lo <= j < n
      invariant WindowEnd(a, b, n, i, j) == WindowEnd(a, b, n, i, lo)
      invariant Pick(centerIndex, maxCount) == CenterScan(a, b, n, cnt, i, lo, j)
      decreases n - j
    {
      if AbsReal(a[i].second - a[j].second) <= secondBound {
        if cnt[j] > maxCount {
          centerIndex := j;
          maxCount := cnt[j];
        }
      }
      j := j + 1;
      if j == n {
        break;
      }
    }
  }

  /** One point of `Build`: where i's window starts and the center it connects to. */
  method CenterAt(a: seq<Attrbt>, b: seq<Two<real>>, n: nat, cnt: seq<int>, i: nat, lastLowIndex: nat) returns (lo: nat, center: nat)
    requires Bounded(a, b, n) && i < n && n <= |cnt|
    requires lastLowIndex == (if i == 0 then 0 else Low(a, b, n, i - 1))
    ensures lo == Low(a, b, n, i) && center == Center(a, b, n, cnt, i)
  {
    lo := SkipBelow(a, b, n, i, lastLowIndex);
    center := WindowCenter(a, b, n, cnt, i, lo);
  }
}
