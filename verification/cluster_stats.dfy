// The statistics the cluster engine keeps per element: the running sums
// `Finalize` collects while it visits a label's points, the division that
// turns them into a mean and a standard deviation, the test `Clean` applies,
// and the arithmetic of `Merge` (TGM_Cluster.c).

module ClusterStats {
  import opened Numeric
  import opened PairRecords
  import opened Rings

  /** A finished element: per attribute a mean, a deviation, a minimum and a maximum. */
  datatype Elmnt = Elmnt(
    mean: Two<real>, std: Two<Std>, min: Two<real>, max: Two<real>,
    numReadPair: nat, startIndex: nat)

  /**
   * An element while `Finalize` still collects its points: the `mean` and
   * `std` slots of the source hold the sum of the attribute and the sum of
   * its squares until the final division.
   */
  datatype Acc = Acc(
    numReadPair: nat, startIndex: nat, sum: Two<real>, sumSq: Two<real>,
    min: Two<real>, max: Two<real>)

  /** n copies of x. */
  function Scale(n: nat, x: real): real { n as real * x }

  /** Attribute k (0: first, 1: second) of a point. */
  function Val(x: Attrbt, k: nat): real
    requires k < 2
  {
    if k == 0 then x.first else x.second
  }

  /** The element `AddElmnt` creates for point i. */
  function AddElmnt(x: Attrbt, i: nat): Acc
  {
    Acc(1, i, Two(x.first, x.second), Two(Sq(x.first), Sq(x.second)),
        Two(x.first, x.second), Two(x.first, x.second))
  }

  /** The element after `UpdateElmnt` adds point x to it. */
  function UpdateElmnt(e: Acc, x: Attrbt): Acc
  {
    Acc(e.numReadPair + 1, e.startIndex,
        Two(e.sum.first + x.first, e.sum.second + x.second),
        Two(e.sumSq.first + Sq(x.first), e.sumSq.second + Sq(x.second)),
        Two(if x.first < e.min.first then x.first else e.min.first,
            if x.second < e.min.second then x.second else e.min.second),
        Two(if x.first > e.max.first then x.first else e.max.first,
            if x.second > e.max.second then x.second else e.max.second))
  }

  /**
   * The element of label L once `Finalize` has visited points 0..i-1: created
   * at the first of them labelled L, then updated by each later one; None
   * while no point so far carries L.
   */
  function AccOf(a: seq<Attrbt>, lab: seq<int>, L: int, i: nat): Option<Acc>
    requires i <= |a| && i <= |lab|
  {
    if i == 0 then None
    else
      var prev := AccOf(a, lab, L, i - 1);
      if lab[i - 1] != L then prev
      else if prev.None? then Some(AddElmnt(a[i - 1], i - 1))
      else Some(UpdateElmnt(prev.value, a[i - 1]))
  }

  /** The sum of attribute k over the points j < i labelled L. */
  function SumOf(a: seq<Attrbt>, lab: seq<int>, L: int, i: nat, k: nat): real
    requires i <= |a| && i <= |lab| && k < 2
  {
    if i == 0 then 0.0
    else SumOf(a, lab, L, i - 1, k) + (if lab[i - 1] == L then Val(a[i - 1], k) else 0.0)
  }

  /** The sum of the squares of attribute k over the points j < i labelled L. */
  function SumSqOf(a: seq<Attrbt>, lab: seq<int>, L: int, i: nat, k: nat): real
    requires i <= |a| && i <= |lab| && k < 2
  {
    if i == 0 then 0.0
    else SumSqOf(a, lab, L, i - 1, k) + (if lab[i - 1] == L then Sq(Val(a[i - 1], k)) else 0.0)
  }

  function Coord(t: Two<real>, k: nat): real
    requires k < 2
  {
    if k == 0 then t.first else t.second
  }

  /**
   * What the running element of label L holds: one element exactly when some
   * point carries L; it starts at the lowest such point, counts them, holds
   * the sums of their attributes and of their squares, and its min and max
   * enclose every one of them.
   */
  lemma {:induction false} AccOfSummary(a: seq<Attrbt>, lab: seq<int>, L: int, i: nat)
    requires i <= |a| && i <= |lab|
    ensures AccOf(a, lab, L, i).Some? <==> CountOf(lab, L, i) > 0
    ensures AccOf(a, lab, L, i).Some? ==>
      var e := AccOf(a, lab, L, i).value;
      e.numReadPair == CountOf(lab, L, i) &&
      e.startIndex < i && lab[e.startIndex] == L &&
      (forall j | 0 <= j < e.startIndex :: lab[j] != L) &&
      (forall j, k | 0 <= j < i && lab[j] == L && 0 <= k < 2 :: Coord(e.min, k) <= Val(a[j], k) <= Coord(e.max, k))
  {
    if i > 0 {
      AccOfSummary(a, lab, L, i - 1);
      var prev := AccOf(a, lab, L, i - 1);
      if prev.None? {
        forall j | 0 <= j < i - 1 ensures lab[j] != L {
          if lab[j] == L {
            CountOfPositive(lab, L, i - 1, j);
          }
        }
      } else if lab[i - 1] == L {
        var e := prev.value;
        forall k | 0 <= k < 2 {
          UpdateCoord(e, a[i - 1], k);
        }
      }
    }
  }

  /** The running element holds the sums of attribute k and of its squares over the points labelled L. */
  lemma {:induction false} AccOfSums(a: seq<Attrbt>, lab: seq<int>, L: int, i: nat, k: nat)
    requires i <= |a| && i <= |lab| && k < 2
    ensures AccOf(a, lab, L, i).None? ==> SumOf(a, lab, L, i, k) == 0.0 && SumSqOf(a, lab, L, i, k) == 0.0
    ensures AccOf(a, lab, L, i).Some? ==>
      var e := AccOf(a, lab, L, i).value;
      Coord(e.sum, k) == SumOf(a, lab, L, i, k) && Coord(e.sumSq, k) == SumSqOf(a, lab, L, i, k)
  {
    if i > 0 {
      AccOfSums(a, lab, L, i - 1, k);
      if lab[i - 1] == L && AccOf(a, lab, L, i - 1).Some? {
        UpdateCoord(AccOf(a, lab, L, i - 1).value, a[i - 1], k);
      }
    }
  }

  /** n points with square sum s and sum t: s >= 0 and n * s >= t * t. */
  predicate SpreadOf(n: nat, s: real, t: real)
  {
    n >= 1 && s >= 0.0 && n as real * s >= Sq(t)
  }

  /** What `UpdateElmnt` does to attribute k's count and sums. */
  lemma UpdateCoord(e: Acc, x: Attrbt, k: nat)
    requires k < 2
    ensures var u := UpdateElmnt(e, x);
      u.numReadPair == e.numReadPair + 1 &&
      Coord(u.sum, k) == Coord(e.sum, k) + Val(x, k) &&
      Coord(u.sumSq, k) == Coord(e.sumSq, k) + Sq(Val(x, k)) &&
      Coord(u.min, k) <= Coord(e.min, k) && Coord(u.min, k) <= Val(x, k) &&
      Coord(u.max, k) >= Coord(e.max, k) && Coord(u.max, k) >= Val(x, k)
  {
  }

  /** The variance of attribute k of a running element is never negative. */
  lemma {:induction false} AccOfSpread(a: seq<Attrbt>, lab: seq<int>, L: int, i: nat, k: nat)
    requires i <= |a| && i <= |lab| && k < 2
    ensures AccOf(a, lab, L, i).Some? ==>
      var e := AccOf(a, lab, L, i).value;
      SpreadOf(e.numReadPair, Coord(e.sumSq, k), Coord(e.sum, k))
  {
    if i > 0 {
      AccOfSpread(a, lab, L, i - 1, k);
      var prev := AccOf(a, lab, L, i - 1);
      if lab[i - 1] == L {
        var v := Val(a[i - 1], k);
        if prev.Some? {
          var e := prev.value;
          UpdateCoord(e, a[i - 1], k);
          SpreadStep(e.numReadPair, Coord(e.sumSq, k), Coord(e.sum, k), v);
        } else {
          SquareNonNegative(v);
          assert Coord(AddElmnt(a[i - 1], i - 1).sumSq, k) == Sq(v);
          assert Coord(AddElmnt(a[i - 1], i - 1).sum, k) == v;
        }
      }
    }
  }

  /** Adding x to n points with sum t and square sum s keeps the spread. */
  lemma SpreadStep(n: nat, s: real, t: real, x: real)
    requires SpreadOf(n, s, t)
    ensures SpreadOf(n + 1, s + Sq(x), t + x)
  {
    var nr := n as real;
    assert (n + 1) as real == nr + 1.0;
    var g := s + nr * x * x - 2.0 * t * x;
    assert nr * g == (nr * s - t * t) + (t - nr * x) * (t - nr * x);
    SquareNonNegative(t - nr * x);
    SquareNonNegative(x);
    assert nr * g >= 0.0;
    assert g >= 0.0;
    assert (nr + 1.0) * (s + x * x) - (t + x) * (t + x) == (nr * s - t * t) + g;
  }

  lemma SquareNonNegative(y: real)
    ensures Sq(y) >= 0.0
  {
    if y < 0.0 {
      assert y * y == (-y) * (-y);
    }
  }

  /** The mean and deviation of one attribute from its count, sum and square sum. */
  function MeanOf(n: nat, sum: real): real
    requires n > 0
  {
    sum / n as real
  }

  function StdOf(n: nat, sum: real, sumSq: real): Std
    requires n > 0
  {
    SqrtOf(sumSq / n as real - Sq(MeanOf(n, sum)))
  }

  /** The second loop of `Finalize`: divide the sums by the count. */
  function Finish(e: Acc): Elmnt
    requires e.numReadPair > 0
  {
    Elmnt(Two(MeanOf(e.numReadPair, e.sum.first), MeanOf(e.numReadPair, e.sum.second)),
          Two(StdOf(e.numReadPair, e.sum.first, e.sumSq.first), StdOf(e.numReadPair, e.sum.second, e.sumSq.second)),
          e.min, e.max, e.numReadPair, e.startIndex)
  }

  lemma ScaleSucc(n: nat, x: real)
    ensures Scale(n + 1, x) == Scale(n, x) + x
  {
    assert (n + 1) as real == n as real + 1.0;
  }

  lemma {:induction false} SumBetween(a: seq<Attrbt>, lab: seq<int>, L: int, i: nat, k: nat, lo: real, hi: real)
    requires i <= |a| && i <= |lab| && k < 2
    requires forall j | 0 <= j < i && lab[j] == L :: lo <= Val(a[j], k) <= hi
    ensures Scale(CountOf(lab, L, i), lo) <= SumOf(a, lab, L, i, k) <= Scale(CountOf(lab, L, i), hi)
  {
    if i > 0 {
      SumBetween(a, lab, L, i - 1, k, lo, hi);
      var c := CountOf(lab, L, i - 1);
      if lab[i - 1] == L {
        assert CountOf(lab, L, i) == c + 1;
        ScaleSucc(c, lo);
        ScaleSucc(c, hi);
      }
    }
  }

  lemma MeanBetween(n: nat, sum: real, lo: real, hi: real)
    requires n > 0 && Scale(n, lo) <= sum <= Scale(n, hi)
    ensures lo <= MeanOf(n, sum) <= hi
  {
    var m := MeanOf(n, sum);
    assert m * n as real == sum;
  }

  lemma StdOfIsRoot(n: nat, sum: real, sumSq: real)
    requires n > 0 && n as real * sumSq >= sum * sum
    ensures StdOf(n, sum, sumSq).Root?
  {
    var m := MeanOf(n, sum);
    var nr := n as real;
    assert m * nr == sum;
    assert sumSq / nr - Sq(m) == (nr * sumSq - sum * sum) / (nr * nr);
  }

  /** The mean of values within [lo, hi] lies within [lo, hi]; a spread gives a real deviation. */
  lemma MeanStdFacts(n: nat, sum: real, sumSq: real, lo: real, hi: real)
    requires Scale(n, lo) <= sum <= Scale(n, hi) && SpreadOf(n, sumSq, sum)
    ensures lo <= MeanOf(n, sum) <= hi && StdOf(n, sum, sumSq).Root?
  {
    MeanBetween(n, sum, lo, hi);
    StdOfIsRoot(n, sum, sumSq);
  }

  lemma FinishedCoord(a: seq<Attrbt>, lab: seq<int>, L: int, n: nat, k: nat)
    requires n <= |a| && n <= |lab| && k < 2 && AccOf(a, lab, L, n).Some?
    ensures var e := AccOf(a, lab, L, n).value;
      e.numReadPair > 0 &&
      Coord(e.min, k) <= MeanOf(e.numReadPair, Coord(e.sum, k)) <= Coord(e.max, k) &&
      StdOf(e.numReadPair, Coord(e.sum, k), Coord(e.sumSq, k)).Root?
  {
    var e := AccOf(a, lab, L, n).value;
    var c := e.numReadPair;
    assert Scale(c, Coord(e.min, k)) <= Coord(e.sum, k) <= Scale(c, Coord(e.max, k)) by {
      AccOfSummary(a, lab, L, n);
      forall j | 0 <= j < n && lab[j] == L ensures Coord(e.min, k) <= Val(a[j], k) <= Coord(e.max, k) {
      }
      AccOfSums(a, lab, L, n, k);
      SumBetween(a, lab, L, n, k, Coord(e.min, k), Coord(e.max, k));
    }
    assert SpreadOf(c, Coord(e.sumSq, k), Coord(e.sum, k)) by {
      AccOfSpread(a, lab, L, n, k);
    }
    MeanStdFacts(c, Coord(e.sum, k), Coord(e.sumSq, k), Coord(e.min, k), Coord(e.max, k));
  }

  /**
   * The element `Finalize` makes for a label that some point carries: its
   * count is the number of such points, it starts at the first of them, each
   * of their attributes lies between its min and max, so does the mean, and
   * the deviation is a real number (never NaN).
   */
  lemma FinishedElmnt(a: seq<Attrbt>, lab: seq<int>, L: int, n: nat)
    requires n <= |a| && n <= |lab| && CountOf(lab, L, n) > 0
    ensures var e := AccOf(a, lab, L, n);
      e.Some? && e.value.numReadPair == CountOf(lab, L, n) && e.value.startIndex < n &&
      var f := Finish(e.value);
      lab[f.startIndex] == L && (forall j | 0 <= j < f.startIndex :: lab[j] != L) &&
      (forall j | 0 <= j < n && lab[j] == L ::
         f.min.first <= a[j].first <= f.max.first && f.min.second <= a[j].second <= f.max.second) &&
      f.min.first <= f.mean.first <= f.max.first &&
      f.min.second <= f.mean.second <= f.max.second &&
      f.std.first.Root? && f.std.second.Root?
  {
    AccOfSummary(a, lab, L, n);
    FinishedCoord(a, lab, L, n, 0);
    FinishedCoord(a, lab, L, n, 1);
    var e := AccOf(a, lab, L, n).value;
    forall j | 0 <= j < n && lab[j] == L
      ensures e.min.first <= a[j].first <= e.max.first && e.min.second <= a[j].second <= e.max.second
    {
      assert Coord(e.min, 0) <= Val(a[j], 0) <= Coord(e.max, 0);
      assert Coord(e.min, 1) <= Val(a[j], 1) <= Coord(e.max, 1);
    }
  }

  // ---------------------------------------------------------------------
  // Clean

  /**
   * `Clean` drops an element with too few pairs (the int minimum compared as
   * unsigned), a deviation at or below the minimum in either attribute, or a
   * NaN deviation.
   */
  predicate Dropped(e: Elmnt, minReadPairNum: int, minStd: Two<real>)
  {
    e.numReadPair < AsUnsigned(minReadPairNum) ||
    StdAtMost(e.std.first, minStd.first) || StdAtMost(e.std.second, minStd.second) ||
    e.std.first.NaN? || e.std.second.NaN?
  }

  /** With the default minimum deviation of -1, only the count and NaN matter. */
  lemma DefaultMinStdDropsOnlyNaN(e: Elmnt, minReadPairNum: int)
    ensures Dropped(e, minReadPairNum, Two(-1.0, -1.0)) <==>
      (e.numReadPair < AsUnsigned(minReadPairNum) || e.std.first.NaN? || e.std.second.NaN?)
  {
  }

  // ---------------------------------------------------------------------
  // Merge

  function Mean2(e: Elmnt, k: nat): real requires k < 2 { Coord(e.mean, k) }
  function Std2(e: Elmnt, k: nat): Std requires k < 2 { if k == 0 then e.std.first else e.std.second }

  /** The pooled mean of attribute k of two elements. */
  function MergedMean(d: Elmnt, s: Elmnt, k: nat): real
    requires k < 2 && d.numReadPair + s.numReadPair > 0
  {
    (Scale(d.numReadPair, Mean2(d, k)) + Scale(s.numReadPair, Mean2(s, k))) / (d.numReadPair + s.numReadPair) as real
  }

  /**
   * The merged deviation as the source computes it: each side's square sum is
   * rebuilt as (std^2 + mean + mean) * n; a NaN on either side stays NaN.
   */
  function MergedStdAsWritten(d: Elmnt, s: Elmnt, k: nat): Std
    requires k < 2 && d.numReadPair + s.numReadPair > 0
  {
    var total := (d.numReadPair + s.numReadPair) as real;
    var m := MergedMean(d, s, k);
    match (Std2(d, k), Std2(s, k))
    case (Root(qd), Root(qs)) =>
      var sd := Scale(d.numReadPair, qd + Mean2(d, k) + Mean2(d, k));
      var ss := Scale(s.numReadPair, qs + Mean2(s, k) + Mean2(s, k));
      SqrtOf((sd + ss) / total - Sq(m))
    case _ => NaN
  }

  /** The merged deviation with each side's square sum rebuilt as (std^2 + mean^2) * n. */
  function MergedStd(d: Elmnt, s: Elmnt, k: nat): Std
    requires k < 2 && d.numReadPair + s.numReadPair > 0
  {
    var total := (d.numReadPair + s.numReadPair) as real;
    var m := MergedMean(d, s, k);
    match (Std2(d, k), Std2(s, k))
    case (Root(qd), Root(qs)) =>
      var sd := Scale(d.numReadPair, qd + Sq(Mean2(d, k)));
      var ss := Scale(s.numReadPair, qs + Sq(Mean2(s, k)));
      SqrtOf((sd + ss) / total - Sq(m))
    case _ => NaN
  }

  /** The destination element after `Merge(dst, src)`. */
  function MergeElmnt(d: Elmnt, s: Elmnt): Elmnt
    requires d.numReadPair + s.numReadPair > 0
  {
    Elmnt(Two(MergedMean(d, s, 0), MergedMean(d, s, 1)),
          Two(MergedStd(d, s, 0), MergedStd(d, s, 1)),
          Two(MinReal(d.min.first, s.min.first), MinReal(d.min.second, s.min.second)),
          Two(MaxReal(d.max.first, s.max.first), MaxReal(d.max.second, s.max.second)),
          d.numReadPair + s.numReadPair, d.startIndex)
  }

  /** Two running elements taken together, as if one had collected both point sets. */
  function Combine(a1: Acc, a2: Acc): Acc
  {
    Acc(a1.numReadPair + a2.numReadPair, a1.startIndex,
        Two(a1.sum.first + a2.sum.first, a1.sum.second + a2.sum.second),
        Two(a1.sumSq.first + a2.sumSq.first, a1.sumSq.second + a2.sumSq.second),
        Two(MinReal(a1.min.first, a2.min.first), MinReal(a1.min.second, a2.min.second)),
        Two(MaxReal(a1.max.first, a2.max.first), MaxReal(a1.max.second, a2.max.second)))
  }

  /** Rebuilding the square sum from a finished element's mean and deviation gives it back. */
  lemma RebuiltSquareSum(n: nat, sum: real, sumSq: real)
    requires n > 0 && StdOf(n, sum, sumSq).Root?
    ensures var m := MeanOf(n, sum);
      Scale(n, StdOf(n, sum, sumSq).square + Sq(m)) == sumSq &&
      Scale(n, m) == sum
  {
    var nr := n as real;
    var m := MeanOf(n, sum);
    assert m * nr == sum;
    assert StdOf(n, sum, sumSq).square + Sq(m) == sumSq / nr;
  }

  lemma PoolArg(A: real, B: real, q1: real, q2: real, total: real, m: real, M: real)
    requires A == q1 && B == q2 && m == M && total > 0.0
    ensures (A + B) / total - Sq(m) == (q1 + q2) / total - Sq(M)
  {
  }

  /** Pooling attribute k: the merged mean of two finished elements. */
  lemma PooledMean(a1: Acc, a2: Acc, k: nat)
    requires k < 2 && a1.numReadPair > 0 && a2.numReadPair > 0
    ensures MergedMean(Finish(a1), Finish(a2), k) == MeanOf(a1.numReadPair + a2.numReadPair, Coord(a1.sum, k) + Coord(a2.sum, k))
  {
    var n1, n2 := a1.numReadPair, a2.numReadPair;
    var t1, t2 := Coord(a1.sum, k), Coord(a2.sum, k);
    var d, s := Finish(a1), Finish(a2);
    assert Scale(n1, Mean2(d, k)) == t1 by {
      assert Mean2(d, k) == MeanOf(n1, t1);
    }
    assert Scale(n2, Mean2(s, k)) == t2 by {
      assert Mean2(s, k) == MeanOf(n2, t2);
    }
  }

  /** Pooling attribute k: the merged deviation of two finished elements. */
  lemma PooledStd(a1: Acc, a2: Acc, k: nat)
    requires k < 2 && a1.numReadPair > 0 && a2.numReadPair > 0
    requires Std2(Finish(a1), k).Root? && Std2(Finish(a2), k).Root?
    ensures MergedStd(Finish(a1), Finish(a2), k)
         == StdOf(a1.numReadPair + a2.numReadPair, Coord(a1.sum, k) + Coord(a2.sum, k), Coord(a1.sumSq, k) + Coord(a2.sumSq, k))
  {
    var n1, n2 := a1.numReadPair, a2.numReadPair;
    var t1, t2 := Coord(a1.sum, k), Coord(a2.sum, k);
    var q1, q2 := Coord(a1.sumSq, k), Coord(a2.sumSq, k);
    var d, s := Finish(a1), Finish(a2);
    var total := (n1 + n2) as real;
    var md, ms := Mean2(d, k), Mean2(s, k);
    var qd, qs := Std2(d, k).square, Std2(s, k).square;
    assert Scale(n1, qd + Sq(md)) == q1 by {
      assert md == MeanOf(n1, t1) && Std2(d, k) == StdOf(n1, t1, q1);
      RebuiltSquareSum(n1, t1, q1);
    }
    assert Scale(n2, qs + Sq(ms)) == q2 by {
      assert ms == MeanOf(n2, t2) && Std2(s, k) == StdOf(n2, t2, q2);
      RebuiltSquareSum(n2, t2, q2);
    }
    var m := MergedMean(d, s, k);
    var M := MeanOf(n1 + n2, t1 + t2);
    PooledMean(a1, a2, k);
    assert MergedStd(d, s, k) == SqrtOf((Scale(n1, qd + Sq(md)) + Scale(n2, qs + Sq(ms))) / total - Sq(m));
    PoolArg(Scale(n1, qd + Sq(md)), Scale(n2, qs + Sq(ms)), q1, q2, total, m, M);
  }

  /**
   * Merging two finished elements gives the element that one pass over both
   * point sets would have produced: the same count, mean, deviation, min and
   * max (for elements whose deviations are real numbers).
   */
  lemma MergeIsPooled(a1: Acc, a2: Acc)
    requires a1.numReadPair > 0 && a2.numReadPair > 0
    requires Finish(a1).std.first.Root? && Finish(a1).std.second.Root?
    requires Finish(a2).std.first.Root? && Finish(a2).std.second.Root?
    ensures MergeElmnt(Finish(a1), Finish(a2)) == Finish(Combine(a1, a2))
  {
    PooledMean(a1, a2, 0);
    PooledMean(a1, a2, 1);
    PooledStd(a1, a2, 0);
    PooledStd(a1, a2, 1);
  }

  /**
   * Two one-point elements at 3.0: the source's formula takes the square
   * root of 6 - 9 and yields NaN, where the pooled deviation is 0.
   */
  lemma MergedStdAsWrittenIsWrong()
    ensures var e := Finish(AddElmnt(Attrbt(3.0, 3.0, 0, 0), 0));
      MergedStdAsWritten(e, e, 0) == NaN && MergedStd(e, e, 0) == Root(0.0)
  {
    var e := Finish(AddElmnt(Attrbt(3.0, 3.0, 0, 0), 0));
    assert e.mean.first == 3.0 && e.std.first == Root(0.0);
    assert MergedMean(e, e, 0) == 3.0;
  }
}
