// `TGM_ReadPairFindDel` and `TGM_DelEventMerge` (TGM_ReadPairDetect.c): one
// deletion candidate per live element of the long-pair clustering, from a
// walk round the element's ring; a candidate that overlaps the last kept
// event is merged into it (merging the two elements of the cluster), any
// other is kept when it has enough support and length; the kept events are
// finally sorted.

module FindDeletions {
  import opened Numeric
  import opened PairRecords
  import opened Rings
  import opened ClusterStats
  import opened ClusterEngine
  import opened Sorting
  import opened DetectEvents
  import opened SpecialMake

  // ---------------------------------------------------------------------
  // The walk round one element's ring

  /**
   * What the walk collects: the least position, greatest end and greatest
   * position of the up mates (5') and of the down mates (3'), the greatest
   * upper fragment-length bound of the read groups seen, the least and
   * greatest deviation of a fragment length from its group's median, the
   * deviations and both mates' mapping qualities in walk order (the
   * `SV_AssistArray` buffers), and the last pair visited.
   */
  datatype DelWalk = DelWalk(
    pos5: Span, pos3: Span, fragLenMax: int, diffMin: int, diffMax: int,
    diffs: seq<int>, mapQ5s: seq<int>, mapQ3s: seq<int>, last: Option<LocalPair>)

  /** The walk's start: minimums at INT_MAX, maximums at 0, nothing collected. */
  const NoDelWalk := DelWalk(Span(INT32_MAX, 0, 0), Span(INT32_MAX, 0, 0), 0, INT32_MAX, 0, [], [], [], None)

  /** Every point names a long pair, and every pair a read group of the library table. */
  predicate LocalIndexed(pairs: seq<LocalPair>, libs: seq<LibInfo>, attrs: seq<Attrbt>)
  {
    (forall i | 0 <= i < |attrs| :: attrs[i].origIndex < |pairs|) &&
    (forall j | 0 <= j < |pairs| :: pairs[j].readGrpID < |libs|)
  }

  /** The pair point x was made from. */
  function LocalAt(pairs: seq<LocalPair>, libs: seq<LibInfo>, attrs: seq<Attrbt>, x: int): LocalPair
    requires LocalIndexed(pairs, libs, attrs) && 0 <= x < |attrs|
  {
    pairs[attrs[x].origIndex]
  }

  /**
   * The deviation of a pair's fragment length from its group's median, as
   * stored in the int buffer (the subtraction is unsigned in the source).
   */
  function Deviation(p: LocalPair, lib: LibInfo): int
  {
    ToInt32(p.fragLen - lib.median)
  }

  /**
   * One pass of the walk.  The down mate's end `upPos + fragLen` and the
   * group's upper bound are unsigned and compared with the int maximums as
   * unsigned; everything else is compared as int.
   */
  function DelAbsorb(w: DelWalk, p: LocalPair, lib: LibInfo): DelWalk
  {
    var downEnd := AsUnsigned(p.upPos + p.fragLen);
    var upper := AsUnsigned(lib.high);
    var diff := Deviation(p, lib);
    DelWalk(
      Span(MinInt(w.pos5.posMin, p.upPos), MaxInt(w.pos5.endMax, p.upEnd), MaxInt(w.pos5.posMax, p.upPos)),
      Span(MinInt(w.pos3.posMin, p.downPos),
           if downEnd > AsUnsigned(w.pos3.endMax) then ToInt32(downEnd) else w.pos3.endMax,
           MaxInt(w.pos3.posMax, p.downPos)),
      if upper > AsUnsigned(w.fragLenMax) then ToInt32(upper) else w.fragLenMax,
      MinInt(w.diffMin, diff), MaxInt(w.diffMax, diff),
      w.diffs + [diff], w.mapQ5s + [p.upMapQ], w.mapQ3s + [p.downMapQ], Some(p))
  }

  /** What the walk has collected after its first k points W[0..k). */
  function DelWalkOf(pairs: seq<LocalPair>, libs: seq<LibInfo>, attrs: seq<Attrbt>, W: seq<int>, k: nat): (w: DelWalk)
    requires LocalIndexed(pairs, libs, attrs) && OnPoints(W, |attrs|) && k <= |W|
    ensures |w.diffs| == k && |w.mapQ5s| == k && |w.mapQ3s| == k && (w.last.Some? <==> k > 0)
  {
    if k == 0 then NoDelWalk
    else
      var p := LocalAt(pairs, libs, attrs, W[k - 1]);
      DelAbsorb(DelWalkOf(pairs, libs, attrs, W, k - 1), p, libs[p.readGrpID])
  }

  /** The buffers hold each visited pair's deviation and mapping qualities, in walk order. */
  lemma {:induction false} DelWalkBuffers(pairs: seq<LocalPair>, libs: seq<LibInfo>, attrs: seq<Attrbt>, W: seq<int>, k: nat)
    requires LocalIndexed(pairs, libs, attrs) && OnPoints(W, |attrs|) && k <= |W|
    ensures var w := DelWalkOf(pairs, libs, attrs, W, k);
      forall t | 0 <= t < k :: var p := LocalAt(pairs, libs, attrs, W[t]);
        w.diffs[t] == Deviation(p, libs[p.readGrpID]) && w.mapQ5s[t] == p.upMapQ && w.mapQ3s[t] == p.downMapQ
  {
    if k > 0 {
      DelWalkBuffers(pairs, libs, attrs, W, k - 1);
      var w' := DelWalkOf(pairs, libs, attrs, W, k - 1);
      var p := LocalAt(pairs, libs, attrs, W[k - 1]);
      var w := DelWalkOf(pairs, libs, attrs, W, k);
      assert w.diffs == w'.diffs + [Deviation(p, libs[p.readGrpID])];
      assert w.mapQ5s == w'.mapQ5s + [p.upMapQ] && w.mapQ3s == w'.mapQ3s + [p.downMapQ];
    }
  }

  /** The least and greatest deviation bracket every deviation in the buffer. */
  predicate DiffsInRange(w: DelWalk)
  {
    forall t | 0 <= t < |w.diffs| :: w.diffMin <= w.diffs[t] <= w.diffMax
  }

  /** The walk's deviation extremes bracket its buffer. */
  lemma {:induction false} DelWalkDiffRange(pairs: seq<LocalPair>, libs: seq<LibInfo>, attrs: seq<Attrbt>, W: seq<int>, k: nat)
    requires LocalIndexed(pairs, libs, attrs) && OnPoints(W, |attrs|) && k <= |W|
    ensures DiffsInRange(DelWalkOf(pairs, libs, attrs, W, k))
  {
    if k > 0 {
      DelWalkDiffRange(pairs, libs, attrs, W, k - 1);
      var w' := DelWalkOf(pairs, libs, attrs, W, k - 1);
      var p := LocalAt(pairs, libs, attrs, W[k - 1]);
      var diff := Deviation(p, libs[p.readGrpID]);
      var w := DelAbsorb(w', p, libs[p.readGrpID]);
      assert DelWalkOf(pairs, libs, attrs, W, k) == w;
      assert w.diffs == w'.diffs + [diff];
      forall t | 0 <= t < k ensures w.diffMin <= w.diffs[t] <= w.diffMax {
        if t < k - 1 {
          assert w.diffs[t] == w'.diffs[t];
        }
      }
    }
  }

  /** Once a pair has been seen, each span's least position is at most its greatest. */
  lemma {:induction false} DelWalkSpans(pairs: seq<LocalPair>, libs: seq<LibInfo>, attrs: seq<Attrbt>, W: seq<int>, k: nat)
    requires LocalIndexed(pairs, libs, attrs) && OnPoints(W, |attrs|) && 0 < k <= |W|
    ensures SpansOrdered(DelWalkOf(pairs, libs, attrs, W, k))
  {
    var w' := DelWalkOf(pairs, libs, attrs, W, k - 1);
    if k == 1 {
      assert w'.pos5 == Span(INT32_MAX, 0, 0) && w'.pos3 == Span(INT32_MAX, 0, 0);
    } else {
      DelWalkSpans(pairs, libs, attrs, W, k - 1);
    }
  }

  /**
   * The walk of `TGM_ReadPairFindDel` round the ring of element i, from its
   * first point back to it.
   */
  method WalkElement(c: Cluster, i: nat, pairs: seq<LocalPair>, libs: seq<LibInfo>) returns (w: DelWalk)
    requires c.Valid() && i < |c.elmnts.data| && LocalIndexed(pairs, libs, c.attrs)
    ensures var W := WalkFrom(c.next, c.dec, c.elmnts.data[i].startIndex);
      OnPoints(W, |c.attrs|) && w == DelWalkOf(pairs, libs, c.attrs, W, |W|)
  {
    var next, attrs := c.next, c.attrs;
    ghost var d := c.dec;
    var s := c.elmnts.data[i].startIndex;
    ghost var W := WalkFrom(next, d, s);
    WalkFollowsNext(next, d, s);
    var p := LocalAt(pairs, libs, attrs, s);
    w := DelAbsorb(NoDelWalk, p, libs[p.readGrpID]);
    var j := next[s];
    ghost var t := 1;
    while j != s
      invariant 0 < t <= |W|
      invariant j == if t < |W| then W[t] else s
      invariant w == DelWalkOf(pairs, libs, attrs, W, t)
      decreases |W| - t
    {
      p := LocalAt(pairs, libs, attrs, j);
      w := DelAbsorb(w, p, libs[p.readGrpID]);
      j := next[j];
      t := t + 1;
    }
  }

  /**
   * What the walk of `TGM_ReadPairFindDel` collects round the ring through
   * s: it has seen a pair, its spans are ordered, and its deviation
   * extremes bracket its buffer.
   */
  ghost function ElementWalk(pairs: seq<LocalPair>, libs: seq<LibInfo>, attrs: seq<Attrbt>,
                             next: seq<int>, d: Decomp, s: int): (w: DelWalk)
    requires LocalIndexed(pairs, libs, attrs) && |attrs| == |next| && Decomposes(next, d.rid, d.idx, d.rings)
    requires 0 <= s < |next|
    ensures Walked(w) && SpansOrdered(w) && DiffsInRange(w)
  {
    var W := WalkFrom(next, d, s);
    WalkFollowsNext(next, d, s);
    DelWalkSpans(pairs, libs, attrs, W, |W|);
    DelWalkDiffRange(pairs, libs, attrs, W, |W|);
    DelWalkOf(pairs, libs, attrs, W, |W|)
  }

  /** A walk that has visited at least one pair. */
  predicate Walked(w: DelWalk)
  {
    w.last.Some? && |w.diffs| > 0 && |w.mapQ5s| > 0 && |w.mapQ3s| > 0
  }

  // ---------------------------------------------------------------------
  // The candidate event

  /** The quality ratio n*100/(n+10) is 100 - 1000/(n+10), in [0, 100). */
  lemma QualityRatio(x: real)
    requires x >= 0.0
    ensures x * 100.0 / (x + 10.0) == 100.0 - 1000.0 / (x + 10.0)
    ensures 0.0 <= x * 100.0 / (x + 10.0) < 100.0
  {
    var d := x + 10.0;
    assert x * 100.0 == 100.0 * d - 1000.0;
    assert (100.0 * d - 1000.0) / d == 100.0 - 1000.0 / d;
    assert 1000.0 / d > 0.0;
    assert 1000.0 / d <= 100.0;
  }

  /** `(int) ((n * 100.0) / (n + 10.0))`: the quality of an event with n pairs. */
  function Quality(n: nat): (q: nat)
    ensures q < 100
  {
    QualityRatio(n as real);
    Trunc(n as real * 100.0 / (n as real + 10.0))
  }

  /** More pairs never lower the quality. */
  lemma QualityMonotone(n: nat, m: nat)
    requires n <= m
    ensures Quality(n) <= Quality(m)
  {
    QualityRatio(n as real);
    QualityRatio(m as real);
    var x, y := n as real + 10.0, m as real + 10.0;
    assert 1000.0 / y <= 1000.0 / x by {
      assert 1000.0 / y * y == 1000.0 && 1000.0 / x * x == 1000.0;
    }
  }

  /**
   * The confidence interval of a position from a span's spread over n
   * pairs: `-(posMax - posMin) / n` and `(posMax - posMin) / n` in C's
   * truncating division, the first from the 5' span, the second from the 3'.
   */
  function SpreadCI(p5: Span, p3: Span, n: nat): Two<int>
    requires n > 0
  {
    Two(CDiv(-(p5.posMax - p5.posMin), n), CDiv(p3.posMax - p3.posMin, n))
  }

  /** An interval around 0: its lower end at most 0, its upper end at least 0. */
  predicate Brackets(ci: Two<int>)
  {
    ci.first <= 0 <= ci.second
  }

  /**
   * The event written to slot k for element i with n pairs from walk w,
   * before the correction: it starts after the 5' span's end and ends at
   * the 3' span's start, its length is the median deviation, and its
   * mapping qualities the medians, cut to `unsigned char`.
   */
  function Candidate(w: DelWalk, i: nat, n: nat): DelEvent
    requires n > 0 && Walked(w)
  {
    var len := Median(w.diffs);
    var ci := SpreadCI(w.pos5, w.pos3, n);
    DelEvent(i, w.last.value.refID, AsUnsigned(w.pos5.endMax + 1), AsUnsigned(w.pos3.posMin), AsUnsigned(len),
             w.pos5, w.pos3, ci, ci,
             Two(CDiv(-(len - w.diffMin), n), CDiv(w.diffMax - len, n)),
             Quality(n), Median(w.mapQ5s) % 256, Median(w.mapQ3s) % 256)
  }

  /**
   * The correction for deletions bracketed by repeats: when the median
   * deviation exceeds the rounded mean deviation `mean[1]` of the element
   * by more than four times the 3' interval, the position moves by half the
   * excess, the interval becomes plus or minus that half, and the length
   * and its interval come from the element's mean and standard error.
   */
  function Corrected(e: DelEvent, len: int, elm: Elmnt, n: nat): DelEvent
    requires n > 0
  {
    var err := len - Round(elm.mean.second);
    if err > 4 * e.ciPos.second then
      var se := RoundStdError(elm.std.second, n);
      e.(pos := AsUnsigned(e.pos + CDiv(err, 2)), ciPos := Two(CDiv(-err, 2), CDiv(err, 2)),
         length := AsUnsigned(Round(elm.mean.second)), ciLen := Two(-se, se))
    else e
  }

  /** The new candidate overlaps the last kept event. */
  predicate Overlaps(last: DelEvent, e: DelEvent, fragLenMax: int)
  {
    last.end > e.pos && AbsInt(ToInt32(last.pos - e.pos)) < fragLenMax
  }

  /** [least, greatest, greatest] of two spans. */
  function SpanUnion(a: Span, b: Span): (r: Span)
    ensures r.posMin <= a.posMin && r.posMin <= b.posMin && (r.posMin == a.posMin || r.posMin == b.posMin)
    ensures r.endMax >= a.endMax && r.endMax >= b.endMax && (r.endMax == a.endMax || r.endMax == b.endMax)
    ensures r.posMax >= a.posMax && r.posMax >= b.posMax && (r.posMax == a.posMax || r.posMax == b.posMax)
  {
    Span(MinInt(a.posMin, b.posMin), MaxInt(a.endMax, b.endMax), MaxInt(a.posMax, b.posMax))
  }

  /**
   * `TGM_DelEventMerge`: the last event after absorbing the new one, given
   * the pair count `total` `TGM_ClusterMerge` returns and the merged element.
   */
  function MergedDel(last: DelEvent, e: DelEvent, total: nat, merged: Elmnt): DelEvent
    requires total > 0
  {
    var p5, p3 := SpanUnion(last.pos5, e.pos5), SpanUnion(last.pos3, e.pos3);
    var ci := SpreadCI(p5, p3, total);
    last.(pos5 := p5, pos3 := p3, pos := AsUnsigned(p5.endMax + 1), end := AsUnsigned(p3.posMin),
          length := AsUnsigned(Round(merged.mean.second)), quality := Quality(total),
          ciPos := ci, ciEnd := ci, ciLen := Two(0, 0))
  }

  // ---------------------------------------------------------------------
  // One element of the scan

  /**
   * The element the candidate of element i is merged into, if any: the
   * element of the last kept event, when the median deviation is at least 1
   * and the (uncorrected) candidate overlaps that event.
   */
  function MergeTarget(data: seq<Elmnt>, events: seq<DelEvent>, w: DelWalk, i: nat): Option<int>
    requires i < |data| && data[i].numReadPair > 0 && Walked(w)
  {
    if Median(w.diffs) >= 1 && events != [] &&
       Overlaps(events[|events| - 1], Candidate(w, i, data[i].numReadPair), w.fragLenMax)
    then Some(events[|events| - 1].clusterID) else None
  }

  /**
   * The kept events and the elements after the scan visits live element i
   * with walk w: nothing happens when the median deviation is below 1; an
   * overlapping candidate is merged into the last event (and element i into
   * that event's element); any other corrected candidate is kept when it has
   * at least `minNumClustered` pairs and, as unsigned numbers, at least
   * `minEventLength` length.
   */
  function StepResult(data: seq<Elmnt>, events: seq<DelEvent>, w: DelWalk, i: nat,
                      minNumClustered: int, minEventLength: int): (r: (seq<DelEvent>, seq<Elmnt>))
    requires i < |data| && data[i].numReadPair > 0 && Walked(w)
    requires events != [] ==> 0 <= events[|events| - 1].clusterID < i
    ensures |r.1| == |data|
    ensures forall k | i < k < |data| :: r.1[k] == data[k]
  {
    var n := data[i].numReadPair;
    var len := Median(w.diffs);
    var e := Corrected(Candidate(w, i, n), len, data[i], n);
    match MergeTarget(data, events, w, i)
    case Some(dst) =>
      var data' := MergedElmnts(data, dst, i);
      (events[..|events| - 1] + [MergedDel(events[|events| - 1], e, data'[dst].numReadPair, data'[dst])], data')
    case None =>
      if len >= 1 && n >= minNumClustered && e.length >= AsUnsigned(minEventLength) then (events + [e], data)
      else (events, data)
  }

  /**
   * What every kept event records about its element, whose pair count is
   * n: n is positive and at least `minNumClustered`, the quality and the
   * end's interval are those of n pairs, the end is the 3' span's least
   * position, both spans are ordered, and all three intervals lie around 0.
   */
  predicate EventHolds(e: DelEvent, data: seq<Elmnt>, minNumClustered: int)
    requires 0 <= e.clusterID < |data|
  {
    var n := data[e.clusterID].numReadPair;
    n > 0 && n >= minNumClustered && e.quality == Quality(n) && e.ciEnd == SpreadCI(e.pos5, e.pos3, n) &&
    e.end == AsUnsigned(e.pos3.posMin) && e.pos5.posMin <= e.pos5.posMax && e.pos3.posMin <= e.pos3.posMax &&
    Brackets(e.ciPos) && Brackets(e.ciEnd) && Brackets(e.ciLen)
  }

  /**
   * The kept events come from elements before i, one event per element, in
   * increasing element order, and each records its element's current count.
   */
  predicate EventsHold(events: seq<DelEvent>, data: seq<Elmnt>, i: nat, minNumClustered: int)
    requires i <= |data|
  {
    (forall k | 0 <= k < |events| :: 0 <= events[k].clusterID < i && EventHolds(events[k], data, minNumClustered)) &&
    (forall k | 0 < k < |events| :: events[k - 1].clusterID < events[k].clusterID)
  }

  /** The walk's spans are ordered. */
  predicate SpansOrdered(w: DelWalk)
  {
    w.pos5.posMin <= w.pos5.posMax && w.pos3.posMin <= w.pos3.posMax
  }

  /** A merged event records the merged element's count. */
  lemma MergedHolds(last: DelEvent, e: DelEvent, data: seq<Elmnt>, dst: nat, i: nat, minNumClustered: int)
    requires dst < |data| && i < |data| && dst != i && data[i].numReadPair > 0
    requires last.clusterID == dst && EventHolds(last, data, minNumClustered)
    requires e.pos5.posMin <= e.pos5.posMax && e.pos3.posMin <= e.pos3.posMax
    ensures var data' := MergedElmnts(data, dst, i);
      EventHolds(MergedDel(last, e, data'[dst].numReadPair, data'[dst]), data', minNumClustered)
  {
  }

  /** Visiting element i keeps every kept event's record true and moves the bound past i. */
  lemma StepKeepsEvents(data: seq<Elmnt>, events: seq<DelEvent>, w: DelWalk, i: nat,
                        minNumClustered: int, minEventLength: int)
    requires i < |data| && data[i].numReadPair > 0 && Walked(w) && SpansOrdered(w) && DiffsInRange(w)
    requires EventsHold(events, data, i, minNumClustered)
    ensures events != [] ==> 0 <= events[|events| - 1].clusterID < i
    ensures var r := StepResult(data, events, w, i, minNumClustered, minEventLength);
      EventsHold(r.0, r.1, i + 1, minNumClustered)
  {
    var n := data[i].numReadPair;
    var e := Corrected(Candidate(w, i, n), Median(w.diffs), data[i], n);
    match MergeTarget(data, events, w, i)
    case Some(dst) =>
      MergeKeepsEvents(data, events, e, i, minNumClustered);
    case None =>
      if n >= minNumClustered {
        CandidateHolds(data, w, i, minNumClustered);
        AppendKeepsEvents(data, events, e, i, minNumClustered);
      }
  }

  /** The corrected candidate of an element with enough pairs records its element. */
  lemma CandidateHolds(data: seq<Elmnt>, w: DelWalk, i: nat, minNumClustered: int)
    requires i < |data| && data[i].numReadPair > 0 && Walked(w) && SpansOrdered(w) && DiffsInRange(w)
    requires data[i].numReadPair >= minNumClustered
    ensures var n := data[i].numReadPair;
      var e := Corrected(Candidate(w, i, n), Median(w.diffs), data[i], n);
      e.clusterID == i && EventHolds(e, data, minNumClustered)
  {
    var n := data[i].numReadPair;
    CandidateIntervals(w, i, n);
    CorrectedIntervals(Candidate(w, i, n), Median(w.diffs), data[i], n);
  }

  /**
   * A candidate's intervals lie around 0: the position spreads are ordered,
   * and the median deviation lies between the least and greatest deviation.
   */
  lemma CandidateIntervals(w: DelWalk, i: nat, n: nat)
    requires n > 0 && Walked(w) && SpansOrdered(w) && DiffsInRange(w)
    ensures var e := Candidate(w, i, n);
      Brackets(e.ciPos) && Brackets(e.ciEnd) && Brackets(e.ciLen)
  {
    var len := Median(w.diffs);
    assert len in w.diffs;
    var t :| 0 <= t < |w.diffs| && w.diffs[t] == len;
    assert w.diffMin <= len <= w.diffMax;
  }

  /** The correction keeps the intervals around 0 (it moves the position only when the excess is positive). */
  lemma CorrectedIntervals(e: DelEvent, len: int, elm: Elmnt, n: nat)
    requires n > 0 && Brackets(e.ciPos) && Brackets(e.ciEnd) && Brackets(e.ciLen)
    ensures var e' := Corrected(e, len, elm, n);
      Brackets(e'.ciPos) && Brackets(e'.ciEnd) && Brackets(e'.ciLen) &&
      e'.pos5 == e.pos5 && e'.pos3 == e.pos3 && e'.end == e.end && e'.ciEnd == e.ciEnd &&
      e'.quality == e.quality && e'.clusterID == e.clusterID
  {
  }

  /** Appending an event of element i keeps the events' records and order. */
  lemma AppendKeepsEvents(data: seq<Elmnt>, events: seq<DelEvent>, e: DelEvent, i: nat, minNumClustered: int)
    requires i < |data| && EventsHold(events, data, i, minNumClustered)
    requires e.clusterID == i && EventHolds(e, data, minNumClustered)
    ensures EventsHold(events + [e], data, i + 1, minNumClustered)
  {
  }

  /** Merging element i into the last event's element keeps the events' records and order. */
  lemma MergeKeepsEvents(data: seq<Elmnt>, events: seq<DelEvent>, e: DelEvent, i: nat, minNumClustered: int)
    requires i < |data| && data[i].numReadPair > 0 && EventsHold(events, data, i, minNumClustered) && events != []
    requires e.pos5.posMin <= e.pos5.posMax && e.pos3.posMin <= e.pos3.posMax
    ensures var m := |events| - 1;
      var dst := events[m].clusterID;
      var data' := MergedElmnts(data, dst, i);
      EventsHold(events[..m] + [MergedDel(events[m], e, data'[dst].numReadPair, data'[dst])], data', i + 1, minNumClustered)
  {
    var m := |events| - 1;
    var dst := events[m].clusterID;
    var data' := MergedElmnts(data, dst, i);
    var r := events[..m] + [MergedDel(events[m], e, data'[dst].numReadPair, data'[dst])];
    MergedHolds(events[m], e, data, dst, i, minNumClustered);
    forall k | 0 <= k < m
      ensures 0 <= r[k].clusterID < i + 1 && EventHolds(r[k], data', minNumClustered)
    {
      assert events[k].clusterID < events[m].clusterID by {
        EventsIncrease(events, data, i, minNumClustered, k, m);
      }
    }
  }

  /** The kept events' element numbers strictly increase along the list. */
  lemma {:induction false} EventsIncrease(events: seq<DelEvent>, data: seq<Elmnt>, i: nat, minNumClustered: int, k: nat, m: nat)
    requires i <= |data| && EventsHold(events, data, i, minNumClustered) && k < m < |events|
    ensures events[k].clusterID < events[m].clusterID
    decreases m - k
  {
    if k + 1 < m {
      EventsIncrease(events, data, i, minNumClustered, k + 1, m);
    }
  }

  /** Visiting an element moves pairs between elements but loses none. */
  lemma StepKeepsTotal(data: seq<Elmnt>, events: seq<DelEvent>, w: DelWalk, i: nat,
                       minNumClustered: int, minEventLength: int)
    requires i < |data| && data[i].numReadPair > 0 && Walked(w)
    requires events != [] ==> 0 <= events[|events| - 1].clusterID < i
    ensures var r := StepResult(data, events, w, i, minNumClustered, minEventLength);
      PairTotal(r.1, |r.1|) == PairTotal(data, |data|)
  {
    match MergeTarget(data, events, w, i)
    case Some(dst) => MergeKeepsPairTotal(data, dst, i);
    case None =>
  }

  /**
   * `TGM_DelEventMerge`: merge element i into the element of the last kept
   * event and that event into `MergedDel` of itself and candidate e.
   */
  method DelEventMerge(c: Cluster, events: seq<DelEvent>, e: DelEvent, i: nat) returns (events': seq<DelEvent>)
    requires c.Valid() && i < |c.elmnts.data| && c.elmnts.data[i].numReadPair > 0
    requires events != [] && 0 <= events[|events| - 1].clusterID < i
    modifies c`next, c`lab, c`dec, c`elmnts, c`size
    ensures c.Valid()
    ensures var last := events[|events| - 1];
      var data' := MergedElmnts(old(c.elmnts).data, last.clusterID, i);
      c.elmnts == old(c.elmnts).(data := data') &&
      events' == events[..|events| - 1] + [MergedDel(last, e, data'[last.clusterID].numReadPair, data'[last.clusterID])]
    ensures ConnectedAs(old(c.next), old(c.lab), old(c.dec), old(c.elmnts).data[events[|events| - 1].clusterID].startIndex,
                        old(c.elmnts).data[i].startIndex, c.next, c.lab, c.dec)
    ensures c.size == (old(c.size) + UINT32_MOD - 1) % UINT32_MOD
  {
    var m := |events| - 1;
    var total := c.Merge(events[m].clusterID, i);
    events' := events[..m] + [MergedDel(events[m], e, total, c.elmnts.data[events[m].clusterID])];
  }

  /**
   * The body of the scan for live element i once its ring has been walked
   * into w: build the candidate, then merge it into the last event, keep it
   * or drop it.
   */
  method FindDelStep(c: Cluster, i: nat, w: DelWalk, events: seq<DelEvent>,
                     minNumClustered: int, minEventLength: int) returns (events': seq<DelEvent>)
    requires c.Valid() && i < |c.elmnts.data| && c.elmnts.data[i].numReadPair > 0 && Walked(w)
    requires events != [] ==> 0 <= events[|events| - 1].clusterID < i
    modifies c`next, c`lab, c`dec, c`elmnts, c`size
    ensures c.Valid()
    ensures (events', c.elmnts.data) == StepResult(old(c.elmnts).data, events, w, i, minNumClustered, minEventLength)
    ensures c.elmnts == old(c.elmnts).(data := c.elmnts.data)
    ensures match MergeTarget(old(c.elmnts).data, events, w, i)
      case Some(dst) =>
        ConnectedAs(old(c.next), old(c.lab), old(c.dec), old(c.elmnts).data[dst].startIndex,
                    old(c.elmnts).data[i].startIndex, c.next, c.lab, c.dec) &&
        c.size == (old(c.size) + UINT32_MOD - 1) % UINT32_MOD
      case None => c.next == old(c.next) && c.lab == old(c.lab) && c.dec == old(c.dec) && c.size == old(c.size)
  {
    var n := c.elmnts.data[i].numReadPair;
    var len := Median(w.diffs);
    var e := Corrected(Candidate(w, i, n), len, c.elmnts.data[i], n);
    if MergeTarget(c.elmnts.data, events, w, i).Some? {
      events' := DelEventMerge(c, events, e, i);
    } else if len >= 1 && n >= minNumClustered && e.length >= AsUnsigned(minEventLength) {
      events' := events + [e];
    } else {
      events' := events;
    }
  }

  /** The facts `VisitElement` needs about the walk of a live element and the step after it. */
  lemma VisitKeeps(pairs: seq<LocalPair>, libs: seq<LibInfo>, attrs: seq<Attrbt>, W: seq<int>,
                   data: seq<Elmnt>, events: seq<DelEvent>, i: nat, minNumClustered: int, minEventLength: int)
    requires LocalIndexed(pairs, libs, attrs) && OnPoints(W, |attrs|) && |W| > 0
    requires i < |data| && data[i].numReadPair > 0 && EventsHold(events, data, i, minNumClustered)
    ensures var w := DelWalkOf(pairs, libs, attrs, W, |W|);
      Walked(w) && (events != [] ==> 0 <= events[|events| - 1].clusterID < i) &&
      var r := StepResult(data, events, w, i, minNumClustered, minEventLength);
      EventsHold(r.0, r.1, i + 1, minNumClustered) && PairTotal(r.1, |r.1|) == PairTotal(data, |data|)
  {
    var w := DelWalkOf(pairs, libs, attrs, W, |W|);
    DelWalkSpans(pairs, libs, attrs, W, |W|);
    DelWalkDiffRange(pairs, libs, attrs, W, |W|);
    StepKeepsEvents(data, events, w, i, minNumClustered, minEventLength);
    StepKeepsTotal(data, events, w, i, minNumClustered, minEventLength);
  }

  /**
   * The three outcomes of visiting live element i with walk w.  An element
   * whose median deviation is below 1 changes nothing.  A candidate that
   * overlaps the last kept event is merged into it: the event list keeps its
   * length and its earlier events, and element i is merged into the last
   * event's element.  Any other candidate leaves the elements alone and is
   * appended exactly when the median deviation is at least 1, the element
   * has at least `minNumClustered` pairs, and the corrected length is at
   * least `minEventLength` as unsigned numbers; the appended event names
   * element i, ends at the 3' span's least position and has the quality of
   * the element's pair count.
   */
  lemma StepOutcomes(data: seq<Elmnt>, events: seq<DelEvent>, w: DelWalk, i: nat,
                     minNumClustered: int, minEventLength: int)
    requires i < |data| && data[i].numReadPair > 0 && Walked(w)
    requires events != [] ==> 0 <= events[|events| - 1].clusterID < i
    ensures var r := StepResult(data, events, w, i, minNumClustered, minEventLength);
      Median(w.diffs) < 1 ==> r == (events, data)
    ensures var r := StepResult(data, events, w, i, minNumClustered, minEventLength);
      MergeTarget(data, events, w, i).Some? ==>
        events != [] && |r.0| == |events| && r.0[..|events| - 1] == events[..|events| - 1] &&
        r.1 == MergedElmnts(data, events[|events| - 1].clusterID, i)
    ensures var r := StepResult(data, events, w, i, minNumClustered, minEventLength);
      var n := data[i].numReadPair;
      var e := Corrected(Candidate(w, i, n), Median(w.diffs), data[i], n);
      MergeTarget(data, events, w, i).None? ==>
        r.1 == data && r.0[..|events|] == events &&
        (|r.0| == |events| + 1 <==>
           Median(w.diffs) >= 1 && n >= minNumClustered && e.length >= AsUnsigned(minEventLength)) &&
        (|r.0| == |events| + 1 ==>
           r.0[|events|].clusterID == i && r.0[|events|].end == AsUnsigned(w.pos3.posMin) &&
           r.0[|events|].quality == Quality(n)) &&
        (|r.0| != |events| + 1 ==> r.0 == events)
  {
  }

  /**
   * The links and their decomposition after the scan visits live element i
   * with walk w: an overlapping candidate connects the first point of the
   * last event's element to element i's first point; otherwise they stay.
   */
  ghost function VisitLinks(next: seq<int>, d: Decomp, data: seq<Elmnt>, events: seq<DelEvent>, w: DelWalk, i: nat)
    : (seq<int>, Decomp)
    requires Decomposes(next, d.rid, d.idx, d.rings)
    requires i < |data| && data[i].numReadPair > 0 && Walked(w)
    requires events != [] ==> 0 <= events[|events| - 1].clusterID < i
    requires forall k | 0 <= k < |data| :: data[k].startIndex < |next|
  {
    match MergeTarget(data, events, w, i)
    case Some(dst) =>
      var c, m := data[dst].startIndex, data[i].startIndex;
      (if d.rid[c] == d.rid[m] then next else SplicedNext(next, c, m), ConnectedRings(next, d, c, m))
    case None => (next, d)
  }

  /**
   * A state the scan can be in before element i: the links decompose into
   * rings over the points, every element starts at a point, and the kept
   * events hold of the elements before i.
   */
  ghost predicate ScanReady(pairs: seq<LocalPair>, libs: seq<LibInfo>, attrs: seq<Attrbt>, next: seq<int>, d: Decomp,
                            data: seq<Elmnt>, list: seq<DelEvent>, i: nat, minNumClustered: int)
  {
    forall t {:trigger Opened(t)} | Opened(t) ::
      LocalIndexed(pairs, libs, attrs) && |attrs| == |next| && Decomposes(next, d.rid, d.idx, d.rings) &&
      i <= |data| && (forall k | 0 <= k < |data| :: data[k].startIndex < |next|) &&
      EventsHold(list, data, i, minNumClustered)
  }

  /** What `ScanReady` states, opened. */
  lemma ReadyFacts(pairs: seq<LocalPair>, libs: seq<LibInfo>, attrs: seq<Attrbt>, next: seq<int>, d: Decomp,
                   data: seq<Elmnt>, list: seq<DelEvent>, i: nat, minNumClustered: int)
    requires ScanReady(pairs, libs, attrs, next, d, data, list, i, minNumClustered)
    ensures LocalIndexed(pairs, libs, attrs) && |attrs| == |next| && Decomposes(next, d.rid, d.idx, d.rings)
    ensures i <= |data| && (forall k | 0 <= k < |data| :: data[k].startIndex < |next|)
    ensures EventsHold(list, data, i, minNumClustered)
  {
    assert Opened(0);
  }

  /** `ScanReady` from what it states. */
  lemma ReadyFrom(pairs: seq<LocalPair>, libs: seq<LibInfo>, attrs: seq<Attrbt>, next: seq<int>, d: Decomp,
                  data: seq<Elmnt>, list: seq<DelEvent>, i: nat, minNumClustered: int)
    requires LocalIndexed(pairs, libs, attrs) && |attrs| == |next| && Decomposes(next, d.rid, d.idx, d.rings)
    requires i <= |data| && (forall k | 0 <= k < |data| :: data[k].startIndex < |next|)
    requires EventsHold(list, data, i, minNumClustered)
    ensures ScanReady(pairs, libs, attrs, next, d, data, list, i, minNumClustered)
  {
    assert Opened(0);
  }

  /**
   * The links, their decomposition, the elements and the kept events after
   * the scan visits live element i: its ring is walked in the current links,
   * the elements and events change as `StepResult` says and the links as
   * `VisitLinks` says.
   */
  ghost function VisitOf(pairs: seq<LocalPair>, libs: seq<LibInfo>, attrs: seq<Attrbt>, next: seq<int>, d: Decomp,
                         data: seq<Elmnt>, list: seq<DelEvent>, i: nat, minNumClustered: int, minEventLength: int)
    : (v: (seq<int>, Decomp, seq<Elmnt>, seq<DelEvent>))
    requires ScanReady(pairs, libs, attrs, next, d, data, list, i, minNumClustered)
    requires i < |data| && data[i].numReadPair > 0
    ensures VisitIs(pairs, libs, attrs, next, d, data, list, i, minNumClustered, minEventLength, v)
  {
    VisitExists(pairs, libs, attrs, next, d, data, list, i, minNumClustered, minEventLength);
    var v :| VisitIs(pairs, libs, attrs, next, d, data, list, i, minNumClustered, minEventLength, v); v
  }

  /**
   * v is the state after the scan visits live element i, as `VisitOf`
   * describes it.  Kept behind `Opened`; `VisitFacts` opens it.
   */
  ghost predicate VisitIs(pairs: seq<LocalPair>, libs: seq<LibInfo>, attrs: seq<Attrbt>, next: seq<int>, d: Decomp,
                          data: seq<Elmnt>, list: seq<DelEvent>, i: nat, minNumClustered: int, minEventLength: int,
                          v: (seq<int>, Decomp, seq<Elmnt>, seq<DelEvent>))
    requires ScanReady(pairs, libs, attrs, next, d, data, list, i, minNumClustered)
    requires i < |data| && data[i].numReadPair > 0
  {
    ReadyFacts(pairs, libs, attrs, next, d, data, list, i, minNumClustered);
    forall t {:trigger Opened(t)} | Opened(t) ::
      var w := ElementWalk(pairs, libs, attrs, next, d, data[i].startIndex);
      StepKeepsEvents(data, list, w, i, minNumClustered, minEventLength);
      var r := StepResult(data, list, w, i, minNumClustered, minEventLength);
      var l := VisitLinks(next, d, data, list, w, i);
      v == (l.0, l.1, r.1, r.0)
  }

  lemma VisitExists(pairs: seq<LocalPair>, libs: seq<LibInfo>, attrs: seq<Attrbt>, next: seq<int>, d: Decomp,
                    data: seq<Elmnt>, list: seq<DelEvent>, i: nat, minNumClustered: int, minEventLength: int)
    requires ScanReady(pairs, libs, attrs, next, d, data, list, i, minNumClustered)
    requires i < |data| && data[i].numReadPair > 0
    ensures exists v :: VisitIs(pairs, libs, attrs, next, d, data, list, i, minNumClustered, minEventLength, v)
  {
    ReadyFacts(pairs, libs, attrs, next, d, data, list, i, minNumClustered);
    var w := ElementWalk(pairs, libs, attrs, next, d, data[i].startIndex);
    StepKeepsEvents(data, list, w, i, minNumClustered, minEventLength);
    var r := StepResult(data, list, w, i, minNumClustered, minEventLength);
    var l := VisitLinks(next, d, data, list, w, i);
    assert VisitIs(pairs, libs, attrs, next, d, data, list, i, minNumClustered, minEventLength, (l.0, l.1, r.1, r.0));
  }

  /** What `VisitOf` gives, opened: the walk, `StepResult` and `VisitLinks`. */
  lemma VisitFacts(pairs: seq<LocalPair>, libs: seq<LibInfo>, attrs: seq<Attrbt>, next: seq<int>, d: Decomp,
                   data: seq<Elmnt>, list: seq<DelEvent>, i: nat, minNumClustered: int, minEventLength: int)
    requires ScanReady(pairs, libs, attrs, next, d, data, list, i, minNumClustered)
    requires i < |data| && data[i].numReadPair > 0
    ensures LocalIndexed(pairs, libs, attrs) && |attrs| == |next| && Decomposes(next, d.rid, d.idx, d.rings)
    ensures (forall k | 0 <= k < |data| :: data[k].startIndex < |next|) && EventsHold(list, data, i, minNumClustered)
    ensures list != [] ==> 0 <= list[|list| - 1].clusterID < i
    ensures var w := ElementWalk(pairs, libs, attrs, next, d, data[i].startIndex);
      var r := StepResult(data, list, w, i, minNumClustered, minEventLength);
      var l := VisitLinks(next, d, data, list, w, i);
      VisitOf(pairs, libs, attrs, next, d, data, list, i, minNumClustered, minEventLength) == (l.0, l.1, r.1, r.0)
  {
    ReadyFacts(pairs, libs, attrs, next, d, data, list, i, minNumClustered);
    var w := ElementWalk(pairs, libs, attrs, next, d, data[i].startIndex);
    StepKeepsEvents(data, list, w, i, minNumClustered, minEventLength);
    assert Opened(0);
  }

  /**
   * The kept events and the elements at the end of the scan, from the state
   * before element i with `left` live elements still to visit: elements with
   * no pairs are passed over; each live one has its ring walked in the
   * current links, is visited as `StepResult` says, and the links change as
   * `VisitLinks` says.
   */
  ghost function DelScanFrom(pairs: seq<LocalPair>, libs: seq<LibInfo>, attrs: seq<Attrbt>, next: seq<int>, d: Decomp,
                          data: seq<Elmnt>, list: seq<DelEvent>, i: nat, left: nat,
                          minNumClustered: int, minEventLength: int): (r: (seq<DelEvent>, seq<Elmnt>))
    requires ScanReady(pairs, libs, attrs, next, d, data, list, i, minNumClustered)
    decreases |data| - i
  {
    ReadyFacts(pairs, libs, attrs, next, d, data, list, i, minNumClustered);
    if left == 0 || i == |data| then (list, data)
    else if data[i].numReadPair == 0 then
      SkipKeepsReady(pairs, libs, attrs, next, d, data, list, i, minNumClustered);
      DelScanFrom(pairs, libs, attrs, next, d, data, list, i + 1, left, minNumClustered, minEventLength)
    else
      var v := VisitOf(pairs, libs, attrs, next, d, data, list, i, minNumClustered, minEventLength);
      VisitKeepsReady(pairs, libs, attrs, next, d, data, list, i, minNumClustered, minEventLength);
      DelScanFrom(pairs, libs, attrs, v.0, v.1, v.2, v.3, i + 1, left - 1, minNumClustered, minEventLength)
  }

  /** Visiting live element i leaves the scan ready for element i + 1. */
  lemma VisitKeepsReady(pairs: seq<LocalPair>, libs: seq<LibInfo>, attrs: seq<Attrbt>, next: seq<int>, d: Decomp,
                        data: seq<Elmnt>, list: seq<DelEvent>, i: nat, minNumClustered: int, minEventLength: int)
    requires ScanReady(pairs, libs, attrs, next, d, data, list, i, minNumClustered)
    requires i < |data| && data[i].numReadPair > 0
    ensures var v := VisitOf(pairs, libs, attrs, next, d, data, list, i, minNumClustered, minEventLength);
      |v.2| == |data| && ScanReady(pairs, libs, attrs, v.0, v.1, v.2, v.3, i + 1, minNumClustered)
  {
    VisitFacts(pairs, libs, attrs, next, d, data, list, i, minNumClustered, minEventLength);
    var w := ElementWalk(pairs, libs, attrs, next, d, data[i].startIndex);
    StepKeepsEvents(data, list, w, i, minNumClustered, minEventLength);
    var r := StepResult(data, list, w, i, minNumClustered, minEventLength);
    var l := VisitLinks(next, d, data, list, w, i);
    VisitLinksDecompose(next, d, data, list, w, i);
    assert forall k | 0 <= k < |r.1| :: r.1[k].startIndex == data[k].startIndex;
    ReadyFrom(pairs, libs, attrs, l.0, l.1, r.1, r.0, i + 1, minNumClustered);
  }

  /** Passing over element i leaves the scan ready for element i + 1. */
  lemma SkipKeepsReady(pairs: seq<LocalPair>, libs: seq<LibInfo>, attrs: seq<Attrbt>, next: seq<int>, d: Decomp,
                       data: seq<Elmnt>, list: seq<DelEvent>, i: nat, minNumClustered: int)
    requires ScanReady(pairs, libs, attrs, next, d, data, list, i, minNumClustered) && i < |data|
    ensures ScanReady(pairs, libs, attrs, next, d, data, list, i + 1, minNumClustered)
  {
    ReadyFacts(pairs, libs, attrs, next, d, data, list, i, minNumClustered);
    ReadyFrom(pairs, libs, attrs, next, d, data, list, i + 1, minNumClustered);
  }

  /** The links after a visit still decompose into rings over the same points. */
  lemma VisitLinksDecompose(next: seq<int>, d: Decomp, data: seq<Elmnt>, list: seq<DelEvent>, w: DelWalk, i: nat)
    requires Decomposes(next, d.rid, d.idx, d.rings)
    requires i < |data| && data[i].numReadPair > 0 && Walked(w)
    requires list != [] ==> 0 <= list[|list| - 1].clusterID < i
    requires forall k | 0 <= k < |data| :: data[k].startIndex < |next|
    ensures var l := VisitLinks(next, d, data, list, w, i);
      |l.0| == |next| && Decomposes(l.0, l.1.rid, l.1.idx, l.1.rings)
  {
    match MergeTarget(data, list, w, i)
    case Some(dst) =>
      var c, m := data[dst].startIndex, data[i].startIndex;
      var d' := ConnectedRings(next, d, c, m);
      assert VisitLinks(next, d, data, list, w, i) == (if d.rid[c] == d.rid[m] then next else SplicedNext(next, c, m), d');
    case None =>
  }

  /**
   * The scan visits live element i: from state (next, d, data, list) it
   * reaches (next', d', data', list') as `StepResult` and `VisitLinks` say
   * for the walk round element i's ring.  Kept behind `Opened`;
   * `VisitedFacts` opens it.
   */
  ghost predicate Visited(pairs: seq<LocalPair>, libs: seq<LibInfo>, attrs: seq<Attrbt>, next: seq<int>, d: Decomp,
                          data: seq<Elmnt>, list: seq<DelEvent>, i: nat, minNumClustered: int, minEventLength: int,
                          next': seq<int>, d': Decomp, data': seq<Elmnt>, list': seq<DelEvent>)
  {
    forall t {:trigger Opened(t)} | Opened(t) ::
      ScanReady(pairs, libs, attrs, next, d, data, list, i, minNumClustered) &&
      i < |data| && data[i].numReadPair > 0 &&
      (next', d', data', list') == VisitOf(pairs, libs, attrs, next, d, data, list, i, minNumClustered, minEventLength)
  }

  /** What `Visited` states, opened. */
  lemma VisitedFacts(pairs: seq<LocalPair>, libs: seq<LibInfo>, attrs: seq<Attrbt>, next: seq<int>, d: Decomp,
                     data: seq<Elmnt>, list: seq<DelEvent>, i: nat, minNumClustered: int, minEventLength: int,
                     next': seq<int>, d': Decomp, data': seq<Elmnt>, list': seq<DelEvent>)
    requires Visited(pairs, libs, attrs, next, d, data, list, i, minNumClustered, minEventLength, next', d', data', list')
    ensures ScanReady(pairs, libs, attrs, next, d, data, list, i, minNumClustered)
    ensures i < |data| && data[i].numReadPair > 0
    ensures (next', d', data', list') == VisitOf(pairs, libs, attrs, next, d, data, list, i, minNumClustered, minEventLength)
  {
    assert Opened(0);
  }

  /** A visit leaves the scan ready for element i + 1 and takes one step of `DelScanFrom`. */
  lemma ScanVisits(pairs: seq<LocalPair>, libs: seq<LibInfo>, attrs: seq<Attrbt>, next: seq<int>, d: Decomp,
                   data: seq<Elmnt>, list: seq<DelEvent>, i: nat, left: nat, minNumClustered: int, minEventLength: int,
                   next': seq<int>, d': Decomp, data': seq<Elmnt>, list': seq<DelEvent>)
    requires Visited(pairs, libs, attrs, next, d, data, list, i, minNumClustered, minEventLength, next', d', data', list')
    requires left > 0
    ensures ScanReady(pairs, libs, attrs, next', d', data', list', i + 1, minNumClustered)
    ensures ScanReady(pairs, libs, attrs, next, d, data, list, i, minNumClustered)
    ensures DelScanFrom(pairs, libs, attrs, next, d, data, list, i, left, minNumClustered, minEventLength)
         == DelScanFrom(pairs, libs, attrs, next', d', data', list', i + 1, left - 1, minNumClustered, minEventLength)
  {
    VisitedFacts(pairs, libs, attrs, next, d, data, list, i, minNumClustered, minEventLength, next', d', data', list');
    VisitKeepsReady(pairs, libs, attrs, next, d, data, list, i, minNumClustered, minEventLength);
  }

  /** A visit changes no element after i and keeps the pairs' total. */
  lemma VisitKeepsTotal(pairs: seq<LocalPair>, libs: seq<LibInfo>, attrs: seq<Attrbt>, next: seq<int>, d: Decomp,
                        data: seq<Elmnt>, list: seq<DelEvent>, i: nat, minNumClustered: int, minEventLength: int,
                        next': seq<int>, d': Decomp, data': seq<Elmnt>, list': seq<DelEvent>)
    requires Visited(pairs, libs, attrs, next, d, data, list, i, minNumClustered, minEventLength, next', d', data', list')
    ensures |data'| == |data| && forall k | i < k < |data| :: data'[k] == data[k]
    ensures PairTotal(data', |data'|) == PairTotal(data, |data|)
  {
    VisitedFacts(pairs, libs, attrs, next, d, data, list, i, minNumClustered, minEventLength, next', d', data', list');
    VisitFacts(pairs, libs, attrs, next, d, data, list, i, minNumClustered, minEventLength);
    var w := ElementWalk(pairs, libs, attrs, next, d, data[i].startIndex);
    StepKeepsTotal(data, list, w, i, minNumClustered, minEventLength);
  }

  /**
   * What a visit of live element i gives the scan: it is ready at i + 1,
   * takes one step of `DelScanFrom`, changes no element after i and keeps
   * the pairs' total.
   */
  lemma VisitAdvances(pairs: seq<LocalPair>, libs: seq<LibInfo>, attrs: seq<Attrbt>, next: seq<int>, d: Decomp,
                      data: seq<Elmnt>, list: seq<DelEvent>, i: nat, left: nat, minNumClustered: int, minEventLength: int,
                      next': seq<int>, d': Decomp, data': seq<Elmnt>, list': seq<DelEvent>)
    requires Visited(pairs, libs, attrs, next, d, data, list, i, minNumClustered, minEventLength, next', d', data', list')
    requires left > 0
    ensures i < |data| && data[i].numReadPair > 0
    ensures ScanReady(pairs, libs, attrs, next', d', data', list', i + 1, minNumClustered)
    ensures DelScanFrom(pairs, libs, attrs, next, d, data, list, i, left, minNumClustered, minEventLength)
         == DelScanFrom(pairs, libs, attrs, next', d', data', list', i + 1, left - 1, minNumClustered, minEventLength)
    ensures |data'| == |data| && forall k | i < k < |data| :: data'[k] == data[k]
    ensures PairTotal(data', |data'|) == PairTotal(data, |data|)
  {
    VisitedFacts(pairs, libs, attrs, next, d, data, list, i, minNumClustered, minEventLength, next', d', data', list');
    ScanVisits(pairs, libs, attrs, next, d, data, list, i, left, minNumClustered, minEventLength, next', d', data', list');
    VisitKeepsTotal(pairs, libs, attrs, next, d, data, list, i, minNumClustered, minEventLength, next', d', data', list');
  }

  /** An element with no pairs is passed over: one step of `DelScanFrom` that changes nothing. */
  lemma ScanSkips(pairs: seq<LocalPair>, libs: seq<LibInfo>, attrs: seq<Attrbt>, next: seq<int>, d: Decomp,
                  data: seq<Elmnt>, list: seq<DelEvent>, i: nat, left: nat, minNumClustered: int, minEventLength: int)
    requires ScanReady(pairs, libs, attrs, next, d, data, list, i, minNumClustered)
    requires i < |data| && data[i].numReadPair == 0 && left > 0
    ensures ScanReady(pairs, libs, attrs, next, d, data, list, i + 1, minNumClustered)
    ensures DelScanFrom(pairs, libs, attrs, next, d, data, list, i, left, minNumClustered, minEventLength)
         == DelScanFrom(pairs, libs, attrs, next, d, data, list, i + 1, left, minNumClustered, minEventLength)
  {
    SkipKeepsReady(pairs, libs, attrs, next, d, data, list, i, minNumClustered);
  }

  /** With nothing left to visit the scan is over. */
  lemma ScanDone(pairs: seq<LocalPair>, libs: seq<LibInfo>, attrs: seq<Attrbt>, next: seq<int>, d: Decomp,
                 data: seq<Elmnt>, list: seq<DelEvent>, i: nat, minNumClustered: int, minEventLength: int)
    requires ScanReady(pairs, libs, attrs, next, d, data, list, i, minNumClustered)
    ensures DelScanFrom(pairs, libs, attrs, next, d, data, list, i, 0, minNumClustered, minEventLength) == (list, data)
  {
  }

  /** A valid cluster is a state the scan can start from. */
  lemma ReadyToScan(c: Cluster, pairs: seq<LocalPair>, libs: seq<LibInfo>, minNumClustered: int)
    requires c.Valid() && LocalIndexed(pairs, libs, c.attrs)
    ensures ScanReady(pairs, libs, c.attrs, c.next, c.dec, c.elmnts.data, [], 0, minNumClustered)
  {
    ReadyFrom(pairs, libs, c.attrs, c.next, c.dec, c.elmnts.data, [], 0, minNumClustered);
  }

  /** Holds for every k; the marker `ScanAt` is kept behind, like `Opened`. */
  ghost predicate ScanOpened(k: nat)
  {
    true
  }

  /**
   * The state of the scan loop of `TGM_ReadPairFindDel` after it has reached
   * element i having visited `counter` live elements, starting from links
   * next0 with decomposition dec0 and elements data0: the scan is ready at
   * i, only elements before i have changed, no pair is lost, and what is
   * left of `DelScanFrom` from here is what it gives from the start.  Kept
   * behind `ScanOpened`, its own marker, so that opening it opens nothing
   * else; `ScanAtFacts` opens it.
   */
  ghost predicate ScanAt(pairs: seq<LocalPair>, libs: seq<LibInfo>, attrs: seq<Attrbt>,
                         next0: seq<int>, dec0: Decomp, data0: seq<Elmnt>, numClusters: nat,
                         minNumClustered: int, minEventLength: int,
                         next: seq<int>, d: Decomp, data: seq<Elmnt>, list: seq<DelEvent>, i: nat, counter: nat)
  {
    forall t {:trigger ScanOpened(t)} | ScanOpened(t) ::
      ScanReady(pairs, libs, attrs, next0, dec0, data0, [], 0, minNumClustered) &&
      ScanReady(pairs, libs, attrs, next, d, data, list, i, minNumClustered) &&
      |data| == |data0| && i <= |data0| && counter <= numClusters && counter == LiveCount(data0, i) &&
      (forall k | i <= k < |data0| :: data[k] == data0[k]) &&
      PairTotal(data, |data0|) == PairTotal(data0, |data0|) &&
      DelScanFrom(pairs, libs, attrs, next, d, data, list, i, numClusters - counter, minNumClustered, minEventLength)
      == DelScanFrom(pairs, libs, attrs, next0, dec0, data0, [], 0, numClusters, minNumClustered, minEventLength)
  }

  /** What `ScanAt` states, opened. */
  lemma ScanAtFacts(pairs: seq<LocalPair>, libs: seq<LibInfo>, attrs: seq<Attrbt>,
                    next0: seq<int>, dec0: Decomp, data0: seq<Elmnt>, numClusters: nat,
                    minNumClustered: int, minEventLength: int,
                    next: seq<int>, d: Decomp, data: seq<Elmnt>, list: seq<DelEvent>, i: nat, counter: nat)
    requires ScanAt(pairs, libs, attrs, next0, dec0, data0, numClusters, minNumClustered, minEventLength,
                    next, d, data, list, i, counter)
    ensures ScanReady(pairs, libs, attrs, next0, dec0, data0, [], 0, minNumClustered)
    ensures ScanReady(pairs, libs, attrs, next, d, data, list, i, minNumClustered)
    ensures |data| == |data0| && i <= |data0| && counter <= numClusters && counter == LiveCount(data0, i)
    ensures forall k | i <= k < |data0| :: data[k] == data0[k]
    ensures PairTotal(data, |data0|) == PairTotal(data0, |data0|)
    ensures DelScanFrom(pairs, libs, attrs, next, d, data, list, i, numClusters - counter, minNumClustered, minEventLength)
         == DelScanFrom(pairs, libs, attrs, next0, dec0, data0, [], 0, numClusters, minNumClustered, minEventLength)
  {
    assert ScanOpened(0);
  }

  /** `ScanAt` from what it states. */
  lemma ScanAtFrom(pairs: seq<LocalPair>, libs: seq<LibInfo>, attrs: seq<Attrbt>,
                   next0: seq<int>, dec0: Decomp, data0: seq<Elmnt>, numClusters: nat,
                   minNumClustered: int, minEventLength: int,
                   next: seq<int>, d: Decomp, data: seq<Elmnt>, list: seq<DelEvent>, i: nat, counter: nat)
    requires ScanReady(pairs, libs, attrs, next0, dec0, data0, [], 0, minNumClustered)
    requires ScanReady(pairs, libs, attrs, next, d, data, list, i, minNumClustered)
    requires |data| == |data0| && i <= |data0| && counter <= numClusters && counter == LiveCount(data0, i)
    requires forall k | i <= k < |data0| :: data[k] == data0[k]
    requires PairTotal(data, |data0|) == PairTotal(data0, |data0|)
    requires DelScanFrom(pairs, libs, attrs, next, d, data, list, i, numClusters - counter, minNumClustered, minEventLength)
          == DelScanFrom(pairs, libs, attrs, next0, dec0, data0, [], 0, numClusters, minNumClustered, minEventLength)
    ensures ScanAt(pairs, libs, attrs, next0, dec0, data0, numClusters, minNumClustered, minEventLength,
                   next, d, data, list, i, counter)
  {
    assert ScanOpened(0);
  }

  /** Before the first turn the scan is at element 0 with nothing visited. */
  lemma ScanAtStart(pairs: seq<LocalPair>, libs: seq<LibInfo>, attrs: seq<Attrbt>,
                    next0: seq<int>, dec0: Decomp, data0: seq<Elmnt>, numClusters: nat,
                    minNumClustered: int, minEventLength: int)
    requires ScanReady(pairs, libs, attrs, next0, dec0, data0, [], 0, minNumClustered)
    ensures ScanAt(pairs, libs, attrs, next0, dec0, data0, numClusters, minNumClustered, minEventLength,
                   next0, dec0, data0, [], 0, 0)
  {
    ScanAtFrom(pairs, libs, attrs, next0, dec0, data0, numClusters, minNumClustered, minEventLength,
               next0, dec0, data0, [], 0, 0);
  }

  /**
   * While fewer than `numClusters` live elements have been visited and at
   * least that many exist, element i exists, is still as it was, and the
   * scan is ready at it.
   */
  lemma ScanAtNext(pairs: seq<LocalPair>, libs: seq<LibInfo>, attrs: seq<Attrbt>,
                   next0: seq<int>, dec0: Decomp, data0: seq<Elmnt>, numClusters: nat,
                   minNumClustered: int, minEventLength: int,
                   next: seq<int>, d: Decomp, data: seq<Elmnt>, list: seq<DelEvent>, i: nat, counter: nat)
    requires ScanAt(pairs, libs, attrs, next0, dec0, data0, numClusters, minNumClustered, minEventLength,
                    next, d, data, list, i, counter)
    requires counter != numClusters && numClusters <= LiveCount(data0, |data0|)
    ensures |data| == |data0| && i < |data| && data[i] == data0[i]
    ensures ScanReady(pairs, libs, attrs, next, d, data, list, i, minNumClustered)
  {
    ScanAtFacts(pairs, libs, attrs, next0, dec0, data0, numClusters, minNumClustered, minEventLength,
                next, d, data, list, i, counter);
  }

  /** Passing over an element with no pairs keeps `ScanAt` at the next element. */
  lemma ScanAtSkip(pairs: seq<LocalPair>, libs: seq<LibInfo>, attrs: seq<Attrbt>,
                   next0: seq<int>, dec0: Decomp, data0: seq<Elmnt>, numClusters: nat,
                   minNumClustered: int, minEventLength: int,
                   next: seq<int>, d: Decomp, data: seq<Elmnt>, list: seq<DelEvent>, i: nat, counter: nat, i': nat)
    requires ScanAt(pairs, libs, attrs, next0, dec0, data0, numClusters, minNumClustered, minEventLength,
                    next, d, data, list, i, counter)
    requires counter != numClusters && i < |data| && data[i].numReadPair == 0 && i' == i + 1
    ensures ScanAt(pairs, libs, attrs, next0, dec0, data0, numClusters, minNumClustered, minEventLength,
                   next, d, data, list, i', counter)
  {
    ScanAtFacts(pairs, libs, attrs, next0, dec0, data0, numClusters, minNumClustered, minEventLength,
                next, d, data, list, i, counter);
    ScanSkips(pairs, libs, attrs, next, d, data, list, i, numClusters - counter, minNumClustered, minEventLength);
    ScanAtFrom(pairs, libs, attrs, next0, dec0, data0, numClusters, minNumClustered, minEventLength,
               next, d, data, list, i', counter);
  }

  /** Visiting live element i keeps `ScanAt` at the next element, one more visited. */
  lemma ScanAtVisit(pairs: seq<LocalPair>, libs: seq<LibInfo>, attrs: seq<Attrbt>,
                    next0: seq<int>, dec0: Decomp, data0: seq<Elmnt>, numClusters: nat,
                    minNumClustered: int, minEventLength: int,
                    next: seq<int>, d: Decomp, data: seq<Elmnt>, list: seq<DelEvent>, i: nat, counter: nat,
                    next': seq<int>, d': Decomp, data': seq<Elmnt>, list': seq<DelEvent>, i': nat, counter': nat)
    requires ScanAt(pairs, libs, attrs, next0, dec0, data0, numClusters, minNumClustered, minEventLength,
                    next, d, data, list, i, counter)
    requires counter != numClusters && i' == i + 1 && counter' == counter + 1
    requires Visited(pairs, libs, attrs, next, d, data, list, i, minNumClustered, minEventLength, next', d', data', list')
    ensures ScanAt(pairs, libs, attrs, next0, dec0, data0, numClusters, minNumClustered, minEventLength,
                   next', d', data', list', i', counter')
  {
    ScanAtFacts(pairs, libs, attrs, next0, dec0, data0, numClusters, minNumClustered, minEventLength,
                next, d, data, list, i, counter);
    VisitAdvances(pairs, libs, attrs, next, d, data, list, i, numClusters - counter, minNumClustered, minEventLength,
                  next', d', data', list');
    ScanAtFrom(pairs, libs, attrs, next0, dec0, data0, numClusters, minNumClustered, minEventLength,
               next', d', data', list', i', counter');
  }

  /**
   * Once `numClusters` live elements have been visited, the kept events and
   * the elements are what `DelScanFrom` gives from the start, the events
   * hold of the final elements, and no pair is lost.
   */
  lemma ScanAtEnd(pairs: seq<LocalPair>, libs: seq<LibInfo>, attrs: seq<Attrbt>,
                  next0: seq<int>, dec0: Decomp, data0: seq<Elmnt>, numClusters: nat,
                  minNumClustered: int, minEventLength: int,
                  next: seq<int>, d: Decomp, data: seq<Elmnt>, list: seq<DelEvent>, i: nat)
    requires ScanAt(pairs, libs, attrs, next0, dec0, data0, numClusters, minNumClustered, minEventLength,
                    next, d, data, list, i, numClusters)
    ensures |data| == |data0| && ScanReady(pairs, libs, attrs, next0, dec0, data0, [], 0, minNumClustered)
    ensures (list, data) == DelScanFrom(pairs, libs, attrs, next0, dec0, data0, [], 0, numClusters,
                                        minNumClustered, minEventLength)
    ensures EventsHold(list, data, |data|, minNumClustered)
    ensures PairTotal(data, |data|) == PairTotal(data0, |data0|)
  {
    ScanAtFacts(pairs, libs, attrs, next0, dec0, data0, numClusters, minNumClustered, minEventLength,
                next, d, data, list, i, numClusters);
    ScanDone(pairs, libs, attrs, next, d, data, list, i, minNumClustered, minEventLength);
    ReadyFacts(pairs, libs, attrs, next, d, data, list, i, minNumClustered);
  }

  /**
   * One live element of the scan: walk its ring, then visit it with
   * `FindDelStep`; the kept events stay true of their elements, no pair is
   * lost, the elements after i are untouched, and the links change only by
   * the one connection an overlapping candidate makes.
   */
  method VisitElement(c: Cluster, i: nat, pairs: seq<LocalPair>, libs: seq<LibInfo>, events: seq<DelEvent>,
                      minNumClustered: int, minEventLength: int) returns (events': seq<DelEvent>, w: DelWalk)
    requires c.Valid() && LocalIndexed(pairs, libs, c.attrs) && i < |c.elmnts.data| && c.elmnts.data[i].numReadPair > 0
    requires EventsHold(events, c.elmnts.data, i, minNumClustered)
    modifies c`next, c`lab, c`dec, c`elmnts, c`size
    ensures c.Valid() && c.elmnts == old(c.elmnts).(data := c.elmnts.data) && |c.elmnts.data| == |old(c.elmnts).data|
    ensures forall k | i < k < |c.elmnts.data| :: c.elmnts.data[k] == old(c.elmnts).data[k]
    ensures EventsHold(events', c.elmnts.data, i + 1, minNumClustered)
    ensures PairTotal(c.elmnts.data, |c.elmnts.data|) == PairTotal(old(c.elmnts).data, |old(c.elmnts).data|)
    ensures Walked(w) && w == ElementWalk(pairs, libs, old(c.attrs), old(c.next), old(c.dec), old(c.elmnts).data[i].startIndex)
    ensures (events', c.elmnts.data) == StepResult(old(c.elmnts).data, events, w, i, minNumClustered, minEventLength)
    ensures match MergeTarget(old(c.elmnts).data, events, w, i)
      case Some(dst) =>
        ConnectedAs(old(c.next), old(c.lab), old(c.dec), old(c.elmnts).data[dst].startIndex,
                    old(c.elmnts).data[i].startIndex, c.next, c.lab, c.dec)
      case None => c.next == old(c.next) && c.lab == old(c.lab) && c.dec == old(c.dec)
  {
    ghost var W := WalkFrom(c.next, c.dec, c.elmnts.data[i].startIndex);
    w := WalkElement(c, i, pairs, libs);
    assert w == ElementWalk(pairs, libs, c.attrs, c.next, c.dec, c.elmnts.data[i].startIndex);
    VisitKeeps(pairs, libs, c.attrs, W, c.elmnts.data, events, i, minNumClustered, minEventLength);
    events' := FindDelStep(c, i, w, events, minNumClustered, minEventLength);
  }

  /**
   * `VisitElement` as a step of the scan: the links, elements and events
   * change exactly as `Visited` says.
   */
  method ScanVisit(c: Cluster, i: nat, pairs: seq<LocalPair>, libs: seq<LibInfo>, events: seq<DelEvent>,
                   minNumClustered: int, minEventLength: int) returns (events': seq<DelEvent>)
    requires c.Valid() && LocalIndexed(pairs, libs, c.attrs) && i < |c.elmnts.data| && c.elmnts.data[i].numReadPair > 0
    requires ScanReady(pairs, libs, c.attrs, c.next, c.dec, c.elmnts.data, events, i, minNumClustered)
    modifies c`next, c`lab, c`dec, c`elmnts, c`size
    ensures c.Valid() && c.elmnts == old(c.elmnts).(data := c.elmnts.data)
    ensures Visited(pairs, libs, c.attrs, old(c.next), old(c.dec), old(c.elmnts).data, events, i,
                    minNumClustered, minEventLength, c.next, c.dec, c.elmnts.data, events')
  {
    ghost var next0, lab0, d0, data0 := c.next, c.lab, c.dec, c.elmnts.data;
    ReadyFacts(pairs, libs, c.attrs, c.next, c.dec, c.elmnts.data, events, i, minNumClustered);
    var w;
    events', w := VisitElement(c, i, pairs, libs, events, minNumClustered, minEventLength);
    VisitIsVisited(pairs, libs, c.attrs, next0, lab0, d0, data0, events, i, minNumClustered, minEventLength, w,
                   c.next, c.lab, c.dec, c.elmnts.data, events');
  }

  /** What `WalkElement` and `FindDelStep` ensure together is a `Visited` step. */
  lemma VisitIsVisited(pairs: seq<LocalPair>, libs: seq<LibInfo>, attrs: seq<Attrbt>, next: seq<int>, lab: seq<int>,
                       d: Decomp, data: seq<Elmnt>, list: seq<DelEvent>, i: nat, minNumClustered: int, minEventLength: int,
                       w: DelWalk, next': seq<int>, lab': seq<int>, d': Decomp, data': seq<Elmnt>, list': seq<DelEvent>)
    requires ScanReady(pairs, libs, attrs, next, d, data, list, i, minNumClustered)
    requires Decomposes(next, d.rid, d.idx, d.rings) && LocalIndexed(pairs, libs, attrs) && |attrs| == |next|
    requires i < |data| && data[i].numReadPair > 0 && data[i].startIndex < |next|
    requires w == ElementWalk(pairs, libs, attrs, next, d, data[i].startIndex)
    requires list != [] ==> 0 <= list[|list| - 1].clusterID < i
    requires Walked(w) && (list', data') == StepResult(data, list, w, i, minNumClustered, minEventLength)
    requires match MergeTarget(data, list, w, i)
      case Some(dst) =>
        ConnectedAs(next, lab, d, data[dst].startIndex, data[i].startIndex, next', lab', d')
      case None => next' == next && d' == d
    ensures Visited(pairs, libs, attrs, next, d, data, list, i, minNumClustered, minEventLength, next', d', data', list')
  {
    VisitFacts(pairs, libs, attrs, next, d, data, list, i, minNumClustered, minEventLength);
    match MergeTarget(data, list, w, i)
    case Some(dst) =>
      ConnectedLinks(next, lab, d, data[dst].startIndex, data[i].startIndex, next', lab', d');
    case None =>
    VisitedFrom(pairs, libs, attrs, next, d, data, list, i, minNumClustered, minEventLength, next', d', data', list');
  }

  /** `Visited` from what it states. */
  lemma VisitedFrom(pairs: seq<LocalPair>, libs: seq<LibInfo>, attrs: seq<Attrbt>, next: seq<int>, d: Decomp,
                    data: seq<Elmnt>, list: seq<DelEvent>, i: nat, minNumClustered: int, minEventLength: int,
                    next': seq<int>, d': Decomp, data': seq<Elmnt>, list': seq<DelEvent>)
    requires ScanReady(pairs, libs, attrs, next, d, data, list, i, minNumClustered)
    requires i < |data| && data[i].numReadPair > 0
    requires (next', d', data', list') == VisitOf(pairs, libs, attrs, next, d, data, list, i, minNumClustered, minEventLength)
    ensures Visited(pairs, libs, attrs, next, d, data, list, i, minNumClustered, minEventLength, next', d', data', list')
  {
    assert Opened(0);
  }

  // ---------------------------------------------------------------------
  // The scan

  /**
   * The turn of the scan loop that visits live element i: the scan stays
   * where `ScanAt` says, one element further on and with one more visit.
   */
  method VisitTurn(c: Cluster, pairs: seq<LocalPair>, libs: seq<LibInfo>, ghost attrs: seq<Attrbt>,
                   ghost next0: seq<int>, ghost dec0: Decomp,
                   ghost data0: seq<Elmnt>, numClusters: nat, minNumClustered: int, minEventLength: int,
                   list: seq<DelEvent>, i: nat, counter: nat, i': nat, counter': nat)
    returns (list': seq<DelEvent>, ghost next': seq<int>, ghost d': Decomp, ghost data': seq<Elmnt>)
    requires c.Valid() && LocalIndexed(pairs, libs, c.attrs) && c.elmnts.size == numClusters && c.attrs == attrs
    requires counter != numClusters && i' == i + 1 && counter' == counter + 1
    requires i < |c.elmnts.data| && c.elmnts.data[i].numReadPair > 0
    requires ScanAt(pairs, libs, attrs, next0, dec0, data0, numClusters, minNumClustered, minEventLength,
                    c.next, c.dec, c.elmnts.data, list, i, counter)
    requires ScanReady(pairs, libs, attrs, c.next, c.dec, c.elmnts.data, list, i, minNumClustered)
    modifies c`next, c`lab, c`dec, c`elmnts, c`size
    ensures c.Valid() && c.elmnts.size == numClusters
    ensures c.next == next' && c.dec == d' && c.elmnts.data == data'
    ensures ScanAt(pairs, libs, attrs, next0, dec0, data0, numClusters, minNumClustered, minEventLength,
                   next', d', data', list', i', counter')
  {
    ghost var next, d, data := c.next, c.dec, c.elmnts.data;
    list' := ScanVisit(c, i, pairs, libs, list, minNumClustered, minEventLength);
    next', d', data' := c.next, c.dec, c.elmnts.data;
    ScanAtVisit(pairs, libs, attrs, next0, dec0, data0, numClusters, minNumClustered, minEventLength,
                next, d, data, list, i, counter, next', d', data', list', i', counter');
  }

  /**
   * One turn of the scan loop of `TGM_ReadPairFindDel`: pass over element i
   * if it has no pairs, otherwise visit it and count it; the scan stays
   * where `ScanAt` says, one element further on.
   */
  method ScanTurn(c: Cluster, pairs: seq<LocalPair>, libs: seq<LibInfo>, ghost attrs: seq<Attrbt>,
                  ghost next0: seq<int>, ghost dec0: Decomp,
                  ghost data0: seq<Elmnt>, numClusters: nat, minNumClustered: int, minEventLength: int,
                  list: seq<DelEvent>, i: nat, counter: nat)
    returns (i': nat, counter': nat, list': seq<DelEvent>, ghost next': seq<int>, ghost d': Decomp, ghost data': seq<Elmnt>)
    requires c.Valid() && LocalIndexed(pairs, libs, c.attrs) && c.elmnts.size == numClusters && c.attrs == attrs
    requires counter != numClusters && numClusters <= LiveCount(data0, |data0|)
    requires ScanAt(pairs, libs, attrs, next0, dec0, data0, numClusters, minNumClustered, minEventLength,
                    c.next, c.dec, c.elmnts.data, list, i, counter)
    modifies c`next, c`lab, c`dec, c`elmnts, c`size
    ensures c.Valid() && c.elmnts.size == numClusters && i' == i + 1 && i' <= |data0|
    ensures c.next == next' && c.dec == d' && c.elmnts.data == data'
    ensures ScanAt(pairs, libs, attrs, next0, dec0, data0, numClusters, minNumClustered, minEventLength,
                   next', d', data', list', i', counter')
  {
    ScanAtNext(pairs, libs, attrs, next0, dec0, data0, numClusters, minNumClustered, minEventLength,
               c.next, c.dec, c.elmnts.data, list, i, counter);
    i' := i + 1;
    if c.elmnts.data[i].numReadPair == 0 {
      counter', list' := counter, list;
      next', d', data' := c.next, c.dec, c.elmnts.data;
      ScanAtSkip(pairs, libs, attrs, next0, dec0, data0, numClusters, minNumClustered, minEventLength,
                 next', d', data', list, i, counter, i');
    } else {
      counter' := counter + 1;
      list', next', d', data' := VisitTurn(c, pairs, libs, attrs, next0, dec0, data0, numClusters, minNumClustered,
                                           minEventLength, list, i, counter, i', counter');
    }
  }


  /**
   * `TGM_ReadPairFindDel`: visit the first `elmnts.size` live elements in
   * order (the scan stops once it has visited that many, skipping elements
   * with no pairs), then sort the kept events with `CompareDelEvents`.  The
   * kept events and the final elements are exactly what `DelScanFrom` gives
   * from the cluster as it was.  An element whose median deviation is below
   * 1 is passed over like the rest (see `ShortClusterNeverAdvances` for the
   * loop as written).  The caller must make sure that many live elements
   * exist, or the scan would run off the array.
   */
  method FindDel(c: Cluster, pairs: seq<LocalPair>, libs: seq<LibInfo>, minNumClustered: int, minEventLength: int)
    returns (events: seq<DelEvent>, ghost found: seq<DelEvent>)
    requires c.Valid() && LocalIndexed(pairs, libs, c.attrs)
    requires c.elmnts.size <= LiveCount(c.elmnts.data, |c.elmnts.data|)
    modifies c`next, c`lab, c`dec, c`elmnts, c`size
    ensures c.Valid() && |c.elmnts.data| == |old(c.elmnts).data| && c.elmnts.size == old(c.elmnts).size
    ensures ScanReady(pairs, libs, c.attrs, old(c.next), old(c.dec), old(c.elmnts).data, [], 0, minNumClustered)
    ensures (found, c.elmnts.data) == DelScanFrom(pairs, libs, c.attrs, old(c.next), old(c.dec), old(c.elmnts).data, [], 0,
                                               old(c.elmnts).size, minNumClustered, minEventLength)
    ensures EventsHold(found, c.elmnts.data, |c.elmnts.data|, minNumClustered)
    ensures PairTotal(c.elmnts.data, |c.elmnts.data|) == PairTotal(old(c.elmnts).data, |old(c.elmnts).data|)
    ensures events == SortBy(found, CompareDelEvents)
    ensures SortedBy(events, CompareDelEvents) && multiset(events) == multiset(found)
  {
    ghost var data0, next0, dec0 := c.elmnts.data, c.next, c.dec;
    ReadyToScan(c, pairs, libs, minNumClustered);
    var numClusters := c.elmnts.size;
    ScanAtStart(pairs, libs, c.attrs, next0, dec0, data0, numClusters, minNumClustered, minEventLength);
    var i: nat := 0;
    var counter: nat := 0;
    var list: seq<DelEvent> := [];
    while counter != numClusters
      invariant c.Valid() && LocalIndexed(pairs, libs, c.attrs) && c.elmnts.size == numClusters && i <= |data0|
      invariant ScanAt(pairs, libs, c.attrs, next0, dec0, data0, numClusters, minNumClustered, minEventLength,
                       c.next, c.dec, c.elmnts.data, list, i, counter)
      decreases |data0| - i
    {
      ghost var next', d', data';
      i, counter, list, next', d', data' := ScanTurn(c, pairs, libs, c.attrs, next0, dec0, data0, numClusters, minNumClustered,
                                                     minEventLength, list, i, counter);
    }
    ScanAtEnd(pairs, libs, c.attrs, next0, dec0, data0, numClusters, minNumClustered, minEventLength,
              c.next, c.dec, c.elmnts.data, list, i);
    events := SortBy(list, CompareDelEvents);
    SortedDelEvents(list);
    found := list;
  }

  // ---------------------------------------------------------------------
  // The scan loop as written

  /**
   * One turn of the scan loop as written, on its two counters: an element
   * with no pairs is passed over (`++i`); a live element whose median
   * deviation is below 1 leaves the turn at `continue`, before `++i` and
   * `++counter`; any other live element advances both.
   */
  function AdvanceAsWritten(live: bool, short: bool, i: nat, counter: nat): (r: (nat, nat))
    ensures live && short ==> r == (i, counter)
    ensures !live ==> r == (i + 1, counter)
    ensures live && !short ==> r == (i + 1, counter + 1)
  {
    if !live then (i + 1, counter) else if short then (i, counter) else (i + 1, counter + 1)
  }

  /**
   * The counters after at most `fuel` turns of the loop as written, which
   * runs while `counter != numClusters`, over elements described by which
   * are live and which are short.
   */
  function RunAsWritten(live: seq<bool>, short: seq<bool>, numClusters: nat, i: nat, counter: nat, fuel: nat): (nat, nat)
    requires |short| == |live|
    decreases fuel
  {
    if fuel == 0 || counter == numClusters || i >= |live| then (i, counter)
    else
      var next := AdvanceAsWritten(live[i], short[i], i, counter);
      RunAsWritten(live, short, numClusters, next.0, next.1, fuel - 1)
  }

  /**
   * As written, once the loop meets a live element whose median deviation
   * is below 1 it stays on that element for good: however many turns it
   * takes, i and counter do not move and `counter != numClusters` stays true.
   */
  lemma {:induction false} ShortClusterNeverAdvances(live: seq<bool>, short: seq<bool>, numClusters: nat,
                                                     i: nat, counter: nat, fuel: nat)
    requires |short| == |live| && i < |live| && live[i] && short[i] && counter != numClusters
    ensures RunAsWritten(live, short, numClusters, i, counter, fuel) == (i, counter)
    ensures RunAsWritten(live, short, numClusters, i, counter, fuel).1 != numClusters
    decreases fuel
  {
    if fuel > 0 {
      ShortClusterNeverAdvances(live, short, numClusters, i, counter, fuel - 1);
    }
  }
}
