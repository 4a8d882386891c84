// The events the read-pair detector reports (TGM_ReadPairDetect.c): deletion
// events and special (mobile-element insertion) events, the two comparators
// the detector hands to `qsort`, the merge of two special events, and the
// scan that merges neighbouring special events in place.

module DetectEvents {
  import opened Numeric
  import opened Sorting
  import opened PairRecords

  /**
   * One side of a deletion (`pos5[3]` or `pos3[3]`): the least mate position,
   * the greatest mate end and the greatest mate position.
   */
  datatype Span = Span(posMin: int, endMax: int, posMax: int)

  /**
   * `TGM_DelEvent`.  `pos`, `end` and `length` are `uint32_t` in the source
   * and the quality and mapping qualities `unsigned char`; the conversions
   * are written out where the fields are set.
   */
  datatype DelEvent = DelEvent(
    clusterID: int, refID: int, pos: nat, end: nat, length: nat,
    pos5: Span, pos3: Span, ciPos: Two<int>, ciEnd: Two<int>, ciLen: Two<int>,
    quality: nat, mapQ5: nat, mapQ3: nat)

  /**
   * `TGM_SpecialEvent`: slot 0 of `numFrag` and `clusterID` is the forward
   * (3' clustering) support, slot 1 the reverse (5' clustering) support.
   * `posUncertainty` is `None` where the source divides by a zero count.
   */
  datatype SpecialEvent = SpecialEvent(
    refID: int, pos: nat, posUncertainty: Option<nat>, length: nat,
    pos5: Two<int>, pos3: Two<int>, clusterID: Two<int>, numFrag: Two<int>)

  // ---------------------------------------------------------------------
  // The comparators

  /** Lexicographic three-way comparison of two key lists of one length. */
  function LexCompare(x: seq<int>, y: seq<int>): (r: int)
    requires |x| == |y|
    ensures -1 <= r <= 1
    ensures r == 0 <==> x == y
    decreases |x|
  {
    if x == [] then 0
    else if x[0] < y[0] then -1
    else if x[0] > y[0] then 1
    else
      var r := LexCompare(x[1..], y[1..]);
      assert x == [x[0]] + x[1..] && y == [y[0]] + y[1..];
      r
  }

  /** Swapping the arguments negates the comparison. */
  lemma {:induction false} LexAntisymmetric(x: seq<int>, y: seq<int>)
    requires |x| == |y|
    ensures LexCompare(x, y) == -LexCompare(y, x)
    decreases |x|
  {
    if x != [] && x[0] == y[0] {
      LexAntisymmetric(x[1..], y[1..]);
    }
  }

  /** "At most" under the comparison is transitive. */
  lemma {:induction false} LexTransitive(x: seq<int>, y: seq<int>, z: seq<int>)
    requires |x| == |y| == |z|
    requires LexCompare(x, y) <= 0 && LexCompare(y, z) <= 0
    ensures LexCompare(x, z) <= 0
    decreases |x|
  {
    if x != [] && x[0] == y[0] && y[0] == z[0] {
      LexTransitive(x[1..], y[1..], z[1..]);
    }
  }

  /** The keys `CompareDelEvents` orders by, most significant first. */
  function DelKey(e: DelEvent): (k: seq<int>)
    ensures |k| == 4
  {
    [e.refID, e.pos, e.length, e.quality]
  }

  /** The keys `CompareSpecialEvents` orders by, most significant first. */
  function SpecialKey(e: SpecialEvent): (k: seq<int>)
    ensures |k| == 3
  {
    [e.refID, e.pos, e.length]
  }

  /**
   * `CompareDelEvents`: by reference, then position, then length, then
   * quality; 0 only when all four agree.
   */
  function CompareDelEvents(a: DelEvent, b: DelEvent): (r: int)
    ensures -1 <= r <= 1
    ensures r == 0 <==> (a.refID == b.refID && a.pos == b.pos && a.length == b.length && a.quality == b.quality)
  {
    if a.refID < b.refID then -1
    else if a.refID > b.refID then 1
    else if a.pos < b.pos then -1
    else if a.pos > b.pos then 1
    else if a.length < b.length then -1
    else if a.length > b.length then 1
    else if a.quality < b.quality then -1
    else if a.quality > b.quality then 1
    else 0
  }

  /** `CompareSpecialEvents`: by reference, then position, then length. */
  function CompareSpecialEvents(a: SpecialEvent, b: SpecialEvent): (r: int)
    ensures -1 <= r <= 1
    ensures r == 0 <==> (a.refID == b.refID && a.pos == b.pos && a.length == b.length)
  {
    if a.refID < b.refID then -1
    else if a.refID > b.refID then 1
    else if a.pos < b.pos then -1
    else if a.pos > b.pos then 1
    else if a.length < b.length then -1
    else if a.length > b.length then 1
    else 0
  }

  /** One step of the lexicographic comparison. */
  lemma LexUnfold(x: seq<int>, y: seq<int>)
    requires |x| == |y| > 0
    ensures LexCompare(x, y) == if x[0] < y[0] then -1 else if x[0] > y[0] then 1 else LexCompare(x[1..], y[1..])
  {
  }

  /** `CompareDelEvents` is the lexicographic order of the deletion keys. */
  lemma DelCompareIsLex(a: DelEvent, b: DelEvent)
    ensures CompareDelEvents(a, b) == LexCompare(DelKey(a), DelKey(b))
  {
    var x, y := DelKey(a), DelKey(b);
    LexUnfold(x, y);
    LexUnfold(x[1..], y[1..]);
    LexUnfold(x[2..], y[2..]);
    LexUnfold(x[3..], y[3..]);
    assert x[1..][1..] == x[2..] && y[1..][1..] == y[2..];
    assert x[2..][1..] == x[3..] && y[2..][1..] == y[3..];
    assert x[3..][1..] == [] == y[3..][1..];
  }

  /** `CompareSpecialEvents` is the lexicographic order of the special-event keys. */
  lemma SpecialCompareIsLex(a: SpecialEvent, b: SpecialEvent)
    ensures CompareSpecialEvents(a, b) == LexCompare(SpecialKey(a), SpecialKey(b))
  {
    var x, y := SpecialKey(a), SpecialKey(b);
    LexUnfold(x, y);
    LexUnfold(x[1..], y[1..]);
    LexUnfold(x[2..], y[2..]);
    assert x[1..][1..] == x[2..] && y[1..][1..] == y[2..];
    assert x[2..][1..] == [] == y[2..][1..];
  }

  /** The deletion comparator is a total preorder: antisymmetric, transitive, connex. */
  lemma DelOrderIsTotal(a: DelEvent, b: DelEvent, c: DelEvent)
    ensures CompareDelEvents(a, b) == -CompareDelEvents(b, a)
    ensures CompareDelEvents(a, b) <= 0 && CompareDelEvents(b, c) <= 0 ==> CompareDelEvents(a, c) <= 0
    ensures Connex(CompareDelEvents)
  {
    DelCompareIsLex(a, b);
    DelCompareIsLex(b, a);
    LexAntisymmetric(DelKey(a), DelKey(b));
    if CompareDelEvents(a, b) <= 0 && CompareDelEvents(b, c) <= 0 {
      DelCompareIsLex(b, c);
      DelCompareIsLex(a, c);
      LexTransitive(DelKey(a), DelKey(b), DelKey(c));
    }
    forall x: DelEvent, y: DelEvent ensures CompareDelEvents(x, y) <= 0 || CompareDelEvents(y, x) <= 0 {
      DelCompareIsLex(x, y);
      DelCompareIsLex(y, x);
      LexAntisymmetric(DelKey(x), DelKey(y));
    }
  }

  /** The special-event comparator is a total preorder: antisymmetric, transitive, connex. */
  lemma SpecialOrderIsTotal(a: SpecialEvent, b: SpecialEvent, c: SpecialEvent)
    ensures CompareSpecialEvents(a, b) == -CompareSpecialEvents(b, a)
    ensures CompareSpecialEvents(a, b) <= 0 && CompareSpecialEvents(b, c) <= 0 ==> CompareSpecialEvents(a, c) <= 0
    ensures Connex(CompareSpecialEvents)
  {
    SpecialCompareIsLex(a, b);
    SpecialCompareIsLex(b, a);
    LexAntisymmetric(SpecialKey(a), SpecialKey(b));
    if CompareSpecialEvents(a, b) <= 0 && CompareSpecialEvents(b, c) <= 0 {
      SpecialCompareIsLex(b, c);
      SpecialCompareIsLex(a, c);
      LexTransitive(SpecialKey(a), SpecialKey(b), SpecialKey(c));
    }
    forall x: SpecialEvent, y: SpecialEvent ensures CompareSpecialEvents(x, y) <= 0 || CompareSpecialEvents(y, x) <= 0 {
      SpecialCompareIsLex(x, y);
      SpecialCompareIsLex(y, x);
      LexAntisymmetric(SpecialKey(x), SpecialKey(y));
    }
  }

  /** `qsort` with `CompareDelEvents` leaves the events sorted and permuted. */
  lemma SortedDelEvents(s: seq<DelEvent>)
    ensures SortedBy(SortBy(s, CompareDelEvents), CompareDelEvents)
    ensures multiset(SortBy(s, CompareDelEvents)) == multiset(s)
  {
    var e := DelEvent(0, 0, 0, 0, 0, Span(0, 0, 0), Span(0, 0, 0), Two(0, 0), Two(0, 0), Two(0, 0), 0, 0, 0);
    DelOrderIsTotal(e, e, e);
    SortBySorted(s, CompareDelEvents);
  }

  /** `qsort` with `CompareSpecialEvents` leaves the events sorted and permuted. */
  lemma SortedSpecialEvents(s: seq<SpecialEvent>)
    ensures SortedBy(SortBy(s, CompareSpecialEvents), CompareSpecialEvents)
    ensures multiset(SortBy(s, CompareSpecialEvents)) == multiset(s)
  {
    var e := SpecialEvent(0, 0, None, 0, Two(0, 0), Two(0, 0), Two(0, 0), Two(0, 0));
    SpecialOrderIsTotal(e, e, e);
    SortBySorted(s, CompareSpecialEvents);
  }

  // ---------------------------------------------------------------------
  // Merging two special events

  /**
   * A `TGM_ClusterConnect` call made by a merge: in the 3' clustering
   * (side 0) or the 5' clustering (side 1), connect `head` to `tail`.
   */
  datatype Link = Link(side: nat, head: int, tail: int)

  /** The spans of the result of a merge, and the ones it keeps. */
  function MinMax(a: Two<int>, b: Two<int>): (r: Two<int>)
    ensures r.first <= a.first && r.first <= b.first && (r.first == a.first || r.first == b.first)
    ensures r.second >= a.second && r.second >= b.second && (r.second == a.second || r.second == b.second)
  {
    Two(MinInt(a.first, b.first), MaxInt(a.second, b.second))
  }

  /**
   * `TGM_SpecialEventMerge(head, tail)`: the merged event and the cluster
   * connection it makes.  The tail is first exchanged with the head when it
   * has no forward support; the merge starts from the (new) tail.
   */
  function MergeSpecial(head: SpecialEvent, tail: SpecialEvent): (r: (SpecialEvent, Option<Link>))
    ensures r.0.numFrag == Two(head.numFrag.first + tail.numFrag.first, head.numFrag.second + tail.numFrag.second)
    ensures r.1.None? <==> !(head.numFrag.first > 0 && tail.numFrag.first > 0) && !(head.numFrag.second > 0 && tail.numFrag.second > 0)
    ensures r.0.posUncertainty.None? <==> head.numFrag.first + tail.numFrag.first == 0
  {
    var (h, t) := if tail.numFrag.first == 0 then (tail, head) else (head, tail);
    var bothForward := h.numFrag.first > 0 && t.numFrag.first > 0;
    var bothReversed := h.numFrag.second > 0 && t.numFrag.second > 0;
    var spans :=
      if bothForward then t.(pos5 := MinMax(t.pos5, h.pos5), clusterID := Two(h.clusterID.first, t.clusterID.second))
      else if bothReversed then t.(pos3 := MinMax(t.pos3, h.pos3), clusterID := Two(t.clusterID.first, h.clusterID.second))
      else t.(pos3 := h.pos3, clusterID := Two(t.clusterID.first, h.clusterID.second));
    var numFrag5 := h.numFrag.first + t.numFrag.first;
    var posTail := if t.numFrag.first > 0 then t.pos5.second else t.pos3.first;
    var posHead := if h.numFrag.second > 0 then h.pos3.first else h.pos5.second;
    var merged := spans.(
      numFrag := Two(numFrag5, h.numFrag.second + t.numFrag.second),
      pos := AsUnsigned(MinInt(posHead, posTail)),
      posUncertainty :=
        if numFrag5 == 0 then None
        else Some(AsUnsigned(Round((spans.pos5.second - spans.pos5.first) as real / numFrag5 as real))));
    var link :=
      if bothForward then Some(Link(0, h.clusterID.first, t.clusterID.first))
      else if bothReversed then Some(Link(1, h.clusterID.second, t.clusterID.second))
      else None;
    (merged, link)
  }

  /**
   * The spans of a merge: pos5 is unioned when both events have forward
   * support; otherwise pos3 is unioned when both have reverse support, and
   * else taken from the event without forward support (the head after the
   * exchange).  The link joins the two events' clusters of the shared side.
   */
  lemma MergeSpecialSpans(head: SpecialEvent, tail: SpecialEvent)
    ensures var r := MergeSpecial(head, tail);
      (head.numFrag.first > 0 && tail.numFrag.first > 0 ==>
              r.0.pos5 == MinMax(tail.pos5, head.pos5) && r.1 == Some(Link(0, head.clusterID.first, tail.clusterID.first))) &&
      (!(head.numFrag.first > 0 && tail.numFrag.first > 0) ==>
              r.0.pos5 == (if tail.numFrag.first == 0 then head.pos5 else tail.pos5)) &&
      (!(head.numFrag.first > 0 && tail.numFrag.first > 0) && head.numFrag.second > 0 && tail.numFrag.second > 0 ==>
              r.0.pos3 == MinMax(tail.pos3, head.pos3) && r.1.Some? && r.1.value.side == 1 &&
              {r.1.value.head, r.1.value.tail} == {head.clusterID.second, tail.clusterID.second}) &&
      (!(head.numFrag.first > 0 && tail.numFrag.first > 0) && !(head.numFrag.second > 0 && tail.numFrag.second > 0) ==>
              r.0.pos3 == (if tail.numFrag.first == 0 then tail.pos3 else head.pos3))
  {
  }

  /**
   * An event as `TGM_SpecialEventMake` leaves it: supported on one side only,
   * with a positive count.
   */
  predicate OneSided(e: SpecialEvent)
  {
    (e.numFrag.first > 0 && e.numFrag.second == 0) || (e.numFrag.first == 0 && e.numFrag.second > 0)
  }

  /**
   * The event has support, its counts are not negative, and the cluster ids
   * of its supported sides are points of the 3' clustering (n3 points) and
   * the 5' clustering (n5 points).
   */
  predicate IdsValid(e: SpecialEvent, n3: nat, n5: nat)
  {
    e.numFrag.first >= 0 && e.numFrag.second >= 0 && e.numFrag.first + e.numFrag.second > 0 &&
    (e.numFrag.first > 0 ==> 0 <= e.clusterID.first < n3) &&
    (e.numFrag.second > 0 ==> 0 <= e.clusterID.second < n5)
  }

  /**
   * Merging a one-sided head into an event whose supported sides carry valid
   * cluster ids gives an event whose supported sides carry valid ids, and the
   * link it makes joins two valid points of the right clustering.
   */
  lemma MergeKeepsIdsValid(head: SpecialEvent, tail: SpecialEvent, n3: nat, n5: nat)
    requires OneSided(head) && IdsValid(head, n3, n5) && IdsValid(tail, n3, n5)
    ensures IdsValid(MergeSpecial(head, tail).0, n3, n5)
    ensures var l := MergeSpecial(head, tail).1;
      l.Some? ==> l.value.side < 2 && 0 <= l.value.head < (if l.value.side == 0 then n3 else n5) &&
                  0 <= l.value.tail < (if l.value.side == 0 then n3 else n5)
  {
  }

  // ---------------------------------------------------------------------
  // The merge scan of `TGM_DetectSpecial`

  /**
   * The head lies within `fragLenMax` of the tail: the unsigned difference of
   * the two positions, read as an int, in absolute value.
   */
  predicate Near(head: SpecialEvent, tail: SpecialEvent, fragLenMax: int)
  {
    AbsInt(ToInt32(head.pos - tail.pos)) < fragLenMax
  }

  /** What the scan has produced: the kept events, the links made, and the number of merges. */
  datatype Scan = Scan(events: seq<SpecialEvent>, links: seq<Link>, merges: nat)

  /** The link of a merge as a list of at most one call. */
  function LinkList(l: Option<Link>): seq<Link>
  {
    if l.Some? then [l.value] else []
  }

  /**
   * One step of the scan: a head near the tail (the last kept event) is
   * merged into it; any other head becomes the new tail.
   */
  function ScanStep(acc: Scan, head: SpecialEvent, fragLenMax: int): (r: Scan)
    requires |acc.events| > 0
    ensures |r.events| > 0
  {
    var n := |acc.events|;
    if Near(head, acc.events[n - 1], fragLenMax) then
      var (m, l) := MergeSpecial(head, acc.events[n - 1]);
      Scan(acc.events[..n - 1] + [m], acc.links + LinkList(l), acc.merges + 1)
    else
      acc.(events := acc.events + [head])
  }

  /** The scan over the heads from index k on, from what it has produced so far. */
  function ScanFrom(s: seq<SpecialEvent>, k: nat, acc: Scan, fragLenMax: int): (r: Scan)
    requires k <= |s| && |acc.events| > 0
    ensures |r.events| > 0
    decreases |s| - k
  {
    if k == |s| then acc else ScanFrom(s, k + 1, ScanStep(acc, s[k], fragLenMax), fragLenMax)
  }

  /** The whole scan: nothing for no events, otherwise the first event starts as the tail. */
  function MergeScanOf(s: seq<SpecialEvent>, fragLenMax: int): Scan
  {
    if s == [] then Scan([], [], 0) else ScanFrom(s, 1, Scan([s[0]], [], 0), fragLenMax)
  }

  /** The sum of slot `side` of the counts of a list of events. */
  function FragSum(s: seq<SpecialEvent>, side: nat): int
    requires side < 2
  {
    if s == [] then 0 else FragSum(s[..|s| - 1], side) + Slot(s[|s| - 1].numFrag, side)
  }

  /** The first event of a list counts like the list's head. */
  lemma {:induction false} FragSumFront(s: seq<SpecialEvent>, side: nat)
    requires side < 2 && s != []
    ensures FragSum(s, side) == Slot(s[0].numFrag, side) + FragSum(s[1..], side)
    decreases |s|
  {
    if |s| > 1 {
      FragSumFront(s[..|s| - 1], side);
      assert s[..|s| - 1][1..] == s[1..][..|s[1..]| - 1];
    }
  }

  /** A step keeps the count of events and merges and adds the head's counts to the kept events. */
  lemma ScanStepKeeps(acc: Scan, head: SpecialEvent, fragLenMax: int, side: nat)
    requires |acc.events| > 0 && side < 2
    ensures var r := ScanStep(acc, head, fragLenMax);
      |r.events| + r.merges == |acc.events| + acc.merges + 1 &&
      FragSum(r.events, side) == FragSum(acc.events, side) + Slot(head.numFrag, side)
  {
    var es := acc.events;
    var r := ScanStep(acc, head, fragLenMax);
    assert r.events[..|r.events| - 1] == es[..|es| - 1] || r.events[..|r.events| - 1] == es;
  }

  /** Every merge removes one event, and merging pools the counts. */
  lemma {:induction false} ScanFromKeeps(s: seq<SpecialEvent>, k: nat, acc: Scan, fragLenMax: int, side: nat)
    requires k <= |s| && |acc.events| > 0 && side < 2
    ensures var r := ScanFrom(s, k, acc, fragLenMax);
      |r.events| + r.merges == |acc.events| + acc.merges + |s| - k &&
      FragSum(r.events, side) == FragSum(acc.events, side) + FragSum(s[k..], side)
    decreases |s| - k
  {
    if k < |s| {
      ScanStepKeeps(acc, s[k], fragLenMax, side);
      ScanFromKeeps(s, k + 1, ScanStep(acc, s[k], fragLenMax), fragLenMax, side);
      FragSumFront(s[k..], side);
      assert s[k..][1..] == s[k + 1..];
    }
  }

  /**
   * The scan of `TGM_DetectSpecial` merges and never drops: its events and
   * merges add up to the input, and both count slots keep their sums.
   */
  lemma MergeScanPreserves(s: seq<SpecialEvent>, fragLenMax: int)
    ensures var r := MergeScanOf(s, fragLenMax);
      |r.events| + r.merges == |s| && (s != [] ==> |r.events| > 0) &&
      FragSum(r.events, 0) == FragSum(s, 0) && FragSum(r.events, 1) == FragSum(s, 1)
  {
    if s != [] {
      var acc := Scan([s[0]], [], 0);
      ScanFromKeeps(s, 1, acc, fragLenMax, 0);
      ScanFromKeeps(s, 1, acc, fragLenMax, 1);
      FragSumFront(s, 0);
      FragSumFront(s, 1);
      assert [s[0]][..0] == [];
    }
  }

  /** A link joins two points of the clustering it names. */
  predicate LinkValid(l: Link, n3: nat, n5: nat)
  {
    l.side < 2 && 0 <= l.head < (if l.side == 0 then n3 else n5) && 0 <= l.tail < (if l.side == 0 then n3 else n5)
  }

  /** All kept events have valid ids and all links are valid. */
  predicate ScanValid(acc: Scan, n3: nat, n5: nat)
  {
    (forall j | 0 <= j < |acc.events| :: IdsValid(acc.events[j], n3, n5)) &&
    (forall j | 0 <= j < |acc.links| :: LinkValid(acc.links[j], n3, n5))
  }

  /** A step with a one-sided head keeps ids and links valid. */
  lemma ScanStepValid(acc: Scan, head: SpecialEvent, fragLenMax: int, n3: nat, n5: nat)
    requires |acc.events| > 0 && ScanValid(acc, n3, n5) && OneSided(head) && IdsValid(head, n3, n5)
    ensures ScanValid(ScanStep(acc, head, fragLenMax), n3, n5)
  {
    var es := acc.events;
    var n := |es|;
    if Near(head, es[n - 1], fragLenMax) {
      MergeKeepsIdsValid(head, es[n - 1], n3, n5);
      var (m, l) := MergeSpecial(head, es[n - 1]);
      ValidAfterMerge(acc, m, LinkList(l), n3, n5);
    } else {
      var es' := es + [head];
      assert forall j | 0 <= j < n + 1 :: es'[j] == if j < n then es[j] else head;
    }
  }

  /** Replacing the tail by a valid event and adding valid links keeps the scan valid. */
  lemma ValidAfterMerge(acc: Scan, m: SpecialEvent, ls: seq<Link>, n3: nat, n5: nat)
    requires |acc.events| > 0 && ScanValid(acc, n3, n5) && IdsValid(m, n3, n5)
    requires forall j | 0 <= j < |ls| :: LinkValid(ls[j], n3, n5)
    ensures ScanValid(Scan(acc.events[..|acc.events| - 1] + [m], acc.links + ls, acc.merges + 1), n3, n5)
  {
    var es := acc.events;
    var es' := es[..|es| - 1] + [m];
    assert forall j | 0 <= j < |es'| :: es'[j] == if j < |es| - 1 then es[j] else m;
    var ls' := acc.links + ls;
    assert forall j | 0 <= j < |ls'| :: ls'[j] == if j < |acc.links| then acc.links[j] else ls[j - |acc.links|];
  }

  /** The scan over one-sided events with valid ids keeps ids and links valid. */
  lemma {:induction false} ScanFromValid(s: seq<SpecialEvent>, k: nat, acc: Scan, fragLenMax: int, n3: nat, n5: nat)
    requires k <= |s| && |acc.events| > 0 && ScanValid(acc, n3, n5)
    requires forall j | k <= j < |s| :: OneSided(s[j]) && IdsValid(s[j], n3, n5)
    ensures ScanValid(ScanFrom(s, k, acc, fragLenMax), n3, n5)
    decreases |s| - k
  {
    if k < |s| {
      ScanStepValid(acc, s[k], fragLenMax, n3, n5);
      ScanFromValid(s, k + 1, ScanStep(acc, s[k], fragLenMax), fragLenMax, n3, n5);
    }
  }

  /**
   * Made events are one-sided with valid ids; the scan then leaves events
   * whose supported sides name valid clusters, and links between valid points.
   */
  lemma MergeScanIdsValid(s: seq<SpecialEvent>, fragLenMax: int, n3: nat, n5: nat)
    requires forall j | 0 <= j < |s| :: OneSided(s[j]) && IdsValid(s[j], n3, n5)
    ensures ScanValid(MergeScanOf(s, fragLenMax), n3, n5)
  {
    if s != [] {
      var acc := Scan([s[0]], [], 0);
      assert forall j | 0 <= j < 1 :: acc.events[j] == s[0];
      ScanFromValid(s, 1, acc, fragLenMax, n3, n5);
    }
  }

  /**
   * One pass of the scan's loop: merge the head into the tail slot, or copy
   * it to the slot after the tail.  The kept prefix becomes the step's events.
   */
  method ScanHead(a: array<SpecialEvent>, head: nat, tail: nat, ghost acc: Scan, fragLenMax: int)
    returns (tail': nat, l: seq<Link>)
    requires tail < head < a.Length && acc.events == a[..tail + 1]
    modifies a
    ensures var r := ScanStep(acc, old(a[head]), fragLenMax);
      tail' <= head && a[..tail' + 1] == r.events && r.links == acc.links + l &&
      r.merges == acc.merges + (tail + 1 - tail') && a[head + 1..] == old(a[head + 1..])
  {
    ghost var r := ScanStep(acc, a[head], fragLenMax);
    if Near(a[head], a[tail], fragLenMax) {
      var (m, link) := MergeSpecial(a[head], a[tail]);
      a[tail] := m;
      l := LinkList(link);
      tail' := tail;
      assert a[..tail + 1] == acc.events[..tail] + [m];
    } else {
      tail' := tail + 1;
      a[tail'] := a[head];
      l := [];
      assert a[..tail' + 1] == acc.events + [old(a[head])];
    }
  }

  /**
   * The scan of `TGM_DetectSpecial` (lines 525-551) on the event array: the
   * head runs over the array, a near head is merged into the tail slot, any
   * other head is copied to the slot after the tail.  Returns the new size
   * and the cluster connections the merges made, in order.
   */
  method MergeScan(a: array<SpecialEvent>, fragLenMax: int) returns (newSize: nat, links: seq<Link>)
    modifies a
    ensures newSize <= a.Length
    ensures a[..newSize] == MergeScanOf(old(a[..]), fragLenMax).events
    ensures links == MergeScanOf(old(a[..]), fragLenMax).links
    ensures newSize == a.Length - MergeScanOf(old(a[..]), fragLenMax).merges
  {
    ghost var s := a[..];
    newSize := a.Length;
    links := [];
    if a.Length == 0 {
      return;
    }
    var head: nat, tail: nat := 1, 0;
    ghost var acc := Scan([s[0]], [], 0);
    assert a[..1] == [s[0]];
    while head < a.Length
      invariant 1 <= head <= a.Length && tail < head && newSize == a.Length - acc.merges
      invariant acc.merges == head - 1 - tail && acc.events == a[..tail + 1] && acc.links == links
      invariant a[head..] == s[head..]
      invariant ScanFrom(s, head, acc, fragLenMax) == MergeScanOf(s, fragLenMax)
    {
      assert s[head] == a[head];
      var tail', l := ScanHead(a, head, tail, acc, fragLenMax);
      acc := ScanStep(acc, s[head], fragLenMax);
      newSize := newSize - (tail + 1 - tail');
      links := links + l;
      tail := tail';
      head := head + 1;
    }
    assert a[..tail + 1] == a[..newSize];
  }
}
