// The attribute builder (TGM_ReadPairAttrbt.c): it turns the pairs of one
// type into points (first attribute, second attribute, index of the pair,
// read group), sorts them with `CompareAttrbt`, and fills the per-read-group
// table of neighbourhood bounds the cluster engine reads.

module ReadPairAttrbt {
  import opened Numeric
  import opened PairRecords
  import opened Sorting
  import opened ClusterWindow

  const DEFAULT_RP_ATTRB_CAPACITY: nat := 50

  /** The 1e10 factor that packs a chromosome id and a position into one coordinate. */
  const COORD_PACK: real := 10000000000.0

  // ---------------------------------------------------------------------
  // The comparator

  /** (first, second, readGrpID) of x is lexicographically at most that of y. */
  predicate KeyAtMost(x: Attrbt, y: Attrbt)
  {
    x.first < y.first
    || (x.first == y.first && x.second < y.second)
    || (x.first == y.first && x.second == y.second && x.readGrpID <= y.readGrpID)
  }

  /**
   * `CompareAttrbt`: -1 when x's key is at most y's and 1 otherwise; it never
   * answers 0, so two points with equal keys each come "before" the other.
   */
  function CompareAttrbt(x: Attrbt, y: Attrbt): (r: int)
    ensures r == -1 || r == 1
    ensures r == -1 <==> KeyAtMost(x, y)
  {
    if x.first < y.first then -1
    else if x.first > y.first then 1
    else if x.second < y.second then -1
    else if x.second > y.second then 1
    else if x.readGrpID <= y.readGrpID then -1
    else 1
  }

  /** Points with different keys are ordered one way round; equal keys give -1 both ways. */
  lemma CompareAttrbtAntisymmetric(x: Attrbt, y: Attrbt)
    ensures (x.first, x.second, x.readGrpID) != (y.first, y.second, y.readGrpID)
            <==> CompareAttrbt(x, y) == -CompareAttrbt(y, x)
  {
  }

  /** The comparator is total, which is all the sort needs. */
  lemma CompareAttrbtConnex()
    ensures Connex(CompareAttrbt)
  {
    forall x: Attrbt, y: Attrbt ensures CompareAttrbt(x, y) <= 0 || CompareAttrbt(y, x) <= 0 {
      if !KeyAtMost(x, y) {
        assert KeyAtMost(y, x);
      }
    }
  }

  /** Sorted by `CompareAttrbt`, the first attributes never decrease. */
  lemma {:induction false} SortedFirstUpTo(s: seq<Attrbt>, p: nat, q: nat)
    requires SortedBy(s, CompareAttrbt) && p <= q < |s|
    ensures s[p].first <= s[q].first
    decreases q - p
  {
    if p < q {
      SortedFirstUpTo(s, p + 1, q);
      assert CompareAttrbt(s[p], s[p + 1]) <= 0;
    }
  }

  lemma SortedIsSortedByFirst(s: seq<Attrbt>)
    requires SortedBy(s, CompareAttrbt)
    ensures SortedByFirst(s, |s|)
  {
    forall p, q | 0 <= p <= q < |s| ensures s[p].first <= s[q].first {
      SortedFirstUpTo(s, p, q);
    }
  }

  /** `qsort` with `CompareAttrbt`: sorted, and a permutation of its input. */
  lemma SortAttrbtFacts(s: seq<Attrbt>)
    ensures SortedBy(SortBy(s, CompareAttrbt), CompareAttrbt)
    ensures multiset(SortBy(s, CompareAttrbt)) == multiset(s)
    ensures SortedByFirst(SortBy(s, CompareAttrbt), |s|)
  {
    CompareAttrbtConnex();
    SortBySorted(s, CompareAttrbt);
    SortedIsSortedByFirst(SortBy(s, CompareAttrbt));
  }

  // ---------------------------------------------------------------------
  // The points of each pair type

  /** Local and inverted pairs: the fragment's middle, and its length less the median. */
  function LocalPoint(p: LocalPair, lib: seq<LibInfo>, i: nat): Attrbt
    requires p.readGrpID < |lib|
  {
    Attrbt(p.upPos as real + p.fragLen as real / 2.0,
           (p.fragLen - lib[p.readGrpID].median) as real, i, p.readGrpID)
  }

  /** Cross pairs: each mate's chromosome and position packed into one coordinate. */
  function CrossPoint(p: CrossPair, i: nat): Attrbt
  {
    Attrbt(p.upRefID as real * COORD_PACK + p.upPos as real,
           p.downRefID as real * COORD_PACK + p.downPos as real, i, p.readGrpID)
  }

  /**
   * Special pairs: the anchor's start (read as unsigned 32 bits) plus half
   * the median for a 3' pair, its end minus half the median for a 5' pair.
   */
  function SpecialPoint(p: SpecialPair, lib: seq<LibInfo>, i: nat): Attrbt
    requires p.readGrpID < |lib| && (p.readPairType == Special3 || p.readPairType == Special5)
  {
    var halfMedian := lib[p.readGrpID].median as real / 2.0;
    var first :=
      if SpecialSlot(p.readPairType) == 0 then AsUnsigned(p.pos.first) as real + halfMedian
      else AsUnsigned(p.end.first) as real - halfMedian;
    Attrbt(first, 0.0, i, p.readGrpID)
  }

  predicate LocalGroupsKnown(pairs: seq<LocalPair>, lib: seq<LibInfo>)
  {
    forall i | 0 <= i < |pairs| :: pairs[i].readGrpID < |lib|
  }

  predicate InvertedPairs(pairs: seq<LocalPair>, lib: seq<LibInfo>)
  {
    forall i | 0 <= i < |pairs| ::
      pairs[i].readGrpID < |lib| && (pairs[i].readPairType == Inverted3 || pairs[i].readPairType == Inverted5)
  }

  /** Each special pair's group is known and its array `2 specialID + slot` exists. */
  predicate SpecialPairs(pairs: seq<SpecialPair>, lib: seq<LibInfo>, numArray: nat)
  {
    forall i | 0 <= i < |pairs| ::
      pairs[i].readGrpID < |lib| && (pairs[i].readPairType == Special3 || pairs[i].readPairType == Special5)
      && 2 * pairs[i].specialID + SpecialSlot(pairs[i].readPairType) < numArray
  }

  function LocalPoints(pairs: seq<LocalPair>, lib: seq<LibInfo>): (pts: seq<Attrbt>)
    requires LocalGroupsKnown(pairs, lib)
    ensures |pts| == |pairs|
  {
    seq(|pairs|, i requires 0 <= i < |pairs| && LocalGroupsKnown(pairs, lib) => LocalPoint(pairs[i], lib, i))
  }

  function CrossPoints(pairs: seq<CrossPair>): (pts: seq<Attrbt>)
    ensures |pts| == |pairs|
  {
    seq(|pairs|, i requires 0 <= i < |pairs| => CrossPoint(pairs[i], i))
  }

  function SpecialPoints(pairs: seq<SpecialPair>, lib: seq<LibInfo>, numArray: nat): (pts: seq<Attrbt>)
    requires SpecialPairs(pairs, lib, numArray)
    ensures |pts| == |pairs|
  {
    seq(|pairs|, i requires 0 <= i < |pairs| && SpecialPairs(pairs, lib, numArray) => SpecialPoint(pairs[i], lib, i))
  }

  /** The array each inverted pair goes to: `readPairType - PT_INVERTED3`. */
  function InvertedDest(pairs: seq<LocalPair>, lib: seq<LibInfo>): (d: seq<nat>)
    requires InvertedPairs(pairs, lib)
    ensures |d| == |pairs| && forall i | 0 <= i < |d| :: d[i] < 2
  {
    seq(|pairs|, i requires 0 <= i < |pairs| && InvertedPairs(pairs, lib) => InvertedSlot(pairs[i].readPairType))
  }

  /** The array each special pair goes to: `2 specialID + readPairType - PT_SPECIAL3`. */
  function SpecialDest(pairs: seq<SpecialPair>, lib: seq<LibInfo>, numArray: nat): (d: seq<nat>)
    requires SpecialPairs(pairs, lib, numArray)
    ensures |d| == |pairs| && forall i | 0 <= i < |d| :: d[i] < numArray
  {
    seq(|pairs|, i requires 0 <= i < |pairs| && SpecialPairs(pairs, lib, numArray) =>
      2 * pairs[i].specialID + SpecialSlot(pairs[i].readPairType))
  }

  // ---------------------------------------------------------------------
  // Routing points to arrays

  /** Point i carries origIndex i. */
  predicate Numbered(pts: seq<Attrbt>)
  {
    forall i | 0 <= i < |pts| :: pts[i].origIndex == i
  }

  /** The first n points whose destination is j, in order. */
  function Routed(pts: seq<Attrbt>, dest: seq<nat>, j: nat, n: nat): (r: seq<Attrbt>)
    requires n <= |pts| == |dest|
    ensures |r| <= n
  {
    if n == 0 then []
    else Routed(pts, dest, j, n - 1) + (if dest[n - 1] == j then [pts[n - 1]] else [])
  }

  /**
   * Point i appears once in the array it is routed to and in no other one:
   * the origIndex values spread over the arrays form a permutation.
   */
  lemma {:induction false} RoutedCount(pts: seq<Attrbt>, dest: seq<nat>, j: nat, n: nat, i: nat)
    requires Numbered(pts) && n <= |pts| == |dest| && i < |pts|
    ensures multiset(Routed(pts, dest, j, n))[pts[i]] == if i < n && dest[i] == j then 1 else 0
  {
    if n > 0 {
      RoutedCount(pts, dest, j, n - 1, i);
      RoutedLast(pts, dest, j, n);
      if dest[n - 1] == j && n - 1 != i {
        assert pts[n - 1].origIndex != pts[i].origIndex;
        assert multiset{pts[n - 1]}[pts[i]] == 0;
      }
    }
  }

  /** Routing point n-1 adds it to array j exactly when its destination is j. */
  lemma RoutedLast(pts: seq<Attrbt>, dest: seq<nat>, j: nat, n: nat)
    requires 0 < n <= |pts| == |dest|
    ensures multiset(Routed(pts, dest, j, n))
            == multiset(Routed(pts, dest, j, n - 1)) + if dest[n - 1] == j then multiset{pts[n - 1]} else multiset{}
  {
  }

  /** Every routed point is one of the first n points, and routed to j. */
  lemma {:induction false} RoutedOnly(pts: seq<Attrbt>, dest: seq<nat>, j: nat, n: nat, x: Attrbt)
    requires Numbered(pts) && n <= |pts| == |dest| && x in multiset(Routed(pts, dest, j, n))
    ensures x.origIndex < n && dest[x.origIndex] == j && x == pts[x.origIndex]
  {
    if n > 0 {
      var r := Routed(pts, dest, j, n - 1);
      if x in multiset(r) {
        RoutedOnly(pts, dest, j, n - 1, x);
      } else {
        assert x == pts[n - 1];
      }
    } else {
      assert false;
    }
  }

  /** When every point goes to j, array j holds all of them in order. */
  lemma {:induction false} RoutedAll(pts: seq<Attrbt>, dest: seq<nat>, j: nat, n: nat)
    requires n <= |pts| == |dest| && forall i | 0 <= i < n :: dest[i] == j
    ensures Routed(pts, dest, j, n) == pts[..n]
  {
    if n > 0 {
      RoutedAll(pts, dest, j, n - 1);
      assert pts[..n] == pts[..n - 1] + [pts[n - 1]];
    }
  }

  /**
   * What a filled and sorted array holds: sorted by `CompareAttrbt` and by
   * first attribute, and, as a multiset, exactly the points routed to it.
   */
  ghost predicate HoldsRouted(data: seq<Attrbt>, pts: seq<Attrbt>, dest: seq<nat>, j: nat)
    requires |pts| == |dest|
  {
    SortedBy(data, CompareAttrbt) && SortedByFirst(data, |data|)
    && (forall i | 0 <= i < |pts| :: multiset(data)[pts[i]] == if dest[i] == j then 1 else 0)
    && (forall x | x in data :: x.origIndex < |pts| && dest[x.origIndex] == j && x == pts[x.origIndex])
  }

  lemma SortedRouted(pts: seq<Attrbt>, dest: seq<nat>, j: nat)
    requires Numbered(pts) && |pts| == |dest|
    ensures HoldsRouted(SortBy(Routed(pts, dest, j, |pts|), CompareAttrbt), pts, dest, j)
  {
    var r := Routed(pts, dest, j, |pts|);
    var data := SortBy(r, CompareAttrbt);
    SortAttrbtFacts(r);
    forall i | 0 <= i < |pts| ensures multiset(data)[pts[i]] == if dest[i] == j then 1 else 0 {
      RoutedCount(pts, dest, j, |pts|, i);
    }
    forall x | x in data ensures x.origIndex < |pts| && dest[x.origIndex] == j && x == pts[x.origIndex] {
      assert x in multiset(data);
      RoutedOnly(pts, dest, j, |pts|, x);
    }
  }

  // ---------------------------------------------------------------------
  // Bound tables

  /** `MakeLocal`: (median * 1.25, (high - low) * 0.5). */
  function LocalBound(l: LibInfo): Two<real>
  {
    Two(l.median as real * 1.25, (l.high - l.low) as real * 0.5)
  }

  /** `MakeCross`: (high - low) * 1.25 for both attributes. */
  function CrossBound(l: LibInfo): Two<real>
  {
    Two((l.high - l.low) as real * 1.25, (l.high - l.low) as real * 1.25)
  }

  /** `MakeInverted`: (median * 1.25 * 2, (high - low) * 0.5). */
  function InvertedBound(l: LibInfo): Two<real>
  {
    Two(l.median as real * 1.25 * 2.0, (l.high - l.low) as real * 0.5)
  }

  /** `MakeSpecial`: ((high - low) * 1.25, 1e-3). */
  function SpecialBound(l: LibInfo): Two<real>
  {
    Two((l.high - l.low) as real * 1.25, 0.001)
  }

  function Table(lib: seq<LibInfo>, n: nat, bound: LibInfo -> Two<real>): (t: seq<Two<real>>)
    requires n <= |lib|
    ensures |t| == n
  {
    seq(n, g requires 0 <= g < n <= |lib| => bound(lib[g]))
  }

  /** The loop that fills rows 0 .. n-1 of a bound table. */
  method FillBounds(lib: seq<LibInfo>, n: nat, bound: LibInfo -> Two<real>) returns (t: seq<Two<real>>)
    requires n <= |lib|
    ensures |t| == n && forall g | 0 <= g < n :: t[g] == bound(lib[g])
  {
    t := [];
    var g := 0;
    while g != n
      invariant g <= n && |t| == g
      invariant forall h | 0 <= h < g :: t[h] == bound(lib[h])
    {
      t := t + [bound(lib[g])];
      g := g + 1;
    }
  }

  /** A library whose medians are non-negative and whose bounds are ordered. */
  predicate SaneLib(lib: seq<LibInfo>)
  {
    forall g | 0 <= g < |lib| :: lib[g].median >= 0 && lib[g].low <= lib[g].high
  }

  /**
   * The builder's output is what the cluster engine's `Make` requires: every
   * point has a row in the table, first bounds are non-negative, and the
   * points are sorted by first attribute.
   */
  lemma ReadyToCluster(data: seq<Attrbt>, pts: seq<Attrbt>, dest: seq<nat>, j: nat,
                       lib: seq<LibInfo>, bound: LibInfo -> Two<real>)
    requires |pts| == |dest| && HoldsRouted(data, pts, dest, j)
    requires forall i | 0 <= i < |pts| :: pts[i].readGrpID < |lib|
    requires forall g | 0 <= g < |lib| :: bound(lib[g]).first >= 0.0
    ensures Bounded(data, Table(lib, |lib|, bound), |data|) && SortedByFirst(data, |data|)
  {
    forall i | 0 <= i < |data|
      ensures data[i].readGrpID < |lib| && Table(lib, |lib|, bound)[data[i].readGrpID].first >= 0.0
    {
      assert data[i] in data;
    }
  }

  lemma SaneBoundsNonNegative(lib: seq<LibInfo>)
    requires SaneLib(lib)
    ensures forall g | 0 <= g < |lib| ::
      LocalBound(lib[g]).first >= 0.0 && CrossBound(lib[g]).first >= 0.0
      && InvertedBound(lib[g]).first >= 0.0 && SpecialBound(lib[g]).first >= 0.0
  {
  }

  // ---------------------------------------------------------------------
  // The point-filling loops

  /** The loop of `MakeLocal`: slot i gets the point of pair i. */
  method MakeLocalPoints(pairs: seq<LocalPair>, lib: seq<LibInfo>) returns (pts: seq<Attrbt>)
    requires LocalGroupsKnown(pairs, lib)
    ensures pts == LocalPoints(pairs, lib)
  {
    pts := [];
    var i := 0;
    while i != |pairs|
      invariant i <= |pairs| && |pts| == i
      invariant forall k | 0 <= k < i :: pts[k] == LocalPoint(pairs[k], lib, k)
    {
      pts := pts + [LocalPoint(pairs[i], lib, i)];
      i := i + 1;
    }
  }

  /** The loop of `MakeCross`. */
  method MakeCrossPoints(pairs: seq<CrossPair>) returns (pts: seq<Attrbt>)
    ensures pts == CrossPoints(pairs)
  {
    pts := [];
    var i := 0;
    while i != |pairs|
      invariant i <= |pairs| && |pts| == i
      invariant forall k | 0 <= k < i :: pts[k] == CrossPoint(pairs[k], k)
    {
      pts := pts + [CrossPoint(pairs[i], i)];
      i := i + 1;
    }
  }

  /**
   * The fill loop of `MakeSpecial`, one bucket per array: bucket j ends up
   * with the special points routed to j, in pair order.
   */
  method MakeSpecialBuckets(pairs: seq<SpecialPair>, lib: seq<LibInfo>, numArray: nat)
    returns (buckets: seq<seq<Attrbt>>)
    requires SpecialPairs(pairs, lib, numArray)
    ensures |buckets| == numArray
    ensures forall j | 0 <= j < numArray ::
      buckets[j] == Routed(SpecialPoints(pairs, lib, numArray), SpecialDest(pairs, lib, numArray), j, |pairs|)
  {
    var pts := SpecialPoints(pairs, lib, numArray);
    var dest := SpecialDest(pairs, lib, numArray);
    buckets := seq(numArray, _ => []);
    var i := 0;
    while i != |pairs|
      invariant i <= |pairs| && |buckets| == numArray
      invariant forall j | 0 <= j < numArray :: buckets[j] == Routed(pts, dest, j, i)
    {
      var d := dest[i];
      buckets := buckets[d := buckets[d] + [SpecialPoint(pairs[i], lib, i)]];
      i := i + 1;
    }
  }

  // ---------------------------------------------------------------------
  // As written, `MakeInverted` bumps the size twice per pair.

  /**
   * The slots of inverted array j as the source fills them: each pair
   * routed to j writes its point at `size` and then advances `size` by
   * two, so every second slot is never written (`None`).
   */
  function InvertedSlotsAsWritten(pts: seq<Attrbt>, dest: seq<nat>, j: nat, n: nat): (s: seq<Option<Attrbt>>)
    requires n <= |pts| == |dest|
    ensures |s| == 2 * |Routed(pts, dest, j, n)|
  {
    if n == 0 then []
    else InvertedSlotsAsWritten(pts, dest, j, n - 1) + (if dest[n - 1] == j then [Some(pts[n - 1]), None] else [])
  }

  /** One inverted pair gives an array of size 2 whose second slot holds no point. */
  lemma InvertedAsWrittenCountsTwice(p: LocalPair, lib: seq<LibInfo>)
    requires InvertedPairs([p], lib)
    ensures var pts := LocalPoints([p], lib);
            var dest := InvertedDest([p], lib);
            |Routed(pts, dest, dest[0], 1)| == 1
            && InvertedSlotsAsWritten(pts, dest, dest[0], 1) == [Some(pts[0]), None]
  {
  }

  // ---------------------------------------------------------------------
  // The attribute array

  /**
   * `TGM_ReadPairAttrbtArray`: the points (`size` is their number), the
   * bound table indexed by read group, the capacity, the number of read
   * groups and the pair type.
   */
  class AttrbtArray {
    var data: seq<Attrbt>
    var bounds: seq<Two<real>>
    var capacity: nat
    var numReadGrp: nat
    var readPairType: ReadPairType

    ghost predicate Valid()
      reads this
    {
      0 < capacity && |data| <= capacity
    }

    /**
     * `TGM_ReadPairAttrbtArrayAlloc`: empty, with the default capacity and a
     * bound table of one row per read group (its contents are not yet set).
     */
    constructor(numReadGrp: nat)
      ensures Valid() && data == [] && capacity == DEFAULT_RP_ATTRB_CAPACITY
      ensures this.numReadGrp == numReadGrp && |bounds| == numReadGrp
    {
      data := [];
      bounds := seq(numReadGrp, _ => Two(0.0, 0.0));
      capacity := DEFAULT_RP_ATTRB_CAPACITY;
      this.numReadGrp := numReadGrp;
      readPairType := Unknown;
    }

    /** `TGM_ReadPairAttrbtArrayReInit`: empty the array; the capacity only grows. */
    method ReInit(newCapacity: nat)
      requires Valid()
      modifies this`data, this`capacity
      ensures Valid() && data == []
      ensures capacity == MaxInt(old(capacity), newCapacity)
    {
      data := [];
      if newCapacity > capacity {
        capacity := newCapacity;
      }
    }

    /**
     * `TGM_ReadPairMakeLocal`: one point per pair, sorted, with the local
     * bound table (the second sort finds the array already sorted).
     */
    method MakeLocal(pairs: seq<LocalPair>, lib: seq<LibInfo>, t: ReadPairType)
      requires Valid() && LocalGroupsKnown(pairs, lib)
      modifies this
      ensures Valid()
      ensures data == SortBy(LocalPoints(pairs, lib), CompareAttrbt)
      ensures capacity == MaxInt(old(capacity), |pairs|)
      ensures readPairType == t && numReadGrp == |lib| && bounds == Table(lib, |lib|, LocalBound)
    {
      ReInit(|pairs|);
      readPairType := t;
      numReadGrp := |lib|;
      var pts := MakeLocalPoints(pairs, lib);
      var sorted := SortTwice(pts);
      data := sorted;
      bounds := FillBounds(lib, |lib|, LocalBound);
    }

    /** `TGM_ReadPairMakeCross`: one packed point per pair, sorted, with the cross bound table. */
    method MakeCross(lib: seq<LibInfo>, pairs: seq<CrossPair>)
      requires Valid()
      modifies this
      ensures Valid()
      ensures data == SortBy(CrossPoints(pairs), CompareAttrbt)
      ensures capacity == MaxInt(old(capacity), |pairs|)
      ensures readPairType == Cross && numReadGrp == |lib| && bounds == Table(lib, |lib|, CrossBound)
    {
      ReInit(|pairs|);
      readPairType := Cross;
      numReadGrp := |lib|;
      var pts := MakeCrossPoints(pairs);
      data := SortBy(pts, CompareAttrbt);
      bounds := FillBounds(lib, |lib|, CrossBound);
    }
  }

  /**
   * `MakeLocal` sorts its points, fills the bound table, and sorts them
   * again; the second sort finds them sorted and changes nothing.
   */
  method SortTwice(pts: seq<Attrbt>) returns (sorted: seq<Attrbt>)
    ensures sorted == SortBy(pts, CompareAttrbt)
  {
    sorted := SortBy(pts, CompareAttrbt);
    SortAttrbtFacts(pts);
    SortBySortedUnchanged(sorted, CompareAttrbt);
    sorted := SortBy(sorted, CompareAttrbt);
  }

  /** The arrays `MakeLocal` and `MakeCross` fill hold every pair's point exactly once. */
  lemma LocalArrayFacts(pairs: seq<LocalPair>, lib: seq<LibInfo>)
    requires LocalGroupsKnown(pairs, lib)
    ensures var pts := LocalPoints(pairs, lib);
            HoldsRouted(SortBy(pts, CompareAttrbt), pts, seq(|pts|, _ => 0), 0)
  {
    var pts := LocalPoints(pairs, lib);
    var dest: seq<nat> := seq(|pts|, _ => 0);
    RoutedAll(pts, dest, 0, |pts|);
    assert pts[..|pts|] == pts;
    SortedRouted(pts, dest, 0);
  }

  lemma CrossArrayFacts(pairs: seq<CrossPair>)
    ensures var pts := CrossPoints(pairs);
            HoldsRouted(SortBy(pts, CompareAttrbt), pts, seq(|pts|, _ => 0), 0)
  {
    var pts := CrossPoints(pairs);
    var dest: seq<nat> := seq(|pts|, _ => 0);
    RoutedAll(pts, dest, 0, |pts|);
    assert pts[..|pts|] == pts;
    SortedRouted(pts, dest, 0);
  }

  /** The loop invariant of the fill loop: after i points, array j's contents and capacity. */
  ghost predicate FilledUpTo(pts: seq<Attrbt>, dest: seq<nat>, c: seq<nat>, d: seq<seq<Attrbt>>, cap: seq<nat>, i: nat)
    requires i <= |pts| == |dest|
  {
    |d| == |cap| == |c|
    && forall j | 0 <= j < |c| :: c[j] > 0 && d[j] == Routed(pts, dest, j, i) && cap[j] == Grown(c[j], |d[j]|)
  }

  /** What the fill loop leaves: array j holds the points routed to it, with the grown capacity. */
  ghost predicate FilledAs(pts: seq<Attrbt>, dest: seq<nat>, c: seq<nat>, d: seq<seq<Attrbt>>, cap: seq<nat>)
    requires |pts| == |dest|
  {
    |d| == |cap| == |c|
    && forall k {:trigger Opened(k)} | Opened(k) ::
         forall j | 0 <= j < |c| :: c[j] > 0 && d[j] == Routed(pts, dest, j, |pts|) && cap[j] == Grown(c[j], |d[j]|)
  }

  lemma FilledAt(pts: seq<Attrbt>, dest: seq<nat>, c: seq<nat>, d: seq<seq<Attrbt>>, cap: seq<nat>, j: nat)
    requires |pts| == |dest| && FilledAs(pts, dest, c, d, cap) && j < |c|
    ensures |d| == |cap| == |c| && d[j] == Routed(pts, dest, j, |pts|) && c[j] > 0 && cap[j] == Grown(c[j], |d[j]|)
  {
    assert Opened(0);
  }

  /**
   * The fill loop of `MakeInverted` and `MakeSpecial`: point i is appended
   * to array `dest[i]`, whose capacity doubles when it is full.  Array j
   * starts empty with capacity `c[j]`.
   */
  method Fill(pts: seq<Attrbt>, dest: seq<nat>, c: seq<nat>) returns (d: seq<seq<Attrbt>>, cap: seq<nat>)
    requires |pts| == |dest| && forall i | 0 <= i < |dest| :: dest[i] < |c|
    requires forall j | 0 <= j < |c| :: c[j] > 0
    ensures FilledAs(pts, dest, c, d, cap)
  {
    d, cap := seq(|c|, _ => []), c;
    var i := 0;
    while i != |pts|
      invariant i <= |pts| && FilledUpTo(pts, dest, c, d, cap, i)
    {
      var k := dest[i];
      GrownStep(c[k], |d[k]|);
      if |d[k]| == cap[k] {
        cap := cap[k := 2 * cap[k]];
      }
      d := d[k := d[k] + [pts[i]]];
      i := i + 1;
    }
    assert Opened(0);
  }

  /**
   * The two arrays `MakeInverted` builds, from capacities c0 and c1 after
   * re-initialisation: each holds the sorted points of its type, and its
   * capacity has doubled as often as the fill loop needed.
   */
  ghost predicate InvertedOut(lib: seq<LibInfo>, pairs: seq<LocalPair>, c0: nat, c1: nat,
                              s0: seq<Attrbt>, s1: seq<Attrbt>, cap0: nat, cap1: nat)
    requires InvertedPairs(pairs, lib)
  {
    forall k {:trigger Opened(k)} | Opened(k) ::
      s0 == SortBy(Routed(LocalPoints(pairs, lib), InvertedDest(pairs, lib), 0, |pairs|), CompareAttrbt)
      && s1 == SortBy(Routed(LocalPoints(pairs, lib), InvertedDest(pairs, lib), 1, |pairs|), CompareAttrbt)
      && c0 > 0 && c1 > 0 && cap0 == Grown(c0, |s0|) && cap1 == Grown(c1, |s1|)
  }

  lemma InvertedOutFacts(lib: seq<LibInfo>, pairs: seq<LocalPair>, c0: nat, c1: nat,
                         s0: seq<Attrbt>, s1: seq<Attrbt>, cap0: nat, cap1: nat)
    requires InvertedPairs(pairs, lib) && InvertedOut(lib, pairs, c0, c1, s0, s1, cap0, cap1)
    ensures s0 == SortBy(Routed(LocalPoints(pairs, lib), InvertedDest(pairs, lib), 0, |pairs|), CompareAttrbt)
    ensures s1 == SortBy(Routed(LocalPoints(pairs, lib), InvertedDest(pairs, lib), 1, |pairs|), CompareAttrbt)
    ensures c0 > 0 && c1 > 0 && cap0 == Grown(c0, |s0|) && cap1 == Grown(c1, |s1|)
  {
    assert Opened(0);
  }

  /** The fill and sort passes of `MakeInverted`, on the arrays' contents. */
  method InvertedArrays(lib: seq<LibInfo>, pairs: seq<LocalPair>, c0: nat, c1: nat)
    returns (s0: seq<Attrbt>, s1: seq<Attrbt>, cap0: nat, cap1: nat)
    requires c0 > 0 && c1 > 0 && InvertedPairs(pairs, lib)
    ensures InvertedOut(lib, pairs, c0, c1, s0, s1, cap0, cap1)
    ensures 0 < cap0 && |s0| <= cap0 && 0 < cap1 && |s1| <= cap1
  {
    var pts := LocalPoints(pairs, lib);
    var dest := InvertedDest(pairs, lib);
    var d, cap := Fill(pts, dest, [c0, c1]);
    FilledAt(pts, dest, [c0, c1], d, cap, 0);
    FilledAt(pts, dest, [c0, c1], d, cap, 1);
    s0, s1 := SortBy(d[0], CompareAttrbt), SortBy(d[1], CompareAttrbt);
    cap0, cap1 := cap[0], cap[1];
    assert Opened(0);
  }

  /**
   * `TGM_ReadPairMakeInverted`, with `size` advanced once per pair: pair i
   * goes to array `readPairType - PT_INVERTED3`, growing it by doubling;
   * both arrays are sorted and share the inverted bound table.
   */
  method MakeInverted(a0: AttrbtArray, a1: AttrbtArray, lib: seq<LibInfo>, pairs: seq<LocalPair>)
    requires a0 != a1 && a0.Valid() && a1.Valid() && InvertedPairs(pairs, lib)
    modifies a0, a1
    ensures a0.Valid() && a1.Valid()
    ensures InvertedOut(lib, pairs, MaxInt(old(a0.capacity), |pairs| / 2), MaxInt(old(a1.capacity), |pairs| / 2),
                        a0.data, a1.data, a0.capacity, a1.capacity)
    ensures a0.readPairType == Inverted3 && a1.readPairType == Inverted5
    ensures a0.numReadGrp == |lib| && a1.numReadGrp == |lib|
    ensures a0.bounds == Table(lib, |lib|, InvertedBound) && a1.bounds == a0.bounds
  {
    var s0, s1, cap0, cap1 := InvertedArrays(lib, pairs, MaxInt(a0.capacity, |pairs| / 2), MaxInt(a1.capacity, |pairs| / 2));
    var t := FillBounds(lib, |lib|, InvertedBound);
    a0.data, a0.capacity, a0.readPairType, a0.numReadGrp, a0.bounds := s0, cap0, Inverted3, |lib|, t;
    a1.data, a1.capacity, a1.readPairType, a1.numReadGrp, a1.bounds := s1, cap1, Inverted5, |lib|, t;
  }

  /** Each inverted array holds exactly the pairs of its type, each once, sorted. */
  lemma InvertedArrayFacts(pairs: seq<LocalPair>, lib: seq<LibInfo>, j: nat)
    requires InvertedPairs(pairs, lib)
    ensures var pts := LocalPoints(pairs, lib);
            var dest := InvertedDest(pairs, lib);
            HoldsRouted(SortBy(Routed(pts, dest, j, |pairs|), CompareAttrbt), pts, dest, j)
  {
    SortedRouted(LocalPoints(pairs, lib), InvertedDest(pairs, lib), j);
  }

  /** The arrays of `MakeSpecial` are pairwise distinct objects. */
  predicate Distinct(arrays: seq<AttrbtArray>)
  {
    forall p, q | 0 <= p < q < |arrays| :: arrays[p] != arrays[q]
  }

  /** The sorted contents of special array j. */
  function SpecialData(pairs: seq<SpecialPair>, lib: seq<LibInfo>, numArray: nat, j: nat): seq<Attrbt>
    requires SpecialPairs(pairs, lib, numArray)
  {
    SortBy(Routed(SpecialPoints(pairs, lib, numArray), SpecialDest(pairs, lib, numArray), j, |pairs|), CompareAttrbt)
  }

  /** The fill and sort passes of `MakeSpecial`, on the arrays' contents. */
  method SpecialArrays(pairs: seq<SpecialPair>, lib: seq<LibInfo>, numArray: nat) returns (ss: seq<seq<Attrbt>>)
    requires SpecialPairs(pairs, lib, numArray)
    ensures |ss| == numArray && forall j | 0 <= j < numArray :: ss[j] == SpecialData(pairs, lib, numArray, j)
  {
    var buckets := MakeSpecialBuckets(pairs, lib, numArray);
    ss := [];
    var k := 0;
    while k != numArray
      invariant k <= numArray && |ss| == k
      invariant forall j | 0 <= j < k :: ss[j] == SortBy(buckets[j], CompareAttrbt)
    {
      ss := ss + [SortBy(buckets[k], CompareAttrbt)];
      k := k + 1;
    }
    forall j | 0 <= j < numArray ensures ss[j] == SpecialData(pairs, lib, numArray, j) {
      assert buckets[j] == Routed(SpecialPoints(pairs, lib, numArray), SpecialDest(pairs, lib, numArray), j, |pairs|);
    }
  }

  /**
   * `TGM_ReadPairMakeSpecial`: array `2 specialID + slot` gets the points of
   * its special pairs, sorted; even arrays are 3' arrays and odd ones 5'
   * arrays; every array gets array 0's bound table, whose rows cover array
   * 0's read groups.  Each array's capacity is its re-initialised capacity
   * doubled as often as its fill needed.
   */
  method MakeSpecial(arrays: seq<AttrbtArray>, pairs: seq<SpecialPair>, lib: seq<LibInfo>)
    requires |arrays| >= 2 && |arrays| % 2 == 0 && Distinct(arrays)
    requires forall j | 0 <= j < |arrays| :: arrays[j].Valid()
    requires arrays[0].numReadGrp <= |lib| && SpecialPairs(pairs, lib, |arrays|)
    modifies set j | 0 <= j < |arrays| :: arrays[j]
    ensures forall j | 0 <= j < |arrays| :: arrays[j].Valid()
    ensures forall j | 0 <= j < |arrays| ::
      arrays[j].data == SpecialData(pairs, lib, |arrays|, j)
      && arrays[j].capacity == Grown(MaxInt(old(arrays[j].capacity), DEFAULT_RP_ATTRB_CAPACITY), |arrays[j].data|)
      && arrays[j].readPairType == (if j % 2 == 0 then Special3 else Special5)
      && arrays[j].bounds == Table(lib, old(arrays[0].numReadGrp), SpecialBound)
      && arrays[j].numReadGrp == old(arrays[j].numReadGrp)
  {
    var m := |arrays|;
    var ss := SpecialArrays(pairs, lib, m);
    var t := FillBounds(lib, arrays[0].numReadGrp, SpecialBound);
    ghost var oc: seq<nat> := seq(m, j requires 0 <= j < m reads set i | 0 <= i < m :: arrays[i] => arrays[j].capacity);
    var k := 0;
    while k != m
      invariant k <= m && SpecialStored(arrays, ss, t, oc, k)
      invariant forall j | 0 <= j < m :: arrays[j].numReadGrp == old(arrays[j].numReadGrp)
    {
      SpecialStore(arrays, ss, t, oc, k);
      k := k + 1;
    }
  }

  /** After storing arrays 0 .. k-1: their contents, capacities, types and tables. */
  ghost predicate SpecialStored(arrays: seq<AttrbtArray>, ss: seq<seq<Attrbt>>, t: seq<Two<real>>, oc: seq<nat>, k: nat)
    reads set j | 0 <= j < |arrays| :: arrays[j]
  {
    |ss| == |oc| == |arrays|
    && forall j | 0 <= j < |arrays| ::
         arrays[j].Valid()
         && (j < k ==> arrays[j].data == ss[j]
                       && arrays[j].capacity == Grown(MaxInt(oc[j], DEFAULT_RP_ATTRB_CAPACITY), |ss[j]|)
                       && arrays[j].readPairType == (if j % 2 == 0 then Special3 else Special5)
                       && arrays[j].bounds == t)
         && (k <= j ==> arrays[j].capacity == oc[j])
  }

  /** One pass of the store loop: array k takes its contents, capacity, type and table. */
  method SpecialStore(arrays: seq<AttrbtArray>, ss: seq<seq<Attrbt>>, t: seq<Two<real>>, ghost oc: seq<nat>, k: nat)
    requires Distinct(arrays) && k < |arrays| && SpecialStored(arrays, ss, t, oc, k)
    modifies arrays[k]
    ensures SpecialStored(arrays, ss, t, oc, k + 1)
    ensures arrays[k].numReadGrp == old(arrays[k].numReadGrp)
  {
    var a := arrays[k];
    var c := MaxInt(a.capacity, DEFAULT_RP_ATTRB_CAPACITY);
    a.data, a.capacity := ss[k], Grown(c, |ss[k]|);
    a.readPairType := if k % 2 == 0 then Special3 else Special5;
    a.bounds := t;
  }

  /** Each special array holds exactly the pairs routed to it, each once, sorted. */
  lemma SpecialArrayFacts(pairs: seq<SpecialPair>, lib: seq<LibInfo>, numArray: nat, j: nat)
    requires SpecialPairs(pairs, lib, numArray)
    ensures var pts := SpecialPoints(pairs, lib, numArray);
            var dest := SpecialDest(pairs, lib, numArray);
            HoldsRouted(SortBy(Routed(pts, dest, j, |pairs|), CompareAttrbt), pts, dest, j)
  {
    SortedRouted(SpecialPoints(pairs, lib, numArray), SpecialDest(pairs, lib, numArray), j);
  }
}
