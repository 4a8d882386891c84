// The cluster engine (TGM_Cluster.c): three arrays over one sorted attribute
// array.  `next` links the points into rings, one ring per cluster; `lab` is
// each point's cluster label; `count` its neighbour density.  `Finalize`
// turns the labelled rings into an array of elements with running
// statistics, which `Clean` and `Merge` then edit in place.
//
// Each operation that walks the arrays is a method over their values; the
// `Cluster` class holds the arrays as fields and each of its methods hands
// the fields to that method and stores what it returns.

module ClusterEngine {
  import opened Numeric
  import opened PairRecords
  import opened Rings
  import opened ClusterWindow
  import opened ClusterStats
  import opened RingWalk

  /** The initial capacity of the element array. */
  const DEFAULT_CLUSTER_SIZE: nat := 20

  /** A ring decomposition of `next` (see module Rings), kept as ghost bookkeeping. */
  datatype Decomp = Decomp(rid: seq<int>, idx: seq<int>, rings: map<int, seq<int>>)

  /**
   * The link arrays of a cluster: one label per point, `next` a union of
   * rings described by d, and every label a point index.
   */
  ghost predicate Linked(next: seq<int>, lab: seq<int>, d: Decomp)
  {
    |lab| == |next| && Decomposes(next, d.rid, d.idx, d.rings) &&
    forall i | 0 <= i < |lab| :: 0 <= lab[i] < |next|
  }

  /**
   * Rings only merged on the way from r to r': every point lies on the new
   * ring of its old ring's id, so points that shared a ring still do.
   */
  ghost predicate Coarser(r: seq<int>, r': seq<int>)
  {
    |r'| == |r| && forall x {:trigger r[x]} | 0 <= x < |r| :: 0 <= r[x] < |r| && r'[x] == r'[r[x]]
  }

  /** The element array `pElmntArray`: its slots and its `size`, `length` and `capacity` counters. */
  datatype ElmntArray = ElmntArray(data: seq<Elmnt>, size: nat, length: nat, capacity: nat)

  /** The used slots fit the array, and every element starts at one of n points. */
  ghost predicate ElmntsFit(e: ElmntArray, n: nat)
  {
    e.size <= |e.data| <= e.capacity && e.capacity > 0 &&
    forall k | 0 <= k < |e.data| :: e.data[k].startIndex < n
  }

  // ---------------------------------------------------------------------
  // Init

  /**
   * The loop of `Init`: every point its own successor and its own label, with
   * count 0; so every point is a ring of its own, with its index as ring id.
   */
  method IdentityArrays(n: nat) returns (next: seq<int>, lab: seq<int>, count: seq<int>, ghost d: Decomp)
    ensures |next| == n && |lab| == n && |count| == n
    ensures forall i | 0 <= i < n :: next[i] == i && lab[i] == i && count[i] == 0
    ensures Linked(next, lab, d) && d.rid == lab
  {
    next, lab, count := [], [], [];
    var i := 0;
    while i < n
      invariant 0 <= i <= n
      invariant |next| == i && |lab| == i && |count| == i
      invariant forall j | 0 <= j < i :: next[j] == j && lab[j] == j && count[j] == 0
    {
      next := next + [i];
      lab := lab + [i];
      count := count + [0];
      i := i + 1;
    }
    assert lab == next;
    var r := SingletonRings(next);
    d := Decomp(r.0, r.1, r.2);
  }

  // ---------------------------------------------------------------------
  // Connect

  /**
   * The link walk of `TGM_ClusterConnect(c, m)`: point c at m, walk m's
   * ring giving each point c's label until the point whose successor is m,
   * and point that one at c's old successor.  When c and m lie on different
   * rings this splices m's ring into c's; when they share a ring `next` is
   * unchanged.  The points from m up to c take c's label.
   */
  method ConnectWalk(next: seq<int>, lab: seq<int>, c: nat, m: nat, ghost d: Decomp)
    returns (next': seq<int>, lab': seq<int>)
    requires Decomposes(next, d.rid, d.idx, d.rings) && c < |next| && m < |next| && |lab| == |next|
    ensures next' == if d.rid[c] == d.rid[m] then next else SplicedNext(next, c, m)
    ensures lab' == Stretched(next, d.rid, d.idx, d.rings, lab, c, m)
  {
    var rid, idx, rings := d.rid, d.idx, d.rings;
    if c == m {
      return next, lab;
    }
    WalkStarts(next, rid, idx, rings, lab, m, lab[c]);
    var centerID := lab[c];
    var centerNext := next[c];
    next' := next[c := m];
    lab' := lab;
    var i := m;
    ghost var t := 0;
    while next'[i] != m
      invariant 0 <= t <= Reach(next, rid, idx, rings, c, m)
      invariant i == WalkAt(next, rid, idx, rings, m, t)
      invariant lab' == Relabelled(next, rid, idx, rings, lab, m, t, centerID)
      invariant next' == next[c := m]
      decreases Reach(next, rid, idx, rings, c, m) - t
    {
      WalkContinues(next, rid, idx, rings, c, m, t);
      RelabelStep(next, rid, idx, rings, lab, m, t, centerID);
      lab' := lab'[i := centerID];
      i := next'[i];
      t := t + 1;
    }
    WalkEnds(next, rid, idx, rings, c, m, t);
    StretchEnds(next, rid, idx, rings, lab, c, m);
    next' := next'[i := centerNext];
    lab' := lab'[i := centerID];
  }

  /**
   * The ring decomposition after `Connect(c, m)`: c's and m's rings joined
   * when they differ, unchanged otherwise.  It describes the new `next`, puts
   * c and m on one ring, and only ever merges rings.
   */
  ghost function ConnectedRings(next: seq<int>, d: Decomp, c: nat, m: nat): (d': Decomp)
    requires Decomposes(next, d.rid, d.idx, d.rings) && c < |next| && m < |next|
    ensures Decomposes(if d.rid[c] == d.rid[m] then next else SplicedNext(next, c, m), d'.rid, d'.idx, d'.rings)
    ensures d'.rid == if d.rid[c] == d.rid[m] then d.rid else MergedRid(d.rid, d.rid[c], d.rid[m])
  {
    var rid, idx, rings := d.rid, d.idx, d.rings;
    var d' := if rid[c] == rid[m] then d else
      Decomp(MergedRid(rid, rid[c], rid[m]),
             MergedIdx(rid, idx, rid[c], rid[m], idx[c], idx[m], |rings[rid[m]]|),
             MergedRings(rings, rid[c], rid[m], idx[c], idx[m]));
    RingsAfterConnect(next, rid, idx, rings, c, m, if rid[c] == rid[m] then next else SplicedNext(next, c, m),
                      d'.rid, d'.idx, d'.rings);
    d'
  }

  /** Links that decompose, with labels taken from c's or the point's own old label, are linked. */
  lemma RelinkedLabels(next: seq<int>, lab: seq<int>, next': seq<int>, lab': seq<int>, d': Decomp, c: nat)
    requires |lab| == |next| && forall i | 0 <= i < |lab| :: 0 <= lab[i] < |next|
    requires c < |lab| && |next'| == |next| && |lab'| == |lab| && Decomposes(next', d'.rid, d'.idx, d'.rings)
    requires forall x | 0 <= x < |lab'| :: lab'[x] == lab[c] || lab'[x] == lab[x]
    ensures Linked(next', lab', d')
  {
  }


  /**
   * `next'`, `lab'` and `d'` are what `TGM_ClusterConnect(c, m)` makes of
   * `next`, `lab` and `d`: m's ring spliced after c (nothing when they share
   * a ring), the labels stretched over the moved points, the rings merged,
   * and labels that were ring ids still ring ids.  The relations are kept
   * behind `Opened`, so that a proof sees them only after `ConnectedFacts`.
   */
  ghost predicate ConnectedAs(next: seq<int>, lab: seq<int>, d: Decomp, c: nat, m: nat,
                              next': seq<int>, lab': seq<int>, d': Decomp)
  {
    forall k {:trigger Opened(k)} | Opened(k) ::
      Decomposes(next, d.rid, d.idx, d.rings) && c < |next| && m < |next| && |lab| == |next| &&
      (next' == if d.rid[c] == d.rid[m] then next else SplicedNext(next, c, m)) &&
      lab' == Stretched(next, d.rid, d.idx, d.rings, lab, c, m) &&
      (d'.rid == if d.rid[c] == d.rid[m] then d.rid else MergedRid(d.rid, d.rid[c], d.rid[m])) &&
      d' == ConnectedRings(next, d, c, m) &&
      (lab == d.rid ==> lab' == d'.rid)
  }

  /** What `ConnectedAs` states, opened. */
  lemma ConnectedFacts(next: seq<int>, lab: seq<int>, d: Decomp, c: nat, m: nat,
                       next': seq<int>, lab': seq<int>, d': Decomp)
    requires ConnectedAs(next, lab, d, c, m, next', lab', d')
    ensures Decomposes(next, d.rid, d.idx, d.rings) && c < |next| && m < |next| && |lab| == |next|
    ensures next' == if d.rid[c] == d.rid[m] then next else SplicedNext(next, c, m)
    ensures lab' == Stretched(next, d.rid, d.idx, d.rings, lab, c, m)
    ensures d'.rid == if d.rid[c] == d.rid[m] then d.rid else MergedRid(d.rid, d.rid[c], d.rid[m])
    ensures d' == ConnectedRings(next, d, c, m)
    ensures lab == d.rid ==> lab' == d'.rid
  {
    assert Opened(0);
  }

  /** The part of `ConnectedAs` that fixes the new links and decomposition, opened. */
  lemma ConnectedLinks(next: seq<int>, lab: seq<int>, d: Decomp, c: nat, m: nat,
                       next': seq<int>, lab': seq<int>, d': Decomp)
    requires ConnectedAs(next, lab, d, c, m, next', lab', d')
    ensures Decomposes(next, d.rid, d.idx, d.rings) && c < |next| && m < |next|
    ensures next' == if d.rid[c] == d.rid[m] then next else SplicedNext(next, c, m)
    ensures d' == ConnectedRings(next, d, c, m)
  {
    assert Opened(0);
  }

  /** The part of `ConnectedAs` about ring ids, opened. */
  lemma ConnectedRids(next: seq<int>, lab: seq<int>, d: Decomp, c: nat, m: nat,
                      next': seq<int>, lab': seq<int>, d': Decomp)
    requires ConnectedAs(next, lab, d, c, m, next', lab', d')
    ensures Decomposes(next, d.rid, d.idx, d.rings) && c < |next| && m < |next|
    ensures d'.rid == if d.rid[c] == d.rid[m] then d.rid else MergedRid(d.rid, d.rid[c], d.rid[m])
    ensures lab == d.rid ==> lab' == d'.rid
  {
    assert Opened(0);
  }

  /**
   * `TGM_ClusterConnect(c, m)` on the link arrays and their decomposition:
   * the links stay a union of rings with point labels, related to the old
   * ones by `ConnectedAs`.
   */
  method ConnectPoints(next: seq<int>, lab: seq<int>, c: nat, m: nat, ghost d: Decomp)
    returns (next': seq<int>, lab': seq<int>, ghost d': Decomp)
    requires Linked(next, lab, d) && c < |next| && m < |next|
    ensures Linked(next', lab', d') && |next'| == |next|
    ensures ConnectedAs(next, lab, d, c, m, next', lab', d')
  {
    next', lab' := ConnectWalk(next, lab, c, m, d);
    d' := ConnectedRings(next, d, c, m);
    StretchedRingIds(next, d.rid, d.idx, d.rings, c, m);
    RelinkedLabels(next, lab, next', lab', d', c);
  }

  /**
   * After `Connect(c, m)`, c and m share a ring, every point stays on the
   * ring of its old ring's id, so rings only merge, and labels that were ring
   * ids still are.
   */
  lemma RingsOnlyMerge(next: seq<int>, lab: seq<int>, d: Decomp, c: nat, m: nat,
                       next': seq<int>, lab': seq<int>, d': Decomp)
    requires ConnectedAs(next, lab, d, c, m, next', lab', d')
    ensures c < |d'.rid| && m < |d'.rid| && d'.rid[c] == d'.rid[m] && Coarser(d.rid, d'.rid)
    ensures lab == d.rid ==> lab' == d'.rid
  {
    ConnectedRids(next, lab, d, c, m, next', lab', d');
    ConnectOnlyMerges(next, d.rid, d.idx, d.rings, c, m, d'.rid);
    forall x | 0 <= x < |d.rid| ensures 0 <= d.rid[x] < |d.rid| {
      RingIdIsMember(next, d.rid, d.idx, d.rings, x);
    }
  }

  /**
   * `Connect(c, m)` merges no more than it must: any grouping f of the
   * points that keeps every old ring together and puts c with m also keeps
   * every new ring together.
   */
  lemma ConnectStaysFiner(next: seq<int>, lab: seq<int>, d: Decomp, c: nat, m: nat,
                          next': seq<int>, lab': seq<int>, d': Decomp, f: seq<int>)
    requires ConnectedAs(next, lab, d, c, m, next', lab', d')
    requires Coarser(d.rid, f) && c < |f| && m < |f| && f[c] == f[m]
    ensures Coarser(d'.rid, f)
  {
    ConnectedRids(next, lab, d, c, m, next', lab', d');
    if d.rid[c] != d.rid[m] {
      var r, r' := d.rid, d'.rid;
      forall x | 0 <= x < |r'| ensures 0 <= r'[x] < |r'| && f[x] == f[r'[x]] {
        if r[x] == r[m] {
          assert f[x] == f[r[x]] == f[r[m]] == f[m] == f[c] == f[r[c]];
        }
      }
    }
  }

  // ---------------------------------------------------------------------
  // Make and Build

  /**
   * The counts after the first i passes of the loop of `TGM_ClusterMake`:
   * each of the first i points has gained its `Density`, the rest are as
   * they were.
   */
  ghost predicate CountedUpTo(a: seq<Attrbt>, b: seq<Two<real>>, n: nat, count: seq<int>, count': seq<int>, i: nat)
    requires Bounded(a, b, n) && i <= n <= |count|
  {
    |count'| == |count| &&
    (forall k | 0 <= k < i :: count'[k] == count[k] + Density(a, b, n, k)) &&
    (forall k | i <= k < |count| :: count'[k] == count[k])
  }

  /** One pass of the loop of `TGM_ClusterMake`: add point i's `Density` to its count. */
  method DensityStep(a: seq<Attrbt>, b: seq<Two<real>>, n: nat, count: seq<int>, count': seq<int>, i: nat,
                     lastLowIndex: nat) returns (lo: nat, count'': seq<int>)
    requires Bounded(a, b, n) && i < n && n <= |count|
    requires lastLowIndex == (if i == 0 then 0 else Low(a, b, n, i - 1))
    requires CountedUpTo(a, b, n, count, count', i)
    ensures lo == Low(a, b, n, i) && CountedUpTo(a, b, n, count, count'', i + 1)
  {
    var c;
    lo, c := DensityAt(a, b, n, i, lastLowIndex);
    count'' := count'[i := count'[i] + c];
  }

  /** The loop of `TGM_ClusterMake`: add to each of the first n counts the point's `Density`. */
  method Densities(a: seq<Attrbt>, b: seq<Two<real>>, n: nat, count: seq<int>) returns (count': seq<int>)
    requires Bounded(a, b, n) && n <= |count|
    ensures |count'| == |count|
    ensures forall i | 0 <= i < n :: count'[i] == count[i] + Density(a, b, n, i)
    ensures forall i | n <= i < |count| :: count'[i] == count[i]
  {
    count' := count;
    var lastLowIndex: nat := 0;
    var i: nat := 0;
    while i < n
      invariant 0 <= i <= n
      invariant lastLowIndex == (if i == 0 then 0 else Low(a, b, n, i - 1))
      invariant CountedUpTo(a, b, n, count, count', i)
    {
      lastLowIndex, count' := DensityStep(a, b, n, count, count', i, lastLowIndex);
      i := i + 1;
    }
  }

  /**
   * The state of `TGM_ClusterBuild` after its first i passes, starting from
   * links with decomposition d0 and labels lab0: the links are still a union
   * of rings, each of the first i points shares its center's ring, rings
   * have only merged, and only as far as those links force: every grouping
   * that keeps the old rings together and each of the first i points with
   * its center keeps the new rings together; labels that were ring ids
   * still are.  Kept behind `Opened` like `ConnectedAs`; `BuiltFacts` opens
   * it.
   */
  ghost predicate BuiltUpTo(a: seq<Attrbt>, b: seq<Two<real>>, n: nat, cnt: seq<int>, i: nat,
                            lab0: seq<int>, d0: Decomp, next: seq<int>, lab: seq<int>, d: Decomp)
    requires Bounded(a, b, n) && i <= n && n <= |cnt|
  {
    forall t {:trigger Opened(t)} | Opened(t) ::
      Linked(next, lab, d) && n <= |next| &&
      (forall k | 0 <= k < i :: d.rid[k] == d.rid[Center(a, b, n, cnt, k)]) &&
      Coarser(d0.rid, d.rid) && (lab0 == d0.rid ==> lab == d.rid) &&
      MergesNoFurther(a, b, n, cnt, i, d0.rid, d.rid)
  }

  /**
   * Rings r are no coarser than the rings r0 joined by the links from each
   * of the first i points to its center: every grouping that keeps r0
   * together and each such point with its center keeps r together.  Kept
   * behind `Opened`; `NoFurtherFacts` opens it.
   */
  ghost predicate MergesNoFurther(a: seq<Attrbt>, b: seq<Two<real>>, n: nat, cnt: seq<int>, i: nat,
                                  r0: seq<int>, r: seq<int>)
    requires Bounded(a, b, n) && i <= n && n <= |cnt|
  {
    forall t {:trigger Opened(t)} | Opened(t) ::
      forall f | Coarser(r0, f) && JoinsCenters(f, a, b, n, cnt, i) :: Coarser(r, f)
  }

  /** What `MergesNoFurther` states, opened. */
  lemma NoFurtherFacts(a: seq<Attrbt>, b: seq<Two<real>>, n: nat, cnt: seq<int>, i: nat, r0: seq<int>, r: seq<int>)
    requires Bounded(a, b, n) && i <= n && n <= |cnt|
    requires MergesNoFurther(a, b, n, cnt, i, r0, r)
    ensures forall f | Coarser(r0, f) && JoinsCenters(f, a, b, n, cnt, i) :: Coarser(r, f)
  {
    assert Opened(0);
  }

  /** `MergesNoFurther` from what it states. */
  lemma NoFurtherFrom(a: seq<Attrbt>, b: seq<Two<real>>, n: nat, cnt: seq<int>, i: nat, r0: seq<int>, r: seq<int>)
    requires Bounded(a, b, n) && i <= n && n <= |cnt|
    requires forall f | Coarser(r0, f) && JoinsCenters(f, a, b, n, cnt, i) :: Coarser(r, f)
    ensures MergesNoFurther(a, b, n, cnt, i, r0, r)
  {
    assert Opened(0);
  }

  /** The grouping f puts each of the first i points with its center. */
  ghost predicate JoinsCenters(f: seq<int>, a: seq<Attrbt>, b: seq<Two<real>>, n: nat, cnt: seq<int>, i: nat)
    requires Bounded(a, b, n) && i <= n && n <= |cnt|
  {
    n <= |f| && forall k | 0 <= k < i :: f[k] == f[Center(a, b, n, cnt, k)]
  }

  /** What `BuiltUpTo` states, opened. */
  lemma BuiltFacts(a: seq<Attrbt>, b: seq<Two<real>>, n: nat, cnt: seq<int>, i: nat,
                   lab0: seq<int>, d0: Decomp, next: seq<int>, lab: seq<int>, d: Decomp)
    requires Bounded(a, b, n) && i <= n && n <= |cnt|
    requires BuiltUpTo(a, b, n, cnt, i, lab0, d0, next, lab, d)
    ensures Linked(next, lab, d) && n <= |next|
    ensures forall k | 0 <= k < i :: d.rid[k] == d.rid[Center(a, b, n, cnt, k)]
    ensures Coarser(d0.rid, d.rid) && (lab0 == d0.rid ==> lab == d.rid)
    ensures MergesNoFurther(a, b, n, cnt, i, d0.rid, d.rid)
  {
    assert Opened(0);
  }

  /** `BuiltUpTo` from what it states. */
  lemma BuiltFrom(a: seq<Attrbt>, b: seq<Two<real>>, n: nat, cnt: seq<int>, i: nat,
                  lab0: seq<int>, d0: Decomp, next: seq<int>, lab: seq<int>, d: Decomp)
    requires Bounded(a, b, n) && i <= n && n <= |cnt|
    requires Linked(next, lab, d) && n <= |next|
    requires forall k | 0 <= k < i :: d.rid[k] == d.rid[Center(a, b, n, cnt, k)]
    requires Coarser(d0.rid, d.rid) && (lab0 == d0.rid ==> lab == d.rid)
    requires MergesNoFurther(a, b, n, cnt, i, d0.rid, d.rid)
    ensures BuiltUpTo(a, b, n, cnt, i, lab0, d0, next, lab, d)
  {
    assert Opened(0);
  }

  /** Before the first pass: no point handled yet, and every ring is as coarse as itself. */
  lemma BuildStarts(a: seq<Attrbt>, b: seq<Two<real>>, n: nat, cnt: seq<int>, next: seq<int>, lab: seq<int>, d: Decomp)
    requires Bounded(a, b, n) && n <= |cnt| && n <= |next| && Linked(next, lab, d)
    ensures BuiltUpTo(a, b, n, cnt, 0, lab, d, next, lab, d)
  {
    forall x | 0 <= x < |next| ensures 0 <= d.rid[x] < |next| && d.rid[x] == d.rid[d.rid[x]] {
      RingIdIsMember(next, d.rid, d.idx, d.rings, x);
    }
  }

  /** Joined centers stay joined once rings merge further, and merging twice only merges. */
  lemma CentersStayJoined(a: seq<Attrbt>, b: seq<Two<real>>, n: nat, cnt: seq<int>, i: nat,
                          r0: seq<int>, r1: seq<int>, r2: seq<int>)
    requires Bounded(a, b, n) && i < n && n <= |cnt| && n <= |r1|
    requires forall k | 0 <= k < i :: r1[k] == r1[Center(a, b, n, cnt, k)]
    requires Coarser(r0, r1) && Coarser(r1, r2) && r2[i] == r2[Center(a, b, n, cnt, i)]
    ensures forall k | 0 <= k < i + 1 :: r2[k] == r2[Center(a, b, n, cnt, k)]
    ensures Coarser(r0, r2)
  {
  }

  /**
   * One pass of the loop of `TGM_ClusterBuild`: scan point i's window for its
   * center and connect the center to i.
   */
  method BuildStep(a: seq<Attrbt>, b: seq<Two<real>>, n: nat, cnt: seq<int>, i: nat, lastLowIndex: nat,
                   next: seq<int>, lab: seq<int>, ghost d: Decomp, ghost lab0: seq<int>, ghost d0: Decomp)
    returns (lo: nat, next': seq<int>, lab': seq<int>, ghost d': Decomp)
    requires Bounded(a, b, n) && i < n && n <= |cnt|
    requires lastLowIndex == (if i == 0 then 0 else Low(a, b, n, i - 1))
    requires BuiltUpTo(a, b, n, cnt, i, lab0, d0, next, lab, d)
    ensures lo == Low(a, b, n, i) && |next'| == |next|
    ensures BuiltUpTo(a, b, n, cnt, i + 1, lab0, d0, next', lab', d')
  {
    BuiltFacts(a, b, n, cnt, i, lab0, d0, next, lab, d);
    var center;
    lo, center := CenterAt(a, b, n, cnt, i, lastLowIndex);
    next', lab', d' := ConnectPoints(next, lab, center, i, d);
    BuildAdvances(a, b, n, cnt, i, lab0, d0, next, lab, d, next', lab', d');
  }

  /** Connecting point i's center to i carries `BuiltUpTo` past i. */
  lemma BuildAdvances(a: seq<Attrbt>, b: seq<Two<real>>, n: nat, cnt: seq<int>, i: nat,
                      lab0: seq<int>, d0: Decomp, next: seq<int>, lab: seq<int>, d: Decomp,
                      next': seq<int>, lab': seq<int>, d': Decomp)
    requires Bounded(a, b, n) && i < n && n <= |cnt|
    requires BuiltUpTo(a, b, n, cnt, i, lab0, d0, next, lab, d)
    requires Linked(next', lab', d') && |next'| == |next|
    requires ConnectedAs(next, lab, d, Center(a, b, n, cnt, i), i, next', lab', d')
    ensures BuiltUpTo(a, b, n, cnt, i + 1, lab0, d0, next', lab', d')
  {
    var center := Center(a, b, n, cnt, i);
    BuiltFacts(a, b, n, cnt, i, lab0, d0, next, lab, d);
    RingsOnlyMerge(next, lab, d, center, i, next', lab', d');
    CentersStayJoined(a, b, n, cnt, i, d0.rid, d.rid, d'.rid);
    BuildMergesNoFurther(a, b, n, cnt, i, d0, next, lab, d, next', lab', d');
    BuiltFrom(a, b, n, cnt, i + 1, lab0, d0, next', lab', d');
  }

  /** Connecting point i's center to i merges no further than the links up to i force. */
  lemma BuildMergesNoFurther(a: seq<Attrbt>, b: seq<Two<real>>, n: nat, cnt: seq<int>, i: nat, d0: Decomp,
                             next: seq<int>, lab: seq<int>, d: Decomp, next': seq<int>, lab': seq<int>, d': Decomp)
    requires Bounded(a, b, n) && i < n && n <= |cnt|
    requires MergesNoFurther(a, b, n, cnt, i, d0.rid, d.rid)
    requires ConnectedAs(next, lab, d, Center(a, b, n, cnt, i), i, next', lab', d')
    ensures MergesNoFurther(a, b, n, cnt, i + 1, d0.rid, d'.rid)
  {
    NoFurtherFacts(a, b, n, cnt, i, d0.rid, d.rid);
    forall f | Coarser(d0.rid, f) && JoinsCenters(f, a, b, n, cnt, i + 1) ensures Coarser(d'.rid, f) {
      assert JoinsCenters(f, a, b, n, cnt, i);
      ConnectStaysFiner(next, lab, d, Center(a, b, n, cnt, i), i, next', lab', d', f);
    }
    NoFurtherFrom(a, b, n, cnt, i + 1, d0.rid, d'.rid);
  }

  /**
   * The loop of `TGM_ClusterBuild`: connect every point to its center, so
   * that each point ends on its center's ring; rings only ever merge, so
   * points that shared a ring still do; and they merge no further: any
   * grouping that keeps the old rings together and every point with its
   * center keeps the new rings together.  So the new rings are exactly the
   * old rings joined by the links from each point to its center.
   */
  method BuildLinks(a: seq<Attrbt>, b: seq<Two<real>>, n: nat, cnt: seq<int>,
                    next: seq<int>, lab: seq<int>, ghost d: Decomp)
    returns (next': seq<int>, lab': seq<int>, ghost d': Decomp)
    requires Bounded(a, b, n) && n <= |cnt| && n <= |next| && Linked(next, lab, d)
    ensures Linked(next', lab', d') && |next'| == |next|
    ensures forall i | 0 <= i < n :: d'.rid[i] == d'.rid[Center(a, b, n, cnt, i)]
    ensures Coarser(d.rid, d'.rid)
    ensures forall f | Coarser(d.rid, f) && JoinsCenters(f, a, b, n, cnt, n) :: Coarser(d'.rid, f)
    ensures lab == d.rid ==> lab' == d'.rid
  {
    next', lab', d' := next, lab, d;
    BuildStarts(a, b, n, cnt, next, lab, d);
    var lastLowIndex: nat := 0;
    var i: nat := 0;
    while i < n
      invariant 0 <= i <= n && |next'| == |next|
      invariant lastLowIndex == (if i == 0 then 0 else Low(a, b, n, i - 1))
      invariant BuiltUpTo(a, b, n, cnt, i, lab, d, next', lab', d')
    {
      lastLowIndex, next', lab', d' := BuildStep(a, b, n, cnt, i, lastLowIndex, next', lab', d', lab, d);
      i := i + 1;
    }
    BuiltFacts(a, b, n, cnt, n, lab, d, next', lab', d');
    NoFurtherFacts(a, b, n, cnt, n, d.rid, d'.rid);
  }

  // ---------------------------------------------------------------------
  // Finalize

  /**
   * The density filter of `Finalize`: point i is skipped when the count of
   * its label's point, taken as unsigned, is below the minimum (compared as
   * unsigned too).
   */
  predicate Kept(count: seq<int>, L: int, minReadPairNum: int)
  {
    0 <= L < |count| && !(AsUnsigned(count[L]) < AsUnsigned(minReadPairNum))
  }

  /** No point before i carries L, so no running element for L exists yet. */
  lemma {:induction false} NoneBeforeFirst(a: seq<Attrbt>, lab: seq<int>, L: int, i: nat)
    requires i <= |a| && i <= |lab|
    requires forall j | 0 <= j < i :: lab[j] != L
    ensures AccOf(a, lab, L, i) == None
  {
    if i > 0 {
      NoneBeforeFirst(a, lab, L, i - 1);
    }
  }

  /**
   * The state of the first loop of `Finalize` after the points before i:
   * one running element per kept label seen so far, in the order of their
   * first points, each the running element of its label over those points;
   * the table maps each such label to its element; every kept point before i
   * is relabelled with its element and the others keep their labels.
   */
  ghost predicate Collected(a: seq<Attrbt>, lab: seq<int>, count: seq<int>, minReadPairNum: int, i: nat,
                            lab': seq<int>, accs: seq<Acc>, table: map<int, nat>)
    requires i <= |a| && i <= |lab|
  {
    |lab'| == |lab| && |accs| <= i &&
    (forall k | 0 <= k < |accs| ::
       accs[k].startIndex < i && accs[k].numReadPair > 0 &&
       lab[accs[k].startIndex] in table && table[lab[accs[k].startIndex]] == k &&
       Kept(count, lab[accs[k].startIndex], minReadPairNum) &&
       AccOf(a, lab, lab[accs[k].startIndex], i) == Some(accs[k])) &&
    (forall L | L in table :: table[L] < |accs| && lab[accs[table[L]].startIndex] == L) &&
    (forall k, k' | 0 <= k < k' < |accs| :: accs[k].startIndex < accs[k'].startIndex) &&
    (forall j | 0 <= j < i ::
       if Kept(count, lab[j], minReadPairNum) then lab[j] in table && lab'[j] == table[lab[j]]
       else lab'[j] == lab[j]) &&
    (forall j | i <= j < |lab| :: lab'[j] == lab[j])
  }

  /** A skipped point changes nothing but the position. */
  lemma CollectSkip(a: seq<Attrbt>, lab: seq<int>, count: seq<int>, minReadPairNum: int, i: nat,
                    lab': seq<int>, accs: seq<Acc>, table: map<int, nat>)
    requires i < |a| && i < |lab| && Collected(a, lab, count, minReadPairNum, i, lab', accs, table)
    requires !Kept(count, lab[i], minReadPairNum)
    ensures Collected(a, lab, count, minReadPairNum, i + 1, lab', accs, table)
  {
  }

  /** A kept point whose label has an element is added to that element. */
  lemma CollectUpdate(a: seq<Attrbt>, lab: seq<int>, count: seq<int>, minReadPairNum: int, i: nat,
                      lab': seq<int>, accs: seq<Acc>, table: map<int, nat>)
    requires i < |a| && i < |lab| && Collected(a, lab, count, minReadPairNum, i, lab', accs, table)
    requires Kept(count, lab[i], minReadPairNum) && lab[i] in table
    ensures table[lab[i]] < |accs|
    ensures Collected(a, lab, count, minReadPairNum, i + 1, lab'[i := table[lab[i]]],
                      accs[table[lab[i]] := UpdateElmnt(accs[table[lab[i]]], a[i])], table)
  {
  }

  /** A kept point whose label is new opens the next element. */
  lemma CollectAdd(a: seq<Attrbt>, lab: seq<int>, count: seq<int>, minReadPairNum: int, i: nat,
                   lab': seq<int>, accs: seq<Acc>, table: map<int, nat>)
    requires i < |a| && i < |lab| && Collected(a, lab, count, minReadPairNum, i, lab', accs, table)
    requires Kept(count, lab[i], minReadPairNum) && lab[i] !in table
    ensures Collected(a, lab, count, minReadPairNum, i + 1, lab'[i := |accs|],
                      accs + [AddElmnt(a[i], i)], table[lab[i] := |accs|])
  {
    NoneBeforeFirst(a, lab, lab[i], i);
  }

  /** The promises of `Collect`, read off the loop state once every point is seen. */
  ghost predicate CollectDone(a: seq<Attrbt>, lab: seq<int>, count: seq<int>, n: nat, minReadPairNum: int,
                              lab': seq<int>, accs: seq<Acc>)
    requires n <= |a| && n <= |lab|
  {
    |lab'| == |lab| && |accs| <= n &&
    (forall k | 0 <= k < |accs| ::
       accs[k].startIndex < n && accs[k].numReadPair > 0 &&
       Kept(count, lab[accs[k].startIndex], minReadPairNum) &&
       AccOf(a, lab, lab[accs[k].startIndex], n) == Some(accs[k])) &&
    (forall k, k' | 0 <= k < k' < |accs| :: accs[k].startIndex < accs[k'].startIndex) &&
    (forall i | 0 <= i < n ::
       if Kept(count, lab[i], minReadPairNum) then
         0 <= lab'[i] < |accs| && lab[accs[lab'[i]].startIndex] == lab[i]
       else lab'[i] == lab[i]) &&
    (forall i | n <= i < |lab| :: lab'[i] == lab[i])
  }

  lemma CollectFinished(a: seq<Attrbt>, lab: seq<int>, count: seq<int>, n: nat, minReadPairNum: int,
                        lab': seq<int>, accs: seq<Acc>, table: map<int, nat>)
    requires n <= |a| && n <= |lab| && Collected(a, lab, count, minReadPairNum, n, lab', accs, table)
    ensures CollectDone(a, lab, count, n, minReadPairNum, lab', accs)
  {
  }

  /** One pass of the first loop of `Finalize`, on point i. */
  method CollectStep(a: seq<Attrbt>, lab: seq<int>, count: seq<int>, minReadPairNum: int, i: nat,
                     lab': seq<int>, accs: seq<Acc>, table: map<int, nat>, ghost cap: nat, cap': nat)
    returns (lab'': seq<int>, accs': seq<Acc>, table': map<int, nat>, cap'': nat)
    requires i < |a| && i < |lab| && cap > 0 && cap' == Grown(cap, |accs|)
    requires Collected(a, lab, count, minReadPairNum, i, lab', accs, table)
    ensures Collected(a, lab, count, minReadPairNum, i + 1, lab'', accs', table')
    ensures cap'' == Grown(cap, |accs'|)
  {
    var L := lab'[i];
    if !Kept(count, L, minReadPairNum) {
      CollectSkip(a, lab, count, minReadPairNum, i, lab', accs, table);
      lab'', accs', table', cap'' := lab', accs, table, cap';
    } else if L in table {
      CollectUpdate(a, lab, count, minReadPairNum, i, lab', accs, table);
      var k := table[L];
      lab'', accs', table', cap'' := lab'[i := k], accs[k := UpdateElmnt(accs[k], a[i])], table, cap';
    } else {
      CollectAdd(a, lab, count, minReadPairNum, i, lab', accs, table);
      GrownStep(cap, |accs|);
      cap'' := if |accs| == cap' then 2 * cap' else cap';
      lab'', accs', table' := lab'[i := |accs|], accs + [AddElmnt(a[i], i)], table[L := |accs|];
    }
  }

  /**
   * The first loop of `Finalize`: each kept point either opens a new running
   * element (its label seen for the first time) or adds itself to the element
   * of its label, found through a table from labels to element indices; the
   * point's label is replaced by that element index.  The elements come out
   * in the order of their first points, one per kept label, each holding
   * exactly the points of its label, and the capacity doubles whenever the
   * array is full.
   */
  method Collect(a: seq<Attrbt>, lab: seq<int>, count: seq<int>, n: nat, minReadPairNum: int, cap: nat)
    returns (lab': seq<int>, accs: seq<Acc>, cap': nat)
    requires n <= |a| && n <= |lab| && cap > 0
    ensures cap' == Grown(cap, |accs|)
    ensures CollectDone(a, lab, count, n, minReadPairNum, lab', accs)
  {
    lab', accs, cap' := lab, [], cap;
    var table: map<int, nat> := map[];
    var i := 0;
    while i < n
      invariant 0 <= i <= n && cap' == Grown(cap, |accs|)
      invariant Collected(a, lab, count, minReadPairNum, i, lab', accs, table)
    {
      lab', accs, table, cap' := CollectStep(a, lab, count, minReadPairNum, i, lab', accs, table, cap, cap');
      i := i + 1;
    }
    CollectFinished(a, lab, count, n, minReadPairNum, lab', accs, table);
  }

  /** The second loop of `Finalize`: every running element becomes its finished element. */
  method FinishAll(accs: seq<Acc>) returns (es: seq<Elmnt>)
    requires forall k | 0 <= k < |accs| :: accs[k].numReadPair > 0
    ensures |es| == |accs|
    ensures forall k | 0 <= k < |accs| :: es[k] == Finish(accs[k])
  {
    es := [];
    var k := 0;
    while k < |accs|
      invariant 0 <= k <= |accs| && |es| == k
      invariant forall j | 0 <= j < k :: es[j] == Finish(accs[j])
    {
      es := es + [Finish(accs[k])];
      k := k + 1;
    }
  }

  /**
   * The promises of `Finalize` for the first n points with labels `lab`:
   * each element is the finished statistics of one kept label, taken over
   * the points carrying it, and starts at the first of them; the elements
   * are in the order of their first points; each kept point is relabelled
   * with an element of its old label and every other label is kept.
   */
  ghost predicate Finalized(a: seq<Attrbt>, lab: seq<int>, count: seq<int>, n: nat, minReadPairNum: int,
                            lab': seq<int>, es: seq<Elmnt>)
    requires n <= |a| && n <= |lab|
  {
    |lab'| == |lab| && |es| <= n &&
    (forall k | 0 <= k < |es| ::
       es[k].startIndex < n && Kept(count, lab[es[k].startIndex], minReadPairNum) &&
       var acc := AccOf(a, lab, lab[es[k].startIndex], n);
       acc.Some? && acc.value.numReadPair > 0 && es[k] == Finish(acc.value)) &&
    (forall k, k' | 0 <= k < k' < |es| :: es[k].startIndex < es[k'].startIndex) &&
    (forall i | 0 <= i < n ::
       if Kept(count, lab[i], minReadPairNum) then
         0 <= lab'[i] < |es| && lab[es[lab'[i]].startIndex] == lab[i]
       else lab'[i] == lab[i]) &&
    (forall i | n <= i < |lab| :: lab'[i] == lab[i])
  }

  lemma FinalizedFromCollect(a: seq<Attrbt>, lab: seq<int>, count: seq<int>, n: nat, minReadPairNum: int,
                             lab': seq<int>, accs: seq<Acc>, es: seq<Elmnt>)
    requires n <= |a| && n <= |lab| && CollectDone(a, lab, count, n, minReadPairNum, lab', accs)
    requires |es| == |accs| && forall k | 0 <= k < |accs| :: accs[k].numReadPair > 0 && es[k] == Finish(accs[k])
    ensures Finalized(a, lab, count, n, minReadPairNum, lab', es)
  {
  }

  /**
   * `Finalize` on values: collect the running elements, finish them, and
   * store them as the whole used part of the element array, whose capacity
   * has doubled as often as the appends needed.
   */
  method FinalizeArrays(a: seq<Attrbt>, lab: seq<int>, count: seq<int>, n: nat, minReadPairNum: int, e: ElmntArray)
    returns (lab': seq<int>, e': ElmntArray)
    requires n <= |a| && n <= |lab| && e.capacity > 0
    ensures Finalized(a, lab, count, n, minReadPairNum, lab', e'.data)
    ensures e' == ElmntArray(e'.data, |e'.data|, e.length, Grown(e.capacity, |e'.data|))
  {
    var accs, cap;
    lab', accs, cap := Collect(a, lab, count, n, minReadPairNum, e.capacity);
    var es := FinishAll(accs);
    FinalizedFromCollect(a, lab, count, n, minReadPairNum, lab', accs, es);
    e' := ElmntArray(es, |es|, e.length, cap);
  }

  /**
   * What `Finalize` means for each kept point: its new label is an element
   * that counts every point of its old label, starts at the first of them,
   * and whose min and max enclose each of their attributes; and no two
   * elements share a label, so each kept label has exactly one element.
   */
  lemma FinalizedPoints(a: seq<Attrbt>, lab: seq<int>, count: seq<int>, n: nat, minReadPairNum: int,
                        lab': seq<int>, es: seq<Elmnt>)
    requires n <= |a| && n <= |lab| && Finalized(a, lab, count, n, minReadPairNum, lab', es)
    ensures forall i | 0 <= i < n && Kept(count, lab[i], minReadPairNum) ::
      0 <= lab'[i] < |es| &&
      es[lab'[i]].numReadPair == CountOf(lab, lab[i], n) &&
      es[lab'[i]].startIndex <= i &&
      (forall j | 0 <= j < es[lab'[i]].startIndex :: lab[j] != lab[i]) &&
      (forall j | 0 <= j < n && lab[j] == lab[i] ::
         es[lab'[i]].min.first <= a[j].first <= es[lab'[i]].max.first &&
         es[lab'[i]].min.second <= a[j].second <= es[lab'[i]].max.second)
    ensures forall k, k' | 0 <= k < k' < |es| :: lab[es[k].startIndex] != lab[es[k'].startIndex]
  {
    forall i | 0 <= i < n && Kept(count, lab[i], minReadPairNum)
      ensures 0 <= lab'[i] < |es| &&
        es[lab'[i]].numReadPair == CountOf(lab, lab[i], n) &&
        es[lab'[i]].startIndex <= i &&
        (forall j | 0 <= j < es[lab'[i]].startIndex :: lab[j] != lab[i]) &&
        (forall j | 0 <= j < n && lab[j] == lab[i] ::
           es[lab'[i]].min.first <= a[j].first <= es[lab'[i]].max.first &&
           es[lab'[i]].min.second <= a[j].second <= es[lab'[i]].max.second)
    {
      AccOfSummary(a, lab, lab[i], n);
      CountOfPositive(lab, lab[i], n, i);
      FinishedElmnt(a, lab, lab[i], n);
    }
  }

  // ---------------------------------------------------------------------
  // Clean

  /** The number of elements among the first i that `Clean` drops. */
  function DropCount(data: seq<Elmnt>, i: nat, minReadPairNum: int, minStd: Two<real>): (c: nat)
    requires i <= |data|
    ensures c <= i
  {
    if i == 0 then 0
    else DropCount(data, i - 1, minReadPairNum, minStd) + (if Dropped(data[i - 1], minReadPairNum, minStd) then 1 else 0)
  }

  /** The number of live elements (a non-zero pair count) among the first i. */
  function LiveCount(data: seq<Elmnt>, i: nat): (c: nat)
    requires i <= |data|
    ensures c <= i
  {
    if i == 0 then 0 else LiveCount(data, i - 1) + (if data[i - 1].numReadPair > 0 then 1 else 0)
  }

  /** The element array after `Clean`: the first n elements lose their pairs when dropped. */
  function Cleaned(data: seq<Elmnt>, n: nat, minReadPairNum: int, minStd: Two<real>): (r: seq<Elmnt>)
    requires n <= |data|
    ensures |r| == |data|
  {
    seq(|data|, k requires 0 <= k < |data| =>
      if k < n && Dropped(data[k], minReadPairNum, minStd) then data[k].(numReadPair := 0) else data[k])
  }

  /**
   * The loop of `Clean`: lazy deletion, which zeroes the pair count of every
   * dropped element among the first n and counts the live size down once
   * for each.
   */
  method CleanElmnts(data: seq<Elmnt>, n: nat, minReadPairNum: int, minStd: Two<real>)
    returns (data': seq<Elmnt>, size': nat)
    requires n <= |data|
    ensures data' == Cleaned(data, n, minReadPairNum, minStd)
    ensures size' == n - DropCount(data, n, minReadPairNum, minStd)
  {
    data', size' := data, n;
    var i := 0;
    while i < n
      invariant 0 <= i <= n && |data'| == |data|
      invariant forall k | 0 <= k < |data| :: data'[k] == Cleaned(data, i, minReadPairNum, minStd)[k]
      invariant size' == n - DropCount(data, i, minReadPairNum, minStd)
    {
      if Dropped(data'[i], minReadPairNum, minStd) {
        data' := data'[i := data'[i].(numReadPair := 0)];
        size' := size' - 1;
      }
      i := i + 1;
    }
  }

  /** Cleaning twice drops nothing more: a dropped element stays dropped. */
  lemma CleanedIdempotent(data: seq<Elmnt>, n: nat, minReadPairNum: int, minStd: Two<real>)
    requires n <= |data|
    ensures Cleaned(Cleaned(data, n, minReadPairNum, minStd), n, minReadPairNum, minStd)
         == Cleaned(data, n, minReadPairNum, minStd)
  {
    var c := Cleaned(data, n, minReadPairNum, minStd);
    var cc := Cleaned(c, n, minReadPairNum, minStd);
    forall k | 0 <= k < |data| ensures cc[k] == c[k] {
      if k < n && Dropped(data[k], minReadPairNum, minStd) {
        assert Dropped(c[k], minReadPairNum, minStd);
      }
    }
  }

  /**
   * After `Clean` on elements that were all live, the live ones are exactly
   * those it kept, and their number is the size it counted down to.
   */
  lemma {:induction false} CleanedLive(data: seq<Elmnt>, n: nat, i: nat, minReadPairNum: int, minStd: Two<real>)
    requires i <= n <= |data|
    requires forall k | 0 <= k < n :: data[k].numReadPair > 0
    ensures forall k | 0 <= k < n ::
      (Cleaned(data, n, minReadPairNum, minStd)[k].numReadPair > 0 <==> !Dropped(data[k], minReadPairNum, minStd))
    ensures LiveCount(Cleaned(data, n, minReadPairNum, minStd), i) == i - DropCount(data, i, minReadPairNum, minStd)
  {
    if i > 0 {
      CleanedLive(data, n, i - 1, minReadPairNum, minStd);
    }
  }

  // ---------------------------------------------------------------------
  // Merge

  /** The number of pairs held by the first i elements. */
  function PairTotal(data: seq<Elmnt>, i: nat): nat
    requires i <= |data|
  {
    if i == 0 then 0 else PairTotal(data, i - 1) + data[i - 1].numReadPair
  }

  /** Replacing element j changes the total by the difference of the two counts. */
  lemma {:induction false} PairTotalUpdate(data: seq<Elmnt>, j: nat, e: Elmnt, i: nat)
    requires j < |data| && i <= |data|
    ensures PairTotal(data[j := e], i) + (if j < i then data[j].numReadPair else 0)
         == PairTotal(data, i) + (if j < i then e.numReadPair else 0)
  {
    if i > 0 {
      PairTotalUpdate(data, j, e, i - 1);
    }
  }

  /** The element array after `Merge(dst, src)`: dst pools both, src is emptied. */
  function MergedElmnts(data: seq<Elmnt>, dst: nat, src: nat): (r: seq<Elmnt>)
    requires dst < |data| && src < |data| && dst != src
    requires data[dst].numReadPair + data[src].numReadPair > 0
    ensures |r| == |data|
    ensures r[dst].numReadPair == data[dst].numReadPair + data[src].numReadPair && r[src].numReadPair == 0
    ensures forall k | 0 <= k < |data| && k != dst && k != src :: r[k] == data[k]
    ensures forall k | 0 <= k < |data| :: r[k].startIndex == data[k].startIndex
  {
    data[dst := MergeElmnt(data[dst], data[src])][src := data[src].(numReadPair := 0)]
  }

  /** Merging moves pairs between elements: the total over the array is kept. */
  lemma MergeKeepsPairTotal(data: seq<Elmnt>, dst: nat, src: nat)
    requires dst < |data| && src < |data| && dst != src
    requires data[dst].numReadPair + data[src].numReadPair > 0
    ensures PairTotal(MergedElmnts(data, dst, src), |data|) == PairTotal(data, |data|)
  {
    var d1 := data[dst := MergeElmnt(data[dst], data[src])];
    PairTotalUpdate(data, dst, MergeElmnt(data[dst], data[src]), |data|);
    PairTotalUpdate(d1, src, data[src].(numReadPair := 0), |data|);
  }

  // ---------------------------------------------------------------------
  // The cluster object

  /** The invariant of a cluster object, on the values of its fields. */
  ghost predicate ClusterInv(attrs: seq<Attrbt>, next: seq<int>, lab: seq<int>, count: seq<int>,
                             capacity: nat, dec: Decomp)
  {
    Linked(next, lab, dec) && |count| == |next| && |attrs| == |next| && |next| <= capacity
  }

  /** Merging two elements keeps the element array fitting the points. */
  lemma MergedFits(e: ElmntArray, n: nat, dst: nat, src: nat)
    requires ElmntsFit(e, n) && dst < |e.data| && src < |e.data| && dst != src
    requires e.data[dst].numReadPair + e.data[src].numReadPair > 0
    ensures ElmntsFit(e.(data := MergedElmnts(e.data, dst, src)), n)
  {
  }

  /** Relabelling with point indices keeps the arrays linked. */
  lemma RelabelledLinked(next: seq<int>, lab: seq<int>, lab': seq<int>, d: Decomp)
    requires Linked(next, lab, d) && |lab'| == |lab|
    requires forall i | 0 <= i < |lab'| :: 0 <= lab'[i] < |next|
    ensures Linked(next, lab', d)
  {
  }

  /**
   * `TGM_Cluster`: the attribute array it clusters (with the bound table of
   * its read groups), the three point arrays, the number of points `size`
   * and the arrays' capacity, the filter minimums, and the element array.
   */
  class Cluster {
    var attrs: seq<Attrbt>
    var bounds: seq<Two<real>>
    var next: seq<int>
    var lab: seq<int>
    var count: seq<int>
    var size: nat
    var capacity: nat
    var minReadPairNum: int
    var minStd: Two<real>
    var elmnts: ElmntArray
    ghost var dec: Decomp

    ghost predicate Valid()
      reads this
    {
      ClusterInv(attrs, next, lab, count, capacity, dec) && size < UINT32_MOD && ElmntsFit(elmnts, |attrs|)
    }

    /** Before `Finalize`, each point's label is the id of its ring. */
    ghost predicate LabelsAreRingIds()
      reads this
    {
      lab == dec.rid
    }

    /** `TGM_ClusterAlloc`: empty arrays and an element array of the default capacity. */
    constructor(minReadPairNum: int)
      ensures Valid() && LabelsAreRingIds()
      ensures this.minReadPairNum == minReadPairNum && minStd == Two(-1.0, -1.0)
      ensures attrs == [] && next == [] && size == 0 && capacity == 0
      ensures elmnts == ElmntArray([], 0, 0, DEFAULT_CLUSTER_SIZE)
    {
      attrs, bounds := [], [];
      next, lab, count := [], [], [];
      size, capacity := 0, 0;
      this.minReadPairNum := minReadPairNum;
      minStd := Two(-1.0, -1.0);
      elmnts := ElmntArray([], 0, 0, DEFAULT_CLUSTER_SIZE);
      dec := Decomp([], [], map[]);
    }

    /** `TGM_ClusterSetMinStd`. */
    method SetMinStd(minStd: Two<real>)
      modifies this`minStd
      ensures this.minStd == minStd
    {
      this.minStd := minStd;
    }

    /**
     * `TGM_ClusterInit`: take the attribute array, empty the element array,
     * double the capacity past the new size when it is too small, and make
     * every point a singleton cluster with count 0.
     */
    method Init(a: seq<Attrbt>, b: seq<Two<real>>)
      requires Valid() && |a| < UINT32_MOD
      modifies this`attrs, this`bounds, this`next, this`lab, this`count, this`size, this`capacity,
               this`elmnts, this`dec
      ensures Valid() && LabelsAreRingIds()
      ensures attrs == a && bounds == b && size == |a| && |next| == |a|
      ensures capacity == if |a| > old(capacity) then 2 * |a| else old(capacity)
      ensures forall i | 0 <= i < |a| :: next[i] == i && lab[i] == i && count[i] == 0
      ensures elmnts == old(elmnts).(data := [], size := 0)
    {
      var nx, lb, ct, d := IdentityArrays(|a|);
      elmnts := elmnts.(data := [], size := 0);
      attrs, bounds, size := a, b, |a|;
      if |a| > capacity {
        capacity := 2 * |a|;
      }
      next, lab, count := nx, lb, ct;
      dec := d;
    }

    /**
     * `TGM_ClusterMake`: add to each point's count the number of its
     * neighbours within its bounds.
     */
    method Make()
      requires Valid() && Bounded(attrs, bounds, size)
      modifies this`count
      ensures Valid() && |count| == |old(count)|
      ensures forall i | 0 <= i < size :: count[i] == old(count)[i] + Density(attrs, bounds, size, i)
      ensures forall i | size <= i < |count| :: count[i] == old(count)[i]
    {
      count := Densities(attrs, bounds, size, count);
    }

    /**
     * `TGM_ClusterConnect(c, m)`: splice m's ring into c's (nothing when they
     * already share one), relabelling the points of m's ring up to c's
     * successor with c's label.
     */
    method Connect(c: nat, m: nat)
      requires Valid() && c < |next| && m < |next|
      modifies this`next, this`lab, this`dec
      ensures Valid()
      ensures ConnectedAs(old(next), old(lab), old(dec), c, m, next, lab, dec)
    {
      next, lab, dec := ConnectPoints(next, lab, c, m, dec);
    }

    /**
     * `TGM_ClusterBuild`: connect each point to its center, the densest
     * neighbour in its window; afterwards every point shares a ring with its
     * center, points that shared a ring still do, and no other rings merge.
     */
    method Build()
      requires Valid() && Bounded(attrs, bounds, size)
      modifies this`next, this`lab, this`dec
      ensures Valid()
      ensures forall i | 0 <= i < size :: dec.rid[i] == dec.rid[Center(attrs, bounds, size, count, i)]
      ensures Coarser(old(dec).rid, dec.rid)
      ensures forall f | Coarser(old(dec).rid, f) && JoinsCenters(f, attrs, bounds, size, count, size) ::
        Coarser(dec.rid, f)
      ensures old(LabelsAreRingIds()) ==> LabelsAreRingIds()
    {
      next, lab, dec := BuildLinks(attrs, bounds, size, count, next, lab, dec);
    }

    /**
     * `TGM_ClusterFinalize`: one element per kept label, with its finished
     * statistics; each kept point is relabelled with its element.
     */
    method Finalize()
      requires Valid() && size <= |next| && elmnts.size == 0
      modifies this`lab, this`elmnts
      ensures Valid()
      ensures Finalized(attrs, old(lab), count, size, minReadPairNum, lab, elmnts.data)
      ensures elmnts == ElmntArray(elmnts.data, |elmnts.data|, old(elmnts).length,
                                   Grown(old(elmnts).capacity, |elmnts.data|))
    {
      lab, elmnts := FinalizeArrays(attrs, lab, count, size, minReadPairNum, elmnts);
      RelabelledLinked(next, old(lab), lab, dec);
    }

    /**
     * `TGM_ClusterClean`: lazily delete the elements that fail the filters,
     * record the old size as the length, and return it.
     */
    method Clean() returns (oldSize: nat)
      requires Valid()
      modifies this`elmnts
      ensures Valid() && oldSize == old(elmnts).size
      ensures elmnts == ElmntArray(Cleaned(old(elmnts).data, oldSize, minReadPairNum, minStd),
                                   oldSize - DropCount(old(elmnts).data, oldSize, minReadPairNum, minStd),
                                   oldSize, old(elmnts).capacity)
    {
      oldSize := elmnts.size;
      var data, size' := CleanElmnts(elmnts.data, oldSize, minReadPairNum, minStd);
      elmnts := ElmntArray(data, size', oldSize, elmnts.capacity);
    }

    /**
     * `TGM_ClusterMerge(dst, src)`: connect the two elements' first points,
     * pool src into dst, empty src, count the cluster's size down by one
     * (unsigned) and return dst's new pair count.
     */
    method Merge(dst: nat, src: nat) returns (total: nat)
      requires Valid() && dst < |elmnts.data| && src < |elmnts.data| && dst != src
      requires elmnts.data[dst].numReadPair + elmnts.data[src].numReadPair > 0
      modifies this`next, this`lab, this`dec, this`elmnts, this`size
      ensures Valid()
      ensures total == old(elmnts).data[dst].numReadPair + old(elmnts).data[src].numReadPair
      ensures elmnts == old(elmnts).(data := MergedElmnts(old(elmnts).data, dst, src))
      ensures size == (old(size) + UINT32_MOD - 1) % UINT32_MOD
      ensures ConnectedAs(old(next), old(lab), old(dec), old(elmnts).data[dst].startIndex,
                          old(elmnts).data[src].startIndex, next, lab, dec)
    {
      var d, s := elmnts.data[dst], elmnts.data[src];
      Connect(d.startIndex, s.startIndex);
      MergedFits(elmnts, |attrs|, dst, src);
      elmnts := elmnts.(data := MergedElmnts(elmnts.data, dst, src));
      size := (size + UINT32_MOD - 1) % UINT32_MOD;
      total := d.numReadPair + s.numReadPair;
    }
  }
}
