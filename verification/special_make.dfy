// `TGM_SpecialEventMake` (TGM_ReadPairDetect.c): one special event from one
// cluster element, by walking the element's ring once from its first point
// and keeping unsigned running bounds of the 5' and 3' spans its pairs
// imply.  Also the application of the links the merge scan records to the
// two clusterings they join.

module SpecialMake {
  import opened Numeric
  import opened PairRecords
  import opened Rings
  import opened ClusterEngine
  import opened DetectEvents

  /** `UINT_MAX`, the start of an unsigned running minimum. */
  const UINT_MAX: nat := UINT32_MOD - 1

  /** An `unsigned int` value. */
  type Unsigned = x: nat | x < UINT32_MOD

  /** The running bounds of the walk. */
  datatype WalkBounds = WalkBounds(posMin5: Unsigned, endMax5: Unsigned, posMin3: Unsigned, endMax3: Unsigned)

  /** The bounds before the first pair: minimums at UINT_MAX, maximums at 0. */
  const NoBounds := WalkBounds(UINT_MAX, 0, UINT_MAX, 0)

  /** Every point names a pair, and every pair a read group of the library table. */
  predicate Indexed(pairs: seq<SpecialPair>, libs: seq<LibInfo>, attrs: seq<Attrbt>)
  {
    (forall i | 0 <= i < |attrs| :: attrs[i].origIndex < |pairs|) &&
    (forall j | 0 <= j < |pairs| :: pairs[j].readGrpID < |libs|)
  }

  /** The pair point x was made from. */
  function PairOf(pairs: seq<SpecialPair>, libs: seq<LibInfo>, attrs: seq<Attrbt>, x: int): SpecialPair
    requires Indexed(pairs, libs, attrs) && 0 <= x < |attrs|
  {
    pairs[attrs[x].origIndex]
  }

  /**
   * The (pos, end) of the 5' and of the 3' span a pair stands for: its unique
   * mate gives one side; the other is projected from it by the read group's
   * median fragment length and the length of the special mate's alignment.
   */
  function Spans(p: SpecialPair, median: int): (Two<int>, Two<int>)
  {
    var posUniq, endUniq := p.pos.first, p.end.first;
    if p.readPairType == Special3 then
      (Two(posUniq, endUniq),
       Two(posUniq + median - (p.end.second - p.pos.second + 1), posUniq + median - 1))
    else
      (Two(endUniq + 1 - median, endUniq + p.end.second + 1 - median - p.pos.second),
       Two(posUniq, endUniq))
  }

  /** The spans of the pair at point x. */
  function SpansAt(pairs: seq<SpecialPair>, libs: seq<LibInfo>, attrs: seq<Attrbt>, x: int): (Two<int>, Two<int>)
    requires Indexed(pairs, libs, attrs) && 0 <= x < |attrs|
  {
    var p := PairOf(pairs, libs, attrs, x);
    Spans(p, libs[p.readGrpID].median)
  }

  /** One pass of the walk: each bound absorbs the span's end, compared as unsigned. */
  function Absorb(b: WalkBounds, s: (Two<int>, Two<int>)): WalkBounds
  {
    var p5, e5, p3, e3 := AsUnsigned(s.0.first), AsUnsigned(s.0.second), AsUnsigned(s.1.first), AsUnsigned(s.1.second);
    WalkBounds(if p5 < b.posMin5 then p5 else b.posMin5,
               if e5 > b.endMax5 then e5 else b.endMax5,
               if p3 < b.posMin3 then p3 else b.posMin3,
               if e3 > b.endMax3 then e3 else b.endMax3)
  }

  /** The points of W lie among the clustered points. */
  predicate OnPoints(W: seq<int>, n: nat)
  {
    forall t | 0 <= t < |W| :: 0 <= W[t] < n
  }

  /** The bounds after the walk's first k points W[0..k). */
  function BoundsOf(pairs: seq<SpecialPair>, libs: seq<LibInfo>, attrs: seq<Attrbt>, W: seq<int>, k: nat): WalkBounds
    requires Indexed(pairs, libs, attrs) && OnPoints(W, |attrs|) && k <= |W|
  {
    if k == 0 then NoBounds else Absorb(BoundsOf(pairs, libs, attrs, W, k - 1), SpansAt(pairs, libs, attrs, W[k - 1]))
  }

  /**
   * The bounds bracket what the walk saw: each minimum is at most every
   * visited span's value and each maximum at least every one (as unsigned).
   */
  lemma {:induction false} BoundsBracket(pairs: seq<SpecialPair>, libs: seq<LibInfo>, attrs: seq<Attrbt>,
                                         W: seq<int>, k: nat)
    requires Indexed(pairs, libs, attrs) && OnPoints(W, |attrs|) && k <= |W|
    ensures var b := BoundsOf(pairs, libs, attrs, W, k);
      forall t | 0 <= t < k :: var s := SpansAt(pairs, libs, attrs, W[t]);
        b.posMin5 <= AsUnsigned(s.0.first) && AsUnsigned(s.0.second) <= b.endMax5 &&
        b.posMin3 <= AsUnsigned(s.1.first) && AsUnsigned(s.1.second) <= b.endMax3
  {
    if k > 0 {
      BoundsBracket(pairs, libs, attrs, W, k - 1);
      var b, b' := BoundsOf(pairs, libs, attrs, W, k), BoundsOf(pairs, libs, attrs, W, k - 1);
      assert b == Absorb(b', SpansAt(pairs, libs, attrs, W[k - 1]));
      assert b.posMin5 <= b'.posMin5 && b.posMin3 <= b'.posMin3 && b.endMax5 >= b'.endMax5 && b.endMax3 >= b'.endMax3;
    }
  }

  /** Once the walk has seen a point, each bound is one of the visited spans' values. */
  lemma {:induction false} BoundsAttained(pairs: seq<SpecialPair>, libs: seq<LibInfo>, attrs: seq<Attrbt>,
                                          W: seq<int>, k: nat)
    requires Indexed(pairs, libs, attrs) && OnPoints(W, |attrs|) && 0 < k <= |W|
    ensures var b := BoundsOf(pairs, libs, attrs, W, k);
      (exists t | 0 <= t < k :: b.posMin5 == AsUnsigned(SpansAt(pairs, libs, attrs, W[t]).0.first)) &&
      (exists t | 0 <= t < k :: b.endMax5 == AsUnsigned(SpansAt(pairs, libs, attrs, W[t]).0.second)) &&
      (exists t | 0 <= t < k :: b.posMin3 == AsUnsigned(SpansAt(pairs, libs, attrs, W[t]).1.first)) &&
      (exists t | 0 <= t < k :: b.endMax3 == AsUnsigned(SpansAt(pairs, libs, attrs, W[t]).1.second))
  {
    var s := SpansAt(pairs, libs, attrs, W[k - 1]);
    var b := BoundsOf(pairs, libs, attrs, W, k);
    if k == 1 {
      assert BoundsOf(pairs, libs, attrs, W, 0) == NoBounds;
      assert b == Absorb(NoBounds, s);
    } else {
      BoundsAttained(pairs, libs, attrs, W, k - 1);
      var b' := BoundsOf(pairs, libs, attrs, W, k - 1);
      assert b == Absorb(b', s);
      if b.posMin5 != AsUnsigned(s.0.first) { assert b.posMin5 == b'.posMin5; }
      if b.endMax5 != AsUnsigned(s.0.second) { assert b.endMax5 == b'.endMax5; }
      if b.posMin3 != AsUnsigned(s.1.first) { assert b.posMin3 == b'.posMin3; }
      if b.endMax3 != AsUnsigned(s.1.second) { assert b.endMax3 == b'.endMax3; }
    }
  }

  /** The walk from point s along `next`: s's ring, listed from s. */
  ghost function WalkFrom(next: seq<int>, d: Decomp, s: int): (W: seq<int>)
    requires Decomposes(next, d.rid, d.idx, d.rings) && 0 <= s < |next|
    ensures |W| > 0 && W[0] == s
  {
    WalkStep(next, d.rid, d.idx, d.rings, s, 0);
    Rotate(d.rings[d.rid[s]], d.idx[s])
  }

  /** Each point of W is followed by the next one, and the last by s. */
  ghost predicate Follows(next: seq<int>, W: seq<int>, s: int)
    requires OnPoints(W, |next|)
  {
    forall t | 0 <= t < |W| :: next[W[t]] == if t + 1 < |W| then W[t + 1] else s
  }

  /** The walk follows `next` from s, through distinct points, until it is back at s. */
  lemma WalkFollowsNext(next: seq<int>, d: Decomp, s: int)
    requires Decomposes(next, d.rid, d.idx, d.rings) && 0 <= s < |next|
    ensures var W := WalkFrom(next, d, s);
      OnPoints(W, |next|) && (forall t, u | 0 <= t < u < |W| :: W[t] != W[u]) && Follows(next, W, s)
  {
    var W := WalkFrom(next, d, s);
    forall t | 0 <= t < |W|
      ensures 0 <= W[t] < |next| && next[W[t]] == (if t + 1 < |W| then W[t + 1] else s)
    {
      WalkStep(next, d.rid, d.idx, d.rings, s, t);
    }
    forall t, u | 0 <= t < u < |W| ensures W[t] != W[u] {
      WalkStep(next, d.rid, d.idx, d.rings, s, t);
      WalkStep(next, d.rid, d.idx, d.rings, s, u);
    }
    assert OnPoints(W, |next|);
    assert Follows(next, W, s);
  }

  /** The walk from s visits exactly the points on s's ring. */
  lemma WalkCoversRing(next: seq<int>, d: Decomp, s: int)
    requires Decomposes(next, d.rid, d.idx, d.rings) && 0 <= s < |next|
    ensures var W := WalkFrom(next, d, s);
      forall x | 0 <= x < |next| :: x in W <==> d.rid[x] == d.rid[s]
  {
    var W := WalkFrom(next, d, s);
    forall t | 0 <= t < |W| ensures 0 <= W[t] < |next| && d.rid[W[t]] == d.rid[s] {
      WalkStep(next, d.rid, d.idx, d.rings, s, t);
    }
    forall x | 0 <= x < |next| && d.rid[x] == d.rid[s] ensures x in W {
      WalkReaches(next, d.rid, d.idx, d.rings, s, x);
    }
  }

  /**
   * The event `TGM_SpecialEventMake` writes into `slot` for the element
   * starting at s with n pairs, from the walk's bounds b and the last pair
   * it visited: the side comes from that pair's type; the bounds are stored
   * as ints; the unset cluster-ID slot keeps what `slot` held; the
   * uncertainty divides the two span widths (unsigned) by 2n (unsigned), and
   * is `None` when that is 0.
   */
  function EventFrom(b: WalkBounds, last: SpecialPair, s: int, n: nat, slot: SpecialEvent): SpecialEvent
  {
    var width := AsUnsigned(AsUnsigned(b.endMax5 - b.posMin5) + AsUnsigned(b.endMax3 - b.posMin3));
    var twice := AsUnsigned(2 * n);
    var e := slot.(refID := last.refID.first, length := 0,
                   pos5 := Two(ToInt32(b.posMin5), ToInt32(b.endMax5)),
                   pos3 := Two(ToInt32(b.posMin3), ToInt32(b.endMax3)),
                   posUncertainty := if twice == 0 then None
                                     else Some(AsUnsigned(Round(width as real / twice as real))));
    if last.readPairType == Special3 then
      e.(pos := b.endMax5, numFrag := Two(ToInt32(n), 0), clusterID := Two(ToInt32(s), slot.clusterID.second))
    else
      e.(pos := b.posMin3, numFrag := Two(0, ToInt32(n)), clusterID := Two(slot.clusterID.first, ToInt32(s)))
  }

  /** The event made after walking W. */
  function MadeEvent(pairs: seq<SpecialPair>, libs: seq<LibInfo>, attrs: seq<Attrbt>, W: seq<int>,
                     s: int, n: nat, slot: SpecialEvent): SpecialEvent
    requires Indexed(pairs, libs, attrs) && OnPoints(W, |attrs|) && |W| > 0
  {
    EventFrom(BoundsOf(pairs, libs, attrs, W, |W|), PairOf(pairs, libs, attrs, W[|W| - 1]), s, n, slot)
  }

  /**
   * What the made event says: a special-3 event sits at the 5' span's end
   * with forward support n, any other at the 3' span's start with reverse
   * support n; its cluster ID on that side is the start point, the other
   * side's is left as it was; its spans are the bounds; its length is 0; the
   * uncertainty is defined whenever 0 < n < 2^31.
   */
  lemma EventFromSides(b: WalkBounds, last: SpecialPair, s: nat, n: nat, slot: SpecialEvent)
    requires s <= INT32_MAX && n <= INT32_MAX
    ensures var e := EventFrom(b, last, s, n, slot);
      e.length == 0 && e.refID == last.refID.first &&
      AsUnsigned(e.pos5.first) == b.posMin5 && AsUnsigned(e.pos5.second) == b.endMax5 &&
      AsUnsigned(e.pos3.first) == b.posMin3 && AsUnsigned(e.pos3.second) == b.endMax3 &&
      (0 < n ==> e.posUncertainty.Some?) &&
      if last.readPairType == Special3 then
        e.pos == b.endMax5 && e.numFrag == Two(n, 0) && e.clusterID == Two(s, slot.clusterID.second)
      else
        e.pos == b.posMin3 && e.numFrag == Two(0, n) && e.clusterID == Two(slot.clusterID.first, s)
  {
    UnsignedRoundTrip(b.posMin5);
    UnsignedRoundTrip(b.endMax5);
    UnsignedRoundTrip(b.posMin3);
    UnsignedRoundTrip(b.endMax3);
  }

  /** Storing an unsigned value in an int and reading it back as unsigned gives it back. */
  lemma UnsignedRoundTrip(u: Unsigned)
    ensures AsUnsigned(ToInt32(u)) == u
  {
  }

  /**
   * `TGM_SpecialEventMake(slot, c, index, pairs, libs)`: walk the ring of
   * element `index` from its first point, once round, absorbing each
   * point's pair into the bounds, and make the event from them.
   */
  method MakeSpecialEvent(c: Cluster, index: nat, pairs: seq<SpecialPair>, libs: seq<LibInfo>, slot: SpecialEvent)
    returns (e: SpecialEvent)
    requires c.Valid() && index < |c.elmnts.data| && Indexed(pairs, libs, c.attrs)
    ensures var s := c.elmnts.data[index].startIndex;
      var W := WalkFrom(c.next, c.dec, s);
      OnPoints(W, |c.attrs|) &&
      e == MadeEvent(pairs, libs, c.attrs, W, s, c.elmnts.data[index].numReadPair, slot)
  {
    var next, attrs := c.next, c.attrs;
    ghost var d := c.dec;
    var s := c.elmnts.data[index].startIndex;
    var n := c.elmnts.data[index].numReadPair;
    ghost var W := WalkFrom(next, d, s);
    WalkFollowsNext(next, d, s);
    var b := Absorb(NoBounds, SpansAt(pairs, libs, attrs, s));
    var last := PairOf(pairs, libs, attrs, s);
    var i := next[s];
    ghost var t := 1;
    while i != s
      invariant 0 < t <= |W|
      invariant i == if t < |W| then W[t] else s
      invariant b == BoundsOf(pairs, libs, attrs, W, t)
      invariant last == PairOf(pairs, libs, attrs, W[t - 1])
      decreases |W| - t
    {
      b := Absorb(b, SpansAt(pairs, libs, attrs, i));
      last := PairOf(pairs, libs, attrs, i);
      i := next[i];
      t := t + 1;
    }
    assert t == |W|;
    e := EventFrom(b, last, s, n, slot);
  }

  // ---------------------------------------------------------------------
  // The connections made by merging

  /** The link's two points share a ring in the clustering it names. */
  ghost predicate LinkJoined(l: Link, rid3: seq<int>, rid5: seq<int>)
  {
    var r := if l.side == 0 then rid3 else rid5;
    0 <= l.head < |r| && 0 <= l.tail < |r| && r[l.head] == r[l.tail]
  }

  /** Rings that only merged twice only merged. */
  lemma CoarserTwice(r0: seq<int>, r1: seq<int>, r2: seq<int>)
    requires Coarser(r0, r1) && Coarser(r1, r2)
    ensures Coarser(r0, r2)
  {
    forall x | 0 <= x < |r0| ensures r2[x] == r2[r0[x]] {
      assert r2[x] == r2[r1[x]] && r2[r0[x]] == r2[r1[r0[x]]];
    }
  }

  /** Joined points stay joined when rings only merge. */
  lemma StaysJoined(l: Link, r3: seq<int>, r5: seq<int>, r3': seq<int>, r5': seq<int>)
    requires LinkJoined(l, r3, r5) && Coarser(r3, r3') && Coarser(r5, r5')
    ensures LinkJoined(l, r3', r5')
  {
  }

  /**
   * The grouping f puts together the head and tail of each of the first k
   * links on the given side (0 for the 3' clustering, 1 for the 5').
   */
  ghost predicate JoinsLinks(f: seq<int>, links: seq<Link>, k: nat, side: nat)
    requires k <= |links|
  {
    forall j | 0 <= j < k && links[j].side == side ::
      0 <= links[j].head < |f| && 0 <= links[j].tail < |f| && f[links[j].head] == f[links[j].tail]
  }

  /**
   * One `TGM_ClusterConnect` call of the merge: link l applied to the
   * clustering it names, exactly as `Cluster.Connect` does; the other
   * clustering is untouched.
   */
  method ConnectLink(c3: Cluster, c5: Cluster, l: Link)
    requires c3 != c5 && c3.Valid() && c5.Valid() && LinkValid(l, |c3.next|, |c5.next|)
    modifies c3`next, c3`lab, c3`dec, c5`next, c5`lab, c5`dec
    ensures c3.Valid() && c5.Valid() && |c3.next| == |old(c3.next)| && |c5.next| == |old(c5.next)|
    ensures LinkJoined(l, c3.dec.rid, c5.dec.rid)
    ensures l.side == 0 ==>
      ConnectedAs(old(c3.next), old(c3.lab), old(c3.dec), l.head, l.tail, c3.next, c3.lab, c3.dec) &&
      c5.next == old(c5.next) && c5.lab == old(c5.lab) && c5.dec == old(c5.dec)
    ensures l.side != 0 ==>
      ConnectedAs(old(c5.next), old(c5.lab), old(c5.dec), l.head, l.tail, c5.next, c5.lab, c5.dec) &&
      c3.next == old(c3.next) && c3.lab == old(c3.lab) && c3.dec == old(c3.dec)
  {
    if l.side == 0 {
      c3.Connect(l.head, l.tail);
      RingsOnlyMerge(old(c3.next), old(c3.lab), old(c3.dec), l.head, l.tail, c3.next, c3.lab, c3.dec);
    } else {
      c5.Connect(l.head, l.tail);
      RingsOnlyMerge(old(c5.next), old(c5.lab), old(c5.dec), l.head, l.tail, c5.next, c5.lab, c5.dec);
    }
  }

  /**
   * The ring ids q3 and q5 after the first k links, from r3 and r5: each of
   * those links joins its points, rings have only merged, and no further
   * than the links force.  Kept behind `Opened`; `AppliedFacts` opens it.
   */
  ghost predicate LinksApplied(links: seq<Link>, k: nat, r3: seq<int>, r5: seq<int>, q3: seq<int>, q5: seq<int>)
    requires k <= |links|
  {
    forall t {:trigger Opened(t)} | Opened(t) ::
      (forall j | 0 <= j < k :: LinkJoined(links[j], q3, q5)) &&
      Coarser(r3, q3) && Coarser(r5, q5) &&
      (forall f | Coarser(r3, f) && JoinsLinks(f, links, k, 0) :: Coarser(q3, f)) &&
      (forall f | Coarser(r5, f) && JoinsLinks(f, links, k, 1) :: Coarser(q5, f))
  }

  /** What `LinksApplied` states, opened. */
  lemma AppliedFacts(links: seq<Link>, k: nat, r3: seq<int>, r5: seq<int>, q3: seq<int>, q5: seq<int>)
    requires k <= |links| && LinksApplied(links, k, r3, r5, q3, q5)
    ensures forall j | 0 <= j < k :: LinkJoined(links[j], q3, q5)
    ensures Coarser(r3, q3) && Coarser(r5, q5)
    ensures forall f | Coarser(r3, f) && JoinsLinks(f, links, k, 0) :: Coarser(q3, f)
    ensures forall f | Coarser(r5, f) && JoinsLinks(f, links, k, 1) :: Coarser(q5, f)
  {
    assert Opened(0);
  }

  /**
   * Applying link k to the clustering on `side` keeps it merged no further
   * than the first k + 1 links on that side force.
   */
  lemma LinkMergesNoFurther(links: seq<Link>, k: nat, side: nat, r3: seq<int>, r5: seq<int>, q3: seq<int>, q5: seq<int>,
                            next: seq<int>, lab: seq<int>, d: Decomp, next': seq<int>, lab': seq<int>, d': Decomp)
    requires k < |links| && LinksApplied(links, k, r3, r5, q3, q5) && side < 2
    requires d.rid == (if side == 0 then q3 else q5)
    requires links[k].side == side ==>
      links[k].head >= 0 && links[k].tail >= 0 &&
      ConnectedAs(next, lab, d, links[k].head, links[k].tail, next', lab', d')
    requires links[k].side != side ==> d' == d
    ensures forall f | Coarser(if side == 0 then r3 else r5, f) && JoinsLinks(f, links, k + 1, side) :: Coarser(d'.rid, f)
  {
    AppliedFacts(links, k, r3, r5, q3, q5);
    var r0 := if side == 0 then r3 else r5;
    forall f | Coarser(r0, f) && JoinsLinks(f, links, k + 1, side) ensures Coarser(d'.rid, f) {
      assert JoinsLinks(f, links, k, side);
      if links[k].side == side {
        ConnectStaysFiner(next, lab, d, links[k].head, links[k].tail, next', lab', d', f);
      }
    }
  }

  /** Applying link k, as `ConnectLink` does, carries `LinksApplied` past k. */
  lemma LinkApplied(links: seq<Link>, k: nat, r3: seq<int>, r5: seq<int>,
                    n3: seq<int>, l3: seq<int>, d3: Decomp, n5: seq<int>, l5: seq<int>, d5: Decomp,
                    n3': seq<int>, l3': seq<int>, d3': Decomp, n5': seq<int>, l5': seq<int>, d5': Decomp)
    requires k < |links| && LinksApplied(links, k, r3, r5, d3.rid, d5.rid)
    requires Linked(n3, l3, d3) && Linked(n5, l5, d5) && Linked(n3', l3', d3') && Linked(n5', l5', d5')
    requires LinkValid(links[k], |n3|, |n5|) && LinkJoined(links[k], d3'.rid, d5'.rid)
    requires links[k].side == 0 ==> ConnectedAs(n3, l3, d3, links[k].head, links[k].tail, n3', l3', d3') && d5' == d5
    requires links[k].side != 0 ==> ConnectedAs(n5, l5, d5, links[k].head, links[k].tail, n5', l5', d5') && d3' == d3
    ensures LinksApplied(links, k + 1, r3, r5, d3'.rid, d5'.rid)
  {
    LinkMergesNoFurther(links, k, 0, r3, r5, d3.rid, d5.rid, n3, l3, d3, n3', l3', d3');
    LinkMergesNoFurther(links, k, 1, r3, r5, d3.rid, d5.rid, n5, l5, d5, n5', l5', d5');
    LinksStayJoined(links, k, r3, r5, n3, l3, d3, n5, l5, d5, n3', l3', d3', n5', l5', d5');
    AppliedFrom(links, k + 1, r3, r5, d3'.rid, d5'.rid);
  }

  /** `LinksApplied` from what it states. */
  lemma AppliedFrom(links: seq<Link>, k: nat, r3: seq<int>, r5: seq<int>, q3: seq<int>, q5: seq<int>)
    requires k <= |links|
    requires forall j | 0 <= j < k :: LinkJoined(links[j], q3, q5)
    requires Coarser(r3, q3) && Coarser(r5, q5)
    requires forall f | Coarser(r3, f) && JoinsLinks(f, links, k, 0) :: Coarser(q3, f)
    requires forall f | Coarser(r5, f) && JoinsLinks(f, links, k, 1) :: Coarser(q5, f)
    ensures LinksApplied(links, k, r3, r5, q3, q5)
  {
    assert Opened(0);
  }

  /** Applying link k keeps the earlier links joined, joins link k, and only merges rings. */
  lemma LinksStayJoined(links: seq<Link>, k: nat, r3: seq<int>, r5: seq<int>,
                        n3: seq<int>, l3: seq<int>, d3: Decomp, n5: seq<int>, l5: seq<int>, d5: Decomp,
                        n3': seq<int>, l3': seq<int>, d3': Decomp, n5': seq<int>, l5': seq<int>, d5': Decomp)
    requires k < |links| && LinksApplied(links, k, r3, r5, d3.rid, d5.rid)
    requires Linked(n3, l3, d3) && Linked(n5, l5, d5) && Linked(n3', l3', d3') && Linked(n5', l5', d5')
    requires LinkJoined(links[k], d3'.rid, d5'.rid)
    requires links[k].side == 0 ==> ConnectedAs(n3, l3, d3, links[k].head, links[k].tail, n3', l3', d3') && d5' == d5
    requires links[k].side != 0 ==> ConnectedAs(n5, l5, d5, links[k].head, links[k].tail, n5', l5', d5') && d3' == d3
    ensures forall j | 0 <= j < k + 1 :: LinkJoined(links[j], d3'.rid, d5'.rid)
    ensures Coarser(r3, d3'.rid) && Coarser(r5, d5'.rid)
  {
    AppliedFacts(links, k, r3, r5, d3.rid, d5.rid);
    RingIdsCoarser(n3, d3);
    RingIdsCoarser(n5, d5);
    if links[k].side == 0 {
      RingsOnlyMerge(n3, l3, d3, links[k].head, links[k].tail, n3', l3', d3');
    } else {
      RingsOnlyMerge(n5, l5, d5, links[k].head, links[k].tail, n5', l5', d5');
    }
    CoarserTwice(r3, d3.rid, d3'.rid);
    CoarserTwice(r5, d5.rid, d5'.rid);
    forall j | 0 <= j < k ensures LinkJoined(links[j], d3'.rid, d5'.rid) {
      StaysJoined(links[j], d3.rid, d5.rid, d3'.rid, d5'.rid);
    }
  }

  /** Before the first link nothing is applied. */
  lemma NoLinksApplied(links: seq<Link>, n3: seq<int>, d3: Decomp, n5: seq<int>, d5: Decomp)
    requires Decomposes(n3, d3.rid, d3.idx, d3.rings) && Decomposes(n5, d5.rid, d5.idx, d5.rings)
    ensures LinksApplied(links, 0, d3.rid, d5.rid, d3.rid, d5.rid)
  {
    RingIdsCoarser(n3, d3);
    RingIdsCoarser(n5, d5);
    AppliedFrom(links, 0, d3.rid, d5.rid, d3.rid, d5.rid);
  }

  /**
   * The `TGM_ClusterConnect` calls `TGM_SpecialEventMerge` makes during the
   * scan, in the scan's order: each link's head is connected to its tail in
   * the 3' clustering (side 0) or the 5' clustering (side 1).  Afterwards
   * every link's points share a ring, rings have only merged, and they have
   * merged no further than the links force: in each clustering, any grouping
   * that keeps its old rings together and puts each of its links' two points
   * together keeps its new rings together.
   */
  method ApplyLinks(c3: Cluster, c5: Cluster, links: seq<Link>)
    requires c3 != c5 && c3.Valid() && c5.Valid()
    requires forall j | 0 <= j < |links| :: LinkValid(links[j], |c3.next|, |c5.next|)
    modifies c3`next, c3`lab, c3`dec, c5`next, c5`lab, c5`dec
    ensures c3.Valid() && c5.Valid()
    ensures forall j | 0 <= j < |links| :: LinkJoined(links[j], c3.dec.rid, c5.dec.rid)
    ensures Coarser(old(c3.dec.rid), c3.dec.rid) && Coarser(old(c5.dec.rid), c5.dec.rid)
    ensures forall f | Coarser(old(c3.dec.rid), f) && JoinsLinks(f, links, |links|, 0) :: Coarser(c3.dec.rid, f)
    ensures forall f | Coarser(old(c5.dec.rid), f) && JoinsLinks(f, links, |links|, 1) :: Coarser(c5.dec.rid, f)
  {
    ghost var r3, r5 := c3.dec.rid, c5.dec.rid;
    NoLinksApplied(links, c3.next, c3.dec, c5.next, c5.dec);
    var k := 0;
    while k < |links|
      invariant k <= |links| && c3.Valid() && c5.Valid()
      invariant |c3.next| == |old(c3.next)| && |c5.next| == |old(c5.next)|
      invariant LinksApplied(links, k, r3, r5, c3.dec.rid, c5.dec.rid)
    {
      ghost var n3, l3, d3, n5, l5, d5 := c3.next, c3.lab, c3.dec, c5.next, c5.lab, c5.dec;
      ConnectLink(c3, c5, links[k]);
      LinkApplied(links, k, r3, r5, n3, l3, d3, n5, l5, d5, c3.next, c3.lab, c3.dec, c5.next, c5.lab, c5.dec);
      k := k + 1;
    }
    AppliedFacts(links, k, r3, r5, c3.dec.rid, c5.dec.rid);
  }

  /** Ring ids only merge from a decomposition to itself. */
  lemma RingIdsCoarser(next: seq<int>, d: Decomp)
    requires Decomposes(next, d.rid, d.idx, d.rings)
    ensures Coarser(d.rid, d.rid)
  {
    forall x | 0 <= x < |d.rid| ensures 0 <= d.rid[x] < |d.rid| {
      RingIdIsMember(next, d.rid, d.idx, d.rings, x);
    }
  }
}
