// The walk `Connect(c, m)` makes around m's ring (TGM_Cluster.c): it relabels
// the points it passes and, at the end, either splices m's ring into c's or
// leaves a shared ring as it was.  Everything here is stated on the ring
// decomposition of module Rings.

module RingWalk {
  import opened Rings

  /** The t-th point of the walk from s along `next`. */
  ghost function WalkAt(next: seq<int>, rid: seq<int>, idx: seq<int>, rings: map<int, seq<int>>, s: int, t: int): (w: int)
    requires Decomposes(next, rid, idx, rings) && 0 <= s < |next|
    requires 0 <= t < |rings[rid[s]]|
    ensures 0 <= w < |next| && rid[w] == rid[s]
  {
    WalkStep(next, rid, idx, rings, s, t);
    Rotate(rings[rid[s]], idx[s])[t]
  }

  /**
   * How many steps from m the walk of `Connect(c, m)` goes before it stops:
   * to c when c is on m's ring, otherwise once around the ring.
   */
  ghost function Reach(next: seq<int>, rid: seq<int>, idx: seq<int>, rings: map<int, seq<int>>, c: int, m: int): (r: int)
    requires Decomposes(next, rid, idx, rings) && 0 <= c < |next| && 0 <= m < |next|
    ensures 0 <= r < |rings[rid[m]]|
  {
    var R := rings[rid[m]];
    if rid[c] == rid[m] then Offset(idx[m], idx[c], |R|) else |R| - 1
  }

  /**
   * The stretch of m's ring that `Connect(c, m)` relabels: the whole ring
   * when c lies on another ring, and the points from m up to c when they
   * share one.
   */
  ghost predicate OnStretch(next: seq<int>, rid: seq<int>, idx: seq<int>, rings: map<int, seq<int>>, c: int, m: int, x: int)
    requires Decomposes(next, rid, idx, rings)
    requires 0 <= c < |next| && 0 <= m < |next| && 0 <= x < |next|
  {
    c != m && rid[x] == rid[m] &&
    Offset(idx[m], idx[x], |rings[rid[m]]|) <= Reach(next, rid, idx, rings, c, m)
  }

  /** The labels after the first t steps of the walk from m have written v. */
  ghost function Relabelled(next: seq<int>, rid: seq<int>, idx: seq<int>, rings: map<int, seq<int>>, lab: seq<int>, m: int, t: int, v: int): (r: seq<int>)
    requires Decomposes(next, rid, idx, rings) && 0 <= m < |next| && |lab| == |next|
    ensures |r| == |lab|
  {
    seq(|lab|, x requires 0 <= x < |lab| =>
      if rid[x] == rid[m] && Offset(idx[m], idx[x], |rings[rid[m]]|) < t then v else lab[x])
  }

  /** The labels `Connect(c, m)` leaves: c's label over the stretch, the rest unchanged. */
  ghost function Stretched(next: seq<int>, rid: seq<int>, idx: seq<int>, rings: map<int, seq<int>>, lab: seq<int>, c: int, m: int): (r: seq<int>)
    requires Decomposes(next, rid, idx, rings) && 0 <= c < |next| && 0 <= m < |next| && |lab| == |next|
    ensures |r| == |lab|
    ensures forall x | 0 <= x < |r| :: r[x] == lab[c] || r[x] == lab[x]
  {
    seq(|lab|, x requires 0 <= x < |lab| => if OnStretch(next, rid, idx, rings, c, m, x) then lab[c] else lab[x])
  }

  /** The walk starts at m, having relabelled nothing. */
  lemma WalkStarts(next: seq<int>, rid: seq<int>, idx: seq<int>, rings: map<int, seq<int>>, lab: seq<int>, m: int, v: int)
    requires Decomposes(next, rid, idx, rings) && 0 <= m < |next| && |lab| == |next|
    ensures WalkAt(next, rid, idx, rings, m, 0) == m
    ensures Relabelled(next, rid, idx, rings, lab, m, 0, v) == lab
  {
    WalkStep(next, rid, idx, rings, m, 0);
    forall x | 0 <= x < |lab| && rid[x] == rid[m]
      ensures Offset(idx[m], idx[x], |rings[rid[m]]|) >= 0
    {
      WalkReaches(next, rid, idx, rings, m, x);
    }
  }

  /**
   * While `next[c := m]` has not led back to m, the walk has not reached its
   * end, and one more step moves to the next point of m's ring.
   */
  lemma WalkContinues(next: seq<int>, rid: seq<int>, idx: seq<int>, rings: map<int, seq<int>>, c: int, m: int, t: int)
    requires Decomposes(next, rid, idx, rings)
    requires 0 <= c < |next| && 0 <= m < |next| && c != m
    requires 0 <= t <= Reach(next, rid, idx, rings, c, m)
    requires next[c := m][WalkAt(next, rid, idx, rings, m, t)] != m
    ensures t < Reach(next, rid, idx, rings, c, m)
    ensures next[c := m][WalkAt(next, rid, idx, rings, m, t)] == WalkAt(next, rid, idx, rings, m, t + 1)
  {
    var reach := Reach(next, rid, idx, rings, c, m);
    if rid[c] == rid[m] {
      WalkReaches(next, rid, idx, rings, m, c);
    }
    WalkStep(next, rid, idx, rings, m, reach);
    WalkStep(next, rid, idx, rings, m, t);
    assert t < reach;
    WalkStep(next, rid, idx, rings, m, t + 1);
  }

  /** Each step of the walk from m relabels one more point: the t-th. */
  lemma RelabelStep(next: seq<int>, rid: seq<int>, idx: seq<int>, rings: map<int, seq<int>>, lab: seq<int>, m: int, t: int, v: int)
    requires Decomposes(next, rid, idx, rings) && 0 <= m < |next| && |lab| == |next|
    requires 0 <= t < |rings[rid[m]]|
    ensures Relabelled(next, rid, idx, rings, lab, m, t + 1, v)
         == Relabelled(next, rid, idx, rings, lab, m, t, v)[WalkAt(next, rid, idx, rings, m, t) := v]
  {
    WalkStep(next, rid, idx, rings, m, t);
    var w := WalkAt(next, rid, idx, rings, m, t);
    var A := Relabelled(next, rid, idx, rings, lab, m, t + 1, v);
    var B := Relabelled(next, rid, idx, rings, lab, m, t, v)[w := v];
    forall x | 0 <= x < |lab| ensures A[x] == B[x] {
      if rid[x] == rid[m] {
        WalkReaches(next, rid, idx, rings, m, x);
      }
    }
  }

  /**
   * When `next[c := m]` leads back to m, the walk is at its end, and
   * pointing the last point at c's old successor either restores `next` (one
   * ring) or splices the two rings.
   */
  lemma WalkEnds(next: seq<int>, rid: seq<int>, idx: seq<int>, rings: map<int, seq<int>>, c: int, m: int, t: int)
    requires Decomposes(next, rid, idx, rings)
    requires 0 <= c < |next| && 0 <= m < |next| && c != m
    requires 0 <= t <= Reach(next, rid, idx, rings, c, m)
    requires next[c := m][WalkAt(next, rid, idx, rings, m, t)] == m
    ensures t == Reach(next, rid, idx, rings, c, m)
    ensures next[c := m][WalkAt(next, rid, idx, rings, m, t) := next[c]]
         == if rid[c] == rid[m] then next else SplicedNext(next, c, m)
  {
    var reach := Reach(next, rid, idx, rings, c, m);
    if rid[c] == rid[m] {
      WalkReaches(next, rid, idx, rings, m, c);
    }
    WalkStep(next, rid, idx, rings, m, t);
    var w := WalkAt(next, rid, idx, rings, m, t);
    if t < reach {
      WalkStep(next, rid, idx, rings, m, t + 1);
    }
    assert t == reach;
    var N := next[c := m][w := next[c]];
    if rid[c] == rid[m] {
      assert w == c;
    } else {
      DecompositionIsPermutation(next, rid, idx, rings);
      assert next[w] == m;
      forall x | 0 <= x < |next| ensures N[x] == SplicedNext(next, c, m)[x] {
      }
    }
  }

  /** At the walk's end, the labels written so far plus the last point's are the stretch. */
  lemma StretchEnds(next: seq<int>, rid: seq<int>, idx: seq<int>, rings: map<int, seq<int>>, lab: seq<int>, c: int, m: int)
    requires Decomposes(next, rid, idx, rings)
    requires 0 <= c < |next| && 0 <= m < |next| && c != m && |lab| == |next|
    ensures var t := Reach(next, rid, idx, rings, c, m);
      Relabelled(next, rid, idx, rings, lab, m, t, lab[c])[WalkAt(next, rid, idx, rings, m, t) := lab[c]]
         == Stretched(next, rid, idx, rings, lab, c, m)
  {
    var t := Reach(next, rid, idx, rings, c, m);
    if rid[c] == rid[m] {
      WalkReaches(next, rid, idx, rings, m, c);
    }
    WalkStep(next, rid, idx, rings, m, t);
    var w := WalkAt(next, rid, idx, rings, m, t);
    var A := Relabelled(next, rid, idx, rings, lab, m, t, lab[c])[w := lab[c]];
    var S := Stretched(next, rid, idx, rings, lab, c, m);
    forall x | 0 <= x < |lab| ensures A[x] == S[x] {
      if rid[x] == rid[m] {
        WalkReaches(next, rid, idx, rings, m, x);
      }
    }
  }

  /** Labels that are ring ids stay ring ids when `Connect` relabels a stretch with c's label. */
  lemma StretchedRingIds(next: seq<int>, rid: seq<int>, idx: seq<int>, rings: map<int, seq<int>>, c: int, m: int)
    requires Decomposes(next, rid, idx, rings) && 0 <= c < |next| && 0 <= m < |next|
    ensures Stretched(next, rid, idx, rings, rid, c, m) == if rid[c] == rid[m] then rid else MergedRid(rid, rid[c], rid[m])
  {
    var S := Stretched(next, rid, idx, rings, rid, c, m);
    var T := if rid[c] == rid[m] then rid else MergedRid(rid, rid[c], rid[m]);
    forall x | 0 <= x < |rid| ensures S[x] == T[x] {
      if rid[x] == rid[m] {
        WalkReaches(next, rid, idx, rings, m, x);
      }
    }
  }

  /** The rings `Connect(c, m)` leaves form a ring decomposition of the new `next`. */
  lemma RingsAfterConnect(next0: seq<int>, rid0: seq<int>, idx0: seq<int>, rings0: map<int, seq<int>>, c: int, m: int,
                          next: seq<int>, rid: seq<int>, idx: seq<int>, rings: map<int, seq<int>>)
    requires Decomposes(next0, rid0, idx0, rings0) && 0 <= c < |next0| && 0 <= m < |next0|
    requires rid0[c] == rid0[m] ==> next == next0 && rid == rid0 && idx == idx0 && rings == rings0
    requires rid0[c] != rid0[m] ==>
      next == SplicedNext(next0, c, m) && rid == MergedRid(rid0, rid0[c], rid0[m]) &&
      idx == MergedIdx(rid0, idx0, rid0[c], rid0[m], idx0[c], idx0[m], |rings0[rid0[m]]|) &&
      rings == MergedRings(rings0, rid0[c], rid0[m], idx0[c], idx0[m])
    ensures Decomposes(next, rid, idx, rings)
  {
    if rid0[c] != rid0[m] {
      SpliceDecomposes(next0, rid0, idx0, rings0, c, m);
    }
  }

  /**
   * `Connect(c, m)` puts c and m on one ring and only ever merges rings:
   * every point's new ring is the new ring of its old ring's id.
   */
  lemma ConnectOnlyMerges(next0: seq<int>, rid0: seq<int>, idx0: seq<int>, rings0: map<int, seq<int>>, c: int, m: int, rid: seq<int>)
    requires Decomposes(next0, rid0, idx0, rings0) && 0 <= c < |next0| && 0 <= m < |next0|
    requires rid == if rid0[c] == rid0[m] then rid0 else MergedRid(rid0, rid0[c], rid0[m])
    ensures rid[c] == rid[m]
    ensures forall x | 0 <= x < |rid0| :: rid[x] == rid[rid0[x]]
  {
    forall x | 0 <= x < |rid0| ensures rid[x] == rid[rid0[x]] {
      RingIdIsMember(next0, rid0, idx0, rings0, x);
    }
  }
}
