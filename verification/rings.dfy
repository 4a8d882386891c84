// The ring structure behind the cluster engine's `pNext` array: every point
// lies on exactly one cycle of `next`.  A ring decomposition names each ring
// by one of its members (its id), lists the ring from that member, and
// records for every point its ring id and its position in the listing.

module Rings {

  /** The member after position k of a ring listed as R. */
  function Succ(R: seq<int>, k: int): int
    requires 0 <= k < |R|
  {
    if k + 1 < |R| then R[k + 1] else R[0]
  }

  /**
   * `rings[r]` lists ring r starting from r; `rid[i]` is the ring of point i
   * and `idx[i]` its position in that listing; `next` steps to the successor.
   */
  ghost predicate Decomposes(next: seq<int>, rid: seq<int>, idx: seq<int>, rings: map<int, seq<int>>)
  {
    |rid| == |next| && |idx| == |next| &&
    (forall r {:trigger rings[r]} | r in rings :: 0 <= r < |next| && |rings[r]| > 0 && rings[r][0] == r) &&
    (forall r, k {:trigger rings[r][k]} | r in rings && 0 <= k < |rings[r]| ::
       0 <= rings[r][k] < |next| && rid[rings[r][k]] == r && idx[rings[r][k]] == k) &&
    (forall i {:trigger rid[i]} {:trigger idx[i]} | 0 <= i < |next| ::
       rid[i] in rings && 0 <= idx[i] < |rings[rid[i]]| && rings[rid[i]][idx[i]] == i) &&
    (forall i {:trigger next[i]} | 0 <= i < |next| ::
       0 <= next[i] < |next| && rid[next[i]] == rid[i] && idx[next[i]] == StepIdx(idx[i], |rings[rid[i]]|))
  }

  /** The position after position k on a ring of length len. */
  function StepIdx(k: int, len: int): int
  {
    if k + 1 < len then k + 1 else 0
  }

  /** Under a decomposition, the successor of the k-th member of ring r is the member after it. */
  lemma SuccOfMember(next: seq<int>, rid: seq<int>, idx: seq<int>, rings: map<int, seq<int>>, r: int, k: int)
    requires Decomposes(next, rid, idx, rings) && r in rings && 0 <= k < |rings[r]|
    ensures next[rings[r][k]] == Succ(rings[r], k)
  {
    var x := rings[r][k];
    var y := next[x];
    assert rings[rid[y]][idx[y]] == y;
  }

  /** The k-th member of ring r is a point whose ring id is r and whose position is k. */
  lemma MemberAt(next: seq<int>, rid: seq<int>, idx: seq<int>, rings: map<int, seq<int>>, r: int, k: int)
    requires Decomposes(next, rid, idx, rings) && r in rings && 0 <= k < |rings[r]|
    ensures 0 <= rings[r][k] < |next| && rid[rings[r][k]] == r && idx[rings[r][k]] == k
  {
  }

  /** `next` maps 0..n-1 one-to-one onto itself. */
  ghost predicate IsPermutation(next: seq<int>)
  {
    (forall i | 0 <= i < |next| :: 0 <= next[i] < |next|) &&
    (forall a, b | 0 <= a < |next| && 0 <= b < |next| && next[a] == next[b] :: a == b)
  }

  /** Every point alone on its own ring: the state `Init` leaves. */
  lemma IdentityDecomposes(next: seq<int>, rid: seq<int>, idx: seq<int>, rings: map<int, seq<int>>)
    requires |rid| == |next| && |idx| == |next|
    requires forall i | 0 <= i < |next| :: next[i] == i && rid[i] == i && idx[i] == 0
    requires forall r :: r in rings <==> 0 <= r < |next|
    requires forall r | r in rings :: rings[r] == [r]
    ensures Decomposes(next, rid, idx, rings)
  {
  }

  /** The decomposition of a `next` that maps every point to itself: ring i is [i]. */
  ghost function SingletonRings(next: seq<int>): (d: (seq<int>, seq<int>, map<int, seq<int>>))
    requires forall i | 0 <= i < |next| :: next[i] == i
    ensures Decomposes(next, d.0, d.1, d.2) && d.0 == next
  {
    var rid, idx, rings := next, seq(|next|, _ => 0), map j | 0 <= j < |next| :: [j];
    IdentityDecomposes(next, rid, idx, rings);
    (rid, idx, rings)
  }

  /** A ring decomposition makes `next` a permutation. */
  lemma DecompositionIsPermutation(next: seq<int>, rid: seq<int>, idx: seq<int>, rings: map<int, seq<int>>)
    requires Decomposes(next, rid, idx, rings)
    ensures IsPermutation(next)
  {
    forall a, b | 0 <= a < |next| && 0 <= b < |next| && next[a] == next[b] ensures a == b {
      var R := rings[rid[a]];
      assert R[idx[a]] == a && rings[rid[b]][idx[b]] == b;
      assert idx[a] == idx[b];
    }
  }

  /** The ring id of a point is a member of the point's ring. */
  lemma {:induction false} RingIdIsMember(next: seq<int>, rid: seq<int>, idx: seq<int>, rings: map<int, seq<int>>, i: int)
    requires Decomposes(next, rid, idx, rings) && 0 <= i < |next|
    ensures 0 <= rid[i] < |next| && rid[rid[i]] == rid[i] && idx[rid[i]] == 0
  {
    var R := rings[rid[i]];
    assert R[0] == rid[i];
  }

  /** How many steps forward position k lies from position p on a ring of length len. */
  function Offset(p: int, k: int, len: int): int
  {
    if k >= p then k - p else k + len - p
  }

  /** Ring R listed from position p. */
  function Rotate(R: seq<int>, p: int): (W: seq<int>)
    requires 0 <= p < |R|
    ensures |W| == |R|
    ensures forall t | 0 <= t < |R| :: W[t] == R[if p + t < |R| then p + t else p + t - |R|]
  {
    R[p..] + R[..p]
  }

  /**
   * The walk from s along `next`: its t-th point is W[t], it stays on s's
   * ring, returns to s exactly after |W| steps, and the ring's point x is
   * reached after Offset(idx[s], idx[x], |W|) steps.
   */
  lemma {:induction false} WalkStep(next: seq<int>, rid: seq<int>, idx: seq<int>, rings: map<int, seq<int>>, s: int, t: int)
    requires Decomposes(next, rid, idx, rings) && 0 <= s < |next|
    requires 0 <= t < |rings[rid[s]]|
    ensures var W := Rotate(rings[rid[s]], idx[s]);
      0 <= W[t] < |next| && rid[W[t]] == rid[s] &&
      Offset(idx[s], idx[W[t]], |W|) == t &&
      next[W[t]] == (if t + 1 < |W| then W[t + 1] else s) &&
      (W[t] == s <==> t == 0)
  {
    var R := rings[rid[s]];
    var p := idx[s];
    var W := Rotate(R, p);
    assert R[p] == s;
    var k := if p + t < |R| then p + t else p + t - |R|;
    assert W[t] == R[k];
    assert rid[s] in rings;
    assert 0 <= k < |R|;
    MemberAt(next, rid, idx, rings, rid[s], k);
    SuccOfMember(next, rid, idx, rings, rid[s], k);
    if t + 1 < |W| {
      var k1 := if p + t + 1 < |R| then p + t + 1 else p + t + 1 - |R|;
      assert W[t + 1] == R[k1];
    }
  }

  lemma {:induction false} WalkReaches(next: seq<int>, rid: seq<int>, idx: seq<int>, rings: map<int, seq<int>>, s: int, x: int)
    requires Decomposes(next, rid, idx, rings) && 0 <= s < |next| && 0 <= x < |next|
    requires rid[x] == rid[s]
    ensures var R := rings[rid[s]];
      0 <= Offset(idx[s], idx[x], |R|) < |R| && Rotate(R, idx[s])[Offset(idx[s], idx[x], |R|)] == x
  {
    var R := rings[rid[s]];
    assert R[idx[x]] == x;
  }

  /** `next` after `Connect(c, m)` joins the rings of c and m. */
  function SplicedNext(next: seq<int>, c: int, m: int): (r: seq<int>)
    requires 0 <= c < |next|
    ensures |r| == |next|
  {
    seq(|next|, x requires 0 <= x < |next| => if x == c then m else if next[x] == m then next[c] else next[x])
  }

  ghost function MergedRid(rid: seq<int>, rc: int, rm: int): (r: seq<int>)
    ensures |r| == |rid|
  {
    seq(|rid|, x requires 0 <= x < |rid| => if rid[x] == rm then rc else rid[x])
  }

  ghost function MergedIdx(rid: seq<int>, idx: seq<int>, rc: int, rm: int, pc: int, pm: int, lenM: int): (r: seq<int>)
    requires |idx| == |rid|
    ensures |r| == |idx|
  {
    seq(|idx|, x requires 0 <= x < |idx| =>
      if rid[x] == rm then pc + 1 + Offset(pm, idx[x], lenM)
      else if rid[x] == rc && idx[x] > pc then idx[x] + lenM
      else idx[x])
  }

  ghost function MergedRings(rings: map<int, seq<int>>, rc: int, rm: int, pc: int, pm: int): map<int, seq<int>>
    requires rc in rings && rm in rings
    requires 0 <= pc < |rings[rc]| && 0 <= pm < |rings[rm]|
  {
    (rings - {rm})[rc := rings[rc][..pc + 1] + Rotate(rings[rm], pm) + rings[rc][pc + 1..]]
  }

  /** The listing of the joined ring: c's ring up to c, m's ring from m, the rest of c's ring. */
  lemma {:induction false} SplicedListing(Rc: seq<int>, W: seq<int>, pc: int, k: int)
    requires 0 <= pc < |Rc| && |W| > 0
    requires 0 <= k < |Rc| + |W|
    ensures var N := Rc[..pc + 1] + W + Rc[pc + 1..];
      |N| == |Rc| + |W| &&
      (k <= pc ==> N[k] == Rc[k]) &&
      (pc < k < pc + 1 + |W| ==> N[k] == W[k - pc - 1]) &&
      (pc + 1 + |W| <= k ==> N[k] == Rc[k - |W|])
  {
  }

  /** Splicing two different rings gives a ring decomposition of the spliced `next`. */
  lemma {:induction false} SpliceDecomposes(next: seq<int>, rid: seq<int>, idx: seq<int>, rings: map<int, seq<int>>, c: int, m: int)
    requires Decomposes(next, rid, idx, rings)
    requires 0 <= c < |next| && 0 <= m < |next| && rid[c] != rid[m]
    ensures var rc, rm := rid[c], rid[m];
      Decomposes(SplicedNext(next, c, m), MergedRid(rid, rc, rm),
                 MergedIdx(rid, idx, rc, rm, idx[c], idx[m], |rings[rm]|),
                 MergedRings(rings, rc, rm, idx[c], idx[m]))
  {
    var rc, rm := rid[c], rid[m];
    var rings' := MergedRings(rings, rc, rm, idx[c], idx[m]);
    assert rings'[rc] == Joined(next, rid, idx, rings, c, m);
    forall r | r in rings'
      ensures 0 <= r < |next| && |rings'[r]| > 0 && rings'[r][0] == r
    {
      if r == rc { JoinedHead(next, rid, idx, rings, c, m, 0); }
    }
    SpliceMembers(next, rid, idx, rings, c, m);
    SplicePoints(next, rid, idx, rings, c, m);
    SpliceSteps(next, rid, idx, rings, c, m);
  }

  lemma {:induction false} SpliceMembers(next: seq<int>, rid: seq<int>, idx: seq<int>, rings: map<int, seq<int>>, c: int, m: int)
    requires Decomposes(next, rid, idx, rings)
    requires 0 <= c < |next| && 0 <= m < |next| && rid[c] != rid[m]
    ensures var rc, rm := rid[c], rid[m];
      var rid', idx' := MergedRid(rid, rc, rm), MergedIdx(rid, idx, rc, rm, idx[c], idx[m], |rings[rm]|);
      var rings' := MergedRings(rings, rc, rm, idx[c], idx[m]);
      forall r, k {:trigger rings'[r][k]} | r in rings' && 0 <= k < |rings'[r]| ::
        0 <= rings'[r][k] < |next| && rid'[rings'[r][k]] == r && idx'[rings'[r][k]] == k
  {
    var rc, rm := rid[c], rid[m];
    var rid', idx' := MergedRid(rid, rc, rm), MergedIdx(rid, idx, rc, rm, idx[c], idx[m], |rings[rm]|);
    var rings' := MergedRings(rings, rc, rm, idx[c], idx[m]);
    forall r, k | r in rings' && 0 <= k < |rings'[r]|
      ensures 0 <= rings'[r][k] < |next| && rid'[rings'[r][k]] == r && idx'[rings'[r][k]] == k
    {
      if r == rc {
        SplicedJoinedAt(next, rid, idx, rings, c, m, k);
        assert rings'[r] == Joined(next, rid, idx, rings, c, m);
      } else {
        var x := rings[r][k];
        assert rid[x] == r && r != rm;
      }
    }
  }

  lemma {:induction false} SplicePoints(next: seq<int>, rid: seq<int>, idx: seq<int>, rings: map<int, seq<int>>, c: int, m: int)
    requires Decomposes(next, rid, idx, rings)
    requires 0 <= c < |next| && 0 <= m < |next| && rid[c] != rid[m]
    ensures var rc, rm := rid[c], rid[m];
      var rid', idx' := MergedRid(rid, rc, rm), MergedIdx(rid, idx, rc, rm, idx[c], idx[m], |rings[rm]|);
      var rings' := MergedRings(rings, rc, rm, idx[c], idx[m]);
      forall i {:trigger rid'[i]} | 0 <= i < |next| ::
        rid'[i] in rings' && 0 <= idx'[i] < |rings'[rid'[i]]| && rings'[rid'[i]][idx'[i]] == i
  {
    var rc, rm := rid[c], rid[m];
    var pc, pm := idx[c], idx[m];
    var Rc, Rm := rings[rc], rings[rm];
    var W := Rotate(Rm, pm);
    var rid', idx' := MergedRid(rid, rc, rm), MergedIdx(rid, idx, rc, rm, pc, pm, |Rm|);
    var rings' := MergedRings(rings, rc, rm, pc, pm);
    assert rings'[rc] == Rc[..pc + 1] + W + Rc[pc + 1..];
    assert 0 <= pc < |Rc|;
    forall i | 0 <= i < |next|
      ensures rid'[i] in rings' && 0 <= idx'[i] < |rings'[rid'[i]]| && rings'[rid'[i]][idx'[i]] == i
    {
      assert rings[rid[i]][idx[i]] == i;
      if rid[i] == rm {
        WalkReaches(next, rid, idx, rings, m, i);
        var t := Offset(pm, idx[i], |Rm|);
        SplicedListing(Rc, W, pc, pc + 1 + t);
      } else if rid[i] == rc {
        if idx[i] > pc {
          SplicedListing(Rc, W, pc, idx[i] + |W|);
        } else {
          SplicedListing(Rc, W, pc, idx[i]);
        }
      }
    }
  }

  lemma {:induction false} SpliceSteps(next: seq<int>, rid: seq<int>, idx: seq<int>, rings: map<int, seq<int>>, c: int, m: int)
    requires Decomposes(next, rid, idx, rings)
    requires 0 <= c < |next| && 0 <= m < |next| && rid[c] != rid[m]
    ensures var rc, rm := rid[c], rid[m];
      var next' := SplicedNext(next, c, m);
      var rid', idx' := MergedRid(rid, rc, rm), MergedIdx(rid, idx, rc, rm, idx[c], idx[m], |rings[rm]|);
      var rings' := MergedRings(rings, rc, rm, idx[c], idx[m]);
      forall i {:trigger next'[i]} | 0 <= i < |next| ::
        0 <= next'[i] < |next| && rid'[next'[i]] == rid'[i] &&
        idx'[next'[i]] == StepIdx(idx'[i], |rings'[rid'[i]]|)
  {
    var rc, rm := rid[c], rid[m];
    var next' := SplicedNext(next, c, m);
    var rid', idx' := MergedRid(rid, rc, rm), MergedIdx(rid, idx, rc, rm, idx[c], idx[m], |rings[rm]|);
    var rings' := MergedRings(rings, rc, rm, idx[c], idx[m]);
    var N := Joined(next, rid, idx, rings, c, m);
    assert rings'[rc] == N;
    SplicePoints(next, rid, idx, rings, c, m);
    forall i | 0 <= i < |next|
      ensures 0 <= next'[i] < |next| && rid'[next'[i]] == rid'[i] &&
              idx'[next'[i]] == StepIdx(idx'[i], |rings'[rid'[i]]|)
    {
      if rid[i] != rc && rid[i] != rm {
        assert i != c && next[i] != m;
        assert next'[i] == next[i];
      } else {
        var k := idx'[i];
        assert rid'[i] == rc;
        assert N[k] == i;
        SplicedJoinedAt(next, rid, idx, rings, c, m, k);
        SplicedJoinedAt(next, rid, idx, rings, c, m, StepIdx(k, |N|));
      }
    }
  }

  /** The listing of the ring that `Connect(c, m)` forms from two different rings. */
  ghost function Joined(next: seq<int>, rid: seq<int>, idx: seq<int>, rings: map<int, seq<int>>, c: int, m: int): (N: seq<int>)
    requires Decomposes(next, rid, idx, rings)
    requires 0 <= c < |next| && 0 <= m < |next|
    ensures |N| == |rings[rid[c]]| + |rings[rid[m]]|
  {
    var Rc := rings[rid[c]];
    Rc[..idx[c] + 1] + Rotate(rings[rid[m]], idx[m]) + Rc[idx[c] + 1..]
  }

  /** Position k of the joined ring: c's ring up to c, then m's ring from m, then the rest of c's. */
  lemma JoinedListing(next: seq<int>, rid: seq<int>, idx: seq<int>, rings: map<int, seq<int>>, c: int, m: int, k: int)
    requires Decomposes(next, rid, idx, rings)
    requires 0 <= c < |next| && 0 <= m < |next|
    requires 0 <= k < |rings[rid[c]]| + |rings[rid[m]]|
    ensures var N, Rc, W, pc := Joined(next, rid, idx, rings, c, m), rings[rid[c]], Rotate(rings[rid[m]], idx[m]), idx[c];
      (k <= pc ==> N[k] == Rc[k]) &&
      (pc < k < pc + 1 + |W| ==> N[k] == W[k - pc - 1]) &&
      (pc + 1 + |W| <= k ==> N[k] == Rc[k - |W|])
  {
    assert 0 <= idx[c] < |rings[rid[c]]|;
    SplicedListing(rings[rid[c]], Rotate(rings[rid[m]], idx[m]), idx[c], k);
  }

  /** What position k of the joined ring must satisfy in the new state. */
  ghost predicate JoinedOk(next: seq<int>, rid: seq<int>, idx: seq<int>, rings: map<int, seq<int>>, c: int, m: int, k: int)
    requires Decomposes(next, rid, idx, rings)
    requires 0 <= c < |next| && 0 <= m < |next| && rid[c] != rid[m]
    requires 0 <= k < |rings[rid[c]]| + |rings[rid[m]]|
  {
    var N := Joined(next, rid, idx, rings, c, m);
    var x := N[k];
    0 <= x < |next| &&
    MergedRid(rid, rid[c], rid[m])[x] == rid[c] &&
    MergedIdx(rid, idx, rid[c], rid[m], idx[c], idx[m], |rings[rid[m]]|)[x] == k &&
    SplicedNext(next, c, m)[x] == Succ(N, k)
  }

  /** One position k of the joined ring satisfies the decomposition conditions. */
  lemma {:induction false} SplicedJoinedAt(next: seq<int>, rid: seq<int>, idx: seq<int>, rings: map<int, seq<int>>, c: int, m: int, k: int)
    requires Decomposes(next, rid, idx, rings)
    requires 0 <= c < |next| && 0 <= m < |next| && rid[c] != rid[m]
    requires 0 <= k < |rings[rid[c]]| + |rings[rid[m]]|
    ensures JoinedOk(next, rid, idx, rings, c, m, k)
  {
    if k <= idx[c] {
      JoinedHead(next, rid, idx, rings, c, m, k);
    } else if k < idx[c] + 1 + |rings[rid[m]]| {
      JoinedMiddle(next, rid, idx, rings, c, m, k);
    } else {
      JoinedTail(next, rid, idx, rings, c, m, k);
    }
  }

  lemma {:induction false} JoinedHead(next: seq<int>, rid: seq<int>, idx: seq<int>, rings: map<int, seq<int>>, c: int, m: int, k: int)
    requires Decomposes(next, rid, idx, rings)
    requires 0 <= c < |next| && 0 <= m < |next| && rid[c] != rid[m]
    requires 0 <= k <= idx[c]
    ensures JoinedOk(next, rid, idx, rings, c, m, k)
  {
    var rc, rm := rid[c], rid[m];
    var pc, pm := idx[c], idx[m];
    var Rc, Rm := rings[rc], rings[rm];
    var W := Rotate(Rm, pm);
    var N := Joined(next, rid, idx, rings, c, m);
    assert 0 <= pc < |Rc|;
    JoinedListing(next, rid, idx, rings, c, m, k);
    assert Rc[pc] == c;
    var x := N[k];
    assert x == Rc[k] && idx[x] == k && rid[x] == rc;
    SuccOfMember(next, rid, idx, rings, rc, k);
    if k < pc {
      JoinedListing(next, rid, idx, rings, c, m, k + 1);
      assert next[x] == Rc[k + 1] && rid[Rc[k + 1]] == rc;
    } else {
      JoinedListing(next, rid, idx, rings, c, m, pc + 1);
      assert Rm[pm] == m;
      assert N[pc + 1] == W[0] == m;
    }
  }

  lemma {:induction false} JoinedMiddle(next: seq<int>, rid: seq<int>, idx: seq<int>, rings: map<int, seq<int>>, c: int, m: int, k: int)
    requires Decomposes(next, rid, idx, rings)
    requires 0 <= c < |next| && 0 <= m < |next| && rid[c] != rid[m]
    requires idx[c] < k < idx[c] + 1 + |rings[rid[m]]|
    ensures JoinedOk(next, rid, idx, rings, c, m, k)
  {
    if k < idx[c] + |rings[rid[m]]| {
      JoinedInner(next, rid, idx, rings, c, m, k);
    } else {
      JoinedLast(next, rid, idx, rings, c, m, k);
    }
  }

  /** A point of m's ring other than the last one walked keeps its successor. */
  lemma {:induction false} JoinedInner(next: seq<int>, rid: seq<int>, idx: seq<int>, rings: map<int, seq<int>>, c: int, m: int, k: int)
    requires Decomposes(next, rid, idx, rings)
    requires 0 <= c < |next| && 0 <= m < |next| && rid[c] != rid[m]
    requires idx[c] < k < idx[c] + |rings[rid[m]]|
    ensures JoinedOk(next, rid, idx, rings, c, m, k)
  {
    var pc, pm := idx[c], idx[m];
    var Rc, Rm := rings[rid[c]], rings[rid[m]];
    var W := Rotate(Rm, pm);
    var N := Joined(next, rid, idx, rings, c, m);
    assert 0 <= pc < |Rc|;
    JoinedListing(next, rid, idx, rings, c, m, k);
    var x := N[k];
    var t := k - pc - 1;
    WalkStep(next, rid, idx, rings, m, t);
    assert x == W[t];
    assert x != c;
    JoinedListing(next, rid, idx, rings, c, m, k + 1);
    WalkStep(next, rid, idx, rings, m, t + 1);
    assert next[x] == W[t + 1] && W[t + 1] != m;
  }

  /** The last point walked on m's ring takes c's old successor. */
  lemma {:induction false} JoinedLast(next: seq<int>, rid: seq<int>, idx: seq<int>, rings: map<int, seq<int>>, c: int, m: int, k: int)
    requires Decomposes(next, rid, idx, rings)
    requires 0 <= c < |next| && 0 <= m < |next| && rid[c] != rid[m]
    requires k == idx[c] + |rings[rid[m]]|
    ensures JoinedOk(next, rid, idx, rings, c, m, k)
  {
    var rc := rid[c];
    var pc, pm := idx[c], idx[m];
    var Rc, Rm := rings[rc], rings[rid[m]];
    var W := Rotate(Rm, pm);
    var N := Joined(next, rid, idx, rings, c, m);
    assert 0 <= pc < |Rc|;
    JoinedListing(next, rid, idx, rings, c, m, k);
    var x := N[k];
    var t := k - pc - 1;
    WalkStep(next, rid, idx, rings, m, t);
    assert x == W[t];
    assert x != c;
    assert next[x] == m;
    SuccOfMember(next, rid, idx, rings, rc, pc);
    assert Rc[pc] == c;
    if k + 1 < |N| {
      JoinedListing(next, rid, idx, rings, c, m, k + 1);
    } else {
      JoinedListing(next, rid, idx, rings, c, m, 0);
    }
  }

  lemma {:induction false} JoinedTail(next: seq<int>, rid: seq<int>, idx: seq<int>, rings: map<int, seq<int>>, c: int, m: int, k: int)
    requires Decomposes(next, rid, idx, rings)
    requires 0 <= c < |next| && 0 <= m < |next| && rid[c] != rid[m]
    requires idx[c] + 1 + |rings[rid[m]]| <= k < |rings[rid[c]]| + |rings[rid[m]]|
    ensures JoinedOk(next, rid, idx, rings, c, m, k)
  {
    var rc, rm := rid[c], rid[m];
    var pc, pm := idx[c], idx[m];
    var Rc, Rm := rings[rc], rings[rm];
    var W := Rotate(Rm, pm);
    var N := Joined(next, rid, idx, rings, c, m);
    assert 0 <= pc < |Rc|;
    JoinedListing(next, rid, idx, rings, c, m, k);
    var x := N[k];
    var j := k - |W|;
    assert x == Rc[j] && idx[x] == j && rid[x] == rc && j > pc;
    SuccOfMember(next, rid, idx, rings, rc, j);
    assert x != c;
    assert rid[next[x]] == rc;
    if k + 1 < |N| {
      JoinedListing(next, rid, idx, rings, c, m, k + 1);
    } else {
      JoinedListing(next, rid, idx, rings, c, m, 0);
    }
  }

  /** How many of the first i entries of s equal v. */
  function CountOf(s: seq<int>, v: int, i: nat): (c: nat)
    requires i <= |s|
    ensures c <= i
  {
    if i == 0 then 0 else CountOf(s, v, i - 1) + (if s[i - 1] == v then 1 else 0)
  }

  /** A list with an entry equal to v among its first i counts v at least once. */
  lemma {:induction false} CountOfPositive(s: seq<int>, v: int, i: nat, j: nat)
    requires j < i <= |s| && s[j] == v
    ensures CountOf(s, v, i) > 0
  {
    if j < i - 1 {
      CountOfPositive(s, v, i - 1, j);
    }
  }

  lemma {:induction false} CountOfIsCard(s: seq<int>, v: int, i: nat)
    requires i <= |s|
    ensures CountOf(s, v, i) == |set j | 0 <= j < i && s[j] == v|
  {
    if i > 0 {
      CountOfIsCard(s, v, i - 1);
      var A := set j | 0 <= j < i - 1 && s[j] == v;
      var B := set j | 0 <= j < i && s[j] == v;
      if s[i - 1] == v {
        assert B == A + {i - 1};
      } else {
        assert B == A;
      }
    }
  }

  /** The first m entries of a list without repeats form a set of m points. */
  lemma {:induction false} DistinctImageCard(R: seq<int>, m: nat)
    requires m <= |R|
    requires forall a, b | 0 <= a < b < |R| :: R[a] != R[b]
    ensures |set k | 0 <= k < m :: R[k]| == m
  {
    if m > 0 {
      DistinctImageCard(R, m - 1);
      var A := set k | 0 <= k < m - 1 :: R[k];
      var B := set k | 0 <= k < m :: R[k];
      assert B == A + {R[m - 1]};
      assert R[m - 1] !in A;
    }
  }

  /** The number of points whose ring id is r is the length of ring r. */
  lemma RingSizeIsCount(next: seq<int>, rid: seq<int>, idx: seq<int>, rings: map<int, seq<int>>, r: int)
    requires Decomposes(next, rid, idx, rings) && r in rings
    ensures CountOf(rid, r, |rid|) == |rings[r]|
  {
    var R := rings[r];
    var A := set j | 0 <= j < |rid| && rid[j] == r;
    var B := set k | 0 <= k < |R| :: R[k];
    forall j | j in A ensures j in B {
      assert R[idx[j]] == j;
    }
    forall a, b | 0 <= a < b < |R| ensures R[a] != R[b] {
      assert idx[R[a]] == a && idx[R[b]] == b;
    }
    assert A == B;
    CountOfIsCard(rid, r, |rid|);
    DistinctImageCard(R, |R|);
  }
}
