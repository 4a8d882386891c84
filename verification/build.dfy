// Classifying a read pair and storing it in the read-pair table: the type
// decision, the mapping-quality filter, the per-type arrays that grow by
// doubling and count their pairs per chromosome, and the special-pair table
// that interns special-reference names (TGM_ReadPairBuild.c).

module ReadPairBuild {
  import opened Numeric
  import opened PairRecords

  /** Initial capacity of each pair array. */
  const DEFAULT_RP_INFO_CAPACITY: nat := 50
  /** Initial number of name slots of the special-pair table. */
  const DEFAULT_RP_TABLE_CAPACITY: nat := 10

  // ---------------------------------------------------------------------
  // What the builder reads about a pair

  /** A special-reference name from a ZA tag: two characters; a name whose first character is a blank is empty. */
  datatype SpName = SpName(c0: char, c1: char)

  predicate IsSet(n: SpName)
  {
    n.c0 != ' '
  }

  /** The fields of a ZA tag the builder reads; slot 0 is the up mate, slot 1 the down mate. */
  datatype ZATag = ZATag(spRef: Two<SpName>, bestMQ: Two<int>, end: Two<int>, numMM: Two<int>, numMappings: Two<int>)

  /** `TGM_PairStats`: fragment length (-1 when the mates lie on different references), read group and pair mode. */
  datatype PairStats = PairStats(fragLen: int, readGrpID: nat, pairMode: PairMode)

  /**
   * The fields of a BAM alignment the builder reads.  `calEnd` (the alignment
   * end) and `numMM` (its mismatch count) are computed outside this model.
   */
  datatype Alignment = Alignment(tid: int, pos: int, mtid: int, mpos: int, qual: int, calEnd: int, numMM: int)

  /** `TGM_MateInfo`: what was kept of the up mate when the pair is completed by its down mate. */
  datatype MateInfo = MateInfo(upEnd: int, numMM: int, mapQ: int)

  datatype Strand = Forward | Reverse

  /** The strand of the upstream mate, the first strand letter of the pair mode's name. */
  function UpStrand(m: PairMode): Option<Strand>
  {
    match m
    case M1F2F | M1F2R | M2F1F | M2F1R => Some(Forward)
    case M1R2F | M1R2R | M2R1F | M2R1R => Some(Reverse)
    case OtherMode(_) => None
  }

  /** The strand of the downstream mate, the second strand letter of the pair mode's name. */
  function DownStrand(m: PairMode): Option<Strand>
  {
    match m
    case M1F2F | M1R2F | M2F1F | M2R1F => Some(Forward)
    case M1F2R | M1R2R | M2F1R | M2R1R => Some(Reverse)
    case OtherMode(_) => None
  }

  // ---------------------------------------------------------------------
  // The type of a pair

  /** The ZA tag decides the type: it is present and names a special reference for at least one mate. */
  predicate ZaDecides(za: Option<ZATag>)
  {
    za.Some? && (IsSet(za.value.spRef.first) || IsSet(za.value.spRef.second))
  }

  /** The slot of the anchor, the mate without a special-reference name. */
  function AnchorSlot(za: ZATag): (a: nat)
    ensures a < 2
  {
    if IsSet(za.spRef.first) then 1 else 0
  }

  /** Exactly one mate hits a special reference and the anchor maps with at least `minSpMQ`. */
  predicate Anchored(za: ZATag, minSpMQ: int)
  {
    IsSet(za.spRef.first) != IsSet(za.spRef.second) && Slot(za.bestMQ, AnchorSlot(za)) >= minSpMQ
  }

  /** The strand of the anchor in the pair's mode. */
  function AnchorStrand(za: ZATag, m: PairMode): Option<Strand>
  {
    if AnchorSlot(za) == 0 then UpStrand(m) else DownStrand(m)
  }

  predicate IsSpecialType(t: ReadPairType)
  {
    t == Special3 || t == Special5
  }

  /**
   * `TGM_CheckReadPairType`.  `types` holds the two entries of the pair
   * mode's column of the orientation table, and `lib` the fragment-length
   * statistics of the pair's read group.  A ZA tag naming special references
   * makes the pair special (anchor on the forward strand: SPECIAL3, reverse:
   * SPECIAL5) or unknown; otherwise different references make it a cross
   * pair, a normal orientation classifies it by fragment length, and an
   * abnormal one takes the single known orientation type.
   */
  function CheckReadPairType(za: Option<ZATag>, stats: PairStats, lib: LibInfo, types: Two<ReadPairType>, minSpMQ: int): (t: ReadPairType)
    ensures ZaDecides(za) ==> t == Special3 || t == Special5 || t == Unknown
    ensures ZaDecides(za) ==>
              (t == Special3 <==> Anchored(za.value, minSpMQ) && AnchorStrand(za.value, stats.pairMode) == Some(Forward))
    ensures ZaDecides(za) ==>
              (t == Special5 <==> Anchored(za.value, minSpMQ) && AnchorStrand(za.value, stats.pairMode) == Some(Reverse))
    ensures IsSpecialType(t) ==> ZaDecides(za) || IsSpecialType(types.first) || IsSpecialType(types.second)
    ensures !ZaDecides(za) && stats.fragLen == -1 ==> t == Cross
    ensures !ZaDecides(za) && stats.fragLen != -1 && (types.first == Normal || types.second == Normal) ==>
              (t == Long <==> stats.fragLen > lib.high)
              && (t == Short <==> stats.fragLen <= lib.high && stats.fragLen < lib.low)
              && (t == Normal <==> lib.low <= stats.fragLen <= lib.high)
    ensures !ZaDecides(za) && stats.fragLen != -1 && types.first != Normal && types.second != Normal ==>
              (t != Unknown <==> (types.first == Unknown) != (types.second == Unknown))
              && (t != Unknown ==> t == types.first || t == types.second)
  {
    if za.Some? && IsSet(za.value.spRef.first) && IsSet(za.value.spRef.second) then
      Unknown
    else if za.Some? && !IsSet(za.value.spRef.first) && IsSet(za.value.spRef.second) then
      if za.value.bestMQ.first >= minSpMQ then
        match stats.pairMode
        case M1F2F | M1F2R | M2F1F | M2F1R => Special3
        case M1R2F | M1R2R | M2R1F | M2R1R => Special5
        case OtherMode(_) => Unknown
      else
        Unknown
    else if za.Some? && IsSet(za.value.spRef.first) && !IsSet(za.value.spRef.second) then
      if za.value.bestMQ.second >= minSpMQ then
        match stats.pairMode
        case M2F1F | M2R1F | M1F2F | M1R2F => Special3
        case M2F1R | M2R1R | M1F2R | M1R2R => Special5
        case OtherMode(_) => Unknown
      else
        Unknown
    else if stats.fragLen == -1 then
      Cross
    else if types.first == Normal || types.second == Normal then
      if stats.fragLen > lib.high then Long
      else if stats.fragLen < lib.low then Short
      else Normal
    else if (types.first == Unknown) == (types.second == Unknown) then
      Unknown
    else if types.first == Unknown then
      types.second
    else
      types.first
  }

  /**
   * The two mapping qualities the filter looks at: the remembered up mate's
   * and the down mate's when mate information is kept, both alignments'
   * otherwise, and the ZA tag's best qualities when there is no down
   * alignment.
   */
  function PairQualities(up: Alignment, down: Option<Alignment>, mate: Option<MateInfo>, za: Option<ZATag>): Two<int>
    requires down.None? ==> za.Some?
  {
    match down
    case Some(d) => (if mate.Some? then Two(mate.value.mapQ, d.qual) else Two(up.qual, d.qual))
    case None => za.value.bestMQ
  }

  /**
   * The mapping-quality filter of `TGM_ReadPairTableUpdate`: a pair that is
   * not special and has a mate below `minMQ` becomes unknown.
   */
  function Filtered(t: ReadPairType, q: Two<int>, minMQ: int): (r: ReadPairType)
    ensures r == t || r == Unknown
    ensures IsSpecialType(t) ==> r == t
    ensures !IsSpecialType(t) && t != Unknown ==> (r == t <==> q.first >= minMQ && q.second >= minMQ)
  {
    if !IsSpecialType(t) && (q.first < minMQ || q.second < minMQ) then Unknown else t
  }

  /** The type under which `TGM_ReadPairTableUpdate` stores a pair. */
  function StoredType(up: Alignment, down: Option<Alignment>, za: Option<ZATag>, stats: PairStats, mate: Option<MateInfo>,
                      lib: LibInfo, types: Two<ReadPairType>, minMQ: int, minSpMQ: int): ReadPairType
    requires down.None? ==> za.Some?
  {
    Filtered(CheckReadPairType(za, stats, lib, types, minSpMQ), PairQualities(up, down, mate, za), minMQ)
  }

  /** A pair that the ZA tag does not decide and whose mates map below `minMQ` is never stored. */
  lemma LowQualityNotStored(up: Alignment, down: Option<Alignment>, za: Option<ZATag>, stats: PairStats, mate: Option<MateInfo>,
                            lib: LibInfo, types: Two<ReadPairType>, minMQ: int, minSpMQ: int)
    requires down.None? ==> za.Some?
    requires !ZaDecides(za) && !IsSpecialType(types.first) && !IsSpecialType(types.second)
    requires PairQualities(up, down, mate, za).first < minMQ || PairQualities(up, down, mate, za).second < minMQ
    ensures StoredType(up, down, za, stats, mate, lib, types, minMQ, minSpMQ) == Unknown
  {
    var t := CheckReadPairType(za, stats, lib, types, minSpMQ);
    assert !IsSpecialType(t);
  }

  // ---------------------------------------------------------------------
  // Growable pair arrays with per-chromosome counters

  /** A pair array: the pairs in `data[0..size)`, the capacity, and `chrCount`. */
  datatype PairArray<T> = PairArray(data: seq<T>, chrCount: seq<nat>, capacity: nat)

  /** The number of pairs of `data` whose counted chromosome is `r`. */
  function CountOn<T>(data: seq<T>, key: T -> Option<nat>, r: nat): (n: nat)
    ensures n <= |data|
    decreases |data|
  {
    if data == [] then 0
    else CountOn(data[..|data| - 1], key, r) + (if key(data[|data| - 1]) == Some(r) then 1 else 0)
  }

  /**
   * `counts[r]` is the number of pairs counted on chromosome r, where `key`
   * gives the chromosome a pair is counted on (if any).
   */
  predicate CountsMatch<T>(data: seq<T>, counts: seq<nat>, key: T -> Option<nat>)
  {
    (forall k | 0 <= k < |data| :: key(data[k]).Some? ==> key(data[k]).value < |counts|)
    && forall r | 0 <= r < |counts| :: counts[r] == CountOn(data, key, r)
  }

  /**
   * A well-formed array whose pairs all satisfy `kind`.  The counters and the
   * kinds are stated behind `Opened`, so that proofs about a whole table see
   * them only where they ask.
   */
  ghost predicate ArrayValid<T>(a: PairArray<T>, numChr: nat, key: T -> Option<nat>, kind: T -> bool)
  {
    0 < a.capacity && |a.data| <= a.capacity && |a.chrCount| == numChr
    && forall k {:trigger Opened(k)} | Opened(k) :: ArrayContents(a, key, kind)
  }

  /** The counters count the pairs and every pair satisfies `kind`. */
  predicate ArrayContents<T>(a: PairArray<T>, key: T -> Option<nat>, kind: T -> bool)
  {
    CountsMatch(a.data, a.chrCount, key) && forall k | 0 <= k < |a.data| :: kind(a.data[k])
  }

  /** The doubling step of the appenders: a full array gets twice the capacity. */
  function Reserved<T>(a: PairArray<T>): (r: PairArray<T>)
    ensures r.data == a.data && r.chrCount == a.chrCount && r.capacity >= a.capacity
    ensures 0 < a.capacity && |a.data| <= a.capacity ==> |r.data| < r.capacity
  {
    if |a.data| == a.capacity then a.(capacity := a.capacity * 2) else a
  }

  /** Storing a pair in the next free slot and counting it on its chromosome. */
  function Pushed<T>(a: PairArray<T>, p: T, key: T -> Option<nat>): (r: PairArray<T>)
    requires |a.data| < a.capacity
    requires key(p).Some? ==> key(p).value < |a.chrCount|
    ensures r.data == a.data + [p] && r.capacity == a.capacity && |r.chrCount| == |a.chrCount|
    ensures forall c | 0 <= c < |a.chrCount| :: r.chrCount[c] == a.chrCount[c] + (if key(p) == Some(c) then 1 else 0)
  {
    match key(p)
    case Some(c) => a.(data := a.data + [p], chrCount := a.chrCount[c := a.chrCount[c] + 1])
    case None => a.(data := a.data + [p])
  }

  /** The three appenders: grow when full, store, count (`TGM_*PairArrayUpdate`). */
  function Appended<T>(a: PairArray<T>, p: T, key: T -> Option<nat>): (r: PairArray<T>)
    requires 0 < a.capacity && |a.data| <= a.capacity
    requires key(p).Some? ==> key(p).value < |a.chrCount|
    ensures r.data == a.data + [p]
    ensures r.capacity == (if |a.data| == a.capacity then 2 * a.capacity else a.capacity)
  {
    Pushed(Reserved(a), p, key)
  }

  lemma CountOnAppend<T>(data: seq<T>, p: T, key: T -> Option<nat>, r: nat)
    ensures CountOn(data + [p], key, r) == CountOn(data, key, r) + (if key(p) == Some(r) then 1 else 0)
  {
    assert (data + [p])[..|data|] == data;
  }

  /** Pushing a pair of the array's kind keeps the array well formed: the counters still count. */
  lemma PushedValid<T>(a: PairArray<T>, numChr: nat, key: T -> Option<nat>, kind: T -> bool, p: T)
    requires ArrayValid(a, numChr, key, kind) && |a.data| < a.capacity
    requires kind(p) && (key(p).Some? ==> key(p).value < numChr)
    ensures ArrayValid(Pushed(a, p, key), numChr, key, kind)
  {
    assert Opened(0);
    var r := Pushed(a, p, key);
    forall c | 0 <= c < |r.chrCount|
      ensures r.chrCount[c] == CountOn(r.data, key, c)
    {
      CountOnAppend(a.data, p, key, c);
    }
  }

  /** Appending a pair of the array's kind keeps the array well formed and adds exactly that pair. */
  lemma AppendedValid<T>(a: PairArray<T>, numChr: nat, key: T -> Option<nat>, kind: T -> bool, p: T)
    requires ArrayValid(a, numChr, key, kind)
    requires kind(p) && (key(p).Some? ==> key(p).value < numChr)
    ensures ArrayValid(Appended(a, p, key), numChr, key, kind)
    ensures |Appended(a, p, key).data| == |a.data| + 1
  {
    PushedValid(Reserved(a), numChr, key, kind, p);
  }

  /** Clearing an array: no pairs, all counters 0, the capacity kept. */
  function Emptied<T>(a: PairArray<T>): (r: PairArray<T>)
    ensures r.data == [] && r.capacity == a.capacity && |r.chrCount| == |a.chrCount|
    ensures forall c | 0 <= c < |r.chrCount| :: r.chrCount[c] == 0
  {
    a.(data := [], chrCount := seq(|a.chrCount|, _ => 0))
  }

  lemma EmptiedValid<T>(a: PairArray<T>, numChr: nat, key: T -> Option<nat>, kind: T -> bool)
    requires ArrayValid(a, numChr, key, kind)
    ensures ArrayValid(Emptied(a), numChr, key, kind)
  {
    assert Opened(0);
  }

  function Sum(s: seq<nat>): nat
    decreases |s|
  {
    if s == [] then 0 else Sum(s[..|s| - 1]) + s[|s| - 1]
  }

  lemma {:induction false} SumBumped(s: seq<nat>, c: nat)
    requires c < |s|
    ensures Sum(s[c := s[c] + 1]) == Sum(s) + 1
    decreases |s|
  {
    var n := |s| - 1;
    if c == n {
      assert s[c := s[c] + 1][..n] == s[..n];
    } else {
      assert s[c := s[c] + 1][..n] == s[..n][c := s[c] + 1];
      SumBumped(s[..n], c);
    }
  }

  /**
   * When every pair is counted on some chromosome, the counters add up to
   * the number of pairs: `chrCount` partitions the array by chromosome.
   */
  lemma {:induction false} CountsSumToSize<T>(data: seq<T>, counts: seq<nat>, key: T -> Option<nat>)
    requires CountsMatch(data, counts, key)
    requires forall k | 0 <= k < |data| :: key(data[k]).Some?
    ensures Sum(counts) == |data|
    decreases |data|
  {
    if data == [] {
      SumZero(counts);
    } else {
      var n := |data| - 1;
      var c := key(data[n]).value;
      var before := counts[c := counts[c] - 1];
      assert data[..n] + [data[n]] == data;
      forall r | 0 <= r < |before|
        ensures before[r] == CountOn(data[..n], key, r)
      {
        CountOnAppend(data[..n], data[n], key, r);
      }
      CountsSumToSize(data[..n], before, key);
      assert before[c := before[c] + 1] == counts;
      SumBumped(before, c);
    }
  }

  lemma {:induction false} SumZero(s: seq<nat>)
    requires forall r | 0 <= r < |s| :: s[r] == 0
    ensures Sum(s) == 0
    decreases |s|
  {
    if s != [] {
      SumZero(s[..|s| - 1]);
    }
  }

  // ---------------------------------------------------------------------
  // The pairs stored in each array

  /** A local pair (long, short, reversed or inverted) as the local appenders fill it. */
  function LocalPairOf(up: Alignment, down: Option<Alignment>, za: Option<ZATag>, stats: PairStats,
                      mate: Option<MateInfo>, fragLenQual: int, t: ReadPairType): (p: LocalPair)
    requires mate.Some? || za.None? ==> down.Some?
    requires mate.Some? ==> 0 <= down.value.tid
    requires mate.None? ==> 0 <= up.tid
    ensures p.readPairType == t && p.fragLen == stats.fragLen && p.readGrpID == stats.readGrpID && p.pairMode == stats.pairMode
    ensures mate.Some? ==> p.refID == down.value.tid && p.upPos == down.value.mpos && p.downPos == down.value.pos
    ensures mate.None? ==> p.refID == up.tid && p.upPos == up.pos && p.downPos == up.mpos
  {
    if mate.Some? then
      var d := down.value;
      LocalPair(stats.readGrpID, d.tid as nat, mate.value.mapQ, d.qual, d.mpos, mate.value.upEnd, d.pos, stats.fragLen,
                mate.value.numMM, d.numMM, fragLenQual, t, stats.pairMode)
    else if za.Some? then
      var z := za.value;
      LocalPair(stats.readGrpID, up.tid as nat, z.bestMQ.first, z.bestMQ.second, up.pos, up.calEnd, up.mpos, stats.fragLen,
                z.numMM.first, z.numMM.second, fragLenQual, t, stats.pairMode)
    else
      var d := down.value;
      LocalPair(stats.readGrpID, up.tid as nat, up.qual, d.qual, up.pos, up.calEnd, up.mpos, stats.fragLen,
                up.numMM, d.numMM, fragLenQual, t, stats.pairMode)
  }

  /** A cross pair as `TGM_CrossPairArrayUpdate` fills it. */
  function CrossPairOf(up: Alignment, down: Option<Alignment>, za: Option<ZATag>, stats: PairStats, invalidQual: int): (p: CrossPair)
    requires za.None? ==> down.Some?
    requires 0 <= up.tid && 0 <= up.mtid
    ensures p.readPairType == Cross && p.upRefID == up.tid && p.downRefID == up.mtid
    ensures p.upPos == up.pos && p.downPos == up.mpos && p.fragLenQual == invalidQual
  {
    match za
    case Some(z) =>
      CrossPair(stats.readGrpID, up.tid as nat, up.mtid as nat, z.bestMQ.first, z.bestMQ.second, up.pos, z.end.first,
                up.mpos, z.end.second, z.numMM.first, z.numMM.second, invalidQual, Cross, stats.pairMode)
    case None =>
      var d := down.value;
      CrossPair(stats.readGrpID, up.tid as nat, up.mtid as nat, up.qual, d.qual, up.pos, up.calEnd,
                up.mpos, d.calEnd, up.numMM, d.numMM, invalidQual, Cross, stats.pairMode)
  }

  /** Local and cross pairs are counted on the chromosome of their (up) mate. */
  function LocalKey(p: LocalPair): Option<nat> { Some(p.refID) }
  function CrossKey(p: CrossPair): Option<nat> { Some(p.upRefID) }
  /** Special pairs on the anchor's chromosome are counted there; the cross special array counts nothing. */
  function SpecialKey(p: SpecialPair): Option<nat> { if p.refID.first < 0 then None else Some(p.refID.first as nat) }
  function NoKey(p: SpecialPair): Option<nat> { None }

  predicate LongKind(p: LocalPair) { p.readPairType == Long }
  predicate ShortKind(p: LocalPair) { p.readPairType == Short }
  predicate ReversedKind(p: LocalPair) { p.readPairType == Reversed }
  predicate InvertedKind(p: LocalPair) { p.readPairType == Inverted3 || p.readPairType == Inverted5 }
  predicate CrossKind(p: CrossPair) { p.readPairType == Cross }
  predicate SpecialKind(p: SpecialPair) { IsSpecialType(p.readPairType) && p.refID.first >= 0 }

  // ---------------------------------------------------------------------
  // The special-pair table

  /**
   * `TGM_SpecialPairTable`: the interned names (`names[id]`, with `ids` the
   * name hash), the capacity of the name buffer in names and in bytes, the
   * special pairs whose anchor lies on the up mate's chromosome (`mainArray`, the source's `array`)
   * and the others (`crossArray`, whose counters are never allocated).
   */
  datatype SpecialTable = SpecialTable(names: seq<SpName>, ids: map<SpName, nat>, capacity: nat, nameBytes: nat,
                                       mainArray: PairArray<SpecialPair>, crossArray: PairArray<SpecialPair>)

  /** `ids` and `names` are inverse: every name has exactly the id of its slot. */
  predicate NamesIndexed(names: seq<SpName>, ids: map<SpName, nat>)
  {
    (forall n | n in ids :: ids[n] < |names| && names[ids[n]] == n)
    && forall k | 0 <= k < |names| :: names[k] in ids && ids[names[k]] == k
  }

  /** Every stored special pair refers to an interned name. */
  predicate IdsKnown(data: seq<SpecialPair>, numNames: nat)
  {
    forall k | 0 <= k < |data| :: data[k].specialID < numNames
  }

  /** A name buffer of `bytes` bytes has room for `capacity` names of three bytes each. */
  predicate NamesFit(capacity: nat, bytes: nat)
  {
    bytes >= 3 * capacity
  }

  ghost predicate SpecialValid(tb: SpecialTable, numChr: nat)
  {
    0 < tb.capacity && |tb.names| <= tb.capacity && NamesFit(tb.capacity, tb.nameBytes)
    && ArrayValid(tb.mainArray, numChr, SpecialKey, SpecialKind) && ArrayValid(tb.crossArray, 0, NoKey, SpecialKind)
    && forall k {:trigger Opened(k)} | Opened(k) :: NamesKnown(tb)
  }

  /** The names are indexed and every stored pair refers to one of them. */
  predicate NamesKnown(tb: SpecialTable)
  {
    NamesIndexed(tb.names, tb.ids) && IdsKnown(tb.mainArray.data, |tb.names|) && IdsKnown(tb.crossArray.data, |tb.names|)
  }

  /** No two slots hold the same name. */
  lemma NamesDistinct(names: seq<SpName>, ids: map<SpName, nat>, i: nat, j: nat)
    requires NamesIndexed(names, ids) && i < j < |names|
    ensures names[i] != names[j]
  {
    assert ids[names[i]] == i && ids[names[j]] == j;
  }

  /**
   * The growth of the name buffer as written: twice as many names, but a
   * buffer of one byte per name.
   */
  function NameBufferAsWritten(size: nat, capacity: nat, bytes: nat): (r: (nat, nat))
    ensures size == capacity ==> r == (2 * capacity, 2 * capacity)
    ensures size != capacity ==> r == (capacity, bytes)
  {
    if size == capacity then (2 * capacity, 2 * capacity) else (capacity, bytes)
  }

  /**
   * As written, the first growth of a table that fits leaves a buffer too
   * small for its names: the slot of the next name already lies beyond it.
   */
  lemma NameBufferOverrun(capacity: nat)
    requires capacity > 0
    ensures NamesFit(capacity, 3 * capacity)
    ensures var r := NameBufferAsWritten(capacity, capacity, 3 * capacity);
              !NamesFit(r.0, r.1) && 3 * capacity + 2 >= r.1
  {
  }

  /** The allocation with the default capacity: after ten names the eleventh overruns the buffer. */
  lemma DefaultNameBufferOverrun()
    ensures NameBufferAsWritten(10, DEFAULT_RP_TABLE_CAPACITY, 3 * DEFAULT_RP_TABLE_CAPACITY) == (20, 20)
    ensures 3 * 10 + 2 >= 20
  {
  }

  /** The growth of the name buffer, corrected to three bytes per name. */
  function NameBuffer(size: nat, capacity: nat, bytes: nat): (r: (nat, nat))
    requires 0 < capacity && size <= capacity && NamesFit(capacity, bytes)
    ensures size < r.0 && capacity <= r.0 && NamesFit(r.0, r.1)
    ensures size < capacity ==> r == (capacity, bytes)
  {
    if size == capacity then (2 * capacity, 3 * (2 * capacity)) else (capacity, bytes)
  }

  /**
   * Interning a name: its existing id, or the next id for a new name.  The
   * names already interned keep their ids.
   */
  function Interned(names: seq<SpName>, ids: map<SpName, nat>, name: SpName): (r: (seq<SpName>, map<SpName, nat>, nat))
    requires NamesIndexed(names, ids)
    ensures NamesIndexed(r.0, r.1)
    ensures r.2 < |r.0| && r.0[r.2] == name && name in r.1 && r.1[name] == r.2
    ensures names <= r.0 && |r.0| <= |names| + 1
    ensures |r.0| == |names| + 1 <==> name !in names
  {
    if name in ids then
      (names, ids, ids[name])
    else
      assert forall k | 0 <= k < |names| :: names[k] != name;
      var names' := names + [name];
      var ids' := ids[name := |names|];
      assert forall k | 0 <= k < |names| :: names'[k] == names[k] && names[k] != name;
      (names', ids', |names|)
  }

  /** Interning is idempotent: a name interned once is found again with the same id. */
  lemma InternedAgain(names: seq<SpName>, ids: map<SpName, nat>, name: SpName)
    requires NamesIndexed(names, ids)
    ensures var r := Interned(names, ids, name);
              Interned(r.0, r.1, name) == r
  {
  }

  /** Same chromosome for both mates, and a mapping distance inside the widened fragment window. */
  function MapDist(up: Alignment, za: ZATag, t: ReadPairType): int
  {
    var a := AnchorSlot(za);
    var pos := Two(up.pos, up.mpos);
    if t == Special3 then Slot(za.end, 1 - a) - Slot(pos, a)
    else Slot(za.end, a) - Slot(pos, 1 - a)
  }

  /**
   * A special pair with both mates on one chromosome whose mapping distance
   * lies in the read group's fragment window, widened on each side by the
   * distance from the median to that bound, looks like a normal pair and is
   * dropped.
   */
  predicate Dropped(up: Alignment, za: ZATag, lib: LibInfo, t: ReadPairType)
  {
    up.tid == up.mtid
    && lib.low - (lib.median - lib.low) <= MapDist(up, za, t) <= lib.high + (lib.high - lib.median)
  }

  /** The anchor lies on the up mate's chromosome, so the pair goes to `mainArray`. */
  predicate ToArray(up: Alignment, za: ZATag)
  {
    Slot(Two(up.tid, up.mtid), AnchorSlot(za)) == up.tid
  }

  /** Two slots reordered so that slot `a` comes first. */
  function AnchorFirst<T>(x: Two<T>, a: nat): (r: Two<T>)
    requires a < 2
    ensures r.first == Slot(x, a) && r.second == Slot(x, 1 - a)
  {
    if a == 0 then x else Two(x.second, x.first)
  }

  /** A special pair as `TGM_SpecialPairTableUpdate` fills it, anchor first. */
  function SpecialPairOf(up: Alignment, za: ZATag, stats: PairStats, t: ReadPairType, id: nat): (p: SpecialPair)
    ensures p.readPairType == t && p.specialID == id && p.refID.first == Slot(Two(up.tid, up.mtid), AnchorSlot(za))
  {
    var a := AnchorSlot(za);
    SpecialPair(stats.readGrpID, AnchorFirst(Two(up.tid, up.mtid), a), AnchorFirst(Two(up.pos, up.mpos), a),
                AnchorFirst(za.end, a), AnchorFirst(za.numMM, a), AnchorFirst(za.bestMQ, a),
                Slot(za.numMappings, 1 - a), id, t, stats.pairMode)
  }

  /**
   * The first half of storing a special pair: the name buffer grown when
   * full, the special mate's name interned, and room made in the array the
   * anchor selects.
   */
  function SpecialReserved(tb: SpecialTable, up: Alignment, za: ZATag): (r: SpecialTable)
    requires SpecialValid(tb, |tb.mainArray.chrCount|) && 0 <= up.tid < |tb.mainArray.chrCount|
    ensures Slot(za.spRef, 1 - AnchorSlot(za)) in r.ids && tb.names <= r.names
  {
    assert Opened(0);
    var buf := NameBuffer(|tb.names|, tb.capacity, tb.nameBytes);
    var interned := Interned(tb.names, tb.ids, Slot(za.spRef, 1 - AnchorSlot(za)));
    var tb1 := tb.(names := interned.0, ids := interned.1, capacity := buf.0, nameBytes := buf.1);
    if ToArray(up, za) then tb1.(mainArray := Reserved(tb1.mainArray)) else tb1.(crossArray := Reserved(tb1.crossArray))
  }

  /** Making room keeps the special table well formed. */
  lemma SpecialReservedValid(tb: SpecialTable, numChr: nat, up: Alignment, za: ZATag)
    requires SpecialValid(tb, numChr) && 0 <= up.tid < numChr
    ensures SpecialValid(SpecialReserved(tb, up, za), numChr)
  {
    assert Opened(0);
  }

  /**
   * `TGM_SpecialPairTableUpdate`: grow the name buffer when full, intern the
   * special mate's reference name, grow the destination array when full,
   * then store the pair unless it is dropped by the fragment window.  The
   * name is interned even when the pair is dropped.
   */
  function SpecialUpdated(tb: SpecialTable, up: Alignment, za: ZATag, lib: LibInfo, stats: PairStats, t: ReadPairType): (r: SpecialTable)
    requires SpecialValid(tb, |tb.mainArray.chrCount|) && 0 <= up.tid < |tb.mainArray.chrCount|
  {
    var tb2 := SpecialReserved(tb, up, za);
    if Dropped(up, za, lib, t) then
      tb2
    else
      var p := SpecialPairOf(up, za, stats, t, tb2.ids[Slot(za.spRef, 1 - AnchorSlot(za))]);
      if ToArray(up, za) then tb2.(mainArray := Pushed(tb2.mainArray, p, SpecialKey))
      else tb2.(crossArray := Pushed(tb2.crossArray, p, NoKey))
  }

  /**
   * What storing a special pair does: the special mate's name is interned
   * (even when the pair is dropped), and the pair is added to the array its
   * anchor selects exactly when the fragment window does not drop it.
   */
  lemma SpecialUpdatedStores(tb: SpecialTable, up: Alignment, za: ZATag, lib: LibInfo, stats: PairStats, t: ReadPairType)
    requires SpecialValid(tb, |tb.mainArray.chrCount|) && 0 <= up.tid < |tb.mainArray.chrCount|
    ensures var r := SpecialUpdated(tb, up, za, lib, stats, t);
            var name := Slot(za.spRef, 1 - AnchorSlot(za));
            && NamesIndexed(r.names, r.ids) && name in r.ids && tb.names <= r.names && |r.names| <= |tb.names| + 1
            && (|r.names| == |tb.names| + 1 <==> name !in tb.names)
            && |r.names| <= r.capacity && NamesFit(r.capacity, r.nameBytes)
            && |r.mainArray.data| + |r.crossArray.data| == |tb.mainArray.data| + |tb.crossArray.data| + (if Dropped(up, za, lib, t) then 0 else 1)
            && (!Dropped(up, za, lib, t) ==>
                  var p := SpecialPairOf(up, za, stats, t, r.ids[name]);
                  if ToArray(up, za) then r.mainArray.data == tb.mainArray.data + [p] && r.crossArray.data == tb.crossArray.data
                  else r.crossArray.data == tb.crossArray.data + [p] && r.mainArray.data == tb.mainArray.data)
  {
    assert Opened(0);
  }

  /** Storing a special pair keeps the special table well formed. */
  lemma SpecialUpdatedValid(tb: SpecialTable, numChr: nat, up: Alignment, za: ZATag, lib: LibInfo, stats: PairStats, t: ReadPairType)
    requires SpecialValid(tb, numChr) && IsSpecialType(t) && 0 <= up.tid < numChr && 0 <= up.mtid
    ensures SpecialValid(SpecialUpdated(tb, up, za, lib, stats, t), numChr)
  {
    SpecialReservedValid(tb, numChr, up, za);
    var tb2 := SpecialReserved(tb, up, za);
    if !Dropped(up, za, lib, t) {
      var id := tb2.ids[Slot(za.spRef, 1 - AnchorSlot(za))];
      assert id < |tb2.names| by { assert Opened(0); }
      var p := SpecialPairOf(up, za, stats, t, id);
      SpecialPushedValid(tb2, numChr, p, ToArray(up, za));
    }
  }

  /** Adding a special pair that names an interned reference keeps the table well formed. */
  lemma SpecialPushedValid(tb: SpecialTable, numChr: nat, p: SpecialPair, toMain: bool)
    requires SpecialValid(tb, numChr) && SpecialKind(p) && p.specialID < |tb.names|
    requires toMain ==> |tb.mainArray.data| < tb.mainArray.capacity && p.refID.first < numChr
    requires !toMain ==> |tb.crossArray.data| < tb.crossArray.capacity
    ensures toMain ==> SpecialValid(tb.(mainArray := Pushed(tb.mainArray, p, SpecialKey)), numChr)
    ensures !toMain ==> SpecialValid(tb.(crossArray := Pushed(tb.crossArray, p, NoKey)), numChr)
  {
    assert Opened(0);
    if toMain {
      PushedValid(tb.mainArray, numChr, SpecialKey, SpecialKind, p);
    } else {
      PushedValid(tb.crossArray, 0, NoKey, SpecialKind, p);
    }
  }

  /** `TGM_SpecialPairTableClear`: empties `mainArray` and its counters and the cross array; the names stay. */
  function SpecialCleared(tb: SpecialTable): (r: SpecialTable)
    ensures r.names == tb.names && r.ids == tb.ids && r.mainArray.data == [] && r.crossArray.data == []
  {
    tb.(mainArray := Emptied(tb.mainArray), crossArray := tb.crossArray.(data := []))
  }

  lemma SpecialClearedValid(tb: SpecialTable, numChr: nat)
    requires SpecialValid(tb, numChr)
    ensures SpecialValid(SpecialCleared(tb), numChr)
  {
    assert Opened(0);
    EmptiedValid(tb.mainArray, numChr, SpecialKey, SpecialKind);
  }

  /** The special reference ID: the interned names' two characters, in id order. */
  function IdString(names: seq<SpName>): (s: string)
    ensures |s| == 2 * |names|
    ensures forall k | 0 <= k < |names| :: s[2 * k] == names[k].c0 && s[2 * k + 1] == names[k].c1
    decreases |names|
  {
    if names == [] then []
    else IdString(names[..|names| - 1]) + [names[|names| - 1].c0, names[|names| - 1].c1]
  }

  /** Interning a new name extends the special reference ID by that name. */
  lemma IdStringInterned(names: seq<SpName>, ids: map<SpName, nat>, name: SpName)
    requires NamesIndexed(names, ids)
    ensures var r := Interned(names, ids, name);
              IdString(r.0) == if name in names then IdString(names) else IdString(names) + [name.c0, name.c1]
  {
    var r := Interned(names, ids, name);
    if name !in names {
      assert r.0[..|r.0| - 1] == names;
    }
  }

  /** `TGM_SpecialPairTableGetID`: no ID for a missing or empty table. */
  method GetID(tb: Option<SpecialTable>) returns (r: Option<string>)
    ensures tb.None? || tb.value.names == [] ==> r.None?
    ensures tb.Some? && tb.value.names != [] ==> r == Some(IdString(tb.value.names))
  {
    if tb.None? || |tb.value.names| == 0 {
      return None;
    }
    var names := tb.value.names;
    var s: string := [];
    var i := 0;
    while i != |names|
      invariant 0 <= i <= |names|
      invariant s == IdString(names[..i])
      decreases |names| - i
    {
      assert names[..i + 1][..i] == names[..i];
      s := s + [names[i].c0, names[i].c1];
      i := i + 1;
    }
    assert names[..i] == names;
    return Some(s);
  }

  // ---------------------------------------------------------------------
  // The read-pair table

  /** An optional array, well formed when present. */
  ghost predicate OptValid<T>(a: Option<PairArray<T>>, numChr: nat, key: T -> Option<nat>, kind: T -> bool)
  {
    a.Some? ==> ArrayValid(a.value, numChr, key, kind)
  }

  /** Appending to an array that may be missing (a missing array stays missing). */
  function AppendedTo<T>(a: Option<PairArray<T>>, p: T, key: T -> Option<nat>): (r: Option<PairArray<T>>)
    requires a.Some? ==> 0 < a.value.capacity && |a.value.data| <= a.value.capacity
    requires a.Some? && key(p).Some? ==> key(p).value < |a.value.chrCount|
    ensures r.Some? <==> a.Some?
    ensures a.Some? ==> r.value.data == a.value.data + [p]
    ensures Size(r) == Size(a) + (if a.Some? then 1 else 0)
  {
    match a
    case None => None
    case Some(x) => Some(Appended(x, p, key))
  }

  /** Appending keeps a present array well formed. */
  lemma AppendedToValid<T>(a: Option<PairArray<T>>, numChr: nat, key: T -> Option<nat>, kind: T -> bool, p: T)
    requires OptValid(a, numChr, key, kind)
    requires kind(p) && (key(p).Some? ==> key(p).value < numChr)
    ensures OptValid(AppendedTo(a, p, key), numChr, key, kind)
  {
    if a.Some? {
      AppendedValid(a.value, numChr, key, kind, p);
    }
  }

  /** Clearing an array that may be missing. */
  function EmptiedOpt<T>(a: Option<PairArray<T>>): (r: Option<PairArray<T>>)
    ensures r.Some? <==> a.Some?
    ensures r.Some? ==> r.value == Emptied(a.value)
  {
    match a
    case None => None
    case Some(x) => Some(Emptied(x))
  }

  lemma EmptiedOptValid<T>(a: Option<PairArray<T>>, numChr: nat, key: T -> Option<nat>, kind: T -> bool)
    requires OptValid(a, numChr, key, kind)
    ensures OptValid(EmptiedOpt(a), numChr, key, kind)
  {
    if a.Some? {
      EmptiedValid(a.value, numChr, key, kind);
    }
  }

  /** The arrays of a read-pair table, as one value. */
  datatype PairTables = PairTables(
    longPairs: Option<PairArray<LocalPair>>, shortPairs: Option<PairArray<LocalPair>>,
    reversedPairs: Option<PairArray<LocalPair>>, invertedPairs: Option<PairArray<LocalPair>>,
    special: Option<SpecialTable>, crossPairs: Option<PairArray<CrossPair>>)

  /** Every array is well formed, counts its pairs per chromosome and holds only pairs of its kind. */
  ghost predicate TablesValid(s: PairTables, numChr: nat)
  {
    OptValid(s.longPairs, numChr, LocalKey, LongKind)
    && OptValid(s.shortPairs, numChr, LocalKey, ShortKind)
    && OptValid(s.reversedPairs, numChr, LocalKey, ReversedKind)
    && OptValid(s.invertedPairs, numChr, LocalKey, InvertedKind)
    && OptValid(s.crossPairs, numChr, CrossKey, CrossKind)
    && (s.special.Some? ==> SpecialValid(s.special.value, numChr))
  }

  /** What the source demands of the alignments it reads: present where dereferenced, on known chromosomes. */
  predicate Readable(up: Alignment, down: Option<Alignment>, za: Option<ZATag>, mate: Option<MateInfo>, numChr: nat)
  {
    (down.None? ==> za.Some? && mate.None?)
    && 0 <= up.tid < numChr && 0 <= up.mtid && (down.Some? ==> 0 <= down.value.tid < numChr)
  }

  /**
   * The switch of `TGM_ReadPairTableUpdate`: the pair, of type `t`, is
   * appended to the array of its type if that array exists; normal and
   * unknown pairs are not stored.  `fragLenQual` is the fragment-length
   * quality the histogram gives the pair, `invalidQual` the marker stored
   * for inverted and cross pairs.
   */
  function Dispatched(s: PairTables, numChr: nat, t: ReadPairType, up: Alignment, down: Option<Alignment>, za: Option<ZATag>,
                      stats: PairStats, mate: Option<MateInfo>, lib: LibInfo, fragLenQual: int, invalidQual: int): (r: PairTables)
    requires TablesValid(s, numChr) && Readable(up, down, za, mate, numChr) && (IsSpecialType(t) ==> za.Some?)
    ensures t == Normal || t == Unknown ==> r == s
  {
    if t == Long then s.(longPairs := AppendedTo(s.longPairs, LocalPairOf(up, down, za, stats, mate, fragLenQual, t), LocalKey))
    else if t == Short then s.(shortPairs := AppendedTo(s.shortPairs, LocalPairOf(up, down, za, stats, mate, fragLenQual, t), LocalKey))
    else if t == Reversed then s.(reversedPairs := AppendedTo(s.reversedPairs, LocalPairOf(up, down, za, stats, mate, fragLenQual, t), LocalKey))
    else if t == Inverted3 || t == Inverted5 then
      s.(invertedPairs := AppendedTo(s.invertedPairs, LocalPairOf(up, down, za, stats, mate, invalidQual, t), LocalKey))
    else if IsSpecialType(t) then
      (match s.special
       case Some(tb) => s.(special := Some(SpecialUpdated(tb, up, za.value, lib, stats, t)))
       case None => s)
    else if t == Cross then s.(crossPairs := AppendedTo(s.crossPairs, CrossPairOf(up, down, za, stats, invalidQual), CrossKey))
    else s
  }

  /** Storing a pair keeps every array of the table well formed. */
  lemma DispatchedValid(s: PairTables, numChr: nat, t: ReadPairType, up: Alignment, down: Option<Alignment>, za: Option<ZATag>,
                        stats: PairStats, mate: Option<MateInfo>, lib: LibInfo, fragLenQual: int, invalidQual: int)
    requires TablesValid(s, numChr) && Readable(up, down, za, mate, numChr) && (IsSpecialType(t) ==> za.Some?)
    ensures TablesValid(Dispatched(s, numChr, t, up, down, za, stats, mate, lib, fragLenQual, invalidQual), numChr)
  {
    if t == Long {
      AppendedToValid(s.longPairs, numChr, LocalKey, LongKind, LocalPairOf(up, down, za, stats, mate, fragLenQual, t));
    } else if t == Short {
      AppendedToValid(s.shortPairs, numChr, LocalKey, ShortKind, LocalPairOf(up, down, za, stats, mate, fragLenQual, t));
    } else if t == Reversed {
      AppendedToValid(s.reversedPairs, numChr, LocalKey, ReversedKind, LocalPairOf(up, down, za, stats, mate, fragLenQual, t));
    } else if t == Inverted3 || t == Inverted5 {
      AppendedToValid(s.invertedPairs, numChr, LocalKey, InvertedKind, LocalPairOf(up, down, za, stats, mate, invalidQual, t));
    } else if IsSpecialType(t) {
      if s.special.Some? {
        SpecialUpdatedValid(s.special.value, numChr, up, za.value, lib, stats, t);
      }
    } else if t == Cross {
      AppendedToValid(s.crossPairs, numChr, CrossKey, CrossKind, CrossPairOf(up, down, za, stats, invalidQual));
    }
  }

  /** The number of pairs in an optional array. */
  function Size<T>(a: Option<PairArray<T>>): nat
  {
    if a.Some? then |a.value.data| else 0
  }

  /** The number of pairs stored in the table. */
  function StoredCount(s: PairTables): nat
  {
    Size(s.longPairs) + Size(s.shortPairs) + Size(s.reversedPairs) + Size(s.invertedPairs) + Size(s.crossPairs)
    + SpecialSize(s.special)
  }

  /** The number of special pairs, in both arrays of the special table. */
  function SpecialSize(tb: Option<SpecialTable>): nat
  {
    if tb.Some? then |tb.value.mainArray.data| + |tb.value.crossArray.data| else 0
  }

  /**
   * A pair adds at most one entry to the table: none when it is normal or
   * unknown, when its array is missing, or when the fragment window drops a
   * special pair; otherwise exactly one (see `Kept`).
   */
  lemma DispatchedStoresOne(s: PairTables, numChr: nat, t: ReadPairType, up: Alignment, down: Option<Alignment>, za: Option<ZATag>,
                            stats: PairStats, mate: Option<MateInfo>, lib: LibInfo, fragLenQual: int, invalidQual: int)
    requires TablesValid(s, numChr) && Readable(up, down, za, mate, numChr) && (IsSpecialType(t) ==> za.Some?)
    ensures var r := Dispatched(s, numChr, t, up, down, za, stats, mate, lib, fragLenQual, invalidQual);
            StoredCount(r) == StoredCount(s) + (if Kept(s, t, up, za, lib) then 1 else 0)
  {
    var r := Dispatched(s, numChr, t, up, down, za, stats, mate, lib, fragLenQual, invalidQual);
    var lp := LocalPairOf(up, down, za, stats, mate, fragLenQual, t);
    match t
    case Long => assert r == s.(longPairs := AppendedTo(s.longPairs, lp, LocalKey));
    case Short => assert r == s.(shortPairs := AppendedTo(s.shortPairs, lp, LocalKey));
    case Reversed => assert r == s.(reversedPairs := AppendedTo(s.reversedPairs, lp, LocalKey));
    case Inverted3 | Inverted5 =>
      var ip := LocalPairOf(up, down, za, stats, mate, invalidQual, t);
      assert r == s.(invertedPairs := AppendedTo(s.invertedPairs, ip, LocalKey));
    case Cross => assert r == s.(crossPairs := AppendedTo(s.crossPairs, CrossPairOf(up, down, za, stats, invalidQual), CrossKey));
    case Special3 | Special5 => SpecialStoresOne(s, numChr, t, up, down, za, stats, mate, lib, fragLenQual, invalidQual);
    case Normal | Unknown =>
  }

  /** The special case of `DispatchedStoresOne`. */
  lemma SpecialStoresOne(s: PairTables, numChr: nat, t: ReadPairType, up: Alignment, down: Option<Alignment>, za: Option<ZATag>,
                         stats: PairStats, mate: Option<MateInfo>, lib: LibInfo, fragLenQual: int, invalidQual: int)
    requires TablesValid(s, numChr) && Readable(up, down, za, mate, numChr) && IsSpecialType(t) && za.Some?
    ensures var r := Dispatched(s, numChr, t, up, down, za, stats, mate, lib, fragLenQual, invalidQual);
            StoredCount(r) == StoredCount(s) + (if s.special.Some? && !Dropped(up, za.value, lib, t) then 1 else 0)
  {
    if s.special.Some? {
      var tb := s.special.value;
      SpecialUpdatedStores(tb, up, za.value, lib, stats, t);
      var u := SpecialUpdated(tb, up, za.value, lib, stats, t);
      assert SpecialSize(Some(u)) == SpecialSize(s.special) + (if Dropped(up, za.value, lib, t) then 0 else 1);
      assert Dispatched(s, numChr, t, up, down, za, stats, mate, lib, fragLenQual, invalidQual) == s.(special := Some(u));
    }
  }

  /** A pair of type `t` is stored: its array exists and, for a special pair, the fragment window keeps it. */
  predicate Kept(s: PairTables, t: ReadPairType, up: Alignment, za: Option<ZATag>, lib: LibInfo)
  {
    match t
    case Long => s.longPairs.Some?
    case Short => s.shortPairs.Some?
    case Reversed => s.reversedPairs.Some?
    case Inverted3 | Inverted5 => s.invertedPairs.Some?
    case Cross => s.crossPairs.Some?
    case Special3 | Special5 => s.special.Some? && za.Some? && !Dropped(up, za.value, lib, t)
    case Normal | Unknown => false
  }

  /** `TGM_ReadPairTableClear`: every present array emptied with its counters; special names stay. */
  function ClearedTables(s: PairTables): (r: PairTables)
    ensures StoredCount(r) == 0
  {
    PairTables(EmptiedOpt(s.longPairs), EmptiedOpt(s.shortPairs), EmptiedOpt(s.reversedPairs), EmptiedOpt(s.invertedPairs),
               if s.special.Some? then Some(SpecialCleared(s.special.value)) else None, EmptiedOpt(s.crossPairs))
  }

  lemma ClearedValid(s: PairTables, numChr: nat)
    requires TablesValid(s, numChr)
    ensures TablesValid(ClearedTables(s), numChr)
  {
    EmptiedOptValid(s.longPairs, numChr, LocalKey, LongKind);
    EmptiedOptValid(s.shortPairs, numChr, LocalKey, ShortKind);
    EmptiedOptValid(s.reversedPairs, numChr, LocalKey, ReversedKind);
    EmptiedOptValid(s.invertedPairs, numChr, LocalKey, InvertedKind);
    EmptiedOptValid(s.crossPairs, numChr, CrossKey, CrossKind);
    if s.special.Some? {
      SpecialClearedValid(s.special.value, numChr);
    }
  }

  /**
   * `TGM_ReadPairTable`: one array per kind of pair, present only when its
   * variant class is detected.
   */
  class ReadPairTable {
    var longPairs: Option<PairArray<LocalPair>>
    var shortPairs: Option<PairArray<LocalPair>>
    var reversedPairs: Option<PairArray<LocalPair>>
    var invertedPairs: Option<PairArray<LocalPair>>
    var special: Option<SpecialTable>
    var crossPairs: Option<PairArray<CrossPair>>
    var numChr: nat

    /** The arrays, as one value. */
    ghost function Tables(): PairTables
      reads this
    {
      PairTables(longPairs, shortPairs, reversedPairs, invertedPairs, special, crossPairs)
    }

    ghost predicate Valid()
      reads this
    {
      TablesValid(Tables(), numChr)
    }

    /**
     * `TGM_ReadPairTableAlloc`: an empty array of the default capacity for
     * each detected class (deletion: long; tandem duplication: short and
     * reversed; inversion: inverted; translocation: cross; special: the
     * special-pair table).
     */
    constructor(numChr: nat, deletion: bool, tandemDup: bool, inversion: bool, translocation: bool, retro: bool)
      ensures Valid() && this.numChr == numChr && StoredCount(Tables()) == 0
      ensures longPairs.Some? == deletion && shortPairs.Some? == tandemDup && reversedPairs.Some? == tandemDup
      ensures invertedPairs.Some? == inversion && crossPairs.Some? == translocation && special.Some? == retro
      ensures special.Some? ==> special.value.names == [] && special.value.capacity == DEFAULT_RP_TABLE_CAPACITY
    {
      var zeros: seq<nat> := seq(numChr, _ => 0);
      var empty := PairArray([], zeros, DEFAULT_RP_INFO_CAPACITY);
      var emptyCross := PairArray([], zeros, DEFAULT_RP_INFO_CAPACITY);
      this.numChr := numChr;
      longPairs := if deletion then Some(empty) else None;
      shortPairs := if tandemDup then Some(empty) else None;
      reversedPairs := if tandemDup then Some(empty) else None;
      invertedPairs := if inversion then Some(empty) else None;
      crossPairs := if translocation then Some(emptyCross) else None;
      special := if retro then
                   Some(SpecialTable([], map[], DEFAULT_RP_TABLE_CAPACITY, 3 * DEFAULT_RP_TABLE_CAPACITY,
                                     PairArray([], zeros, DEFAULT_RP_INFO_CAPACITY), PairArray([], [], DEFAULT_RP_INFO_CAPACITY)))
                 else None;
      assert Opened(0);
    }

    /**
     * `TGM_ReadPairTableUpdate`: classify the pair, apply the mapping-quality
     * filter, and store it in the array of its type.  `types` holds the
     * orientation table's entries for the pair's mode, which are never
     * special.
     */
    method Update(up: Alignment, down: Option<Alignment>, za: Option<ZATag>, stats: PairStats, mate: Option<MateInfo>,
                  lib: LibInfo, types: Two<ReadPairType>, fragLenQual: int, invalidQual: int, minMQ: int, minSpMQ: int)
      requires Valid() && Readable(up, down, za, mate, numChr)
      requires !IsSpecialType(types.first) && !IsSpecialType(types.second)
      modifies this
      ensures Valid() && numChr == old(numChr)
      ensures Tables() == Dispatched(old(Tables()), numChr, StoredType(up, down, za, stats, mate, lib, types, minMQ, minSpMQ),
                                     up, down, za, stats, mate, lib, fragLenQual, invalidQual)
    {
      var t := StoredType(up, down, za, stats, mate, lib, types, minMQ, minSpMQ);
      DispatchedValid(Tables(), numChr, t, up, down, za, stats, mate, lib, fragLenQual, invalidQual);
      var r := Dispatched(PairTables(longPairs, shortPairs, reversedPairs, invertedPairs, special, crossPairs), numChr, t, up, down, za, stats, mate, lib, fragLenQual, invalidQual);
      longPairs, shortPairs, reversedPairs := r.longPairs, r.shortPairs, r.reversedPairs;
      invertedPairs, special, crossPairs := r.invertedPairs, r.special, r.crossPairs;
    }

    /** `TGM_ReadPairTableClear`. */
    method Clear()
      requires Valid()
      modifies this
      ensures Valid() && numChr == old(numChr)
      ensures Tables() == ClearedTables(old(Tables()))
    {
      ClearedValid(Tables(), numChr);
      var r := ClearedTables(PairTables(longPairs, shortPairs, reversedPairs, invertedPairs, special, crossPairs));
      longPairs, shortPairs, reversedPairs := r.longPairs, r.shortPairs, r.reversedPairs;
      invertedPairs, special, crossPairs := r.invertedPairs, r.special, r.crossPairs;
    }
  }
}
