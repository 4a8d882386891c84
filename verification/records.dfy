// Record layouts shared by the read-pair builder, the attribute builder and
// the detectors (the structs of TGM_ReadPairBuild.h and the library table).

module PairRecords {
  import opened Numeric

  /**
   * The read-pair types.  The source relies on INVERTED5 following INVERTED3
   * and SPECIAL5 following SPECIAL3; `InvertedSlot` and `SpecialSlot` give
   * those differences.
   */
  datatype ReadPairType =
    | Normal | Long | Short | Reversed | Inverted3 | Inverted5
    | Special3 | Special5 | Cross | Unknown

  /** `type - PT_INVERTED3` for an inverted type. */
  function InvertedSlot(t: ReadPairType): (k: nat)
    requires t == Inverted3 || t == Inverted5
    ensures k < 2 && (k == 0 <==> t == Inverted3)
  {
    if t == Inverted3 then 0 else 1
  }

  /** `type - PT_SPECIAL3` for a special type. */
  function SpecialSlot(t: ReadPairType): (k: nat)
    requires t == Special3 || t == Special5
    ensures k < 2 && (k == 0 <==> t == Special3)
  {
    if t == Special3 then 0 else 1
  }

  /**
   * The orientation of a pair: which mate is upstream (1 or 2) and the strand
   * (F or R) of each, upstream mate first; `OtherMode` stands for any code
   * outside the eight.
   */
  datatype PairMode =
    | M1F2F | M1F2R | M1R2F | M1R2R | M2F1F | M2F1R | M2R1F | M2R1R
    | OtherMode(code: int)

  /** Fragment-length statistics of one read group. */
  datatype LibInfo = LibInfo(median: int, low: int, high: int)

  /** A pair whose mates map to one chromosome (long, short, reversed, inverted). */
  datatype LocalPair = LocalPair(
    readGrpID: nat, refID: nat, upMapQ: int, downMapQ: int,
    upPos: int, upEnd: int, downPos: int, fragLen: int,
    upNumMM: int, downNumMM: int, fragLenQual: int,
    readPairType: ReadPairType, pairMode: PairMode)

  /** A pair whose mates map uniquely to two chromosomes. */
  datatype CrossPair = CrossPair(
    readGrpID: nat, upRefID: nat, downRefID: nat, upMapQ: int, downMapQ: int,
    upPos: int, upEnd: int, downPos: int, downEnd: int,
    upNumMM: int, downNumMM: int, fragLenQual: int,
    readPairType: ReadPairType, pairMode: PairMode)

  /**
   * A pair with one unique mate (the anchor) and one mate on a special
   * (mobile-element) reference; slot 0 is the up mate, slot 1 the down mate.
   */
  datatype SpecialPair = SpecialPair(
    readGrpID: nat, refID: Two<int>, pos: Two<int>, end: Two<int>,
    numMM: Two<int>, bestMQ: Two<int>, numSpecialHits: int, specialID: nat,
    readPairType: ReadPairType, pairMode: PairMode)

  /**
   * One point to cluster: two attributes, the index of the pair it was made
   * from, and the pair's read group (which selects its bounds).
   */
  datatype Attrbt = Attrbt(first: real, second: real, origIndex: nat, readGrpID: nat)

  /** Slot `k` (0 or 1) of a two-slot field. */
  function Slot<T>(t: Two<T>, k: nat): T
    requires k < 2
  {
    if k == 0 then t.first else t.second
  }
}
