// The reference bookkeeping the detector relies on: trimming and uppercasing
// a FASTA line, the reference header's name table and name dictionary, and
// the coordinate system of the special reference, in which several special
// sequences are concatenated with runs of padding and a position in the
// concatenation maps back to a (reference ID, offset) pair through `endPos`.

module Reference {
  import opened Numeric

  /** DEFAULT_PADDING_LEN: the number of 'X's between two special sequences. */
  const PAD: nat := 300
  /** MAX_REF_LINE: the size of the line buffer filled by fgets. */
  const MAX_REF_LINE: nat := 1024

  // ---------------------------------------------------------------------
  // Reference IDs
  // ---------------------------------------------------------------------

  predicate IsInt32(x: int) { -INT32_MAX - 1 <= x <= INT32_MAX }

  /**
   * TGM_RefHeaderGetSeqID: the sequence a reference ID belongs to. Special
   * references share the last sequence ID, so larger IDs are clamped to it.
   */
  function GetSeqID(numSeqs: nat, refID: int): (r: int)
    requires numSeqs < UINT32_MOD && IsInt32(refID)
    ensures refID < 0 ==> r == refID
    ensures 0 <= refID < numSeqs <= INT32_MAX ==> r == refID
    ensures 1 <= numSeqs <= INT32_MAX && numSeqs <= refID ==> r == numSeqs - 1
    ensures numSeqs == 0 && 0 <= refID ==> r == -1
  {
    if refID < 0 then refID
    else if refID <= ToInt32(numSeqs) - 1 then refID
    else ToInt32(numSeqs - 1)
  }

  /** Clamping twice is clamping once, and the result never exceeds the last sequence ID. */
  lemma SeqIDClamps(numSeqs: nat, refID: int)
    requires 1 <= numSeqs <= INT32_MAX && IsInt32(refID)
    ensures GetSeqID(numSeqs, refID) <= numSeqs - 1
    ensures GetSeqID(numSeqs, GetSeqID(numSeqs, refID)) == GetSeqID(numSeqs, refID)
  {
  }

  /**
   * TGM_GetSpecialRefIDFromRefID: the index of a reference among the special
   * references, or -1 when there is no special reference or the ID belongs
   * to an ordinary chromosome. The subtraction is done in unsigned
   * arithmetic and read back as a 32-bit int.
   */
  function GetSpecialRefIDFromRefID(hasSpecial: bool, numSeqs: nat, refID: int): (r: int)
    requires numSeqs < UINT32_MOD && IsInt32(refID)
    ensures !hasSpecial ==> r == -1
    ensures 1 <= numSeqs <= INT32_MAX && refID < numSeqs - 1 ==> r == -1
    ensures hasSpecial && 1 <= numSeqs <= INT32_MAX && numSeqs - 1 <= refID ==> r == refID - (numSeqs - 1)
  {
    if hasSpecial && refID >= ToInt32(numSeqs) - 1 then ToInt32(refID - (numSeqs - 1)) else -1
  }

  /**
   * TGM_SpecialRefGetBeginPos: where special reference `id` starts in the
   * concatenation, right after the padding that follows reference `id - 1`.
   */
  function BeginPos(endPos: seq<int>, id: nat): (r: nat)
    requires id <= |endPos|
    ensures r < UINT32_MOD
  {
    if id == 0 then 0 else AsUnsigned(endPos[id - 1] + PAD + 1)
  }

  // ---------------------------------------------------------------------
  // Mapping a special position back to its reference
  // ---------------------------------------------------------------------

  /**
   * What TGM_GetRefFromSpecialPos writes on success: the reference ID, the
   * offset in that reference, and the view (start in the concatenation and
   * length) of the reference.
   */
  datatype SpecialHit = SpecialHit(refID: int, pos: nat, viewStart: nat, viewLen: nat)

  /** The layout the loader builds: increasing ends, each gap wider than the padding, all within 32 bits. */
  ghost predicate Gapped(endPos: seq<int>)
  {
    |endPos| >= 1 && Spaced(endPos) && endPos[|endPos| - 1] + 1 < UINT32_MOD
  }

  /** Non-negative ends, each more than the padding past the previous one. */
  ghost predicate Spaced(endPos: seq<int>)
  {
    (|endPos| > 0 ==> 0 <= endPos[0]) &&
    forall k :: 0 <= k < |endPos| - 1 ==> endPos[k] + PAD < endPos[k + 1]
  }

  /** Position `p` lies inside special reference `s` (not in padding). */
  ghost predicate Inside(endPos: seq<int>, s: nat, p: int)
    requires s < |endPos|
  {
    BeginPos(endPos, s) <= p <= endPos[s]
  }

  /** The scan over the later references, from pair (i, i + 1) on. */
  function LookupFrom(endPos: seq<int>, numSeqs: nat, p: nat, i: nat): (r: Option<SpecialHit>)
    requires i <= |endPos| - 1
    ensures r.Some? ==> r.value.viewStart <= p && r.value.pos == p - r.value.viewStart
    decreases |endPos| - 1 - i
  {
    if i == |endPos| - 1 then None
    else
      var b := AsUnsigned(endPos[i] + PAD + 1);
      if b <= p <= endPos[i + 1] then
        Some(SpecialHit(ToInt32(numSeqs + i), p - b, b, AsUnsigned(endPos[i + 1] - b + 1)))
      else LookupFrom(endPos, numSeqs, p, i + 1)
  }

  /**
   * TGM_GetRefFromSpecialPos as a value: `None` (TGM_ERR, nothing written)
   * without special information or when no reference holds `p`. Special
   * information is only ever kept with at least one reference in it.
   */
  function SpecialLookup(info: Option<seq<int>>, numSeqs: nat, p: nat): (r: Option<SpecialHit>)
    requires info.Some? ==> |info.value| >= 1
    ensures info.None? ==> r.None?
    ensures r.Some? ==> r.value.viewStart <= p && r.value.pos == p - r.value.viewStart
  {
    match info
    case None => None
    case Some(endPos) =>
      if p <= endPos[0] then Some(SpecialHit(ToInt32(numSeqs - 1), p, 0, AsUnsigned(endPos[0] + 1)))
      else LookupFrom(endPos, numSeqs, p, 0)
  }

  /** The search loop of TGM_GetRefFromSpecialPos. */
  method GetRefFromSpecialPos(info: Option<seq<int>>, numSeqs: nat, p: nat) returns (r: Option<SpecialHit>)
    requires info.Some? ==> |info.value| >= 1
    ensures r == SpecialLookup(info, numSeqs, p)
  {
    if info.None? {
      return None;
    }
    var endPos := info.value;
    if p <= endPos[0] {
      return Some(SpecialHit(ToInt32(numSeqs - 1), p, 0, AsUnsigned(endPos[0] + 1)));
    }
    var i := 0;
    while i != |endPos| - 1
      invariant 0 <= i <= |endPos| - 1
      invariant LookupFrom(endPos, numSeqs, p, i) == SpecialLookup(info, numSeqs, p)
      decreases |endPos| - 1 - i
    {
      var beginPos := AsUnsigned(endPos[i] + PAD + 1);
      if beginPos <= p <= endPos[i + 1] {
        return Some(SpecialHit(ToInt32(numSeqs + i), p - beginPos, beginPos, AsUnsigned(endPos[i + 1] - beginPos + 1)));
      }
      i := i + 1;
    }
    return None;
  }

  /** In a gapped layout the ends grow by more than the padding between any two references. */
  lemma {:induction false} GappedBelow(endPos: seq<int>, a: nat, b: nat)
    requires Gapped(endPos) && a < b < |endPos|
    ensures endPos[a] + PAD < endPos[b]
    decreases b - a
  {
    if a + 1 < b {
      GappedBelow(endPos, a + 1, b);
    }
  }

  /** In a gapped layout the begin position is the end of the previous reference plus the padding, without wrap-around. */
  lemma GappedBegin(endPos: seq<int>, s: nat)
    requires Gapped(endPos) && 0 < s < |endPos|
    ensures BeginPos(endPos, s) == endPos[s - 1] + PAD + 1 <= endPos[s]
    ensures endPos[s] + 1 < UINT32_MOD
  {
    if s < |endPos| - 1 {
      GappedBelow(endPos, s, |endPos| - 1);
    }
    if s > 1 {
      GappedBelow(endPos, 0, s - 1);
    }
  }

  lemma {:induction false} LookupFromHit(endPos: seq<int>, numSeqs: nat, p: nat, i: nat, s: nat)
    requires Gapped(endPos) && i < s < |endPos| && Inside(endPos, s, p)
    ensures LookupFrom(endPos, numSeqs, p, i)
         == Some(SpecialHit(ToInt32(numSeqs - 1 + s), p - BeginPos(endPos, s), BeginPos(endPos, s), endPos[s] - BeginPos(endPos, s) + 1))
    decreases s - i
  {
    GappedBegin(endPos, i + 1);
    if i + 1 < s {
      if i + 1 < s - 1 {
        GappedBelow(endPos, i + 1, s - 1);
      }
      GappedBegin(endPos, s);
      LookupFromHit(endPos, numSeqs, p, i + 1, s);
    }
  }

  lemma {:induction false} LookupFromMiss(endPos: seq<int>, numSeqs: nat, p: nat, i: nat)
    requires Gapped(endPos) && i <= |endPos| - 1
    requires forall s :: i < s < |endPos| ==> !Inside(endPos, s, p)
    ensures LookupFrom(endPos, numSeqs, p, i) == None
    decreases |endPos| - 1 - i
  {
    if i < |endPos| - 1 {
      GappedBegin(endPos, i + 1);
      assert !Inside(endPos, i + 1, p);
      LookupFromMiss(endPos, numSeqs, p, i + 1);
    }
  }

  /**
   * The round trip: position `p` of special reference `s`, placed at its
   * begin position, maps back to reference ID numSeqs - 1 + s at offset `p`,
   * with a view covering exactly that reference, and that ID maps back to
   * special index `s`.
   */
  lemma SpecialRoundTrip(endPos: seq<int>, numSeqs: nat, s: nat, p: nat)
    requires Gapped(endPos) && s < |endPos| && BeginPos(endPos, s) + p <= endPos[s]
    requires 1 <= numSeqs && numSeqs + |endPos| <= INT32_MAX
    ensures SpecialLookup(Some(endPos), numSeqs, BeginPos(endPos, s) + p)
         == Some(SpecialHit(numSeqs - 1 + s, p, BeginPos(endPos, s), endPos[s] - BeginPos(endPos, s) + 1))
    ensures GetSpecialRefIDFromRefID(true, numSeqs, numSeqs - 1 + s) == s
  {
    if s > 0 {
      GappedBegin(endPos, s);
      if s > 1 {
        GappedBelow(endPos, 0, s - 1);
      }
      LookupFromHit(endPos, numSeqs, BeginPos(endPos, s) + p, 0, s);
    } else if |endPos| > 1 {
      GappedBelow(endPos, 0, |endPos| - 1);
    }
  }

  /** Positions in the padding or past the last reference give TGM_ERR. */
  lemma SpecialMiss(endPos: seq<int>, numSeqs: nat, p: nat)
    requires Gapped(endPos)
    requires forall s :: 0 <= s < |endPos| ==> !Inside(endPos, s, p)
    ensures SpecialLookup(Some(endPos), numSeqs, p) == None
  {
    assert !Inside(endPos, 0, p);
    LookupFromMiss(endPos, numSeqs, p, 0);
  }

  // ---------------------------------------------------------------------
  // The layout built by TGM_SpecialRefLoad
  // ---------------------------------------------------------------------

  function Padding(): (r: seq<char>)
    ensures |r| == PAD && forall k :: 0 <= k < PAD ==> r[k] == 'X'
  {
    seq(PAD, _ => 'X')
  }

  /** The special sequence after closing `refs`: each reference followed by its padding. */
  function Joined(refs: seq<seq<char>>): seq<char>
  {
    if refs == [] then [] else Joined(refs[..|refs| - 1]) + refs[|refs| - 1] + Padding()
  }

  /** The `endPos` entries recorded for `refs`: each is the last index of its reference. */
  function Ends(refs: seq<seq<char>>): (r: seq<int>)
    ensures |r| == |refs|
  {
    if refs == [] then []
    else
      var prefix := refs[..|refs| - 1];
      Ends(prefix) + [|Joined(prefix)| + |refs[|refs| - 1]| - 1]
  }

  ghost predicate AllNonEmpty(refs: seq<seq<char>>)
  {
    forall k :: 0 <= k < |refs| ==> |refs[k]| > 0
  }

  /** The recorded ends are gapped and the last one is followed by exactly the padding. */
  lemma {:induction false} EndsGapped(refs: seq<seq<char>>)
    requires AllNonEmpty(refs) && refs != []
    ensures Spaced(Ends(refs))
    ensures Ends(refs)[|refs| - 1] + PAD + 1 == |Joined(refs)|
    decreases |refs|
  {
    var prefix := refs[..|refs| - 1];
    if prefix != [] {
      EndsGapped(prefix);
      assert Ends(refs)[..|prefix|] == Ends(prefix);
      forall k | 0 <= k < |refs| - 1
        ensures Ends(refs)[k] + PAD < Ends(refs)[k + 1]
      {
        if k < |prefix| - 1 {
          assert Ends(refs)[k] == Ends(prefix)[k] && Ends(refs)[k + 1] == Ends(prefix)[k + 1];
        }
      }
    }
  }

  /** Reference `k` occupies exactly [BeginPos(k), endPos[k]] of the joined sequence. */
  lemma {:induction false} JoinedSegment(refs: seq<seq<char>>, k: nat)
    requires AllNonEmpty(refs) && k < |refs| && Ends(refs)[|refs| - 1] + 1 < UINT32_MOD
    ensures Ends(refs)[k] < |Joined(refs)|
    ensures BeginPos(Ends(refs), k) + |refs[k]| == Ends(refs)[k] + 1
    ensures Joined(refs)[BeginPos(Ends(refs), k)..Ends(refs)[k] + 1] == refs[k]
    decreases |refs|
  {
    var prefix := refs[..|refs| - 1];
    assert Ends(refs)[..|prefix|] == Ends(prefix);
    if k == |refs| - 1 {
      if k > 0 {
        EndsGapped(prefix);
      }
    } else {
      JoinedSegment(prefix, k);
      if k > 0 {
        assert Ends(refs)[k - 1] == Ends(prefix)[k - 1];
      }
      assert Joined(refs)[..|Joined(prefix)|] == Joined(prefix);
    }
  }

  /**
   * The loader's layout: `refs` closed (each with its end recorded and its
   * padding appended) and `cur` open. Stated behind `Opened` so that the
   * recursive definitions unfold only where a lemma opens it.
   */
  ghost predicate Laid(refs: seq<seq<char>>, cur: seq<char>, endPos: seq<int>, sequence: seq<char>)
  {
    forall k {:trigger Opened(k)} | Opened(k) ::
      AllNonEmpty(refs) && endPos == Ends(refs) && sequence == Joined(refs) + cur
  }

  lemma LaidFacts(refs: seq<seq<char>>, cur: seq<char>, endPos: seq<int>, sequence: seq<char>)
    requires Laid(refs, cur, endPos, sequence)
    ensures AllNonEmpty(refs) && endPos == Ends(refs) && sequence == Joined(refs) + cur
  {
    assert Opened(0);
  }

  /** Appending a line extends the open reference. */
  lemma LaidAdd(refs: seq<seq<char>>, cur: seq<char>, endPos: seq<int>, sequence: seq<char>, line: seq<char>)
    requires Laid(refs, cur, endPos, sequence)
    ensures Laid(refs, cur + line, endPos, sequence + line)
  {
    LaidFacts(refs, cur, endPos, sequence);
  }

  /** Closing a non-empty reference records its last index and appends it with its padding. */
  lemma LaidClose(refs: seq<seq<char>>, cur: seq<char>, endPos: seq<int>, sequence: seq<char>)
    requires Laid(refs, cur, endPos, sequence) && cur != []
    ensures Laid(refs + [cur], [], endPos + [|sequence| - 1], sequence + Padding())
    ensures AllNonEmpty(refs + [cur])
    ensures endPos + [|sequence| - 1] == Ends(refs + [cur])
    ensures sequence == Joined(refs) + cur
    ensures Joined(refs + [cur]) == sequence + Padding()
  {
    LaidFacts(refs, cur, endPos, sequence);
    assert (refs + [cur])[..|refs|] == refs;
  }

  /** Closing with nothing open changes nothing. */
  lemma LaidEmpty(refs: seq<seq<char>>, endPos: seq<int>, sequence: seq<char>)
    requires Laid(refs, [], endPos, sequence)
    ensures AllNonEmpty(refs) && endPos == Ends(refs) && sequence == Joined(refs)
  {
    LaidFacts(refs, [], endPos, sequence);
  }

  /**
   * The state of TGM_SpecialRefLoad: the special sequence being built
   * (`sequence`, its length is seqLen), the recorded ends, and the length of
   * the reference currently being read. `refs` and `cur` are the closed
   * references and the open one.
   */
  class SpecialLoader {
    var sequence: seq<char>
    var endPos: seq<int>
    var currRefLen: nat
    ghost var refs: seq<seq<char>>
    ghost var cur: seq<char>

    ghost predicate Valid()
      reads this
    {
      currRefLen == |cur| && Laid(refs, cur, endPos, sequence)
    }

    /** After loading: the ends describe `refs`, and the sequence holds every reference. */
    ghost predicate Loaded()
      reads this
    {
      LoadedAs(refs, endPos, sequence)
    }

    constructor ()
      ensures Valid() && sequence == [] && endPos == [] && refs == [] && cur == []
    {
      sequence := [];
      endPos := [];
      currRefLen := 0;
      refs := [];
      cur := [];
    }

    /** A sequence line: its trimmed, uppercased token is appended. */
    method AddLine(line: seq<char>)
      requires Valid()
      modifies this
      ensures Valid()
      ensures sequence == old(sequence) + line && endPos == old(endPos)
      ensures refs == old(refs) && cur == old(cur) + line
    {
      LaidAdd(refs, cur, endPos, sequence, line);
      sequence := sequence + line;
      currRefLen := currRefLen + |line|;
      cur := cur + line;
    }

    /** A header line: a non-empty open reference is closed and padded. */
    method CloseRef()
      requires Valid()
      modifies this
      ensures Valid() && cur == [] && currRefLen == 0
      ensures old(currRefLen) > 0 ==>
        refs == old(refs) + [old(cur)] && endPos == old(endPos) + [|old(sequence)| - 1] &&
        sequence == old(sequence) + Padding()
      ensures old(currRefLen) == 0 ==> refs == old(refs) && endPos == old(endPos) && sequence == old(sequence)
    {
      if currRefLen > 0 {
        LaidClose(refs, cur, endPos, sequence);
        endPos := endPos + [|sequence| - 1];
        sequence := sequence + Padding();
        refs := refs + [cur];
      }
      currRefLen := 0;
      cur := [];
    }

    /**
     * End of input: a non-empty open reference is closed without padding.
     * The special information is dropped when no reference was loaded.
     */
    method Finish() returns (info: Option<seq<int>>)
      requires Valid()
      modifies this
      ensures Loaded()
      ensures info == (if endPos == [] then None else Some(endPos))
      ensures sequence == old(sequence)
      ensures refs == old(refs) + (if old(cur) == [] then [] else [old(cur)])
    {
      if currRefLen > 0 {
        LaidClose(refs, cur, endPos, sequence);
        endPos := endPos + [|sequence| - 1];
        refs := refs + [cur];
        cur := [];
      } else {
        LaidEmpty(refs, endPos, sequence);
        if refs != [] {
          EndsGapped(refs);
        }
      }
      info := if endPos == [] then None else Some(endPos);
    }
  }

  /** After loading: the ends describe `refs`, and the sequence holds every reference. */
  ghost predicate LoadedAs(refs: seq<seq<char>>, endPos: seq<int>, sequence: seq<char>)
  {
    AllNonEmpty(refs) && endPos == Ends(refs) && sequence <= Joined(refs) &&
    (refs != [] ==> endPos[|refs| - 1] < |sequence|)
  }

  /** Reference `s` sits at [BeginPos(s), endPos[s]] of a loaded sequence. */
  lemma LoadedSegment(refs: seq<seq<char>>, endPos: seq<int>, sequence: seq<char>, s: nat, p: nat)
    requires LoadedAs(refs, endPos, sequence) && |sequence| < UINT32_MOD
    requires s < |refs| && p < |refs[s]|
    ensures Gapped(endPos) && BeginPos(endPos, s) + p <= endPos[s]
    ensures BeginPos(endPos, s) + p < |sequence| && sequence[BeginPos(endPos, s) + p] == refs[s][p]
  {
    var last := |refs| - 1;
    EndsGapped(refs);
    JoinedSegment(refs, s);
    var b := BeginPos(endPos, s);
    assert Joined(refs)[b..Ends(refs)[s] + 1][p] == refs[s][p];
    if s < last {
      GappedBelow(endPos, s, last);
    }
    assert sequence[b + p] == Joined(refs)[b + p];
  }

  /**
   * A loaded special sequence maps back to its references: every offset of
   * every reference is found at its own ID and offset, and the character
   * there is the reference's own.
   */
  lemma LoadedRoundTrip(refs: seq<seq<char>>, endPos: seq<int>, sequence: seq<char>, numSeqs: nat, s: nat, p: nat)
    requires LoadedAs(refs, endPos, sequence) && |sequence| < UINT32_MOD
    requires 1 <= numSeqs && numSeqs + |refs| <= INT32_MAX
    requires s < |refs| && p < |refs[s]|
    ensures BeginPos(endPos, s) + p < |sequence|
    ensures sequence[BeginPos(endPos, s) + p] == refs[s][p]
    ensures SpecialLookup(Some(endPos), numSeqs, BeginPos(endPos, s) + p)
         == Some(SpecialHit(numSeqs - 1 + s, p, BeginPos(endPos, s), |refs[s]|))
  {
    LoadedSegment(refs, endPos, sequence, s, p);
    JoinedSegment(refs, s);
    SpecialRoundTrip(endPos, numSeqs, s, p);
  }

  // ---------------------------------------------------------------------
  // ProcessRefLine
  // ---------------------------------------------------------------------

  predicate Blank(c: char) { c == ' ' || c == '\t' }

  /** The characters that end a token: newline, blank or NUL. */
  predicate Stop(c: char) { c == '\n' || c == ' ' || c == '\t' || c == '\0' }

  /** A NUL occurs at or after index `i`, as in a line read by fgets. */
  ghost predicate Terminated(s: seq<char>, i: nat)
  {
    exists k :: i <= k < |s| && s[k] == '\0'
  }

  lemma NulAt(s: seq<char>, i: nat, z: nat)
    requires i <= z < |s| && s[z] == '\0'
    ensures Terminated(s, i)
  {
  }

  /** The first non-blank index at or after `i`. */
  function SkipBlanks(s: seq<char>, i: nat): (r: nat)
    requires Terminated(s, i)
    ensures i <= r < |s| && !Blank(s[r])
    ensures forall k :: i <= k < r ==> Blank(s[k])
    ensures Terminated(s, r)
    decreases |s| - i
  {
    if Blank(s[i]) then SkipBlanks(s, i + 1) else i
  }

  /** The first index at or after `i` holding a token-ending character. */
  function TokenEnd(s: seq<char>, i: nat): (r: nat)
    requires Terminated(s, i)
    ensures i <= r < |s| && Stop(s[r])
    ensures forall k :: i <= k < r ==> !Stop(s[k])
    decreases |s| - i
  {
    if Stop(s[i]) then i else TokenEnd(s, i + 1)
  }

  /** toupper in the C locale. */
  function ToUpper(c: char): char
  {
    if 'a' <= c <= 'z' then (c as int - 32) as char else c
  }

  /** `s` with the characters in [lo, hi) uppercased. */
  function Uppercased(s: seq<char>, lo: nat, hi: nat): (r: seq<char>)
    requires lo <= hi <= |s|
    ensures |r| == |s|
    ensures forall k :: 0 <= k < |s| ==> r[k] == if lo <= k < hi then ToUpper(s[k]) else s[k]
  {
    seq(|s|, k requires 0 <= k < |s| => if lo <= k < hi then ToUpper(s[k]) else s[k])
  }

  /**
   * ProcessRefLine: skips leading blanks and uppercases the token that
   * follows, in place. `start` is the index the returned `char*` addresses; `len`
   * is the token length (an unsigned short, which a 1024-byte line cannot
   * overflow). The returned `char*` is never NULL,
   * since a blank is neither a newline nor a NUL.
   */
  method ProcessRefLine(buff: array<char>) returns (start: nat, len: nat)
    requires buff.Length == MAX_REF_LINE && Terminated(buff[..], 0)
    modifies buff
    ensures start == SkipBlanks(old(buff[..]), 0)
    ensures len == TokenEnd(old(buff[..]), start) - start < MAX_REF_LINE
    ensures buff[..] == Uppercased(old(buff[..]), start, TokenEnd(old(buff[..]), start))
  {
    start := SkipBlankChars(buff);
    len := UpperToken(buff, start);
  }

  /** The first loop of ProcessRefLine: the index of the first non-blank. */
  method SkipBlankChars(buff: array<char>) returns (start: nat)
    requires Terminated(buff[..], 0)
    ensures start == SkipBlanks(buff[..], 0)
  {
    ghost var s := buff[..];
    ghost var z :| 0 <= z < |s| && s[z] == '\0';
    var i := 0;
    while buff[i] == ' ' || buff[i] == '\t'
      invariant i <= z && SkipBlanks(s, i) == SkipBlanks(s, 0)
      decreases z - i
    {
      if buff[i] == '\n' || buff[i] == '\0' {
        assert false;
      }
      i := i + 1;
      NulAt(s, i, z);
    }
    start := i;
  }

  /** The second loop of ProcessRefLine: uppercases the token at `start` and counts it. */
  method UpperToken(buff: array<char>, start: nat) returns (len: nat)
    requires start < buff.Length && Terminated(buff[..], start)
    modifies buff
    ensures len == TokenEnd(old(buff[..]), start) - start
    ensures buff[..] == Uppercased(old(buff[..]), start, TokenEnd(old(buff[..]), start))
  {
    ghost var s := buff[..];
    ghost var z :| start <= z < |s| && s[z] == '\0';
    var i := start;
    len := 0;
    while buff[i] != '\n' && buff[i] != ' ' && buff[i] != '\t' && buff[i] != '\0'
      invariant start <= i <= z && TokenEnd(s, i) == TokenEnd(s, start)
      invariant forall k :: start <= k < i ==> buff[k] == ToUpper(s[k])
      invariant forall k :: 0 <= k < start || i <= k < buff.Length ==> buff[k] == s[k]
      invariant len == i - start
      decreases z - i
    {
      buff[i] := ToUpper(buff[i]);
      i := i + 1;
      NulAt(s, i, z);
      len := len + 1;
    }
    assert buff[..] == Uppercased(s, start, i);
  }

  /**
   * Processing a processed line again finds the same token and changes
   * nothing: uppercasing neither creates nor removes blanks and stops.
   */
  lemma ProcessRefLineIdempotent(s: seq<char>)
    requires Terminated(s, 0)
    ensures var start := SkipBlanks(s, 0);
            var end := TokenEnd(s, start);
            var u := Uppercased(s, start, end);
            Terminated(u, 0) && SkipBlanks(u, 0) == start && TokenEnd(u, start) == end &&
            Uppercased(u, start, end) == u
  {
    var start := SkipBlanks(s, 0);
    var end := TokenEnd(s, start);
    var u := Uppercased(s, start, end);
    var z :| 0 <= z < |s| && s[z] == '\0';
    assert u[z] == '\0';
    SkipSame(s, u, 0, start);
    TokenSame(s, u, start, end);
  }

  lemma {:induction false} SkipSame(s: seq<char>, u: seq<char>, i: nat, start: nat)
    requires Terminated(s, i) && Terminated(u, i) && |u| == |s| && start == SkipBlanks(s, i)
    requires forall k :: i <= k < |s| ==> (Blank(u[k]) <==> Blank(s[k]))
    ensures SkipBlanks(u, i) == start
    decreases |s| - i
  {
    if Blank(s[i]) {
      SkipSame(s, u, i + 1, start);
    }
  }

  lemma {:induction false} TokenSame(s: seq<char>, u: seq<char>, i: nat, end: nat)
    requires Terminated(s, i) && Terminated(u, i) && |u| == |s| && end == TokenEnd(s, i)
    requires forall k :: i <= k < |s| ==> (Stop(u[k]) <==> Stop(s[k]))
    ensures TokenEnd(u, i) == end
    decreases |s| - i
  {
    if !Stop(s[i]) {
      TokenSame(s, u, i + 1, end);
    }
  }

  // ---------------------------------------------------------------------
  // Reference header and reference objects
  // ---------------------------------------------------------------------

  /**
   * TGM_RefHeaderGetRefID: the ID stored for a name in the dictionary, or -1
   * for an unknown name.
   */
  function GetRefID(dict: map<seq<char>, int>, name: seq<char>): (r: int)
    ensures name in dict ==> r == dict[name]
    ensures name !in dict ==> r == -1
  {
    if name in dict then dict[name] else -1
  }

  /** With non-negative stored IDs, a name is known exactly when its ID is non-negative. */
  lemma RefIDKnown(dict: map<seq<char>, int>, name: seq<char>)
    requires forall n :: n in dict ==> dict[n] >= 0
    ensures GetRefID(dict, name) >= 0 <==> name in dict
  {
  }

  /** The name part of the reference header: names in ID order, with capacity. */
  class RefHeader {
    var names: seq<Option<seq<char>>>
    var numRefs: nat
    var capacity: nat
    var dict: map<seq<char>, int>

    ghost predicate Valid()
      reads this
    {
      0 < capacity && numRefs <= capacity && |names| == capacity
    }

    constructor (refCapacity: nat)
      requires refCapacity > 0
      ensures Valid() && numRefs == 0 && capacity == refCapacity && dict == map[]
      ensures names == seq(refCapacity, _ => None)
    {
      names := seq(refCapacity, _ => None);
      numRefs := 0;
      capacity := refCapacity;
      dict := map[];
    }

    /**
     * TGM_RefHeaderSetName: stores the text between '>' and the first blank,
     * newline or NUL at slot numRefs (NULL when empty), doubling the
     * capacity first when the table is full. numRefs is not advanced.
     */
    method SetName(buff: seq<char>)
      requires Valid() && Terminated(buff, 1)
      modifies this
      ensures Valid()
      ensures numRefs == old(numRefs) && dict == old(dict)
      ensures capacity == if old(numRefs) == old(capacity) then 2 * old(capacity) else old(capacity)
      ensures var end := TokenEnd(buff, 1);
              names == (old(names) + seq(capacity - old(capacity), _ => None))
                         [numRefs := if end == 1 then None else Some(buff[1..end])]
    {
      var header := 1;
      while buff[header] != ' ' && buff[header] != '\t' && buff[header] != '\n' && buff[header] != '\0'
        invariant 1 <= header && Terminated(buff, header) && TokenEnd(buff, header) == TokenEnd(buff, 1)
        decreases |buff| - header
      {
        header := header + 1;
      }
      if numRefs == capacity {
        names := names + seq(capacity, _ => None);
        capacity := 2 * capacity;
      }
      var headerLen := header - 1;
      if headerLen != 0 {
        names := names[numRefs := Some(buff[1..header])];
      } else {
        names := names[numRefs := None];
      }
    }
  }

  /** A loaded chromosome sequence (TGM_Reference). */
  class RefSeq {
    var sequence: seq<char>
    var id: int
    var seqLen: nat
    var seqCap: nat

    constructor (seqCap: nat)
      ensures sequence == [] && id == 0 && seqLen == 0 && this.seqCap == seqCap
    {
      sequence := [];
      id := 0;
      seqLen := 0;
      this.seqCap := seqCap;
    }

    /** TGM_ReferenceReset: empties the sequence for the next read; nothing else changes. */
    method Reset()
      modifies this`seqLen
      ensures seqLen == 0
    {
      seqLen := 0;
    }
  }
}
