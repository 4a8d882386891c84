// Exact stand-ins for the numeric helpers the detector relies on: C's
// truncating integer division, double-to-int rounding, square roots that may
// be NaN, and a median of integers.

module Numeric {

  /** 2^32: unsigned 32-bit counters in the source wrap modulo this value. */
  const UINT32_MOD: int := 0x1_0000_0000
  /** INT_MAX of a 32-bit int, used by the source as the start of a running minimum. */
  const INT32_MAX: int := 0x7FFF_FFFF

  /** The conversion of a 32-bit int to unsigned, as C does in a mixed comparison. */
  function AsUnsigned(x: int): (r: nat)
    ensures r < UINT32_MOD
    ensures 0 <= x < UINT32_MOD ==> r == x
  {
    x % UINT32_MOD
  }

  /**
   * The conversion of a value to a 32-bit int, as C does when an unsigned
   * result is returned or stored as `int32_t`: the value modulo 2^32, read in
   * two's complement.
   */
  function ToInt32(x: int): (r: int)
    ensures -INT32_MAX - 1 <= r <= INT32_MAX
    ensures (r - x) % UINT32_MOD == 0
    ensures -INT32_MAX - 1 <= x <= INT32_MAX ==> r == x
  {
    var u := x % UINT32_MOD;
    if u > INT32_MAX then u - UINT32_MOD else u
  }

  datatype Option<T> = None | Some(value: T)

  /**
   * The capacity a growable array reaches when it must hold `need` items and
   * doubles from `cap` whenever it is full.
   */
  function Grown(cap: nat, need: nat): (r: nat)
    requires cap > 0
    ensures r >= need && r >= cap
    decreases need - cap
  {
    if need <= cap then cap else Grown(2 * cap, need)
  }

  /** Adding one item to a full array doubles the capacity; otherwise it is kept. */
  lemma {:induction false} GrownStep(cap: nat, need: nat)
    requires cap > 0
    ensures Grown(cap, need + 1) == (if need == Grown(cap, need) then 2 * Grown(cap, need) else Grown(cap, need))
    decreases need - cap
  {
    if need + 1 <= cap {
    } else if need <= cap {
      assert need == cap;
      assert Grown(2 * cap, need + 1) == 2 * cap;
    } else {
      GrownStep(2 * cap, need);
    }
  }

  /**
   * Holds for every k.  A fact stated as `forall k | Opened(k) :: P` is P,
   * but a proof sees P only where it names `Opened(k)`: this keeps large
   * facts out of the proofs that do not need them.
   */
  ghost predicate Opened(k: nat)
  {
    true
  }

  /** The source's fixed-size two-slot arrays (`double mean[2]`, `int numFrag[2]`, ...). */
  datatype Two<T> = Two(first: T, second: T)

  function MinReal(a: real, b: real): real { if a < b then a else b }
  function MaxReal(a: real, b: real): real { if a > b then a else b }
  function MinInt(a: int, b: int): int { if a < b then a else b }
  function MaxInt(a: int, b: int): int { if a > b then a else b }

  function Sq(v: real): real { v * v }

  function AbsReal(x: real): real { if x < 0.0 then -x else x }
  function AbsInt(x: int): int { if x < 0 then -x else x }

  /**
   * A standard deviation as the source keeps it in a double: either NaN or
   * the non-negative square root of `square`.  Keeping the square instead of
   * the root keeps every computation exact.
   */
  datatype Std = NaN | Root(square: real)

  /** `sqrt(v)`: NaN for a negative argument, otherwise the root of v. */
  function SqrtOf(v: real): (s: Std)
    ensures s.NaN? <==> v < 0.0
    ensures s.Root? ==> s.square == v && s.square >= 0.0
  {
    if v < 0.0 then NaN else Root(v)
  }

  /** IEEE `s <= b`: false when s is NaN; for a root, decided on squares. */
  predicate StdAtMost(s: Std, b: real)
  {
    s.Root? && b >= 0.0 && s.square <= b * b
  }

  /** C's `a / b` on ints: the quotient truncated toward zero. */
  function CDiv(a: int, b: int): (q: int)
    requires b > 0
    ensures a >= 0 ==> q >= 0
    ensures a <= 0 ==> q <= 0
    ensures AbsInt(q) == AbsInt(a) / b
  {
    if a >= 0 then a / b else -((-a) / b)
  }

  /**
   * The rounding of a double to the nearest int, halves away from zero
   * (the source's `DoubleRoundToInt` is not part of this model; this is the
   * rounding it is taken to perform).
   */
  function Round(x: real): (r: int)
    ensures x - 0.5 <= r as real <= x + 0.5
    ensures x >= 0.0 ==> r >= 0
    ensures x <= 0.0 ==> r <= 0
  {
    if x >= 0.0 then (x + 0.5).Floor else -((-x + 0.5).Floor)
  }

  /** The truncating cast `(int) x` of a non-negative double. */
  function Trunc(x: real): (r: int)
    requires x >= 0.0
    ensures r as real <= x < r as real + 1.0
  {
    x.Floor
  }

  /**
   * `Round(sqrt(q))` for q >= 0, found by counting up from 0: the result r is
   * the nearest integer to the root of q, i.e. (r - 1/2)^2 <= q < (r + 1/2)^2.
   */
  function RoundSqrt(q: real): (r: nat)
    requires q >= 0.0
    ensures q < Sq(r as real + 0.5)
    ensures r > 0 ==> Sq(r as real - 0.5) <= q
  {
    RoundSqrtFrom(q, 0)
  }

  function RoundSqrtFrom(q: real, r: nat): (s: nat)
    requires q >= 0.0
    requires r > 0 ==> Sq(r as real - 0.5) <= q
    ensures q < Sq(s as real + 0.5)
    ensures s > 0 ==> Sq(s as real - 0.5) <= q
    decreases q.Floor + 1 - r
  {
    if Sq(r as real + 0.5) <= q then
      RootAtMost(q, r);
      assert (r + 1) as real - 0.5 == r as real + 0.5;
      RoundSqrtFrom(q, r + 1)
    else r
  }

  /** A natural number whose half-up square is at most q is itself at most q. */
  lemma RootAtMost(q: real, r: nat)
    requires Sq(r as real + 0.5) <= q
    ensures r as real <= q
  {
    var x := r as real;
    assert x * x <= (x + 0.5) * (x + 0.5);
    if r >= 1 { assert x <= x * x; }
  }

  /** `DoubleRoundToInt(std / sqrt(n))` for a deviation `std` and a count n > 0. */
  function RoundStdError(s: Std, n: nat): (r: int)
    requires n > 0
    ensures r >= 0
    ensures s.Root? ==> s.square / n as real < Sq(r as real + 0.5)
  {
    match s
    case NaN => 0
    case Root(v) => if v >= 0.0 then RoundSqrt(v / n as real) else 0
  }
}
