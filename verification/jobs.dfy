// The detector's job stack, a LIFO array of jobs that doubles when full and
// is shared by the detection threads under a mutex, and the scratch buffers
// the deletion finder collects a cluster's values in (TGM_ReadPairDetect.c).

module DetectJobs {
  import opened Numeric

  /** `TGM_DetectJob`: the job's data (an opaque handle here), its reference and its event type. */
  datatype DetectJob = DetectJob(data: nat, refID: int, eventType: int)

  // ---------------------------------------------------------------------
  // Capacity growth

  /**
   * The capacity after a push as the source computes it: doubled when the
   * stack is full.  A stack allocated for zero threads starts at capacity 0.
   */
  function PushCapacityAsWritten(top: nat, capacity: nat): (r: nat)
    ensures top == capacity ==> r == 2 * capacity
    ensures top != capacity ==> r == capacity
  {
    if top == capacity then 2 * capacity else capacity
  }

  /** The capacity after n pushes onto a stack holding `top` jobs, as written. */
  function CapacityAfterPushesAsWritten(top: nat, capacity: nat, n: nat): nat
    decreases n
  {
    if n == 0 then capacity
    else CapacityAfterPushesAsWritten(top + 1, PushCapacityAsWritten(top, capacity), n - 1)
  }

  /**
   * As written, an empty stack of capacity 0 (zero threads) never grows: every
   * push stores its job at index `top` of a buffer with room for none.
   */
  lemma {:induction false} ZeroCapacityNeverGrows(top: nat, n: nat)
    ensures CapacityAfterPushesAsWritten(top, 0, n) == 0
    ensures n > 0 ==> PushCapacityAsWritten(top, 0) <= top
    decreases n
  {
    if n > 0 {
      assert PushCapacityAsWritten(top, 0) == 0;
      ZeroCapacityNeverGrows(top + 1, n - 1);
    }
  }

  /**
   * The capacity after a push, corrected so that a full stack always gains
   * room: doubled, or 1 when it was 0.
   */
  function PushCapacity(top: nat, capacity: nat): (r: nat)
    requires top <= capacity
    ensures top < r
    ensures top < capacity ==> r == capacity
    ensures top == capacity && capacity > 0 ==> r == 2 * capacity
  {
    if top == capacity then (if capacity == 0 then 1 else 2 * capacity) else capacity
  }

  // ---------------------------------------------------------------------
  // The stack on values

  /** The stack after pushing `jobs` in order. */
  function PushAll(stack: seq<DetectJob>, jobs: seq<DetectJob>): (r: seq<DetectJob>)
    ensures |r| == |stack| + |jobs|
    decreases |jobs|
  {
    if jobs == [] then stack else PushAll(stack + [jobs[0]], jobs[1..])
  }

  /** Popping: nothing from an empty stack, otherwise the last pushed job and the rest. */
  function Popped(stack: seq<DetectJob>): (r: (Option<DetectJob>, seq<DetectJob>))
    ensures stack == [] ==> r == (None, stack)
    ensures stack != [] ==> r.0 == Some(stack[|stack| - 1]) && r.1 + [stack[|stack| - 1]] == stack
  {
    if stack == [] then (None, stack) else (Some(stack[|stack| - 1]), stack[..|stack| - 1])
  }

  /** The jobs returned by n pops, in the order returned, and the stack left. */
  function PopN(stack: seq<DetectJob>, n: nat): (r: (seq<DetectJob>, seq<DetectJob>))
    requires n <= |stack|
    decreases n
  {
    if n == 0 then ([], stack)
    else
      var rest := PopN(stack[..|stack| - 1], n - 1);
      ([stack[|stack| - 1]] + rest.0, rest.1)
  }

  /** A list in reverse order. */
  function Reversed(s: seq<DetectJob>): (r: seq<DetectJob>)
    ensures |r| == |s|
    ensures forall k | 0 <= k < |s| :: r[k] == s[|s| - 1 - k]
    decreases |s|
  {
    if s == [] then [] else [s[|s| - 1]] + Reversed(s[..|s| - 1])
  }

  /** Pushing then popping a job gives it back and leaves the stack as it was. */
  lemma PushPop(stack: seq<DetectJob>, job: DetectJob)
    ensures Popped(stack + [job]) == (Some(job), stack)
  {
    assert (stack + [job])[..|stack|] == stack;
  }

  /** Pushing several jobs appends them. */
  lemma {:induction false} PushAllAppends(stack: seq<DetectJob>, jobs: seq<DetectJob>)
    ensures PushAll(stack, jobs) == stack + jobs
    decreases |jobs|
  {
    if jobs != [] {
      PushAllAppends(stack + [jobs[0]], jobs[1..]);
      assert stack + [jobs[0]] + jobs[1..] == stack + jobs;
    }
  }

  /**
   * Last in, first out: after pushing a list of jobs, as many pops return
   * them in reverse order and leave the stack as it was.
   */
  lemma {:induction false} LastInFirstOut(stack: seq<DetectJob>, jobs: seq<DetectJob>)
    ensures PopN(stack + jobs, |jobs|) == (Reversed(jobs), stack)
    decreases |jobs|
  {
    if jobs == [] {
      assert stack + jobs == stack;
    } else {
      var n := |jobs|;
      var init := jobs[..n - 1];
      assert (stack + jobs)[..|stack + jobs| - 1] == stack + init;
      LastInFirstOut(stack, init);
      assert jobs[..n - 1] == init;
      assert Reversed(jobs) == [jobs[n - 1]] + Reversed(init);
    }
  }

  // ---------------------------------------------------------------------
  // The job stack object

  /**
   * `TGM_DetectJobStack`: the jobs `pJobs[0..top)` as a list, its capacity,
   * and the thread and loading counters (the library table and the mutex
   * are not part of this model).
   */
  class JobStack {
    var jobs: seq<DetectJob>
    var capacity: nat
    var numThread: nat
    var loadingNum: nat
    var loadingLimit: nat
    var nextJobID: int

    ghost predicate Valid()
      reads this
    {
      |jobs| <= capacity
    }

    /** `TGM_DetectJobStackAlloc`: empty, with room for two jobs per thread. */
    constructor(numThread: nat, loadingLimit: nat)
      ensures Valid()
      ensures jobs == [] && capacity == 2 * numThread
      ensures this.numThread == numThread && loadingNum == 0 && this.loadingLimit == loadingLimit && nextJobID == 0
    {
      jobs := [];
      capacity := 2 * numThread;
      this.numThread := numThread;
      loadingNum := 0;
      this.loadingLimit := loadingLimit;
      nextJobID := 0;
    }

    /** `TGM_DetectJobStackIsEmpty`. */
    function IsEmpty(): (r: bool)
      reads this
      ensures r <==> |jobs| == 0
    {
      |jobs| == 0
    }

    /** `TGM_DetectJobStackPush`: grow when full, then store the job on top. */
    method Push(job: DetectJob)
      requires Valid()
      modifies this`jobs, this`capacity
      ensures Valid()
      ensures jobs == old(jobs) + [job]
      ensures capacity == PushCapacity(|old(jobs)|, old(capacity))
    {
      capacity := PushCapacity(|jobs|, capacity);
      jobs := jobs + [job];
    }

    /**
     * `TGM_DetectJobStackPop`: `None` (the source's `TGM_ERR`) on an empty
     * stack, which is left unchanged; otherwise the top job, removed.
     */
    method Pop() returns (r: Option<DetectJob>)
      requires Valid()
      modifies this`jobs
      ensures Valid()
      ensures (r, jobs) == Popped(old(jobs))
    {
      if IsEmpty() {
        return None;
      }
      r := Some(jobs[|jobs| - 1]);
      jobs := jobs[..|jobs| - 1];
    }
  }

  // ---------------------------------------------------------------------
  // The scratch buffers

  /**
   * `SV_AssistArray`: three int buffers of `capacity` slots (fragment-length
   * differences and the two mates' mapping qualities) and the number in use.
   */
  class AssistArray {
    var fragLenDiff: seq<int>
    var mapQ5: seq<int>
    var mapQ3: seq<int>
    var size: nat
    var capacity: nat

    ghost predicate Valid()
      reads this
    {
      |fragLenDiff| == capacity && |mapQ5| == capacity && |mapQ3| == capacity
    }

    /** Empty buffers (the allocation routine is not part of this model). */
    constructor()
      ensures Valid() && size == 0 && capacity == 0
    {
      fragLenDiff, mapQ5, mapQ3 := [], [], [];
      size, capacity := 0, 0;
    }

    /**
     * `SV_AssistArrayResize`: the size becomes newSize; only when newSize
     * exceeds the capacity are the buffers replaced by fresh ones of twice
     * newSize, whose contents are unspecified.
     */
    method Resize(newSize: nat)
      requires Valid()
      modifies this
      ensures Valid() && size == newSize && newSize <= capacity
      ensures capacity == if newSize > old(capacity) then 2 * newSize else old(capacity)
      ensures newSize <= old(capacity) ==>
                fragLenDiff == old(fragLenDiff) && mapQ5 == old(mapQ5) && mapQ3 == old(mapQ3)
    {
      if newSize > capacity {
        capacity := newSize * 2;
        assert |seq(capacity, _ => 0)| == capacity;
        var d: seq<int> :| |d| == capacity;
        var q3: seq<int> :| |q3| == capacity;
        var q5: seq<int> :| |q5| == capacity;
        fragLenDiff, mapQ3, mapQ5 := d, q3, q5;
      }
      size := newSize;
    }
  }
}
