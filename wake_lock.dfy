/**
 * The wake-lock reference count, as a reference definition: the effect of
 * incrementRefCountAndMaybeAcquireWakelock and
 * decrementRefCountAndMaybeReleaseWakelock on the count and on the calls
 * made to the operating system's wake lock.
 */
module WakeLock {
  import opened SensorTypes

  /** A call to the operating system: acquire_wake_lock or release_wake_lock. */
  datatype WakeLockCall = Acquire | Release

  /** The two operations on the count. */
  datatype RefCountOp = Increment | Decrement

  /** The count and the operating-system calls made so far. */
  datatype WakeLockState = WakeLockState(refCount: nat, calls: seq<WakeLockCall>)

  /** The calls alternate, starting with an acquire. */
  predicate Alternating(calls: seq<WakeLockCall>)
  {
    calls == []
    || (Alternating(calls[..|calls| - 1]) && calls[|calls| - 1] == if |calls| % 2 == 1 then Acquire else Release)
  }

  /** The lock is held after these calls: the last one was an acquire. */
  predicate Held(calls: seq<WakeLockCall>)
  {
    calls != [] && calls[|calls| - 1] == Acquire
  }

  /** The lock is acquired on the 0 to 1 transition and released on the 1 to 0 transition. */
  function Step(s: WakeLockState, op: RefCountOp): (r: WakeLockState)
    requires op == Decrement ==> s.refCount > 0
    ensures r.refCount == if op == Increment then s.refCount + 1 else s.refCount - 1
    ensures |s.calls| <= |r.calls| <= |s.calls| + 1 && r.calls[..|s.calls|] == s.calls
    ensures r.calls != s.calls ==> (s.refCount == 0 && r.refCount == 1) || (s.refCount == 1 && r.refCount == 0)
  {
    match op
    case Increment =>
      WakeLockState(s.refCount + 1, s.calls + if s.refCount == 0 then [Acquire] else [])
    case Decrement =>
      WakeLockState(s.refCount - 1, s.calls + if s.refCount - 1 == 0 then [Release] else [])
  }

  /** The number of increments minus the number of decrements in a sequence of operations. */
  function Net(ops: seq<RefCountOp>): int
  {
    if ops == [] then 0
    else Net(ops[..|ops| - 1]) + if ops[|ops| - 1] == Increment then 1 else -1
  }

  /** Replays the operations from an unheld lock; None when a decrement would take the count below zero. */
  function Replay(ops: seq<RefCountOp>): Option<WakeLockState>
  {
    if ops == [] then Some(WakeLockState(0, []))
    else
      match Replay(ops[..|ops| - 1])
      case None => None
      case Some(s) =>
        var op := ops[|ops| - 1];
        if op == Decrement && s.refCount == 0 then None else Some(Step(s, op))
  }

  /** The count and the calls agree: the calls alternate, and the lock is held exactly when the count is positive. */
  predicate Consistent(s: WakeLockState)
  {
    Alternating(s.calls) && (Held(s.calls) <==> s.refCount > 0)
  }

  /** Each increment or decrement keeps the count and the calls consistent. */
  lemma StepKeepsConsistent(s: WakeLockState, op: RefCountOp)
    requires Consistent(s)
    requires op == Decrement ==> s.refCount > 0
    ensures Consistent(Step(s, op))
  {
    var s' := Step(s, op);
    if s'.calls != s.calls {
      assert s'.calls[..|s'.calls| - 1] == s.calls;
    }
  }

  /**
   * Over any sequence of operations that never decrements a zero count, the
   * count is the number of increments minus decrements, the lock calls
   * alternate acquire/release starting with acquire, and the lock is held
   * exactly when the count is positive, which is after an odd number of calls.
   */
  lemma {:induction false} ReplayConsistent(ops: seq<RefCountOp>)
    requires Replay(ops).Some?
    ensures var s := Replay(ops).value;
            && s.refCount == Net(ops)
            && Consistent(s)
            && (s.calls != [] ==> (Held(s.calls) <==> |s.calls| % 2 == 1))
  {
    if ops != [] {
      var prefix := ops[..|ops| - 1];
      ReplayConsistent(prefix);
      var s0 := Replay(prefix).value;
      StepKeepsConsistent(s0, ops[|ops| - 1]);
    }
  }

  /** An increment followed by a decrement restores the count; from zero it acquires and then releases. */
  lemma IncrementThenDecrement(s: WakeLockState)
    ensures Step(Step(s, Increment), Decrement).refCount == s.refCount
    ensures Step(Step(s, Increment), Decrement).calls
         == s.calls + if s.refCount == 0 then [Acquire, Release] else []
  {
  }
}
