/**
 * The operation-mode coordinator of the multi-HAL proxy, as a reference
 * definition: which calls setOperationMode makes on the sub-HALs, what it
 * returns and which mode it records, for given sub-HAL answers.
 */
module ModeCoordinator {
  import opened SensorTypes

  /**
   * The first sub-HAL at or after `from` that does not answer OK to the
   * forward call, or `count` when they all do.
   */
  function FirstFailure(subHals: SubHals, count: nat, mode: OperationMode, from: nat): (k: nat)
    requires from <= count
    ensures from <= k <= count
    ensures forall j :: from <= j < k ==> subHals(SetOperationMode(j, mode)).result == OK
    ensures k < count ==> subHals(SetOperationMode(k, mode)).result != OK
    decreases count - from
  {
    if from == count then count
    else if subHals(SetOperationMode(from, mode)).result != OK then from
    else FirstFailure(subHals, count, mode, from + 1)
  }

  /** The calls that set `mode` on sub-HALs 0 .. n-1, in that order. */
  function ModeCalls(n: nat, mode: OperationMode): (calls: seq<SubHalCall>)
    ensures |calls| == n
  {
    seq(n, (j: nat) requires j < n => SetOperationMode(j, mode))
  }

  /** What one setOperationMode call on the proxy amounts to. */
  datatype ModeChange = ModeChange(result: Result, calls: seq<SubHalCall>, recordedMode: OperationMode)

  /**
   * The reference outcome: forward calls up to and including the first
   * failure, then a call restoring `current` on every sub-HAL before the one
   * that failed; the new mode is recorded only when no sub-HAL failed.
   */
  function ApplyModeChange(subHals: SubHals, count: nat, current: OperationMode, mode: OperationMode): (c: ModeChange)
    ensures c.result == OK <==> forall j :: 0 <= j < count ==> subHals(SetOperationMode(j, mode)).result == OK
    ensures c.recordedMode == if c.result == OK then mode else current
    ensures |c.calls| < 2 * count || (count == 0 && c.calls == [])
  {
    var k := FirstFailure(subHals, count, mode, 0);
    if k < count then
      ModeChange(subHals(SetOperationMode(k, mode)).result, ModeCalls(k + 1, mode) + ModeCalls(k, current), current)
    else
      ModeChange(OK, ModeCalls(count, mode), mode)
  }

  /** The modes sent to sub-HAL `subHal` by a sequence of calls, in order. */
  function ModesSentTo(calls: seq<SubHalCall>, subHal: nat): (modes: seq<OperationMode>)
    ensures |modes| <= |calls|
  {
    if calls == [] then []
    else
      var last := calls[|calls| - 1];
      ModesSentTo(calls[..|calls| - 1], subHal)
        + (if last.SetOperationMode? && last.subHal == subHal then [last.mode] else [])
  }

  lemma {:induction false} ModesSentToAppend(a: seq<SubHalCall>, b: seq<SubHalCall>, subHal: nat)
    ensures ModesSentTo(a + b, subHal) == ModesSentTo(a, subHal) + ModesSentTo(b, subHal)
    decreases |b|
  {
    if b == [] {
      assert a + b == a;
    } else {
      var b' := b[..|b| - 1];
      assert (a + b)[..|a + b| - 1] == a + b';
      ModesSentToAppend(a, b', subHal);
    }
  }

  /** ModeCalls(n, mode) sends `mode` once to each of sub-HALs 0 .. n-1 and nothing to the others. */
  lemma {:induction false} ModesSentByModeCalls(n: nat, mode: OperationMode, subHal: nat)
    ensures ModesSentTo(ModeCalls(n, mode), subHal) == if subHal < n then [mode] else []
  {
    if n > 0 {
      assert ModeCalls(n, mode)[..n - 1] == ModeCalls(n - 1, mode);
      ModesSentByModeCalls(n - 1, mode, subHal);
    }
  }

  /**
   * The calls setOperationMode makes, sub-HAL by sub-HAL (the answers to the
   * rollback calls are ignored, so this fixes the calls, not the sub-HALs'
   * final modes). When sub-HAL k is the first to fail,
   * sub-HALs before k are switched and switched back (exactly one extra call,
   * with the old mode), sub-HAL k gets only the failed call, later sub-HALs
   * get nothing, the failing result is returned and the recorded mode stays.
   * When none fails, every sub-HAL gets the new mode once, OK is returned
   * and the new mode is recorded.
   */
  lemma ModeChangeAllOrNothing(subHals: SubHals, count: nat, current: OperationMode, mode: OperationMode)
    ensures var c := ApplyModeChange(subHals, count, current, mode);
            var k := FirstFailure(subHals, count, mode, 0);
            && (k < count ==>
                  && c.result == subHals(SetOperationMode(k, mode)).result
                  && c.result != OK
                  && c.recordedMode == current
                  && (forall j :: 0 <= j < k ==> ModesSentTo(c.calls, j) == [mode, current])
                  && ModesSentTo(c.calls, k) == [mode]
                  && (forall j :: j > k ==> ModesSentTo(c.calls, j) == []))
            && (k == count ==>
                  && c.result == OK
                  && c.recordedMode == mode
                  && (forall j :: 0 <= j < count ==> ModesSentTo(c.calls, j) == [mode])
                  && (forall j :: j >= count ==> ModesSentTo(c.calls, j) == []))
  {
    var c := ApplyModeChange(subHals, count, current, mode);
    var k := FirstFailure(subHals, count, mode, 0);
    if k < count {
      forall j | j >= 0
        ensures ModesSentTo(c.calls, j)
             == (if j < k + 1 then [mode] else []) + (if j < k then [current] else [])
      {
        ModesSentToAppend(ModeCalls(k + 1, mode), ModeCalls(k, current), j);
        ModesSentByModeCalls(k + 1, mode, j);
        ModesSentByModeCalls(k, current, j);
      }
    } else {
      forall j | j >= 0
        ensures ModesSentTo(c.calls, j) == if j < count then [mode] else []
      {
        ModesSentByModeCalls(count, mode, j);
      }
    }
  }

  /** When every sub-HAL accepts the mode, the coordinator records it and reports OK. */
  lemma ModeChangeSucceedsWhenAllAccept(subHals: SubHals, count: nat, current: OperationMode, mode: OperationMode)
    requires forall j :: 0 <= j < count ==> subHals(SetOperationMode(j, mode)).result == OK
    ensures ApplyModeChange(subHals, count, current, mode).result == OK
    ensures ApplyModeChange(subHals, count, current, mode).recordedMode == mode
  {
  }
}
