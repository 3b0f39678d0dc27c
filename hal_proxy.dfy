/**
 * The multi-HAL proxy itself: the object that presents several sub-HALs as
 * one sensors HAL, with its sensor table, direct-channel designation,
 * operation mode, dynamic sensors, event backlog and wake-lock count, and
 * the per-sub-HAL callback that relabels the events a sub-HAL posts.
 *
 * Every method is proved against the reference definitions of the other
 * modules; `Valid()` collects what the proxy keeps true between calls.
 */
module MultiHal {
  import opened HandleCodec
  import opened SensorTypes
  import opened ModeCoordinator
  import opened SensorTable
  import opened DynamicSensors
  import opened EventBacklog
  import opened WakeLock
  import opened EventDelivery

  class HalProxy {
    /** The number of sub-HALs (mSubHalList.size()); the list never changes after construction. */
    const subHalCount: nat
    /** The event queue's quantum count (mEventQueue->getQuantumCount()). */
    const quantumCount: nat

    /** mSubHalCallbacks: one callback per sub-HAL, in sub-HAL order. */
    var subHalCallbacks: seq<HalProxyCallback>
    /** mCurrentOperationMode. */
    var currentOperationMode: OperationMode
    /** mSensors, keyed by global handle. */
    var sensors: map<SensorHandle, SensorInfo>
    /** mDirectChannelSubHal, as a sub-HAL index; None stands for nullptr. */
    var directChannelSubHal: Option<nat>
    /** mDynamicSensors, keyed by global handle. */
    var dynamicSensors: map<SensorHandle, SensorInfo>
    /** mPendingWriteEventsQueue: the backlog of batches not yet written. */
    var pendingWriteEvents: seq<seq<Event>>
    /** The events written into the event queue so far. */
    var eventQueue: seq<Event>
    /** mWakelockRefCount. */
    var wakelockRefCount: nat

    /** The sensor lists the sub-HALs reported at construction. */
    ghost var reported: seq<seq<SensorInfo>>
    /** Every event posted to the queue writer, in posting order. */
    ghost var posted: seq<Event>
    /** Every event handed to the event queue (by an immediate write or a drain attempt), in order. */
    ghost var handedOff: seq<Event>
    /** The acquire_wake_lock and release_wake_lock calls made so far. */
    ghost var wakeLockCalls: seq<WakeLockCall>

    /** One callback per sub-HAL, each pointing back at this proxy with its own index. */
    ghost predicate CallbacksValid()
      reads this`subHalCallbacks
    {
      && |subHalCallbacks| == subHalCount
      && forall i :: 0 <= i < |subHalCallbacks| ==>
           subHalCallbacks[i].proxy == this && subHalCallbacks[i].subHalIndex == i
    }

    /** The table is the one built from the reported lists, and every index in it names a sub-HAL. */
    ghost predicate TableValid()
      reads this`sensors, this`directChannelSubHal, this`reported
    {
      && |reported| == subHalCount
      && Table(sensors, directChannelSubHal) == BuildTable(EmptyTable, reported)
      && (forall k :: k in sensors ==> SubHalIndexOf(k) < subHalCount)
      && (directChannelSubHal.Some? ==> directChannelSubHal.value < subHalCount)
    }

    /** Every dynamic sensor is stored under its own handle. */
    ghost predicate DynamicSensorsValid()
      reads this`dynamicSensors
    {
      KeyedByHandle(dynamicSensors)
    }

    /** No batch of the backlog is empty, and every posted event is either handed off or still in the backlog, in order. */
    ghost predicate BacklogValid()
      reads this`pendingWriteEvents, this`posted, this`handedOff
    {
      NoEmptyBatch(pendingWriteEvents) && posted == handedOff + Flatten(pendingWriteEvents)
    }

    /** The count and the wake-lock calls agree. */
    ghost predicate WakeLockValid()
      reads this`wakelockRefCount, this`wakeLockCalls
    {
      Consistent(WakeLockState(wakelockRefCount, wakeLockCalls))
    }

    ghost predicate Valid()
      reads this
    {
      && subHalCount <= SubHalIndexLimit
      && CallbacksValid()
      && TableValid()
      && DynamicSensorsValid()
      && BacklogValid()
      && WakeLockValid()
    }

    /**
     * HalProxy(subHalList): one callback per sub-HAL, then the sensor table
     * built from `reported`, the lists the sub-HALs hand to getSensorsList.
     */
    constructor (subHalCount: nat, reported: seq<seq<SensorInfo>>, quantumCount: nat)
      requires |reported| == subHalCount <= SubHalIndexLimit
      ensures Valid()
      ensures this.subHalCount == subHalCount && this.quantumCount == quantumCount
      ensures this.reported == reported
      ensures Table(sensors, directChannelSubHal) == BuildTable(EmptyTable, reported)
      ensures currentOperationMode == NORMAL
      ensures dynamicSensors == map[] && pendingWriteEvents == [] && eventQueue == []
      ensures wakelockRefCount == 0 && wakeLockCalls == [] && posted == []
    {
      this.subHalCount := subHalCount;
      this.quantumCount := quantumCount;
      this.reported := reported;
      subHalCallbacks := [];
      currentOperationMode := NORMAL;
      sensors := map[];
      directChannelSubHal := None;
      dynamicSensors := map[];
      pendingWriteEvents := [];
      eventQueue := [];
      wakelockRefCount := 0;
      posted := [];
      handedOff := [];
      wakeLockCalls := [];
      new;
      InitializeSubHalCallbacks();
      InitializeSensorList(reported);
      BuildTableIndicesInRange(reported);
    }

    /** initializeSubHalCallbacks: appends a callback for each sub-HAL index, in order. */
    method InitializeSubHalCallbacks()
      modifies this`subHalCallbacks
      ensures |subHalCallbacks| == |old(subHalCallbacks)| + subHalCount
      ensures subHalCallbacks[..|old(subHalCallbacks)|] == old(subHalCallbacks)
      ensures forall j :: |old(subHalCallbacks)| <= j < |subHalCallbacks| ==>
                && subHalCallbacks[j].proxy == this
                && subHalCallbacks[j].subHalIndex == j - |old(subHalCallbacks)|
                && fresh(subHalCallbacks[j])
    {
      var subHalIndex := 0;
      while subHalIndex < subHalCount
        invariant subHalIndex <= subHalCount
        invariant |subHalCallbacks| == |old(subHalCallbacks)| + subHalIndex
        invariant subHalCallbacks[..|old(subHalCallbacks)|] == old(subHalCallbacks)
        invariant forall j :: |old(subHalCallbacks)| <= j < |subHalCallbacks| ==>
                    && subHalCallbacks[j].proxy == this
                    && subHalCallbacks[j].subHalIndex == j - |old(subHalCallbacks)|
                    && fresh(subHalCallbacks[j])
      {
        var callback := new HalProxyCallback(this, subHalIndex);
        subHalCallbacks := subHalCallbacks + [callback];
        subHalIndex := subHalIndex + 1;
      }
    }

    /**
     * setDirectChannelFlags for a sensor of sub-HAL `subHal`: designates the
     * sub-HAL when none is designated and the sensor is direct-capable, and
     * strips the direct-channel flags from sensors of any other sub-HAL once
     * one is designated.
     */
    method SetDirectChannelFlags(sensor: SensorInfo, subHal: nat) returns (flagged: SensorInfo)
      modifies this`directChannelSubHal
      ensures Arbitration(directChannelSubHal, flagged)
           == ArbitrateDirectChannel(old(directChannelSubHal), subHal, sensor)
    {
      flagged := sensor;
      var supportsDirectChannel := sensor.flags & (MASK_DIRECT_REPORT | MASK_DIRECT_CHANNEL) != 0;
      if directChannelSubHal.None? && supportsDirectChannel {
        directChannelSubHal := Some(subHal);
      } else if directChannelSubHal.Some? && subHal != directChannelSubHal.value {
        flagged := sensor.(flags := sensor.flags & !(MASK_DIRECT_REPORT | MASK_DIRECT_CHANNEL));
      }
    }

    /**
     * initializeSensorList: each sub-HAL's list, in sub-HAL order, is added
     * to the table; `reported[i]` is what sub-HAL i's getSensorsList hands
     * to its callback (empty when the call fails).
     */
    method InitializeSensorList(reported: seq<seq<SensorInfo>>)
      requires |reported| == subHalCount
      modifies this`sensors, this`directChannelSubHal
      ensures Table(sensors, directChannelSubHal)
           == BuildTable(Table(old(sensors), old(directChannelSubHal)), reported)
    {
      ghost var t0 := Table(sensors, directChannelSubHal);
      for subHalIndex := 0 to subHalCount
        invariant Table(sensors, directChannelSubHal) == BuildTable(t0, reported[..subHalIndex])
      {
        var list := reported[subHalIndex];
        ghost var before := Table(sensors, directChannelSubHal);
        for j := 0 to |list|
          invariant Table(sensors, directChannelSubHal) == AddSensors(before, subHalIndex, list[..j])
        {
          var sensor := list[j];
          if SubHalIndexIsClear(sensor.sensorHandle) {
            sensor := sensor.(sensorHandle := SetSubHalIndex(sensor.sensorHandle, subHalIndex));
            sensor := SetDirectChannelFlags(sensor, subHalIndex);
            sensors := sensors[sensor.sensorHandle := sensor];
          }
          assert list[..j + 1][..j] == list[..j];
        }
        assert list[..|list|] == list;
        assert reported[..subHalIndex + 1][..subHalIndex] == reported[..subHalIndex];
      }
      assert reported[..subHalCount] == reported;
    }

    /** getSubHalForSensorHandle: the sub-HAL named by the handle's top byte. */
    function GetSubHalForSensorHandle(sensorHandle: SensorHandle): (subHal: nat)
      requires subHalCount <= SubHalIndexLimit && SubHalIndexOf(sensorHandle) < subHalCount
      ensures subHal < subHalCount
      ensures SetSubHalIndex(ClearSubHalIndex(sensorHandle), subHal) == sensorHandle
    {
      Decomposition(sensorHandle);
      SubHalIndexOf(sensorHandle)
    }

    /**
     * setOperationMode: sets the mode on each sub-HAL in order, stopping at
     * the first failure; on a failure the sub-HALs already switched are set
     * back to the recorded mode, otherwise the new mode is recorded.
     * `subHals` gives the sub-HALs' answers and `calls` the calls made.
     */
    method SetOperationMode(subHals: SubHals, mode: OperationMode) returns (result: Result, calls: seq<SubHalCall>)
      modifies this`currentOperationMode
      ensures ModeChange(result, calls, currentOperationMode)
           == ApplyModeChange(subHals, subHalCount, old(currentOperationMode), mode)
    {
      result := OK;
      calls := [];
      var subHalIndex := 0;
      while subHalIndex < subHalCount
        invariant subHalIndex <= subHalCount
        invariant result == OK
        invariant calls == ModeCalls(subHalIndex, mode)
        invariant forall j :: 0 <= j < subHalIndex ==> subHals(SubHalCall.SetOperationMode(j, mode)).result == OK
      {
        var call := SubHalCall.SetOperationMode(subHalIndex, mode);
        calls := calls + [call];
        assert calls == ModeCalls(subHalIndex + 1, mode);
        result := subHals(call).result;
        if result != OK {
          break;
        }
        subHalIndex := subHalIndex + 1;
      }
      ghost var forward := calls;
      if result != OK {
        for i := 0 to subHalIndex
          invariant calls == forward + ModeCalls(i, currentOperationMode)
        {
          calls := calls + [SubHalCall.SetOperationMode(i, currentOperationMode)];
          assert ModeCalls(i + 1, currentOperationMode) == ModeCalls(i, currentOperationMode)
                                                            + [SubHalCall.SetOperationMode(i, currentOperationMode)];
        }
      } else {
        currentOperationMode := mode;
      }
    }

    /** activate: forwarded to the owning sub-HAL with the handle's top byte cleared. */
    method Activate(subHals: SubHals, sensorHandle: SensorHandle, enabled: bool) returns (result: Result, call: SubHalCall)
      requires subHalCount <= SubHalIndexLimit && SubHalIndexOf(sensorHandle) < subHalCount
      ensures call.Activate? && call.enabled == enabled
      ensures call.subHal < subHalCount && SubHalIndexIsClear(call.sensorHandle)
      ensures SetSubHalIndex(call.sensorHandle, call.subHal) == sensorHandle
      ensures result == subHals(call).result
    {
      call := SubHalCall.Activate(GetSubHalForSensorHandle(sensorHandle), ClearSubHalIndex(sensorHandle), enabled);
      result := subHals(call).result;
    }

    /** batch: forwarded to the owning sub-HAL with the handle's top byte cleared. */
    method Batch(subHals: SubHals, sensorHandle: SensorHandle, samplingPeriodNs: int, maxReportLatencyNs: int)
      returns (result: Result, call: SubHalCall)
      requires subHalCount <= SubHalIndexLimit && SubHalIndexOf(sensorHandle) < subHalCount
      ensures call.Batch? && call.samplingPeriodNs == samplingPeriodNs && call.maxReportLatencyNs == maxReportLatencyNs
      ensures call.subHal < subHalCount && SubHalIndexIsClear(call.sensorHandle)
      ensures SetSubHalIndex(call.sensorHandle, call.subHal) == sensorHandle
      ensures result == subHals(call).result
    {
      call := SubHalCall.Batch(GetSubHalForSensorHandle(sensorHandle), ClearSubHalIndex(sensorHandle),
                               samplingPeriodNs, maxReportLatencyNs);
      result := subHals(call).result;
    }

    /** flush: forwarded to the owning sub-HAL with the handle's top byte cleared. */
    method Flush(subHals: SubHals, sensorHandle: SensorHandle) returns (result: Result, call: SubHalCall)
      requires subHalCount <= SubHalIndexLimit && SubHalIndexOf(sensorHandle) < subHalCount
      ensures call.Flush?
      ensures call.subHal < subHalCount && SubHalIndexIsClear(call.sensorHandle)
      ensures SetSubHalIndex(call.sensorHandle, call.subHal) == sensorHandle
      ensures result == subHals(call).result
    {
      call := SubHalCall.Flush(GetSubHalForSensorHandle(sensorHandle), ClearSubHalIndex(sensorHandle));
      result := subHals(call).result;
    }

    /** Whether injectSensorData turns an event away: in NORMAL mode only additional-info frames pass. */
    predicate InjectionRejected(event: Event)
      reads this
    {
      currentOperationMode == NORMAL && event.sensorType != ADDITIONAL_INFO
    }

    /**
     * injectSensorData: BAD_VALUE and no sub-HAL call for a rejected event;
     * otherwise a copy with the top byte cleared goes to the owning sub-HAL
     * and its answer is returned.
     */
    method InjectSensorData(subHals: SubHals, event: Event) returns (result: Result, call: Option<SubHalCall>)
      requires subHalCount <= SubHalIndexLimit
      requires !InjectionRejected(event) ==> SubHalIndexOf(event.sensorHandle) < subHalCount
      ensures InjectionRejected(event) <==> call.None?
      ensures InjectionRejected(event) ==> result == BAD_VALUE
      ensures call.Some? ==>
                && call.value.InjectSensorData?
                && call.value.subHal < subHalCount
                && call.value.event == event.(sensorHandle := call.value.event.sensorHandle)
                && SubHalIndexIsClear(call.value.event.sensorHandle)
                && SetSubHalIndex(call.value.event.sensorHandle, call.value.subHal) == event.sensorHandle
                && result == subHals(call.value).result
    {
      result := OK;
      call := None;
      if currentOperationMode == NORMAL && event.sensorType != ADDITIONAL_INFO {
        result := BAD_VALUE;
      }
      if result == OK {
        var subHalEvent := event.(sensorHandle := ClearSubHalIndex(event.sensorHandle));
        var forwarded := SubHalCall.InjectSensorData(GetSubHalForSensorHandle(event.sensorHandle), subHalEvent);
        call := Some(forwarded);
        result := subHals(forwarded).result;
      }
    }

    /**
     * registerDirectChannel: INVALID_OPERATION and channel handle -1 when no
     * sub-HAL is designated; otherwise the designated sub-HAL's answer.
     */
    method RegisterDirectChannel(subHals: SubHals, mem: SharedMemInfo)
      returns (result: Result, channelHandle: int, call: Option<SubHalCall>)
      ensures directChannelSubHal.None? ==> result == INVALID_OPERATION && channelHandle == -1 && call.None?
      ensures directChannelSubHal.Some? ==>
                && call == Some(SubHalCall.RegisterDirectChannel(directChannelSubHal.value, mem))
                && result == subHals(call.value).result
                && channelHandle == subHals(call.value).token
    {
      if directChannelSubHal.None? {
        result, channelHandle, call := INVALID_OPERATION, -1, None;
      } else {
        var forwarded := SubHalCall.RegisterDirectChannel(directChannelSubHal.value, mem);
        var reply := subHals(forwarded);
        result, channelHandle, call := reply.result, reply.token, Some(forwarded);
      }
    }

    /** unregisterDirectChannel: INVALID_OPERATION when no sub-HAL is designated; otherwise its answer. */
    method UnregisterDirectChannel(subHals: SubHals, channelHandle: int) returns (result: Result, call: Option<SubHalCall>)
      ensures directChannelSubHal.None? ==> result == INVALID_OPERATION && call.None?
      ensures directChannelSubHal.Some? ==>
                && call == Some(SubHalCall.UnregisterDirectChannel(directChannelSubHal.value, channelHandle))
                && result == subHals(call.value).result
    {
      if directChannelSubHal.None? {
        result, call := INVALID_OPERATION, None;
      } else {
        var forwarded := SubHalCall.UnregisterDirectChannel(directChannelSubHal.value, channelHandle);
        result, call := subHals(forwarded).result, Some(forwarded);
      }
    }

    /**
     * configDirectReport: INVALID_OPERATION and report token -1 when no
     * sub-HAL is designated; otherwise the designated sub-HAL is asked, with
     * the handle's top byte cleared, and its answer is returned.
     */
    method ConfigDirectReport(subHals: SubHals, sensorHandle: SensorHandle, channelHandle: int, rate: RateLevel)
      returns (result: Result, reportToken: int, call: Option<SubHalCall>)
      ensures directChannelSubHal.None? ==> result == INVALID_OPERATION && reportToken == -1 && call.None?
      ensures directChannelSubHal.Some? ==>
                && call.Some? && call.value.ConfigDirectReport?
                && call.value.subHal == directChannelSubHal.value
                && call.value.channelHandle == channelHandle && call.value.rate == rate
                && SubHalIndexIsClear(call.value.sensorHandle)
                && ClearSubHalIndex(sensorHandle) == call.value.sensorHandle
                && result == subHals(call.value).result
                && reportToken == subHals(call.value).token
    {
      if directChannelSubHal.None? {
        result, reportToken, call := INVALID_OPERATION, -1, None;
      } else {
        var forwarded := SubHalCall.ConfigDirectReport(directChannelSubHal.value, ClearSubHalIndex(sensorHandle),
                                                       channelHandle, rate);
        var reply := subHals(forwarded);
        result, reportToken, call := reply.result, reply.token, Some(forwarded);
      }
    }

    /**
     * onDynamicSensorsConnected: every sensor with a clear top byte is
     * tagged with the sub-HAL index and stored in the dynamic-sensor map;
     * `forwarded` is the list handed to the framework.
     */
    method OnDynamicSensorsConnected(dynamicSensorsAdded: seq<SensorInfo>, subHalIndex: nat)
      returns (forwarded: seq<SensorInfo>)
      requires DynamicSensorsValid()
      modifies this`dynamicSensors
      ensures DynamicSensorsValid()
      ensures forwarded == ConnectAccepted(dynamicSensorsAdded, subHalIndex)
      ensures dynamicSensors == StoreAll(old(dynamicSensors), forwarded)
    {
      forwarded := [];
      for i := 0 to |dynamicSensorsAdded|
        invariant forwarded == ConnectAccepted(dynamicSensorsAdded[..i], subHalIndex)
        invariant dynamicSensors == StoreAll(old(dynamicSensors), forwarded)
      {
        ConnectAcceptedStep(dynamicSensorsAdded, i, subHalIndex);
        var sensor := dynamicSensorsAdded[i];
        if SubHalIndexIsClear(sensor.sensorHandle) {
          sensor := sensor.(sensorHandle := SetSubHalIndex(sensor.sensorHandle, subHalIndex));
          StoreAllStep(old(dynamicSensors), forwarded, sensor);
          dynamicSensors := dynamicSensors[sensor.sensorHandle := sensor];
          forwarded := forwarded + [sensor];
        }
      }
      assert dynamicSensorsAdded[..|dynamicSensorsAdded|] == dynamicSensorsAdded;
      StoreAllKeyedByHandle(old(dynamicSensors), forwarded);
    }

    /**
     * onDynamicSensorsDisconnected: every handle with a clear top byte is
     * tagged with the sub-HAL index and, if present, erased from the
     * dynamic-sensor map; `removed` is the list handed to the framework.
     */
    method OnDynamicSensorsDisconnected(dynamicSensorHandlesRemoved: seq<SensorHandle>, subHalIndex: nat)
      returns (removed: seq<SensorHandle>)
      requires DynamicSensorsValid()
      modifies this`dynamicSensors
      ensures DynamicSensorsValid()
      ensures Disconnection(dynamicSensors, removed)
           == Disconnect(old(dynamicSensors), dynamicSensorHandlesRemoved, subHalIndex)
    {
      removed := [];
      for i := 0 to |dynamicSensorHandlesRemoved|
        invariant Disconnection(dynamicSensors, removed)
               == Disconnect(old(dynamicSensors), dynamicSensorHandlesRemoved[..i], subHalIndex)
        invariant DynamicSensorsValid()
      {
        var sensorHandle := dynamicSensorHandlesRemoved[i];
        if SubHalIndexIsClear(sensorHandle) {
          sensorHandle := SetSubHalIndex(sensorHandle, subHalIndex);
          if sensorHandle in dynamicSensors {
            dynamicSensors := dynamicSensors - {sensorHandle};
            removed := removed + [sensorHandle];
          }
        }
        assert dynamicSensorHandlesRemoved[..i + 1][..i] == dynamicSensorHandlesRemoved[..i];
      }
      assert dynamicSensorHandlesRemoved[..|dynamicSensorHandlesRemoved|] == dynamicSensorHandlesRemoved;
    }

    /**
     * The first half of postEventsToMessageQueue: with an empty backlog, as
     * many events as fit (`availableToWrite`) are written at once, and kept
     * only when the write succeeds (`writeOk`).
     */
    method WriteImmediately(events: seq<Event>, availableToWrite: nat, writeOk: bool) returns (numToWrite: nat)
      modifies this`eventQueue
      ensures numToWrite == ImmediateWriteCount(pendingWriteEvents == [], |events|, availableToWrite, writeOk)
      ensures eventQueue == old(eventQueue) + events[..numToWrite]
    {
      numToWrite := 0;
      if pendingWriteEvents == [] {
        numToWrite := if |events| <= availableToWrite then |events| else availableToWrite;
        if numToWrite > 0 {
          if writeOk {
            eventQueue := eventQueue + events[..numToWrite];
          } else {
            numToWrite := 0;
          }
        }
      }
    }

    /**
     * postEventsToMessageQueue: the immediate write, then whatever was not
     * written becomes one new batch at the tail of the backlog.
     */
    method PostEventsToMessageQueue(events: seq<Event>, availableToWrite: nat, writeOk: bool)
      returns (numToWrite: nat)
      requires BacklogValid()
      modifies this`pendingWriteEvents, this`eventQueue, this`posted, this`handedOff
      ensures BacklogValid()
      ensures numToWrite == ImmediateWriteCount(old(pendingWriteEvents) == [], |events|, availableToWrite, writeOk)
      ensures eventQueue == old(eventQueue) + events[..numToWrite]
      ensures pendingWriteEvents == AppendRemainder(old(pendingWriteEvents), events, numToWrite)
      ensures posted == old(posted) + events
    {
      numToWrite := WriteImmediately(events, availableToWrite, writeOk);
      PostExtendsAccount(handedOff, pendingWriteEvents, events, availableToWrite, writeOk);
      if numToWrite < |events| {
        pendingWriteEvents := pendingWriteEvents + [events[numToWrite..]];
      }
      handedOff := handedOff + events[..numToWrite];
      posted := posted + events;
    }

    /**
     * One iteration of handlePendingWrites with the writer running: when the
     * backlog is not empty, up to quantumCount events of the head batch are
     * handed to a blocking write (`writeOk` is its outcome; on failure they
     * are dropped), then the written prefix is erased or the head popped.
     */
    method HandlePendingWritesStep(writeOk: bool) returns (attempted: seq<Event>)
      requires BacklogValid()
      modifies this`pendingWriteEvents, this`eventQueue, this`handedOff
      ensures BacklogValid()
      ensures old(pendingWriteEvents) == [] ==>
                attempted == [] && pendingWriteEvents == [] && eventQueue == old(eventQueue)
      ensures old(pendingWriteEvents) != [] ==>
                && Drain(attempted, pendingWriteEvents) == DrainHead(old(pendingWriteEvents), quantumCount)
                && eventQueue == old(eventQueue) + (if writeOk then attempted else [])
    {
      attempted := [];
      if pendingWriteEvents != [] {
        DrainKeepsAccount(handedOff, pendingWriteEvents, quantumCount);
        var head := pendingWriteEvents[0];
        var numToWrite := if |head| <= quantumCount then |head| else quantumCount;
        attempted := head[..numToWrite];
        if writeOk {
          eventQueue := eventQueue + attempted;
        }
        if |head| > quantumCount {
          pendingWriteEvents := [head[quantumCount..]] + pendingWriteEvents[1..];
        } else {
          pendingWriteEvents := pendingWriteEvents[1..];
        }
        handedOff := handedOff + attempted;
      }
    }

    /** incrementRefCountAndMaybeAcquireWakelock: acquires the lock on the 0 to 1 transition. */
    method IncrementRefCountAndMaybeAcquireWakelock()
      requires Valid()
      modifies this`wakelockRefCount, this`wakeLockCalls
      ensures Valid()
      ensures WakeLockState(wakelockRefCount, wakeLockCalls)
           == Step(WakeLockState(old(wakelockRefCount), old(wakeLockCalls)), Increment)
    {
      StepKeepsConsistent(WakeLockState(wakelockRefCount, wakeLockCalls), Increment);
      if wakelockRefCount == 0 {
        wakeLockCalls := wakeLockCalls + [Acquire];
      }
      wakelockRefCount := wakelockRefCount + 1;
    }

    /** decrementRefCountAndMaybeReleaseWakelock: releases the lock on the 1 to 0 transition. */
    method DecrementRefCountAndMaybeReleaseWakelock()
      requires Valid() && wakelockRefCount > 0
      modifies this`wakelockRefCount, this`wakeLockCalls
      ensures Valid()
      ensures WakeLockState(wakelockRefCount, wakeLockCalls)
           == Step(WakeLockState(old(wakelockRefCount), old(wakeLockCalls)), Decrement)
    {
      StepKeepsConsistent(WakeLockState(wakelockRefCount, wakeLockCalls), Decrement);
      wakelockRefCount := wakelockRefCount - 1;
      if wakelockRefCount == 0 {
        wakeLockCalls := wakeLockCalls + [Release];
      }
    }
  }

  /** The callback a sub-HAL posts its events and dynamic-sensor changes through. */
  class HalProxyCallback {
    const proxy: HalProxy
    /** The index of the sub-HAL this callback belongs to. */
    const subHalIndex: nat

    constructor (proxy: HalProxy, subHalIndex: nat)
      ensures this.proxy == proxy && this.subHalIndex == subHalIndex
    {
      this.proxy := proxy;
      this.subHalIndex := subHalIndex;
    }

    /**
     * processEvents: every event's handle is tagged with the sub-HAL index,
     * order kept, and the events whose sensor the proxy's table marks as
     * wake-up are counted.
     */
    method ProcessEvents(events: seq<Event>) returns (eventsOut: seq<Event>, numWakeupEvents: nat)
      ensures eventsOut == RelabelAll(events, subHalIndex)
      ensures numWakeupEvents == CountWakeUp(proxy.sensors, eventsOut)
    {
      eventsOut := [];
      numWakeupEvents := 0;
      for i := 0 to |events|
        invariant eventsOut == RelabelAll(events[..i], subHalIndex)
        invariant numWakeupEvents == CountWakeUp(proxy.sensors, eventsOut)
      {
        var event := events[i].(sensorHandle := SetSubHalIndex(events[i].sensorHandle, subHalIndex));
        ghost var before := eventsOut;
        eventsOut := eventsOut + [event];
        assert eventsOut[..|eventsOut| - 1] == before;
        if SensorInfoFor(proxy.sensors, event.sensorHandle).flags & WAKE_UP != 0 {
          numWakeupEvents := numWakeupEvents + 1;
        }
      }
      assert events[..|events|] == events;
    }

    /**
     * postEvents: the processed batch goes to the proxy's queue writer. The
     * wake-lock assertion becomes a precondition: the scoped wake lock the
     * sub-HAL passes (`wakelockLocked`) is held exactly when the batch holds
     * a wake-up event.
     */
    method PostEvents(events: seq<Event>, wakelockLocked: bool, availableToWrite: nat, writeOk: bool)
      requires proxy.Valid()
      requires wakelockLocked <==> CountWakeUp(proxy.sensors, RelabelAll(events, subHalIndex)) > 0
      modifies proxy`pendingWriteEvents, proxy`eventQueue, proxy`posted, proxy`handedOff
      ensures proxy.Valid()
      ensures proxy.posted == old(proxy.posted) + RelabelAll(events, subHalIndex)
      ensures var batch := RelabelAll(events, subHalIndex);
              var n := ImmediateWriteCount(old(proxy.pendingWriteEvents) == [], |batch|, availableToWrite, writeOk);
              && proxy.eventQueue == old(proxy.eventQueue) + batch[..n]
              && proxy.pendingWriteEvents == AppendRemainder(old(proxy.pendingWriteEvents), batch, n)
    {
      var processedEvents, numWakeupEvents := ProcessEvents(events);
      var _ := proxy.PostEventsToMessageQueue(processedEvents, availableToWrite, writeOk);
    }
  }
}
