/**
 * The event relabelling of a sub-HAL callback (processEvents), as a
 * reference definition: each event's handle is tagged with the sub-HAL's
 * index, and the events whose sensor is a wake-up sensor are counted.
 */
module EventDelivery {
  import opened SensorTypes
  import opened HandleCodec

  /** What getSensorInfo yields for a handle; a handle not in the table reads as a descriptor with no flags. */
  function SensorInfoFor(sensors: map<SensorHandle, SensorInfo>, sensorHandle: SensorHandle): (info: SensorInfo)
    ensures sensorHandle in sensors ==> info == sensors[sensorHandle]
    ensures sensorHandle !in sensors ==> info.flags == 0 && !IsWakeUp(info)
  {
    if sensorHandle in sensors then sensors[sensorHandle] else SensorInfo(SensorHandle(0), "", 0, 0)
  }

  /** Whether an event comes from a sensor the table marks as wake-up. */
  predicate IsWakeUpEvent(sensors: map<SensorHandle, SensorInfo>, event: Event)
  {
    IsWakeUp(SensorInfoFor(sensors, event.sensorHandle))
  }

  /** The event with its handle tagged with the sub-HAL index. */
  function Relabel(event: Event, subHalIndex: nat): (r: Event)
    ensures r.timestamp == event.timestamp && r.sensorType == event.sensorType && r.payload == event.payload
    ensures ClearSubHalIndex(r.sensorHandle) == ClearSubHalIndex(event.sensorHandle)
    ensures SubHalIndexIsClear(event.sensorHandle)
            ==> SubHalIndexOf(r.sensorHandle) == subHalIndex % SubHalIndexLimit
  {
    event.(sensorHandle := SetSubHalIndex(event.sensorHandle, subHalIndex))
  }

  /** Every event of a batch relabelled, in order. */
  function RelabelAll(events: seq<Event>, subHalIndex: nat): (r: seq<Event>)
    ensures |r| == |events|
    ensures forall i :: 0 <= i < |events| ==> r[i] == Relabel(events[i], subHalIndex)
  {
    seq(|events|, (i: nat) requires i < |events| => Relabel(events[i], subHalIndex))
  }

  /** The number of wake-up events in a batch. */
  function CountWakeUp(sensors: map<SensorHandle, SensorInfo>, events: seq<Event>): (n: nat)
    ensures n <= |events|
  {
    if events == [] then 0
    else CountWakeUp(sensors, events[..|events| - 1]) + if IsWakeUpEvent(sensors, events[|events| - 1]) then 1 else 0
  }

  /** A batch has no wake-up event exactly when the count is zero. */
  lemma {:induction false} CountWakeUpZeroIff(sensors: map<SensorHandle, SensorInfo>, events: seq<Event>)
    ensures CountWakeUp(sensors, events) == 0 <==> forall i :: 0 <= i < |events| ==> !IsWakeUpEvent(sensors, events[i])
  {
    if events != [] {
      var prefix := events[..|events| - 1];
      CountWakeUpZeroIff(sensors, prefix);
      assert forall i :: 0 <= i < |prefix| ==> prefix[i] == events[i];
    }
  }

  /** The count of a batch made of two parts is the sum of their counts. */
  lemma {:induction false} CountWakeUpAppend(sensors: map<SensorHandle, SensorInfo>, a: seq<Event>, b: seq<Event>)
    ensures CountWakeUp(sensors, a + b) == CountWakeUp(sensors, a) + CountWakeUp(sensors, b)
    decreases |b|
  {
    if b == [] {
      assert a + b == a;
    } else {
      var b' := b[..|b| - 1];
      assert (a + b)[..|a + b| - 1] == a + b';
      CountWakeUpAppend(sensors, a, b');
    }
  }
}
