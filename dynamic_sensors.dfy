/**
 * Dynamic sensors (mDynamicSensors), as a reference definition: what
 * onDynamicSensorsConnected and onDynamicSensorsDisconnected store, remove
 * and forward to the framework for a sub-HAL's notification.
 */
module DynamicSensors {
  import opened SensorTypes
  import opened HandleCodec

  /**
   * The sensors a connect notification forwards: those whose handle has a
   * clear top byte, tagged with the sub-HAL index, in input order.
   */
  function ConnectAccepted(added: seq<SensorInfo>, subHalIndex: nat): (forwarded: seq<SensorInfo>)
    ensures |forwarded| <= |added|
  {
    if added == [] then []
    else
      var last := added[|added| - 1];
      ConnectAccepted(added[..|added| - 1], subHalIndex)
        + (if SubHalIndexIsClear(last.sensorHandle) then [Tagged(last, subHalIndex)] else [])
  }

  /** A sensor with its handle tagged with the sub-HAL index. */
  function Tagged(sensor: SensorInfo, subHalIndex: nat): SensorInfo
  {
    sensor.(sensorHandle := SetSubHalIndex(sensor.sensorHandle, subHalIndex))
  }

  /** One more sensor of the notification, as the handler's loop sees it. */
  lemma ConnectAcceptedStep(added: seq<SensorInfo>, i: nat, subHalIndex: nat)
    requires i < |added|
    ensures ConnectAccepted(added[..i + 1], subHalIndex)
         == ConnectAccepted(added[..i], subHalIndex)
            + (if SubHalIndexIsClear(added[i].sensorHandle) then [Tagged(added[i], subHalIndex)] else [])
  {
    assert added[..i + 1][..i] == added[..i];
  }

  /** Storing one more sensor. */
  lemma StoreAllStep(m: map<SensorHandle, SensorInfo>, sensors: seq<SensorInfo>, sensor: SensorInfo)
    ensures StoreAll(m, sensors + [sensor]) == StoreAll(m, sensors)[sensor.sensorHandle := sensor]
  {
    assert (sensors + [sensor])[..|sensors|] == sensors;
  }

  /** Stores each sensor under its handle, in order; a later sensor with the same handle wins. */
  function StoreAll(m: map<SensorHandle, SensorInfo>, sensors: seq<SensorInfo>): (r: map<SensorHandle, SensorInfo>)
    ensures m.Keys <= r.Keys
    ensures forall i :: 0 <= i < |sensors| ==> sensors[i].sensorHandle in r
  {
    if sensors == [] then m
    else
      var last := sensors[|sensors| - 1];
      StoreAll(m, sensors[..|sensors| - 1])[last.sensorHandle := last]
  }

  /** Every entry of the map is stored under the entry's own handle. */
  predicate KeyedByHandle(m: map<SensorHandle, SensorInfo>)
  {
    forall k :: k in m ==> m[k].sensorHandle == k
  }

  /** Storing sensors under their own handles keeps the map keyed by handle. */
  lemma {:induction false} StoreAllKeyedByHandle(m: map<SensorHandle, SensorInfo>, sensors: seq<SensorInfo>)
    requires KeyedByHandle(m)
    ensures KeyedByHandle(StoreAll(m, sensors))
  {
    if sensors != [] {
      StoreAllKeyedByHandle(m, sensors[..|sensors| - 1]);
    }
  }

  /** What a disconnect notification leaves in the map and forwards. */
  datatype Disconnection = Disconnection(remaining: map<SensorHandle, SensorInfo>, removed: seq<SensorHandle>)

  /**
   * Each handle with a clear top byte is tagged with the sub-HAL index; if
   * the tagged handle is in the map it is erased and forwarded.
   */
  function Disconnect(m: map<SensorHandle, SensorInfo>, handles: seq<SensorHandle>, subHalIndex: nat): (r: Disconnection)
    ensures r.remaining.Keys <= m.Keys
    ensures |r.removed| <= |handles|
  {
    if handles == [] then Disconnection(m, [])
    else
      var r := Disconnect(m, handles[..|handles| - 1], subHalIndex);
      var h := handles[|handles| - 1];
      if !SubHalIndexIsClear(h) then r
      else
        var tagged := SetSubHalIndex(h, subHalIndex);
        if tagged in r.remaining then Disconnection(r.remaining - {tagged}, r.removed + [tagged])
        else r
  }

  /** Every entry a disconnect notification erases is forwarded once: nothing is lost or counted twice. */
  lemma {:induction false} DisconnectConserves(m: map<SensorHandle, SensorInfo>, handles: seq<SensorHandle>, subHalIndex: nat)
    ensures var r := Disconnect(m, handles, subHalIndex);
            |r.remaining| + |r.removed| == |m|
  {
    if handles != [] {
      var r0 := Disconnect(m, handles[..|handles| - 1], subHalIndex);
      DisconnectConserves(m, handles[..|handles| - 1], subHalIndex);
      var h := handles[|handles| - 1];
      if SubHalIndexIsClear(h) {
        var tagged := SetSubHalIndex(h, subHalIndex);
        if tagged in r0.remaining {
          assert (r0.remaining - {tagged}).Keys == r0.remaining.Keys - {tagged};
        }
      }
    }
  }

  /** The tagged handles a disconnect notification names, malformed ones left out. */
  function TaggedHandles(handles: seq<SensorHandle>, subHalIndex: nat): set<SensorHandle>
  {
    set h | h in handles && SubHalIndexIsClear(h) :: SetSubHalIndex(h, subHalIndex)
  }

  /**
   * A connect notification forwards exactly the well-formed sensors, each
   * tagged with the sub-HAL's index and otherwise unchanged.
   */
  lemma {:induction false} ConnectAcceptedExactly(added: seq<SensorInfo>, subHalIndex: nat)
    ensures forall f :: f in ConnectAccepted(added, subHalIndex) ==>
              exists s :: s in added && SubHalIndexIsClear(s.sensorHandle)
                          && f == Tagged(s, subHalIndex)
    ensures forall s :: s in added && SubHalIndexIsClear(s.sensorHandle) ==>
              Tagged(s, subHalIndex) in ConnectAccepted(added, subHalIndex)
    ensures forall f :: f in ConnectAccepted(added, subHalIndex) ==>
              SubHalIndexOf(f.sensorHandle) == subHalIndex % SubHalIndexLimit
  {
    if added != [] {
      var prefix := added[..|added| - 1];
      var last := added[|added| - 1];
      assert added == prefix + [last];
      ConnectAcceptedExactly(prefix, subHalIndex);
    }
  }

  /** A single sensor is forwarded, tagged, exactly when its top byte is clear. */
  lemma ConnectAcceptedSingle(sensor: SensorInfo, subHalIndex: nat)
    ensures ConnectAccepted([sensor], subHalIndex)
         == if SubHalIndexIsClear(sensor.sensorHandle) then [Tagged(sensor, subHalIndex)] else []
  {
    assert [sensor][..0] == [];
  }

  /**
   * The forwarded list keeps input order and multiplicity: a notification
   * made of two parts forwards the first part's sensors, then the second's.
   * With ConnectAcceptedSingle this fixes the forwarded list completely.
   */
  lemma {:induction false} ConnectAcceptedAppend(a: seq<SensorInfo>, b: seq<SensorInfo>, subHalIndex: nat)
    ensures ConnectAccepted(a + b, subHalIndex) == ConnectAccepted(a, subHalIndex) + ConnectAccepted(b, subHalIndex)
    decreases |b|
  {
    if b == [] {
      assert a + b == a;
    } else {
      var b' := b[..|b| - 1];
      var last := b[|b| - 1];
      var tail := if SubHalIndexIsClear(last.sensorHandle) then [Tagged(last, subHalIndex)] else [];
      assert (a + b)[..|a + b| - 1] == a + b';
      assert (a + b)[|a + b| - 1] == last;
      assert ConnectAccepted(a + b, subHalIndex) == ConnectAccepted(a + b', subHalIndex) + tail;
      ConnectAcceptedAppend(a, b', subHalIndex);
      assert ConnectAccepted(b, subHalIndex) == ConnectAccepted(b', subHalIndex) + tail;
    }
  }

  /** Storing a list of sensors adds exactly their handles to the keys. */
  lemma {:induction false} StoreAllKeys(m: map<SensorHandle, SensorInfo>, sensors: seq<SensorInfo>)
    ensures StoreAll(m, sensors).Keys == m.Keys + set s | s in sensors :: s.sensorHandle
  {
    if sensors != [] {
      var prefix := sensors[..|sensors| - 1];
      assert sensors == prefix + [sensors[|sensors| - 1]];
      StoreAllKeys(m, prefix);
    }
  }

  /** Storing a list of sensors leaves every entry whose handle none of them has alone. */
  lemma {:induction false} StoreAllKeepsOthers(m: map<SensorHandle, SensorInfo>, sensors: seq<SensorInfo>, k: SensorHandle)
    requires k in m && forall s :: s in sensors ==> s.sensorHandle != k
    ensures k in StoreAll(m, sensors) && StoreAll(m, sensors)[k] == m[k]
  {
    if sensors != [] {
      var prefix := sensors[..|sensors| - 1];
      assert sensors == prefix + [sensors[|sensors| - 1]];
      StoreAllKeepsOthers(m, prefix, k);
    }
  }

  /** A stored sensor that no later sensor overrides is found under its own handle. */
  lemma {:induction false} StoreAllLastWins(m: map<SensorHandle, SensorInfo>, sensors: seq<SensorInfo>, i: nat)
    requires i < |sensors|
    requires forall j :: i < j < |sensors| ==> sensors[j].sensorHandle != sensors[i].sensorHandle
    ensures sensors[i].sensorHandle in StoreAll(m, sensors)
    ensures StoreAll(m, sensors)[sensors[i].sensorHandle] == sensors[i]
  {
    var n := |sensors| - 1;
    if i < n {
      var prefix := sensors[..n];
      assert prefix[i] == sensors[i];
      assert forall j :: i < j < |prefix| ==> prefix[j] == sensors[j];
      StoreAllLastWins(m, prefix, i);
    }
  }

  /**
   * A disconnect notification removes exactly the named tagged handles that
   * were present, forwards each of them once and nothing else, and leaves
   * every other entry unchanged.
   */
  lemma {:induction false} DisconnectEffect(m: map<SensorHandle, SensorInfo>, handles: seq<SensorHandle>, subHalIndex: nat)
    ensures var r := Disconnect(m, handles, subHalIndex);
            && r.remaining.Keys == m.Keys - TaggedHandles(handles, subHalIndex)
            && (forall k :: k in r.remaining ==> r.remaining[k] == m[k])
            && (forall x :: x in r.removed ==> x in m && x in TaggedHandles(handles, subHalIndex))
            && (forall x :: x in m && x in TaggedHandles(handles, subHalIndex) ==> x in r.removed)
            && (forall i, j :: 0 <= i < j < |r.removed| ==> r.removed[i] != r.removed[j])
  {
    if handles != [] {
      var n := |handles| - 1;
      var prefix := handles[..n];
      var h := handles[n];
      assert handles == prefix + [h];
      DisconnectEffect(m, prefix, subHalIndex);
      var r0 := Disconnect(m, prefix, subHalIndex);
      assert TaggedHandles(handles, subHalIndex)
          == TaggedHandles(prefix, subHalIndex)
             + (if SubHalIndexIsClear(h) then {SetSubHalIndex(h, subHalIndex)} else {});
      if SubHalIndexIsClear(h) {
        var tagged := SetSubHalIndex(h, subHalIndex);
        if tagged in r0.remaining {
          assert tagged in r0.remaining.Keys;
          assert tagged !in TaggedHandles(prefix, subHalIndex);
          assert tagged !in r0.removed;
        }
      }
    }
  }
}
