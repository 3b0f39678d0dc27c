/**
 * The sensor table (mSensors) and the direct-channel arbitration, as a
 * reference definition: the table initializeSensorList builds from the
 * lists the sub-HALs report, and what is proved about it.
 */
module SensorTable {
  import opened SensorTypes
  import opened HandleCodec

  /** mSensors together with mDirectChannelSubHal (a sub-HAL index, or None for nullptr). */
  datatype Table = Table(sensors: map<SensorHandle, SensorInfo>, directChannelSubHal: Option<nat>)

  const EmptyTable := Table(map[], None)

  /** A descriptor with the direct-report and direct-channel flag bits cleared. */
  function WithoutDirectChannel(sensor: SensorInfo): (r: SensorInfo)
    ensures !SupportsDirectChannel(r)
    ensures r.sensorHandle == sensor.sensorHandle && r.name == sensor.name && r.sensorType == sensor.sensorType
    ensures r.flags & WAKE_UP == sensor.flags & WAKE_UP
  {
    sensor.(flags := sensor.flags & !DIRECT_CHANNEL_FLAGS)
  }

  /** The designated sub-HAL and the sensor as stored, after arbitration. */
  datatype Arbitration = Arbitration(direct: Option<nat>, sensor: SensorInfo)

  /**
   * setDirectChannelFlags for a sensor of sub-HAL `subHal`: the first sub-HAL
   * seen with a direct-capable sensor is designated; sensors of every other
   * sub-HAL lose their direct-channel flags once one is designated.
   */
  function ArbitrateDirectChannel(direct: Option<nat>, subHal: nat, sensor: SensorInfo): (r: Arbitration)
    ensures direct.Some? ==> r.direct == direct
    ensures r.direct.Some? && r.direct.value != subHal ==> !SupportsDirectChannel(r.sensor)
    ensures r.direct.None? ==> r.sensor == sensor && !SupportsDirectChannel(sensor)
    ensures r.sensor == sensor || r.sensor == WithoutDirectChannel(sensor)
    ensures direct.None? && SupportsDirectChannel(sensor) ==> r.direct == Some(subHal)
    ensures r.direct == Some(subHal) ==> r.sensor == sensor
  {
    if direct.None? && SupportsDirectChannel(sensor) then Arbitration(Some(subHal), sensor)
    else if direct.Some? && subHal != direct.value then Arbitration(direct, WithoutDirectChannel(sensor))
    else Arbitration(direct, sensor)
  }

  /**
   * One sensor reported by sub-HAL `subHal`: dropped when its handle's top
   * byte is set, otherwise tagged with the sub-HAL index, arbitrated and
   * stored under its tagged handle.
   */
  function AddSensor(t: Table, subHal: nat, sensor: SensorInfo): (r: Table)
    ensures r.sensors.Keys == t.sensors.Keys
              + if SubHalIndexIsClear(sensor.sensorHandle) then {SetSubHalIndex(sensor.sensorHandle, subHal)} else {}
    ensures t.directChannelSubHal.Some? ==> r.directChannelSubHal == t.directChannelSubHal
  {
    if !SubHalIndexIsClear(sensor.sensorHandle) then t
    else
      var tagged := sensor.(sensorHandle := SetSubHalIndex(sensor.sensorHandle, subHal));
      var arbitrated := ArbitrateDirectChannel(t.directChannelSubHal, subHal, tagged);
      Table(t.sensors[tagged.sensorHandle := arbitrated.sensor], arbitrated.direct)
  }

  /** All sensors of one sub-HAL's list, in list order. */
  function AddSensors(t: Table, subHal: nat, list: seq<SensorInfo>): (r: Table)
    ensures t.sensors.Keys <= r.sensors.Keys
    ensures t.directChannelSubHal.Some? ==> r.directChannelSubHal == t.directChannelSubHal
  {
    if list == [] then t
    else AddSensor(AddSensors(t, subHal, list[..|list| - 1]), subHal, list[|list| - 1])
  }

  /** The lists of all sub-HALs, in sub-HAL order: what initializeSensorList builds. */
  function BuildTable(t: Table, reported: seq<seq<SensorInfo>>): (r: Table)
    ensures t.sensors.Keys <= r.sensors.Keys
    ensures t.directChannelSubHal.Some? ==> r.directChannelSubHal == t.directChannelSubHal
  {
    if reported == [] then t
    else AddSensors(BuildTable(t, reported[..|reported| - 1]), |reported| - 1, reported[|reported| - 1])
  }

  /** A sensor the proxy accepts from sub-HAL `subHal`: reported with a clear top byte. */
  predicate Accepted(reported: seq<seq<SensorInfo>>, subHal: nat, sensor: SensorInfo)
  {
    subHal < |reported| && sensor in reported[subHal] && SubHalIndexIsClear(sensor.sensorHandle)
  }

  /** Whether a sub-HAL's list holds an accepted direct-capable sensor. */
  predicate HasDirectSensor(list: seq<SensorInfo>)
  {
    exists s :: s in list && SubHalIndexIsClear(s.sensorHandle) && SupportsDirectChannel(s)
  }

  /**
   * What the table holds: every entry is stored under its own handle, comes
   * from an accepted sensor of the sub-HAL named by its top byte, and differs
   * from that sensor at most in the handle's top byte and the direct flags.
   */
  ghost predicate EntriesReported(t: Table, reported: seq<seq<SensorInfo>>)
  {
    forall k :: k in t.sensors ==>
      && t.sensors[k].sensorHandle == k
      && exists s :: Accepted(reported, SubHalIndexOf(k), s)
                     && SetSubHalIndex(s.sensorHandle, SubHalIndexOf(k)) == k
                     && (t.sensors[k] == s.(sensorHandle := k)
                         || t.sensors[k] == WithoutDirectChannel(s.(sensorHandle := k)))
  }

  /** Only the designated sub-HAL's sensors keep direct-channel flags; with none designated, no sensor has them. */
  ghost predicate DirectChannelExclusive(t: Table)
  {
    forall k :: k in t.sensors ==>
      (t.directChannelSubHal.None? || SubHalIndexOf(k) != t.directChannelSubHal.value)
      ==> !SupportsDirectChannel(t.sensors[k])
  }

  /** The designated sub-HAL is the first one that reported a direct-capable sensor. */
  ghost predicate DesignatedIsFirst(t: Table, reported: seq<seq<SensorInfo>>)
  {
    match t.directChannelSubHal
    case None => forall i :: 0 <= i < |reported| ==> !HasDirectSensor(reported[i])
    case Some(d) =>
      && d < |reported|
      && HasDirectSensor(reported[d])
      && forall i :: 0 <= i < d ==> !HasDirectSensor(reported[i])
  }

  /** The three properties of the table built so far, as one invariant. */
  ghost predicate TableInvariant(t: Table, reported: seq<seq<SensorInfo>>)
  {
    EntriesReported(t, reported) && DirectChannelExclusive(t) && DesignatedIsFirst(t, reported)
  }

  lemma EntriesReportedGrows(t: Table, prior: seq<seq<SensorInfo>>, list: seq<SensorInfo>)
    requires EntriesReported(t, prior)
    ensures EntriesReported(t, prior + [list])
  {
    forall k | k in t.sensors
      ensures exists s :: Accepted(prior + [list], SubHalIndexOf(k), s)
                   && SetSubHalIndex(s.sensorHandle, SubHalIndexOf(k)) == k
                   && (t.sensors[k] == s.(sensorHandle := k)
                       || t.sensors[k] == WithoutDirectChannel(s.(sensorHandle := k)))
    {
      var s :| Accepted(prior, SubHalIndexOf(k), s)
               && SetSubHalIndex(s.sensorHandle, SubHalIndexOf(k)) == k
               && (t.sensors[k] == s.(sensorHandle := k)
                   || t.sensors[k] == WithoutDirectChannel(s.(sensorHandle := k)));
      assert (prior + [list])[SubHalIndexOf(k)] == prior[SubHalIndexOf(k)];
    }
  }

  /** Adding one reported sensor keeps the entries accounted for and the direct channel exclusive. */
  lemma AddSensorKeepsEntries(before: Table, reported: seq<seq<SensorInfo>>, i: nat, sensor: SensorInfo)
    requires i < |reported| && i < SubHalIndexLimit && sensor in reported[i]
    requires EntriesReported(before, reported) && DirectChannelExclusive(before)
    ensures EntriesReported(AddSensor(before, i, sensor), reported)
    ensures DirectChannelExclusive(AddSensor(before, i, sensor))
  {
    AddSensorKeepsReported(before, reported, i, sensor);
    AddSensorKeepsExclusive(before, i, sensor);
  }

  /** Adding a reported sensor keeps every entry traceable to a reported sensor. */
  lemma AddSensorKeepsReported(before: Table, reported: seq<seq<SensorInfo>>, i: nat, sensor: SensorInfo)
    requires i < |reported| && i < SubHalIndexLimit && sensor in reported[i]
    requires EntriesReported(before, reported)
    ensures EntriesReported(AddSensor(before, i, sensor), reported)
  {
    var t := AddSensor(before, i, sensor);
    if SubHalIndexIsClear(sensor.sensorHandle) {
      var key := SetSubHalIndex(sensor.sensorHandle, i);
      RoundTrip(sensor.sensorHandle, i);
      var r := ArbitrateDirectChannel(before.directChannelSubHal, i, sensor.(sensorHandle := key));
      assert t.sensors == before.sensors[key := r.sensor];
      assert Accepted(reported, i, sensor);
      forall k | k in t.sensors
        ensures t.sensors[k].sensorHandle == k
        ensures exists s :: Accepted(reported, SubHalIndexOf(k), s)
                   && SetSubHalIndex(s.sensorHandle, SubHalIndexOf(k)) == k
                   && (t.sensors[k] == s.(sensorHandle := k)
                       || t.sensors[k] == WithoutDirectChannel(s.(sensorHandle := k)))
      {
        if k != key {
          assert t.sensors[k] == before.sensors[k];
        }
      }
    }
  }

  /** Adding a sensor keeps direct-channel flags off every sub-HAL but the designated one. */
  lemma AddSensorKeepsExclusive(before: Table, i: nat, sensor: SensorInfo)
    requires i < SubHalIndexLimit
    requires DirectChannelExclusive(before)
    ensures DirectChannelExclusive(AddSensor(before, i, sensor))
  {
    var t := AddSensor(before, i, sensor);
    if SubHalIndexIsClear(sensor.sensorHandle) {
      var key := SetSubHalIndex(sensor.sensorHandle, i);
      RoundTrip(sensor.sensorHandle, i);
      var r := ArbitrateDirectChannel(before.directChannelSubHal, i, sensor.(sensorHandle := key));
      assert t.sensors == before.sensors[key := r.sensor];
      forall k | k in t.sensors
        && (t.directChannelSubHal.None? || SubHalIndexOf(k) != t.directChannelSubHal.value)
        ensures !SupportsDirectChannel(t.sensors[k])
      {
        if k != key {
          assert t.sensors[k] == before.sensors[k];
        }
      }
    }
  }

  /** Adding the sensors of list[..j] of sub-HAL i keeps the entries accounted for and the channel exclusive. */
  lemma {:induction false} AddSensorsKeepsEntries(
    t0: Table, reported: seq<seq<SensorInfo>>, i: nat, j: nat)
    requires i < |reported| && i < SubHalIndexLimit && j <= |reported[i]|
    requires EntriesReported(t0, reported) && DirectChannelExclusive(t0)
    ensures EntriesReported(AddSensors(t0, i, reported[i][..j]), reported)
    ensures DirectChannelExclusive(AddSensors(t0, i, reported[i][..j]))
  {
    var list := reported[i];
    if j == 0 {
      assert list[..0] == [];
    } else {
      assert list[..j][..j - 1] == list[..j - 1];
      AddSensorsKeepsEntries(t0, reported, i, j - 1);
      AddSensorKeepsEntries(AddSensors(t0, i, list[..j - 1]), reported, i, list[j - 1]);
    }
  }

  /**
   * How the designation evolves over list[..j] of sub-HAL i: once designated it
   * never changes, and an undesignated table designates sub-HAL i exactly
   * when the list holds an accepted direct-capable sensor.
   */
  lemma {:induction false} AddSensorsDesignation(t0: Table, i: nat, list: seq<SensorInfo>, j: nat)
    requires j <= |list|
    ensures var t := AddSensors(t0, i, list[..j]);
            && (t0.directChannelSubHal.Some? ==> t.directChannelSubHal == t0.directChannelSubHal)
            && (t0.directChannelSubHal.None? ==>
                  t.directChannelSubHal == if HasDirectSensor(list[..j]) then Some(i) else None)
  {
    if j == 0 {
      assert list[..0] == [];
    } else {
      assert list[..j][..j - 1] == list[..j - 1];
      AddSensorsDesignation(t0, i, list, j - 1);
      var sensor := list[j - 1];
      assert list[..j] == list[..j - 1] + [sensor];
      if HasDirectSensor(list[..j]) && !HasDirectSensor(list[..j - 1]) {
        var s :| s in list[..j] && SubHalIndexIsClear(s.sensorHandle) && SupportsDirectChannel(s);
        assert s == sensor;
      }
      if HasDirectSensor(list[..j - 1]) {
        var s :| s in list[..j - 1] && SubHalIndexIsClear(s.sensorHandle) && SupportsDirectChannel(s);
        assert s in list[..j];
      }
    }
  }

  /**
   * initializeSensorList's guarantees: every key carries the index of the
   * sub-HAL that reported it and comes from an accepted sensor, only the
   * designated sub-HAL keeps direct-channel flags, and the designated
   * sub-HAL is the first that reported a direct-capable sensor.
   */
  lemma {:induction false} BuildTableInvariant(reported: seq<seq<SensorInfo>>)
    requires |reported| <= SubHalIndexLimit
    ensures TableInvariant(BuildTable(EmptyTable, reported), reported)
  {
    if reported != [] {
      var n := |reported| - 1;
      var prior := reported[..n];
      var list := reported[n];
      assert prior + [list] == reported;
      BuildTableInvariant(prior);
      var t0 := BuildTable(EmptyTable, prior);
      EntriesReportedGrows(t0, prior, list);
      AddSensorsKeepsEntries(t0, reported, n, |list|);
      AddSensorsDesignation(t0, n, list, |list|);
      assert list[..|list|] == list;
      var t := BuildTable(EmptyTable, reported);
      assert t == AddSensors(t0, n, list);
      match t.directChannelSubHal
      case None =>
        forall i | 0 <= i < |reported| ensures !HasDirectSensor(reported[i]) {
          if i < n { assert reported[i] == prior[i]; }
        }
      case Some(d) =>
        forall i | 0 <= i < d ensures !HasDirectSensor(reported[i]) {
          assert reported[i] == prior[i];
        }
        if d < n { assert reported[d] == prior[d]; }
    }
  }

  /**
   * The other half of the arbitration: while no sub-HAL is designated, and
   * afterwards for the designated sub-HAL, every entry is the reported sensor
   * itself, tagged, with its direct-channel flags untouched.
   */
  ghost predicate UnmaskedWhereAllowed(t: Table, reported: seq<seq<SensorInfo>>)
  {
    forall k :: k in t.sensors && (t.directChannelSubHal.None? || t.directChannelSubHal == Some(SubHalIndexOf(k))) ==>
      exists s :: Accepted(reported, SubHalIndexOf(k), s)
                  && SetSubHalIndex(s.sensorHandle, SubHalIndexOf(k)) == k
                  && t.sensors[k] == s.(sensorHandle := k)
  }

  /** A sensor accepted from the earlier lists stays accepted once another list is reported. */
  lemma UnmaskedGrows(t: Table, prior: seq<seq<SensorInfo>>, list: seq<SensorInfo>)
    requires UnmaskedWhereAllowed(t, prior)
    ensures UnmaskedWhereAllowed(t, prior + [list])
  {
    forall k | k in t.sensors && (t.directChannelSubHal.None? || t.directChannelSubHal == Some(SubHalIndexOf(k)))
      ensures exists s :: Accepted(prior + [list], SubHalIndexOf(k), s)
                   && SetSubHalIndex(s.sensorHandle, SubHalIndexOf(k)) == k
                   && t.sensors[k] == s.(sensorHandle := k)
    {
      var s :| Accepted(prior, SubHalIndexOf(k), s)
               && SetSubHalIndex(s.sensorHandle, SubHalIndexOf(k)) == k
               && t.sensors[k] == s.(sensorHandle := k);
      assert (prior + [list])[SubHalIndexOf(k)] == prior[SubHalIndexOf(k)];
    }
  }

  /** Adding one reported sensor keeps the unmasked entries unmasked. */
  lemma AddSensorKeepsUnmasked(before: Table, reported: seq<seq<SensorInfo>>, i: nat, sensor: SensorInfo)
    requires i < |reported| && i < SubHalIndexLimit && sensor in reported[i]
    requires UnmaskedWhereAllowed(before, reported)
    ensures UnmaskedWhereAllowed(AddSensor(before, i, sensor), reported)
  {
    var t := AddSensor(before, i, sensor);
    if SubHalIndexIsClear(sensor.sensorHandle) {
      var key := SetSubHalIndex(sensor.sensorHandle, i);
      RoundTrip(sensor.sensorHandle, i);
      assert Accepted(reported, i, sensor);
      forall k | k in t.sensors && (t.directChannelSubHal.None? || t.directChannelSubHal == Some(SubHalIndexOf(k)))
        ensures exists s :: Accepted(reported, SubHalIndexOf(k), s)
                     && SetSubHalIndex(s.sensorHandle, SubHalIndexOf(k)) == k
                     && t.sensors[k] == s.(sensorHandle := k)
      {
        if k == key {
          assert t.sensors[k] == sensor.(sensorHandle := k);
        } else {
          assert t.sensors[k] == before.sensors[k];
        }
      }
    }
  }

  /** Adding the sensors of list[..j] of sub-HAL i keeps the unmasked entries unmasked. */
  lemma {:induction false} AddSensorsKeepsUnmasked(t0: Table, reported: seq<seq<SensorInfo>>, i: nat, j: nat)
    requires i < |reported| && i < SubHalIndexLimit && j <= |reported[i]|
    requires UnmaskedWhereAllowed(t0, reported)
    ensures UnmaskedWhereAllowed(AddSensors(t0, i, reported[i][..j]), reported)
  {
    var list := reported[i];
    if j == 0 {
      assert list[..0] == [];
    } else {
      assert list[..j][..j - 1] == list[..j - 1];
      AddSensorsKeepsUnmasked(t0, reported, i, j - 1);
      AddSensorKeepsUnmasked(AddSensors(t0, i, list[..j - 1]), reported, i, list[j - 1]);
    }
  }

  /**
   * The designated sub-HAL keeps its sensors' direct-channel flags: every
   * entry of the designated sub-HAL, and every entry when none is designated,
   * is the reported sensor tagged and otherwise unchanged.
   */
  lemma {:induction false} BuildTableDesignatedUnmasked(reported: seq<seq<SensorInfo>>)
    requires |reported| <= SubHalIndexLimit
    ensures UnmaskedWhereAllowed(BuildTable(EmptyTable, reported), reported)
  {
    if reported != [] {
      var n := |reported| - 1;
      var prior := reported[..n];
      var list := reported[n];
      assert prior + [list] == reported;
      BuildTableDesignatedUnmasked(prior);
      var t0 := BuildTable(EmptyTable, prior);
      UnmaskedGrows(t0, prior, list);
      AddSensorsKeepsUnmasked(t0, reported, n, |list|);
      assert list[..|list|] == list;
    }
  }

  /** Every key of the built table, and the designated sub-HAL, name one of the reporting sub-HALs. */
  lemma BuildTableIndicesInRange(reported: seq<seq<SensorInfo>>)
    requires |reported| <= SubHalIndexLimit
    ensures forall k :: k in BuildTable(EmptyTable, reported).sensors ==> SubHalIndexOf(k) < |reported|
    ensures BuildTable(EmptyTable, reported).directChannelSubHal.Some?
            ==> BuildTable(EmptyTable, reported).directChannelSubHal.value < |reported|
  {
    var t := BuildTable(EmptyTable, reported);
    BuildTableInvariant(reported);
    forall k | k in t.sensors ensures SubHalIndexOf(k) < |reported| {
      var s :| Accepted(reported, SubHalIndexOf(k), s)
               && SetSubHalIndex(s.sensorHandle, SubHalIndexOf(k)) == k
               && (t.sensors[k] == s.(sensorHandle := k) || t.sensors[k] == WithoutDirectChannel(s.(sensorHandle := k)));
    }
  }

  /**
   * A handle in the table leads back to the sensor behind it: the sub-HAL
   * named by its top byte reported a sensor whose own handle is the table
   * handle with the top byte cleared. This is what makes forwarding a call
   * with getSubHalForSensorHandle and clearSubHalIndex reach that sensor.
   */
  lemma TableHandleLeadsToReporter(reported: seq<seq<SensorInfo>>, k: SensorHandle)
    requires |reported| <= SubHalIndexLimit
    requires k in BuildTable(EmptyTable, reported).sensors
    ensures SubHalIndexOf(k) < |reported|
    ensures exists s :: s in reported[SubHalIndexOf(k)] && s.sensorHandle == ClearSubHalIndex(k)
  {
    var t := BuildTable(EmptyTable, reported);
    BuildTableInvariant(reported);
    var s :| Accepted(reported, SubHalIndexOf(k), s)
             && SetSubHalIndex(s.sensorHandle, SubHalIndexOf(k)) == k
             && (t.sensors[k] == s.(sensorHandle := k) || t.sensors[k] == WithoutDirectChannel(s.(sensorHandle := k)));
    assert s.sensorHandle == ClearSubHalIndex(k);
  }

  /** Adding list[..j] keeps every key and adds the tagged handle of every accepted sensor. */
  lemma {:induction false} AddSensorsKeys(t0: Table, i: nat, list: seq<SensorInfo>, j: nat)
    requires j <= |list|
    ensures t0.sensors.Keys <= AddSensors(t0, i, list[..j]).sensors.Keys
    ensures forall s :: s in list[..j] && SubHalIndexIsClear(s.sensorHandle)
              ==> SetSubHalIndex(s.sensorHandle, i) in AddSensors(t0, i, list[..j]).sensors
  {
    if j > 0 {
      assert list[..j][..j - 1] == list[..j - 1];
      assert list[..j] == list[..j - 1] + [list[j - 1]];
      AddSensorsKeys(t0, i, list, j - 1);
    }
  }

  /** Every accepted sensor of every sub-HAL is in the table, under its tagged handle. */
  lemma {:induction false} BuildTableComplete(t: Table, reported: seq<seq<SensorInfo>>)
    ensures t.sensors.Keys <= BuildTable(t, reported).sensors.Keys
    ensures forall i, s :: Accepted(reported, i, s)
              ==> SetSubHalIndex(s.sensorHandle, i) in BuildTable(t, reported).sensors
  {
    if reported != [] {
      var n := |reported| - 1;
      var prior := reported[..n];
      var list := reported[n];
      BuildTableComplete(t, prior);
      AddSensorsKeys(BuildTable(t, prior), n, list, |list|);
      assert list[..|list|] == list;
      forall i: nat, s | Accepted(reported, i, s)
        ensures SetSubHalIndex(s.sensorHandle, i) in BuildTable(t, reported).sensors
      {
        if i < n {
          assert reported[i] == prior[i];
          assert Accepted(prior, i, s);
        }
      }
    }
  }

  /**
   * Two sub-HALs that both report local handle 5 get global handles
   * 0x00000005 and 0x01000005: no collision.
   */
  lemma SameLocalHandleNoCollision(s0: SensorInfo, s1: SensorInfo)
    requires s0.sensorHandle == SensorHandle(5) && s1.sensorHandle == SensorHandle(5)
    ensures BuildTable(EmptyTable, [[s0], [s1]]).sensors.Keys
         == {SensorHandle(0x0000_0005), SensorHandle(0x0100_0005)}
  {
    var reported := [[s0], [s1]];
    assert reported[..1] == [[s0]];
    assert [[s0]][..0] == [];
    assert [s0][..0] == [] && [s1][..0] == [];
    assert IndexBits(0) == 0 && IndexBits(1) == 0x0100_0000;
    var t0 := AddSensor(EmptyTable, 0, s0);
    assert AddSensors(EmptyTable, 0, [s0]) == t0;
    assert BuildTable(EmptyTable, [[s0]][..0]) == EmptyTable;
    assert BuildTable(EmptyTable, [[s0]]) == AddSensors(EmptyTable, 0, [s0]);
    assert t0.sensors.Keys == {SensorHandle(0x0000_0005)};
    assert AddSensors(t0, 1, [s1]) == AddSensor(t0, 1, s1);
    assert BuildTable(EmptyTable, reported) == AddSensors(BuildTable(EmptyTable, [[s0]]), 1, [s1]);
  }
}
