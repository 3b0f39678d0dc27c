/**
 * The values the multi-HAL proxy exchanges with the framework and with its
 * sub-HALs: result codes, operation modes, sensor descriptors, events, and
 * the calls the proxy makes on a sub-HAL.
 */
module SensorTypes {
  import opened HandleCodec

  datatype Option<T> = None | Some(value: T)

  /** The result codes of the sensors HAL interface. */
  datatype Result = OK | PERMISSION_DENIED | NO_MEMORY | BAD_VALUE | INVALID_OPERATION

  /** The global operation mode of the sensors HAL. */
  datatype OperationMode = NORMAL | DATA_INJECTION

  /** The rate levels a direct report can be configured with. */
  datatype RateLevel = STOP | NORMAL_RATE | FAST | VERY_FAST

  /** The sensor type of an additional-info frame, the one type that may be injected in NORMAL mode. */
  const ADDITIONAL_INFO: int := 33

  /** SensorFlagBits::WAKE_UP. */
  const WAKE_UP: bv32 := 0x1
  /** SensorFlagBits::MASK_DIRECT_REPORT (the direct-report rate bits). */
  const MASK_DIRECT_REPORT: bv32 := 0x380
  /** SensorFlagBits::MASK_DIRECT_CHANNEL (the direct-channel memory-type bits). */
  const MASK_DIRECT_CHANNEL: bv32 := 0xC00
  /** Both direct-channel capability masks together. */
  const DIRECT_CHANNEL_FLAGS: bv32 := MASK_DIRECT_REPORT | MASK_DIRECT_CHANNEL

  /** A sensor descriptor; the proxy reads the handle and the flags and carries the rest. */
  datatype SensorInfo = SensorInfo(sensorHandle: SensorHandle, name: string, sensorType: int, flags: bv32)

  /** A sensor event; the proxy reads the handle and the type and never interprets the payload. */
  datatype Event = Event(timestamp: int, sensorHandle: SensorHandle, sensorType: int, payload: seq<int>)

  /** Whether a descriptor advertises a direct report or a direct channel. */
  predicate SupportsDirectChannel(sensor: SensorInfo)
  {
    sensor.flags & DIRECT_CHANNEL_FLAGS != 0
  }

  /** Whether a descriptor marks its sensor as a wake-up sensor. */
  predicate IsWakeUp(sensor: SensorInfo)
  {
    sensor.flags & WAKE_UP != 0
  }

  /** The shared-memory description passed to registerDirectChannel. */
  datatype SharedMemInfo = SharedMemInfo(memType: int, format: int, size: nat)

  /** One call the proxy makes on sub-HAL `subHal`. */
  datatype SubHalCall =
    | SetOperationMode(subHal: nat, mode: OperationMode)
    | Activate(subHal: nat, sensorHandle: SensorHandle, enabled: bool)
    | Batch(subHal: nat, sensorHandle: SensorHandle, samplingPeriodNs: int, maxReportLatencyNs: int)
    | Flush(subHal: nat, sensorHandle: SensorHandle)
    | InjectSensorData(subHal: nat, event: Event)
    | RegisterDirectChannel(subHal: nat, mem: SharedMemInfo)
    | UnregisterDirectChannel(subHal: nat, channelHandle: int)
    | ConfigDirectReport(subHal: nat, sensorHandle: SensorHandle, channelHandle: int, rate: RateLevel)

  /**
   * What a sub-HAL answers to a call: a result code and, for
   * registerDirectChannel and configDirectReport, the channel handle or
   * report token handed to the callback.
   */
  datatype Reply = Reply(result: Result, token: int)

  /**
   * The sub-HALs, seen from the proxy: the answer each call would get. Their
   * implementations are separate libraries and are not part of this model.
   */
  type SubHals = SubHalCall -> Reply
}
