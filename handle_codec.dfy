/**
 * The sensor-handle codec of the multi-HAL proxy.
 *
 * A global sensor handle is a 32-bit value whose top byte holds the index of
 * the sub-HAL that owns the sensor and whose low 24 bits hold the handle the
 * sub-HAL itself assigned. A handle is kept as its 32-bit pattern; the
 * source passes handles around as `int32_t` or `uint32_t`, which share the
 * same 32 bits.
 */
module HandleCodec {

  /** A sensor handle: its 32 bits, in a datatype so that handles can key maps. */
  datatype SensorHandle = SensorHandle(bits: bv32)

  /** kSensorHandleSubHalIndexMask: the top byte of a handle. */
  const SubHalIndexMask: bv32 := 0xFF00_0000

  /** The number of distinct sub-HAL indices the top byte can hold. */
  const SubHalIndexLimit: nat := 256

  /**
   * The sub-HAL index as it lands in the top byte. The source shifts a
   * `size_t` left by 24 and the result is truncated to 32 bits on return,
   * so only the index modulo 256 survives.
   */
  function IndexByte(subHalIndex: nat): (b: bv8)
    ensures b as nat == subHalIndex % SubHalIndexLimit
  {
    (subHalIndex % SubHalIndexLimit) as bv8
  }

  /** The index byte shifted into position; its low 24 bits are zero. */
  function IndexBits(subHalIndex: nat): (b: bv32)
    ensures b & !SubHalIndexMask == 0
  {
    (IndexByte(subHalIndex) as bv32) << 24
  }

  /** True iff the top byte of the handle is zero (subHalIndexIsClear). */
  predicate SubHalIndexIsClear(sensorHandle: SensorHandle)
    ensures SubHalIndexIsClear(sensorHandle) <==> sensorHandle.bits < 0x0100_0000
  {
    sensorHandle.bits & SubHalIndexMask == 0
  }

  /**
   * setSubHalIndex: ORs the sub-HAL index into the top byte. The low 24 bits
   * are kept, and on a handle whose top byte is clear the top byte becomes the
   * index (modulo 256).
   */
  function SetSubHalIndex(sensorHandle: SensorHandle, subHalIndex: nat): (r: SensorHandle)
    ensures ClearSubHalIndex(r) == ClearSubHalIndex(sensorHandle)
    ensures SubHalIndexIsClear(sensorHandle) ==> SubHalIndexOf(r) == subHalIndex % SubHalIndexLimit
  {
    SensorHandle(sensorHandle.bits | IndexBits(subHalIndex))
  }

  /** clearSubHalIndex: the backend-local handle, with the top byte cleared. */
  function ClearSubHalIndex(sensorHandle: SensorHandle): (r: SensorHandle)
    ensures SubHalIndexIsClear(r)
    ensures SubHalIndexIsClear(sensorHandle) ==> r == sensorHandle
  {
    SensorHandle(sensorHandle.bits & !SubHalIndexMask)
  }

  /** The index getSubHalForSensorHandle uses: the handle shifted right by 24. */
  function SubHalIndexOf(sensorHandle: SensorHandle): (i: nat)
    ensures i < SubHalIndexLimit
    ensures i == 0 <==> SubHalIndexIsClear(sensorHandle)
  {
    ((sensorHandle.bits >> 24) as bv8) as nat
  }

  /** Encoding then decoding gives back the local handle and the index. */
  lemma RoundTrip(sensorHandle: SensorHandle, subHalIndex: nat)
    requires SubHalIndexIsClear(sensorHandle)
    requires subHalIndex < SubHalIndexLimit
    ensures ClearSubHalIndex(SetSubHalIndex(sensorHandle, subHalIndex)) == sensorHandle
    ensures SubHalIndexOf(SetSubHalIndex(sensorHandle, subHalIndex)) == subHalIndex
  {
    assert subHalIndex % SubHalIndexLimit == subHalIndex;
  }

  /** Two bytes with the same numeric value are the same byte. */
  lemma ByteValueInjective(x: bv8, y: bv8)
    requires x as nat == y as nat
    ensures x == y
  {
  }

  /** Reading a byte back as an index and encoding it again gives the byte. */
  lemma IndexByteOfByte(b: bv8)
    ensures IndexByte(b as nat) == b
  {
    assert (b as nat) % SubHalIndexLimit == b as nat;
    ByteValueInjective(IndexByte(b as nat), b);
  }

  /** Every handle is the encoding of its local handle and its index. */
  lemma Decomposition(sensorHandle: SensorHandle)
    ensures SetSubHalIndex(ClearSubHalIndex(sensorHandle), SubHalIndexOf(sensorHandle)) == sensorHandle
  {
    IndexByteOfByte((sensorHandle.bits >> 24) as bv8);
  }

  /** Two sub-HALs' local handles never collide once encoded. */
  lemma EncodingInjective(h1: SensorHandle, i1: nat, h2: SensorHandle, i2: nat)
    requires SubHalIndexIsClear(h1) && SubHalIndexIsClear(h2)
    requires i1 < SubHalIndexLimit && i2 < SubHalIndexLimit
    requires SetSubHalIndex(h1, i1) == SetSubHalIndex(h2, i2)
    ensures h1 == h2 && i1 == i2
  {
    RoundTrip(h1, i1);
    RoundTrip(h2, i2);
  }

  /** Indices 256 apart give the same byte. */
  lemma IndexByteWraps(subHalIndex: nat)
    ensures IndexByte(subHalIndex + SubHalIndexLimit) == IndexByte(subHalIndex)
  {
    assert (subHalIndex + SubHalIndexLimit) % SubHalIndexLimit == subHalIndex % SubHalIndexLimit;
    ByteValueInjective(IndexByte(subHalIndex + SubHalIndexLimit), IndexByte(subHalIndex));
  }

  /** The truncation of the shifted index: index 256 encodes as index 0. */
  lemma IndexWrapsAround(sensorHandle: SensorHandle, subHalIndex: nat)
    ensures SetSubHalIndex(sensorHandle, subHalIndex + SubHalIndexLimit)
         == SetSubHalIndex(sensorHandle, subHalIndex)
  {
    IndexByteWraps(subHalIndex);
  }
}
