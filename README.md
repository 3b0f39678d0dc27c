# Sensors multi-HAL proxy, modelled in Dafny

The multi-HAL proxy (`HalProxy`, sensors HAL 2.0) presents several sensor
sub-HALs to the Android framework as one sensors HAL. It:

- numbers the sub-HALs and tags every sensor handle with its sub-HAL's index
  in the top byte of the 32-bit handle;
- builds one sensor table from the lists the sub-HALs report, and picks at
  most one sub-HAL to serve direct channels;
- forwards activate, batch, flush and injection to the sub-HAL named by the
  handle's top byte, with the top byte cleared, and the direct-channel calls
  to the designated sub-HAL;
- sets the operation mode on each sub-HAL in order; on the first failure it
  sends the old mode back to those already switched (ignoring the answers to
  those calls, so a failed rollback leaves a sub-HAL in the new mode), and
  records the new mode only when every sub-HAL accepts;
- tracks dynamic sensors as sub-HALs connect and disconnect them;
- relabels the events each sub-HAL posts and writes them to the framework's
  event queue, keeping a backlog of batches that did not fit;
- counts wake-lock holders, acquiring the system wake lock on the first and
  releasing it on the last.

The model has one module per component:

| module | file | what it holds |
|---|---|---|
| `HandleCodec` | handle_codec.dfy | the handle as a 32-bit vector; set, clear and read the sub-HAL index |
| `SensorTypes` | sensor_types.dfy | result codes, modes, sensor descriptors, events, flag masks, the calls made on a sub-HAL |
| `ModeCoordinator` | mode_coordinator.dfy | reference definition of `setOperationMode` and the calls it makes on each sub-HAL |
| `SensorTable` | sensor_table.dfy | reference definition of `initializeSensorList`/`setDirectChannelFlags` and the table invariants |
| `DynamicSensors` | dynamic_sensors.dfy | reference definition of the dynamic-sensor handlers |
| `EventBacklog` | event_backlog.dfy | reference definition of the event writer's backlog (post and drain step) |
| `WakeLock` | wake_lock.dfy | reference definition of the wake-lock reference count |
| `EventDelivery` | event_delivery.dfy | relabelling and wake-up counting of `processEvents` |
| `MultiHal` | hal_proxy.dfy | the classes `HalProxy` and `HalProxyCallback`, their state and methods |

The proxy is a class whose fields are the source's members: `sensors`,
`directChannelSubHal`, `currentOperationMode`, `dynamicSensors`,
`pendingWriteEvents` and `wakelockRefCount`. Each method that changes them
declares the fields in its `modifies` clause. Its `ensures` tie the new state
to a reference function of the old state, and lemmas prove what the source
promises about those functions. `Valid()` is the class invariant. It is built
from five parts: callbacks, table, dynamic sensors, backlog and wake lock.
Each part reads only its own fields, so a method that leaves a part's fields
alone keeps that part.

The environment is handled as follows:

- **Sub-HALs.** They are separate libraries. A value of type
  `SubHals = SubHalCall -> Reply` gives each call's answer. Every method that
  calls a sub-HAL returns the calls it made, so contracts can state which
  sub-HAL was asked what.
- **Event queue.** It is a sequence of written events. The space free for a
  write (`availableToWrite`), its outcome (`writeOk`) and the queue's quantum
  count are parameters.
- **System wake lock.** Its acquire and release calls are recorded in a ghost
  log.

## Model

| member | source | states |
|---|---|---|
| HandleCodec.SetSubHalIndex | sensors/2.0/multihal/HalProxy.cpp:49-51 | tagging keeps the low 24 bits; on a handle with a clear top byte the top byte becomes the index modulo 256 (the `size_t` shift truncated to 32 bits) |
| HandleCodec.ClearSubHalIndex | sensors/2.0/multihal/HalProxy.cpp:430-432 | the result has a clear top byte, and a handle whose top byte is already clear is returned unchanged |
| HandleCodec.SubHalIndexOf | sensors/2.0/multihal/HalProxy.cpp:426-428 | the index read from a handle (`handle >> 24`) is below 256, and is 0 exactly when `subHalIndexIsClear` holds |
| HandleCodec.SubHalIndexIsClear | sensors/2.0/multihal/HalProxy.cpp:434-436 | a handle's top byte is clear exactly when the handle is below 2^24, that is, when it fits in a sub-HAL's local 24-bit range |
| HandleCodec.IndexByte | sensors/2.0/multihal/HalProxy.cpp:49-51 | the byte the index lands in has value index modulo 256 |
| HandleCodec.IndexBits | sensors/2.0/multihal/HalProxy.cpp:49-51 | the shifted index touches no bit outside the top byte |
| HandleCodec.RoundTrip | sensors/2.0/multihal/HalProxy.cpp:49-51 | for a clear handle h and index i < 256, clearing the tagged handle gives h back and reading its index gives i |
| HandleCodec.Decomposition | sensors/2.0/multihal/HalProxy.cpp:426-432 | every handle equals its cleared handle tagged with its own index |
| HandleCodec.EncodingInjective | sensors/2.0/multihal/HalProxy.cpp:49-51 | two (clear handle, index < 256) pairs that tag to the same handle are the same pair, so sub-HALs never collide |
| HandleCodec.IndexWrapsAround | sensors/2.0/multihal/HalProxy.cpp:49-51 | index i + 256 tags exactly like index i: a 257th sub-HAL would alias the first |
| MultiHal.HalProxy.GetSubHalForSensorHandle | sensors/2.0/multihal/HalProxy.cpp:426-428 | for an index within the sub-HAL list, the chosen sub-HAL and the cleared handle tag back to the original handle |
| ModeCoordinator.FirstFailure | sensors/2.0/multihal/HalProxy.cpp:87-94 | the forward loop stops at the first sub-HAL that does not answer OK; every sub-HAL before it answered OK |
| ModeCoordinator.ApplyModeChange | sensors/2.0/multihal/HalProxy.cpp:84-105 | the reference outcome reports OK exactly when every sub-HAL accepts the mode; it records the new mode on OK and keeps the old one otherwise; it makes fewer than two calls per sub-HAL |
| ModeCoordinator.ModeChangeAllOrNothing | sensors/2.0/multihal/HalProxy.cpp:84-105 | if sub-HAL k is the first to fail: sub-HALs before k get the new mode then the old one; k gets only the failed call; later sub-HALs get nothing; its result is returned; the mode stays. If none fails: each gets the new mode once, OK is returned and the mode is recorded |
| ModeCoordinator.ModeChangeSucceedsWhenAllAccept | sensors/2.0/multihal/HalProxy.cpp:101-103 | when every sub-HAL accepts, the result is OK and the new mode is recorded |
| ModeCoordinator.ModesSentByModeCalls | sensors/2.0/multihal/HalProxy.cpp:87-100 | a pass over sub-HALs 0..n-1 sends the mode to each of them exactly once and to no other |
| MultiHal.HalProxy.SetOperationMode | sensors/2.0/multihal/HalProxy.cpp:84-105 | the loop, its break and the rollback loop produce exactly the reference outcome: result, calls made in order, and recorded mode |
| MultiHal.HalProxy.Activate | sensors/2.0/multihal/HalProxy.cpp:107-110 | the call goes to the sub-HAL named by the handle's top byte, with a clear handle that tags back to the original; that sub-HAL's answer is returned |
| MultiHal.HalProxy.Batch | sensors/2.0/multihal/HalProxy.cpp:159-163 | as for activate, with the sampling period and latency passed through unchanged |
| MultiHal.HalProxy.Flush | sensors/2.0/multihal/HalProxy.cpp:165-167 | as for activate |
| MultiHal.HalProxy.InjectSensorData | sensors/2.0/multihal/HalProxy.cpp:169-183 | in NORMAL mode a non-additional-info event gets BAD_VALUE and no sub-HAL call, and this is the only case with no call; otherwise a copy that differs only in its cleared handle goes to the owning sub-HAL and that sub-HAL's answer is returned |
| MultiHal.HalProxy.RegisterDirectChannel | sensors/2.0/multihal/HalProxy.cpp:185-193 | with no designated sub-HAL: INVALID_OPERATION, channel handle -1 and no call; otherwise the designated sub-HAL's result and channel handle |
| MultiHal.HalProxy.UnregisterDirectChannel | sensors/2.0/multihal/HalProxy.cpp:195-203 | with no designated sub-HAL: INVALID_OPERATION and no call; otherwise the designated sub-HAL's result |
| MultiHal.HalProxy.ConfigDirectReport | sensors/2.0/multihal/HalProxy.cpp:205-214 | with no designated sub-HAL: INVALID_OPERATION, report token -1 and no call; otherwise the designated sub-HAL is asked with the cleared handle, and its result and token are returned |
| SensorTable.WithoutDirectChannel | sensors/2.0/multihal/HalProxy.cpp:421-422 | masking removes direct-report and direct-channel capability and keeps the handle, name, type and wake-up flag |
| SensorTable.ArbitrateDirectChannel | sensors/2.0/multihal/HalProxy.cpp:412-424 | a designation, once made, never changes; with none designated, a direct-capable sensor designates its own sub-HAL; a sensor of a sub-HAL other than the designated one loses its direct flags, while a sensor of the designated sub-HAL is kept unchanged; while none is designated no stored sensor is direct-capable; a sensor is kept or only masked |
| MultiHal.HalProxy.SetDirectChannelFlags | sensors/2.0/multihal/HalProxy.cpp:412-424 | the designation and the flagged sensor are exactly the arbitration outcome |
| MultiHal.HalProxy.InitializeSensorList | sensors/2.0/multihal/HalProxy.cpp:304-323 | the nested loops build exactly the reference table from the reported lists, in sub-HAL and list order |
| SensorTable.AddSensor | sensors/2.0/multihal/HalProxy.cpp:308-316 | one reported sensor adds exactly its tagged handle to the table when its top byte is clear and nothing otherwise; an existing direct-channel designation is kept |
| SensorTable.AddSensors | sensors/2.0/multihal/HalProxy.cpp:308-317 | one sub-HAL's list only adds keys and never changes an existing designation |
| SensorTable.BuildTable | sensors/2.0/multihal/HalProxy.cpp:304-323 | the lists of all sub-HALs, in sub-HAL order, only add keys and never change an existing designation |
| SensorTable.BuildTableDesignatedUnmasked | sensors/2.0/multihal/HalProxy.cpp:304-323 | every entry of the designated sub-HAL, and every entry at all while none is designated, is exactly its reported sensor with the tagged handle, direct flags untouched |
| SensorTable.BuildTableInvariant | sensors/2.0/multihal/HalProxy.cpp:304-323 | every table entry is stored under its own handle and comes from an accepted sensor (clear top byte) of the sub-HAL in its top byte, changed at most in the top byte and the direct flags; only the designated sub-HAL's sensors keep direct flags; the designated sub-HAL is the first that reported a direct-capable sensor, and none is designated when none did |
| SensorTable.BuildTableComplete | sensors/2.0/multihal/HalProxy.cpp:308-316 | every accepted sensor of every sub-HAL is in the table under its tagged handle |
| SensorTable.BuildTableIndicesInRange | sensors/2.0/multihal/HalProxy.cpp:305-316 | every key of the table, and the designated sub-HAL, name one of the sub-HALs |
| SensorTable.TableHandleLeadsToReporter | sensors/2.0/multihal/HalProxy.cpp:107-110 | a table handle's top byte names a sub-HAL that reported a sensor whose own handle is the cleared table handle, so forwarded calls reach that sensor |
| SensorTable.SameLocalHandleNoCollision | sensors/2.0/multihal/HalProxy.cpp:304-323 | two sub-HALs that both report local handle 5 get handles 0x00000005 and 0x01000005 |
| SensorTable.AddSensorsDesignation | sensors/2.0/multihal/HalProxy.cpp:412-418 | within one sub-HAL's list an existing designation never changes, and with none the sub-HAL is designated exactly when its list holds an accepted direct-capable sensor |
| MultiHal.HalProxy.constructor | sensors/2.0/multihal/HalProxy.cpp:59-61 | the new proxy is valid: one callback per sub-HAL, the reference table from the reported lists, NORMAL mode, and no dynamic sensors, backlog or wake-lock holders |
| MultiHal.HalProxy.InitializeSubHalCallbacks | sensors/2.0/multihal/HalProxy.cpp:297-302 | appends one new callback per sub-HAL, each pointing at this proxy with its own index, in order |
| DynamicSensors.ConnectAccepted | sensors/2.0/multihal/HalProxy.cpp:226-235 | the forwarded list is no longer than the notification |
| DynamicSensors.ConnectAcceptedExactly | sensors/2.0/multihal/HalProxy.cpp:226-234 | every forwarded sensor is an accepted sensor of the notification, tagged; every accepted sensor is forwarded, tagged; every forwarded handle carries the sub-HAL index |
| DynamicSensors.ConnectAcceptedSingle | sensors/2.0/multihal/HalProxy.cpp:227-233 | a single sensor is forwarded, tagged, exactly when its top byte is clear |
| DynamicSensors.ConnectAcceptedAppend | sensors/2.0/multihal/HalProxy.cpp:226-235 | a notification made of two parts forwards the first part's sensors, then the second's; with the single case this fixes the forwarded list in input order, duplicates kept |
| DynamicSensors.StoreAll | sensors/2.0/multihal/HalProxy.cpp:231-232 | storing keeps every existing key and puts every stored sensor's handle in the map |
| DynamicSensors.StoreAllKeys | sensors/2.0/multihal/HalProxy.cpp:232 | storing adds exactly the forwarded handles to the dynamic-sensor map |
| DynamicSensors.StoreAllKeepsOthers | sensors/2.0/multihal/HalProxy.cpp:232 | storing leaves every entry with another handle unchanged |
| DynamicSensors.StoreAllLastWins | sensors/2.0/multihal/HalProxy.cpp:232 | a sensor that no later one overrides is found under its own handle |
| DynamicSensors.StoreAllKeyedByHandle | sensors/2.0/multihal/HalProxy.cpp:231-232 | the map stays keyed by each entry's own handle |
| MultiHal.HalProxy.OnDynamicSensorsConnected | sensors/2.0/multihal/HalProxy.cpp:221-239 | the forwarded list and the new dynamic-sensor map are the reference ones; the sensor table is not touched |
| DynamicSensors.Disconnect | sensors/2.0/multihal/HalProxy.cpp:247-257 | a disconnection only removes keys, and forwards no more handles than the notification names |
| DynamicSensors.DisconnectConserves | sensors/2.0/multihal/HalProxy.cpp:247-257 | the entries left plus the handles forwarded number exactly the entries before: every erased entry is forwarded once |
| DynamicSensors.DisconnectEffect | sensors/2.0/multihal/HalProxy.cpp:241-261 | the remaining keys are the old keys minus the named tagged handles; remaining entries are unchanged; each forwarded handle was present and named; each present, named handle is forwarded exactly once |
| MultiHal.HalProxy.OnDynamicSensorsDisconnected | sensors/2.0/multihal/HalProxy.cpp:241-261 | the new map and the forwarded handles are the reference disconnection; the sensor table is not touched |
| EventBacklog.ImmediateWriteCount | sensors/2.0/multihal/HalProxy.cpp:370-383 | no more than the batch and no more than the free space are written at once, and only with an empty backlog and a successful write; in that case min(batch, free space) are written |
| EventBacklog.AppendRemainder | sensors/2.0/multihal/HalProxy.cpp:384-388 | the backlog's events grow by exactly the events not written at once, the earlier batches are kept, and the rest is appended as at most one new tail batch |
| EventBacklog.PostKeepsOrder | sensors/2.0/multihal/HalProxy.cpp:369-391 | the events written at once followed by the new backlog are the old backlog followed by the batch; earlier batches are untouched; no empty batch is queued |
| EventBacklog.PostExtendsAccount | sensors/2.0/multihal/HalProxy.cpp:369-391 | events handed to the queue followed by the backlog grow by exactly the posted batch |
| MultiHal.HalProxy.WriteImmediately | sensors/2.0/multihal/HalProxy.cpp:370-383 | the count written and the queue contents match the reference count |
| MultiHal.HalProxy.PostEventsToMessageQueue | sensors/2.0/multihal/HalProxy.cpp:369-391 | the unwritten rest becomes one tail batch; every posted event stays, in order, either handed to the queue or in the backlog |
| EventBacklog.DrainHead | sensors/2.0/multihal/HalProxy.cpp:340-364 | a drain step attempts a prefix of the head batch of at most quantumCount events, and never lengthens the backlog |
| EventBacklog.DrainKeepsOrder | sensors/2.0/multihal/HalProxy.cpp:340-365 | one drain step attempts the first min(head, quantum) events; these followed by the new backlog are the old backlog; with a non-zero quantum the backlog shrinks |
| EventBacklog.DrainKeepsTail | sensors/2.0/multihal/HalProxy.cpp:357-364 | the batches behind the head are untouched and no empty batch appears |
| EventBacklog.DrainKeepsAccount | sensors/2.0/multihal/HalProxy.cpp:340-365 | events handed to the queue followed by the backlog are unchanged by a drain step |
| MultiHal.HalProxy.HandlePendingWritesStep | sensors/2.0/multihal/HalProxy.cpp:340-365 | on an empty backlog nothing happens; otherwise the attempt and the new backlog are the reference drain step, the queue gains the attempt only if the write succeeds, and a failed attempt is dropped, not retried |
| WakeLock.Step | sensors/2.0/multihal/HalProxy.cpp:396-410 | the count moves by one; lock calls are only appended, at most one per step, and only on the 0 to 1 or 1 to 0 transition |
| WakeLock.StepKeepsConsistent | sensors/2.0/multihal/HalProxy.cpp:396-410 | each increment and decrement keeps the calls alternating (acquire first) and the lock held exactly when the count is positive |
| WakeLock.ReplayConsistent | sensors/2.0/multihal/HalProxy.cpp:396-410 | over any sequence that never decrements zero, the count is increments minus decrements, the calls alternate, and the lock is held exactly when the count is positive, after an odd number of calls |
| WakeLock.IncrementThenDecrement | sensors/2.0/multihal/HalProxy.cpp:396-410 | an increment then a decrement restores the count; from zero it makes exactly one acquire and one release |
| MultiHal.HalProxy.IncrementRefCountAndMaybeAcquireWakelock | sensors/2.0/multihal/HalProxy.cpp:396-402 | the new count and calls are the reference increment, and the class invariant is kept |
| MultiHal.HalProxy.DecrementRefCountAndMaybeReleaseWakelock | sensors/2.0/multihal/HalProxy.cpp:404-410 | the new count and calls are the reference decrement, and the class invariant is kept |
| EventDelivery.Relabel | sensors/2.0/multihal/HalProxy.cpp:467 | relabelling keeps timestamp, type and payload and the low 24 bits of the handle; on a clear handle the top byte becomes the sub-HAL index |
| EventDelivery.RelabelAll | sensors/2.0/multihal/HalProxy.cpp:466-468 | the relabelled batch has the same length, and each event is the relabelled event at the same position |
| EventDelivery.SensorInfoFor | sensors/2.0/multihal/HalProxy.cpp:469-470 | a handle in the table reads its entry; a handle not in it reads as a descriptor with no flags, so its events are never counted as wake-up |
| EventDelivery.CountWakeUp | sensors/2.0/multihal/HalProxy.cpp:465-473 | the wake-up count never exceeds the batch length |
| EventDelivery.CountWakeUpZeroIff | sensors/2.0/multihal/HalProxy.cpp:465-473 | the count is zero exactly when no event of the batch comes from a wake-up sensor |
| EventDelivery.CountWakeUpAppend | sensors/2.0/multihal/HalProxy.cpp:465-473 | the count of a concatenation is the sum of the counts |
| MultiHal.HalProxyCallback.ProcessEvents | sensors/2.0/multihal/HalProxy.cpp:462-475 | the output has the same length and order, each event relabelled with the callback's index, and the count is the number of output events whose table entry has the WAKE_UP flag |
| MultiHal.HalProxyCallback.PostEvents | sensors/2.0/multihal/HalProxy.cpp:438-455 | the relabelled batch is posted to the proxy's event writer: the queue gains exactly the part written at once, the rest becomes one new tail batch, every event stays accounted for in order, and the proxy stays valid |
| MultiHal.HalProxyCallback.constructor | sensors/2.0/multihal/HalProxy.cpp:299 | the callback records its proxy and its sub-HAL index |

## Left out

- Loading sub-HAL libraries from `/vendor/etc/sensors/hals.conf` with `dlopen`/`dlsym` (HalProxy.cpp:53-57, 263-295) is file and loader I/O. The model starts from a given sub-HAL count.
- `initialize` (HalProxy.cpp:112-157) creates the event queue, the wake-lock queue and the event flag, starts the writer thread and initializes the sub-HALs. All of this is inter-process plumbing and is not modelled.
- Threads, mutexes, the condition variable and the writer's run flag (HalProxy.cpp:63-73, 330-339) are left out. One iteration of the writer loop is a sequential method, entered with the run flag set.
- The `writeBlocking` timeout and `EventFlag::wake` are left out. The outcome of a write is a parameter.
- The operating-system wake-lock calls are a ghost log of acquire and release calls.
- HIDL callback plumbing (`_hidl_cb`, `mDynamicSensorsCallback`) becomes return values. `debug`, `getSensorsList` and logging are not modelled.
- `HalProxy.h`, `ScopedWakelock` and the sensors 1.0 types are not part of this model. The following values are taken from the HAL definitions:
  - the index mask is 0xFF000000;
  - WAKE_UP is 0x1, MASK_DIRECT_REPORT is 0x380 and MASK_DIRECT_CHANNEL is 0xC00;
  - ADDITIONAL_INFO is type 33;
  - the initial operation mode is NORMAL;
  - `getSensorInfo` on a handle not in the table yields a descriptor with no flags.
- Sub-HALs are identified by their index in the list. The source compares sub-HAL objects by address, so the list is assumed to hold distinct objects.
- A failed `getSensorsList` call on a sub-HAL is modelled as that sub-HAL reporting an empty list.
- MultiHal.HalProxy.constructor: requires at most 256 sub-HALs. The source does not check this; `IndexWrapsAround` shows that a 257th sub-HAL's handles would alias the first's.
- MultiHal.HalProxy.Activate: requires the handle's top byte to name a sub-HAL in the list, and at most 256 sub-HALs. The source indexes the list without a check, which is undefined behaviour for other handles. The bound on the count, which every valid proxy meets, makes the sub-HAL the handle's top byte. `Batch`, `Flush`, `InjectSensorData` and `GetSubHalForSensorHandle` have the same preconditions.
- MultiHal.HalProxy.OnDynamicSensorsConnected: the sub-HAL index is a natural number. The source's `int32_t` parameter would let a negative index reach the shift. `OnDynamicSensorsDisconnected` takes its index the same way.
- MultiHal.HalProxy.PostEventsToMessageQueue: its contract keeps only the backlog part of the class invariant. The other parts read fields the method does not modify, so they are kept too. `HandlePendingWritesStep`, `OnDynamicSensorsConnected` and `OnDynamicSensorsDisconnected` work the same way with their own parts.
- MultiHal.HalProxyCallback.PostEvents: the `ALOG_ASSERT` wake-lock checks become a precondition. The caller's scoped wake lock must be held exactly when the batch holds a wake-up event.
- MultiHal.HalProxy.DecrementRefCountAndMaybeReleaseWakelock: requires a positive count. Below zero, the source's unsigned counter would wrap.
- The framework reading events out of the event queue is not modelled. The queue is the sequence of all events ever written.
- `createScopedWakelock` (HalProxy.cpp:457-460) only builds a scoped wake-lock object; its effect is the increment and decrement methods, which are modelled.
