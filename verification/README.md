# Verification of the conveyor safety node

A Dafny model of the conveyor belt monitor: the sensor-fusion kernel driver `conveyor_node.c`, and the path
its events take to the dashboard. `dafny verify dfyconfig.toml` checks everything.

## What is modelled

**The driver as a concurrent machine** (`Driver.dfy`). Each critical section of `fusion_work_fn`,
`tilt_eval_work_fn`, `push_event` and the two interrupt handlers is a function on the fields it touches
(`DriverSections`); `DriverSystem` interleaves them in any order with the sample timer, the clock, the tilt pin
and the echo edges. Taken as given: a work item never runs concurrently with itself, `schedule_work` on a pending
item does nothing and on a running one requeues it, `mod_delayed_work` re-arms the delay, an interrupt handler is
not re-entered, and the module parameters do not change during a run. Theorems hold of every run from a probed
device:

- `Consistency.dfy`, `Settling.dfy`: `state` can disagree with tilt and blockage for a while, exactly after fusion
  commits on a tilt that an evaluation has replaced; but never once both works are idle and none is pending, and
  left alone the driver reaches that point within 81 steps of its own, with `state` matching the physical pin. The
  level read by `conveyor_probe` before it requests the interrupt must still hold at the request; that condition is
  exact. The debounce delay holds for every edge whose handler is finished; inside a handler, between its time stamp
  and its arming of the work, an evaluation armed earlier can still start, and only there.
- `Pushes.dfy`, `Overlaps.dfy`: `push_event` is three separate steps, and has three callers: the two works, and
  `conveyor_probe` itself, after it requested the interrupts. If two pushes overlap, a quiescent driver in a critical
  fault can show an LED that is off and a newest event `BLOCKAGE_ALERT`, for as long as the belt stays as it is; the
  traces are given. Exact conditions: a run ends right if and only if its last enqueue and its last LED write used a
  current snapshot; from a given state everything comes right in whatever order the pushes are finished if and only
  if no push in hand is about to write something outdated; and over a whole run that is so at every moment if and
  only if no commit falsifies a snapshot in another caller's hand.
- `Refinement.dfy`, `Echo.dfy`, `Events.dfy`, `EventContents.dfy`: in every interleaving fusion computes the sequential
  filter of the samples it consumed, so what is proved of that filter (`LightFilter.dfy`, `StreakFilter.dfy`,
  `FusionFilter.dfy`) holds of `blockage`: what the sensors said decides it, with exact latencies, and an object at rest
  or a dark belt is always reported. Every run opens a measurement, echoes are accounted for, and every event shows a
  moment of the run and why it was pushed, fits its C fields and reads back from its printed line.

**The driver as an object** (`ConveyorNode.dfy`, `EventQueue.dfy`). The class updates the driver's fields in place, one
method per C function, proved against the same section functions at the serial grain (`EventLog.dfy`). `Grains.dfy`
shows that whole serial runs are runs of the interleaved machine. The event ring refines a drop-oldest queue of 31;
`Ledger.dfy` accounts for every event under any number of readers.

**The data path.** `EventLine.dfy`: the printed line against the daemon's `parse_event`. `Mqtt.dfy`, `MqttStream.dfy`,
`MqttExact.dfy`: the hand-written MQTT publisher and stream parser over arbitrary chunks and timeouts (sections 1.5.3,
2.2.3 and 3.3 of MQTT Version 3.1.1). `Fanout.dfy`: the bounded SSE fan-out. `Resolve.dfy`: the dependency resolver of the
offline installer.

Where code and documents disagree the model follows the code: the confirm count defaults to 5
(conveyor_node.c:156), not 3 (README.md:207); the ring keeps 31 events (conveyor_node.c:225-228), not 32
(CODE_EXPLANATION.md:514); the line starts with `ts=` (conveyor_node.c:580), not `seq=` (README.md:262).

## Model

| member | source | states |
|---|---|---|
| ConveyorTypes.AdcReadValue | conveyor_node.c:242-271 | a failed transfer gives its error code; otherwise the second byte is the low byte of the sample and the low four (or two) bits of the first are above it, so the result is negative exactly on failure and at most 4095 (1023) |
| ConveyorTypes.ReasonWord | conveyor_node.c:42-45 | the word lies in 0..15 and each of its four bits is the flag it stands for |
| LightFilter.Envelope | conveyor_node.c:386-393 | valid samples in [lo, hi] keep `light_ema` in [8 lo, 8 hi] and `light_value` in [lo, hi] from the first valid sample on, across failed reads and zero restarts; before it both are zero |
| LightFilter.NoOverflow | conveyor_node.c:386-393 | with 12-bit samples every intermediate value of the update stays in 0..32760 |
| LightFilter.ConvergesFromAbove | conveyor_node.c:386-393 | above the target, n steps shrink the distance beyond the dead band of 7 by (7/8)^n and never cross it |
| LightFilter.ConvergesFromBelow | conveyor_node.c:386-393 | below the target, n steps shrink the distance by (7/8)^n without overshoot, including the zero restart |
| LightFilter.EmaExactly | conveyor_node.c:386-393 | the exact course of the average under a constant sample from either side, in both directions, and the restart from zero in one step |
| LightFilter.FailedReadsLeaveNoTrace | conveyor_node.c:386-393 | the light fields depend on the delivered samples alone |
| LightFilter.DeadBandFixed | conveyor_node.c:386-393 | within 7 above the scaled level the average no longer moves, and the level is reported exactly |
| LightFilter.ReportsConstantIff | conveyor_node.c:386-393 | every constant 12-bit level is reported exactly after n samples, from every average of 12-bit samples, if and only if n is at least 67 |
| LightFilter.ReportsBoundAfter67 | conveyor_node.c:386-393 | samples that vary but stay on one side of x put the reported level on that side of x from the 67th sample on |
| StreakFilter.WrapHarmlessIff | conveyor_node.c:406-420 | 32-bit wrapping of the streak counters is invisible in `blockage` for all sample sequences if and only if the clear threshold is positive or the confirm threshold is zero |
| StreakFilter.VerdictIsLastConfirmed | conveyor_node.c:406-420 | `blockage` is BLOCKED exactly when the latest window of equal raw samples that reached its threshold was a blocked one |
| StreakFilter.VerdictTurnsIff | conveyor_node.c:406-420 | CLEAR turns to BLOCKED if and only if the last `blockage_confirm_count` samples are all blocked, and BLOCKED to CLEAR if and only if the last `blockage_clear_count` are all clear |
| StreakFilter.ChangesAreBounded | conveyor_node.c:406-420 | confirm times the changes to BLOCKED plus clear times the changes to CLEAR never exceed the runs |
| FusionFilter.DetectionLatency | conveyor_node.c:386-420 | from every reachable filter state, a light level on the blocked side is BLOCKED after at most 66 + confirm runs and stays so, in both polarities |
| FusionFilter.DetectionLatencyIff | conveyor_node.c:386-420 | n runs are enough for that, for every threshold, polarity and history, if and only if n is at least 66 + confirm |
| FusionFilter.ClearLatency | conveyor_node.c:386-420 | a light level on the clear side with no distance in range is CLEAR after at most 66 + clear runs and stays so |
| FusionFilter.ClearLatencyIff | conveyor_node.c:386-420 | n runs are enough for that, for every threshold, polarity and history, if and only if n is at least 66 + clear |
| FusionFilter.BlockedIffEvidence | conveyor_node.c:386-420 | from sensors to verdict: BLOCKED exactly when the latest confirmed window of evidence is a blocked one, where a run has evidence exactly if its distance is fresh, in range and within tolerance of the one before, or its read succeeded and the smoothed level is beyond the threshold |
| FusionFilter.SteadyDistanceBlocks | conveyor_node.c:396-418 | an object that stays in range within tolerance for confirm runs is BLOCKED, whatever the light |
| FusionFilter.BlindRunsClear | conveyor_node.c:273-279 | a failed read never counts as blocked: clear of them with nothing in range are CLEAR |
| FusionFilter.DistanceEvidence | conveyor_node.c:396-418 | a change to BLOCKED without light rests on confirm consecutive fresh in-range distances, any two of them within (j - i) times the tolerance |
| Consistency.ConsistentWhenIdle | conveyor_node.c:314-467 | in every interleaving, with both works idle and no fusion pending, `state` is `evaluate_state` of the current tilt and blockage |
| Consistency.QuiescentMatchesPin | conveyor_node.c:433-487 | at full quiescence `tilt` is TILTED exactly if the physical pin is at `tilt_active_level`, and `state` is the one of that tilt and the blockage |
| Consistency.DebounceHolds | conveyor_node.c:470-487 | no evaluation starts before the debounce delay has passed since every earlier edge whose handler is finished, whatever else happened since, other open handlers included |
| Consistency.EarlyOnlyInsideHandler | conveyor_node.c:478-484 | an evaluation that starts within the delay of the newest time stamp starts between that stamp and the arming of the work |
| Consistency.EarlyStartIff | conveyor_node.c:478-484 | and there some run does start one, if and only if the debounce delay is not zero |
| Consistency.ConsistentAfterStepIff | conveyor_node.c:314-465 | what each step does to the agreement of `state` with tilt and blockage: a fusion commit leaves it right if and only if it saw the current tilt, a tilt change always, and any other step leaves it as it was |
| Consistency.AlwaysConsistentIff | conveyor_node.c:314-465 | `state` is right at every moment of a run if and only if no fusion run of it commits on an outdated tilt |
| Consistency.RepairIsNeverSuppressed | conveyor_node.c:314-337 | a commit leaves a consistent state if and only if it saw the current tilt, and if it so repairs an inconsistent one it always owes an event |
| Consistency.PinTrackedIffProbeReadHolds | conveyor_node.c:782-808 | the driver is right about the pin at every later quiescent moment if and only if probe's read still held when the interrupt was requested |
| Consistency.TimerStartsAfterProbe | conveyor_node.c:806-833 | until probe's own event is out, fusion runs only if an evaluation has requested it |
| Settling.NeverStuck | conveyor_node.c:356-487 | while any work is left some step of the driver is enabled, at the latest when the debounce time has passed |
| Settling.SettlesWithin81 | conveyor_node.c:356-487 | from every reachable state the driver takes at most 81 steps by itself, and when it cannot go on it is quiescent with `state` matching the pin |
| Pushes.EndsRightIff | conveyor_node.c:281-312 | a run that ends with no push owed, however its pushes overlap, ends with the newest event right if and only if its last enqueue, and with the LED right if and only if its last LED write, used a snapshot still current at that moment |
| Pushes.ComesRightIff | conveyor_node.c:281-312 | in every state: the newest event and the LED come right in whatever order the pushes in hand finish, if and only if no push in hand holds an outdated snapshot and what none of them writes is right already |
| Pushes.AlwaysComesRightIff | conveyor_node.c:281-337 | over whole runs: that is so at every moment if and only if no commit falsifies the snapshot held by another caller of `push_event`, probe included; then event and LED are right whenever no push is owed |
| Overlaps.OverlapHidesFault | conveyor_node.c:281-312 | overlapping pushes can leave a quiescent critical fault with the LED off and a newest event BLOCKAGE_ALERT, and it stays so through every continuation with the pin at rest and dark light samples |
| Overlaps.ProbeEventCanComeLast | conveyor_node.c:806-832 | probe's event need not be the first, and can follow and contradict the event of an evaluation that overtook it |
| Overlaps.StateCanBeStale | conveyor_node.c:380-465 | `state == evaluate_state(tilt, blockage)` is not an invariant of the steps |
| Refinement.BlockageIsFiltered | conveyor_node.c:380-429 | in every interleaving the fields fusion writes are the sequential filter of the consumed samples, `blockage` lagging one run between snapshot and commit |
| Refinement.BlockageIsLastConfirmed | conveyor_node.c:406-429 | at every moment of every interleaving `blockage` is the kind of the latest confirmed window of evidence of the committed runs |
| Refinement.LightInRange | conveyor_node.c:264-270 | in every interleaving the light fields stay in the ADC's range |
| Refinement.DarkBeltIsReported | conveyor_node.c:268-279 | at every moment of every interleaving: once 66 + confirm consecutive runs sampled a dark belt and committed, `blockage` is BLOCKED, also while a later such run is between snapshot and commit |
| Refinement.BrightBeltIsCleared | conveyor_node.c:268-279 | likewise CLEAR after 66 + clear committed runs on a bright and empty belt |
| Refinement.SteadyBeltIsReported | conveyor_node.c:396-418 | at every moment of every interleaving: once confirm consecutive runs saw an object stay in range and committed, `blockage` is BLOCKED |
| Echo.EchoAccounting | conveyor_node.c:339-349 | triggers equal completed echoes plus one while a measurement is open; fresh runs never exceed valid echoes; the phase stays in 1..3 and the distance in 0..689 |
| Echo.PulseMeasurement | conveyor_node.c:500-513 | a pulse is measured iff it lasts 1 us to below 40 ms, and the distance is the number of whole 58 us in it |
| Echo.EveryRunOpensOne | conveyor_node.c:339-354 | in every reachable state the end of a fusion run starts a measurement exactly if none is open, changes nothing else, and leaves one open |
| Echo.MeasurementStoresPulse | conveyor_node.c:339-523 | from trigger to field: the pulse between the awaited edges is stored in whole units of 58 us, freshly, if it lasts 1 us to below 40 ms, and otherwise nothing is; edges that are not awaited change nothing |
| Echo.FreshIffStored | conveyor_node.c:380-385 | in every interleaving a run finds the distance fresh exactly if an echo was stored since the run before, and it is the newest one |
| Echo.BlockageNeedsEchoes | conveyor_node.c:380-418 | in every interleaving a blockage without light rests on confirm consecutive runs, each with a valid echo of its own, in range and within tolerance |
| PushedEvents.EveryEventReadsBack | conveyor_node.c:286-301 | every event of every interleaving fits its fields and its printed line parses back to all of them |
| EventContents.EveryEventShowsAMoment | conveyor_node.c:286-294 | in every interleaving each event shows some earlier moment: its clock modulo 2^64, state, tilt and blockage, the newest echo, the smoothed light of all samples so far, and a reason that was owed then: 1 for tilt, 3 for probe, else bit 1 if the verdict changed, bit 2 if light and bit 3 if distance spoke for it |
| EventLog.EventStreamReplays | conveyor_node.c:314-337 | in serial runs each event toggles exactly one of tilt and blockage and its flags say which; bits 2-3 appear exactly on changes to BLOCKED; the first event (reason 3) and the flags rebuild every later state |
| Grains.FusionWorkIsSchedule | conveyor_node.c:356-431 | the sections of a fusion run back to back are the serial fusion run |
| Grains.TiltWorkIsSchedule | conveyor_node.c:433-468 | the sections of an evaluation back to back are the serial evaluation, and a fusion run is queued |
| Grains.EchoWorkIsSchedule | conveyor_node.c:489-523 | the two sections of an echo edge back to back are the serial handler |
| Grains.SerialRunIsSchedule | conveyor_node.c:356-523 | every serial run whose clock never runs back and whose evaluations are a debounce delay apart is reached by some run of the interleaved machine, with the same fields, event log and LED |
| ConveyorNodeDevice.ConveyorNode.constructor | conveyor_node.c:752-832 | the probed fields, and the initial event with reason 3 as the only one queued |
| ConveyorNodeDevice.ConveyorNode.PushEvent | conveyor_node.c:281-312 | one event with the current value of each field and the clock is appended to the log and to the drop-oldest queue, and the LED shows a critical fault |
| ConveyorNodeDevice.ConveyorNode.SetFusedState | conveyor_node.c:314-337 | the new state and blockage, with one event exactly when one of them changed |
| ConveyorNodeDevice.ConveyorNode.TriggerUltrasonic | conveyor_node.c:339-354 | starts a measurement only from phase 0 or 3 and changes nothing else |
| ConveyorNodeDevice.ConveyorNode.TakeSnapshot | conveyor_node.c:380-394 | the locals of the first section, freshness consumed and light smoothed |
| ConveyorNodeDevice.ConveyorNode.CountStreaks | conveyor_node.c:406-420 | the streak counters and the verdict of the hysteresis |
| ConveyorNodeDevice.ConveyorNode.FusionWorkFn | conveyor_node.c:356-431 | the whole effect of one serial fusion run on fields, log, LED and queue |
| ConveyorNodeDevice.ConveyorNode.TiltEvalWorkFn | conveyor_node.c:433-468 | the whole effect of one serial tilt evaluation, the fusion run it schedules included |
| ConveyorNodeDevice.ConveyorNode.UltraIrqHandler | conveyor_node.c:489-523 | the whole effect of one echo edge |
| ConveyorNodeDevice.ConveyorNode.NodeRead | conveyor_node.c:536-591 | each return value with its cause; exactly the oldest event is taken, also when the buffer is too small or the copy fails |
| ConveyorNodeDevice.ConveyorNode.RunWorks | conveyor_node.c:356-523 | the methods in any order compute the serial run, and while nobody reads the ring holds the newest events of the log |
| ConveyorNodeDevice.ProbeAndRun | conveyor_node.c:752-832 | a probed device after any serial run: the log replays, its newest event and the LED show the device, and the ring holds the newest 31 of it |
| EventRing.EventQueue.Empty | conveyor_node.c:220-223 | true exactly when nothing is queued |
| EventRing.EventQueue.Full | conveyor_node.c:225-228 | true exactly when 31 events are queued |
| EventRing.EventQueue.Push | conveyor_node.c:296-301 | the contents become the drop-oldest queue's |
| EventRing.EventQueue.Pop | conveyor_node.c:570-577 | takes the oldest event, or reports an empty queue |
| ReaderLedger.EveryEventAccounted | conveyor_node.c:570-590 | with any readers interleaved, the queue is a suffix of the pushes, pops are in order and once each, and pushed = returned + dropped + failed + being read + queued |
| ReaderLedger.OnePush | conveyor_node.c:296-301 | a push is queued last and drops the oldest event exactly when 31 wait |
| ReaderLedger.OneRead | conveyor_node.c:570-590 | a read takes the oldest event and returns it exactly if its line fits the buffer and the copy succeeds; otherwise it is lost |
| ReaderLedger.MonitorLosesNothing | conveyor_monitor.c:41-45 | a reader with 255 bytes whose copies succeed loses no event it popped |
| EventLine.LineFits | conveyor_node.c:579-583 | a line has at most 136 characters, so the 192-byte buffer and the 255-byte read never cut it |
| EventParser.ParseEvent | conveyor_event_daemon.py:103-112 | the loop computes the dictionary of all tokens, or ValueError at the first bad one |
| EventParser.LineRoundTrip | conveyor_event_daemon.py:94-112 | `parse_event` of the printed line recovers all seven fields, for all field values, the states and sensors under the names the dashboard knows |
| EventParser.DictionaryInjective | conveyor_event_daemon.py:103-112 | different events parse to different dictionaries |
| EventParser.LineShape | conveyor_node.c:579-583 | the line ends in its only newline, and its tokens carry the seven keys in the order of the format |
| EventParser.TokensMeanTheirLast | conveyor_event_daemon.py:103-110 | parsing any tokens fails exactly if one has no `=` or a bad value; otherwise each key has the value of the last token that carries it |
| EventParser.OtherValuesStay | conveyor_event_daemon.py:94-100 | a value that is no number stays a string, but behind `0x` it is an error |
| EventParser.NumeralExamples | conveyor_node.c:579-583 | decimal, negative and hex numbers are written and read in the usual digits |
| EventParser.NumeralForms | conveyor_event_daemon.py:94-100 | signs, underscores and an empty hex number are taken or refused as Python's `int` does |
| EventParser.AsciiSpacesSeparate | conveyor_event_daemon.py:105 | tab to carriage return, the four separators and the blank separate tokens and are stripped, and no printable character does |
| MqttEncoder.EncRemlen | conveyor_event_daemon.py:27-34 | the loop emits the 7-bit groups of the length |
| MqttEncoder.CodeLength | conveyor_event_daemon.py:27-34 | a code has at most k bytes exactly below 128^k |
| MqttEncoder.CodeMeansNumber | conveyor_event_daemon.py:27-34 | the code is the number in groups of seven bits, least significant first, and exactly its last byte has the top bit clear |
| MqttEncoder.EncStr | conveyor_event_daemon.py:22-24 | a big-endian two-byte length and then the string |
| MqttEncoder.Utf8Iff | conveyor_event_daemon.py:22-24 | the byte strings that count as text are exactly the encodings of sequences of Unicode scalar values |
| MqttEncoder.PrefixFree | conveyor_event_daemon.py:27-34 | no code is a prefix of another |
| MqttEncoder.MqttPublisher.Publish | conveyor_event_daemon.py:68-73 | the whole packet joins the stream, or exactly the part of it that the connection still took and an error, or an error and nothing |
| MqttReader.Socket.RecvN | broker/conveyor_subscriber.py:37-44 | exactly n bytes over as many chunks as needed, or the exception that interrupted it |
| MqttReader.Socket.ReadRemlen | broker/conveyor_subscriber.py:47-55 | the loop, with its powers of 128, reads the length code that the specification function reads |
| MqttReader.Socket.ReadPacket | broker/conveyor_subscriber.py:86-94 | one packet: header, length, body, and the message it yields, or the exception, UnicodeDecodeError included |
| MqttReader.DecodeMeans | broker/conveyor_subscriber.py:86-94 | a body with any header 0x30 to 0x3F yields its topic and payload if both are UTF-8, and raises otherwise; with any other header nothing |
| MqttReader.DecodeMalformed | broker/conveyor_subscriber.py:90-93 | a body under two bytes raises, and a topic length beyond the body takes the whole rest as topic |
| MqttReader.Socket.Messages | broker/conveyor_subscriber.py:84-97 | the messages of one connection, its PINGREQs, and the exception that ends it, a PINGREQ that cannot be sent included |
| MqttReader.SessionUntilPingFails | broker/conveyor_subscriber.py:96-97 | a connection that breaks after some PINGREQs yields exactly what it would have, or stops at the first PINGREQ that fails with a prefix of it |
| MqttStream.RemlenRoundTripIff | broker/conveyor_subscriber.py:47-55 | decoding inverts encoding if and only if the length is below 2^28, consuming exactly the code, in any chunking; above it decoding fails |
| MqttStream.StreamRoundTrip | broker/conveyor_subscriber.py:84-97 | published packets mixed with PINGRESPs, in any chunks with timeouts between packets, come out as the same messages in order with nothing left over |
| MqttExact.CodesAreMinimal | broker/conveyor_subscriber.py:47-55 | no string of bytes decodes to a length in fewer bytes than its code has |
| MqttExact.RightIffTimeoutsBetweenPackets | broker/conveyor_subscriber.py:37-97 | for a stream of PUBLISH packets alone, with timeouts anywhere, the right messages come out if and only if every timeout falls between two packets |
| MqttExact.TimeoutInsidePingMayBeHarmless | broker/conveyor_subscriber.py:84-97 | with a PINGRESP in the stream the "only if" fails: a timeout inside that packet, the last one, spoils nothing |
| MqttExact.TimeoutInsidePacketLosesIt | broker/conveyor_subscriber.py:96-97 | one timeout after the first byte of any packet loses it |
| DependencyResolver.Resolve | scripts/fetch_debs.py:79-94 | terminates with, once each, exactly the indexed non-base packages reachable through such packages, in rising shortest distance; and in the order in which the roots, followed by the dependencies of the list itself, first mention them |
| DependencyResolver.RootsComeFirst | scripts/fetch_debs.py:81-93 | so the wanted roots come first, in their own order |
| SseHub.ClientQueue.PutNowait | broker/conveyor_web.py:42-45 | enqueues exactly when fewer than 64 messages wait |
| SseHub.Hub.Record | broker/conveyor_web.py:122-125 | the event becomes current and heads the bounded history |
| SseHub.Hub.Register | broker/conveyor_web.py:187-189 | a new empty queue joins the clients |
| SseHub.Hub.Unregister | broker/conveyor_web.py:202-206 | an absent client changes nothing; a present one goes, its first occurrence alone, every other client keeps its place, and in a list without duplicates it is gone |
| SseHub.Hub.Broadcast | broker/conveyor_web.py:37-47 | clients with room get the message, exactly those without are dropped, the others keep their order |
| SseFanout.NoGaps | broker/conveyor_web.py:29-206 | in every interleaving each client's delivered and queued messages are one gapless stretch from its registration, its queue holds at most 64, and history and current show the newest events |
| SseFanout.DroppedStaysSilent | broker/conveyor_web.py:46-47 | a dropped or departed client is given nothing more |
| SseFanout.RegisteredIff | broker/conveyor_web.py:37-206 | in every interleaving a client is in the list exactly if it registered, did not leave, and missed no finished cast |
| SseFanout.DroppedIffMissed | broker/conveyor_web.py:41-47 | the end of a cast drops exactly the clients that missed its message |
| SseFanout.CastIsBroadcast | broker/conveyor_web.py:37-47 | in every reachable hub the steps of a cast, run through, have exactly the effect that `SseHub.Hub.Broadcast` promises |

## Left out

- MqttExact.RightIffTimeoutsBetweenPackets: streams of PUBLISH packets only; when PINGRESPs are mixed in, whether a timeout inside a packet does harm depends on the bytes that follow, and the model gives the sufficient MqttStream.StreamRoundTrip and the counterexample MqttExact.TimeoutInsidePingMayBeHarmless, not an exact condition.
- StreakFilter.VerdictIsLastConfirmed: both thresholds at least one, as everywhere `Sensible` is required; the module parameters may be set to zero, where only StreakFilter.WrapHarmlessIff speaks.
- DependencyResolver.Resolve: the set of base packages is a parameter, not the listed names, and the warning for a package that is not indexed is not modelled.
- Consistency.QuiescentMatchesPin: starts with the pin as probe read it and with every level change raising the interrupt.
- Steps between the sections (reading the ADC, local arithmetic, the 10 us trigger pulse) are merged into a neighbouring section; the sections that only write `last_tilt_gpio`, `last_echo_gpio` and the debug time stamps are omitted, and so are the atomic counters.
- Probe failure paths, removal, GPIO, SPI, misc and proc registration, `stats_read`, `node_poll` and log messages: kernel plumbing.
- Timer periods and jiffies: the sample timer may fire at any time, and the debounce delay is a number of clock ticks.
- That a started measurement ever completes, or that every measurement is consumed: the driver promises neither.
- Blocking in `node_read` is a parameter of the call (whether a signal ended the wait); waiting itself is not modelled.
- Characters outside ASCII digits that Python's `int` also accepts, and its limit on very long numbers.
- Strings are their UTF-8 bytes; a lone surrogate, which `encode()` rejects, is not modelled. JSON, CONNECT, CONNACK, SUBSCRIBE and reconnecting, and the broker.
- The time between a client's snapshot and its registration, heartbeats, HTTP routing and the page.
- `parse_index`, downloading and the deployment scripts.
