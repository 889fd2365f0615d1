# DS-TWR ranging on the DW3000, modelled in Dafny

This project models the core of a UWB Double-Sided Two-Way Ranging (DS-TWR)
firmware for the Qorvo DW3000 radio, and proves properties of it.

- **Wire frames.** Three packed layouts, each behind the IEEE 802.15.4 MAC
  data-frame header of section 7.2 of IEEE 802.15.4-2015:
  - the Poll / base frame, 10 bytes;
  - the Response, 11 bytes;
  - the Final / delay-data frame, 22 bytes.

  All are little-endian (`uwb_frame.dfy`, over the encodings in `bytes.dfy`).
- **Timestamp bookkeeping.** Assembling 40-bit stamps from the hi/lo
  registers or from a 5-byte dump, the delayed-transmit time
  `(rx + 3400*63898) >> 8`, the predicted transmit stamp
  `((t & 0xFFFFFFFE) << 8) + 16385`, and the 32-bit truncation for the wire
  (`timestamp.dfy`).
- **The interrupt-driven role engines** of `DSTWR.c` (`dstwr.dfy`).
  - The Initiator sends a Poll, waits for a Response, then sends a delayed
    Final.
  - The Responder validates the Poll, sends a delayed Response, then
    validates the Final and hands a result to its hook.
  - A node is an immutable value: the counter, the installed callbacks, the
    enabled interrupts, the recorded Poll arrival and the two hook slots.
  - Every callback is a function `(node, event, radio answers) -> (node',
    commands, notice)`.
  - The radio is `radio.dfy`:
    - its reports (frame length, receive buffer, timestamp registers, the
      answers of `dwt_starttx`) are inputs;
    - what the firmware asks of it is a list of `Command`s.
- **Cross-role properties** (`exchange.dfy`): acceptance, restarts, where the
  stamps of a result come from, and a complete round in which each role
  accepts exactly what the other sent.
- **The application** of `Synchronization/src/main.c` (`session.dfy`):
  - the role wiring of `main`;
  - the hooks `printResult` and `repeatRanging`;
  - the four durations;
  - the DS-TWR estimator over exact reals.
- **The polling initiator** of `TwoWayRanging/src/main.c` (`polling.dfy`).
  It works over hand-made byte arrays, and one pass of its endless loop is a
  step function. It is related byte for byte to the interrupt-driven
  initiator.
- **The mesh synchronisation dispatcher** of `chat/src/synchronization.c`
  (`mesh_sync.dfy`): two packed messages, four senders and `messageHandler`.
  Sends go to an outbox.

Two behaviours of the code are worth knowing, and the model keeps both:

- **Elapsed times are plain `uint64_t` differences.** The code does not
  subtract modulo the 40-bit counter width. The result holds 32-bit wire
  stamps next to 40-bit local ones; each difference pairs two stamps of one
  kind (`Session.ReportedDurationsPairStamps`). A difference of two wire
  stamps is still taken in 64 bits, so when the truncated counter wrapped
  between the two stamps it comes out near 2^64 rather than modulo 2^32.
- **The polling initiator checks less than the interrupt-driven one.**
  - It compares only ten bytes, so it does not check the Response's activity
    code (`Polling.ActivityCodeNotChecked`).
  - A frame longer than its 20-byte buffer is judged by the stale buffer
    contents (`Polling.FrameReadOnlyIfItFits`).
  - So changing the activity code does not make it reject a frame.

## Model

| member | source | states |
|---|---|---|
| Bytes.FromLe16 | Synchronization/src/UWBFrame.h:6-13 | reading a little-endian `uint16_t` and re-encoding it gives back the two bytes |
| Bytes.Le16RoundTrip | Synchronization/src/UWBFrame.h:6-13 | decoding the little-endian encoding of any `uint16_t` gives it back |
| Bytes.Le16Value | TwoWayRanging/src/main.c:20-22 | the two bytes of a `uint16_t` weigh 1 and 256 (0x8841 is laid out as 0x41, 0x88) |
| Bytes.FromLe32 | Synchronization/src/UWBFrame.h:20-25 | reading a little-endian `uint32_t` and re-encoding it gives back the four bytes |
| Bytes.Le32RoundTrip | Synchronization/src/UWBFrame.h:20-25 | decoding the little-endian encoding of any `uint32_t` gives it back |
| Bytes.Le32Value | TwoWayRanging/src/main.c:141-146 | the four bytes stored through a `uint32_t*` weigh 1, 2^8, 2^16 and 2^24 |
| Bytes.Le64 | chat/src/synchronization.c:14-17 | a `uint64_t` in memory is the low word's encoding followed by the high word's |
| Bytes.FromLe64 | chat/src/synchronization.c:14-17 | reading a little-endian `uint64_t` and re-encoding it gives back the eight bytes |
| Bytes.JoinEncodes | chat/src/synchronization.c:14-17 | the word joined from two halves encodes as the two halves' encodings |
| Bytes.Le64RoundTrip | chat/src/synchronization.c:14-17 | decoding the little-endian encoding of any `uint64_t` gives it back |
| Bytes.NextByte | Synchronization/src/DSTWR.c:195 | `sequenceNumber++` on a `uint8_t` adds one modulo 256 |
| Bytes.AdvanceIsModulo | Synchronization/src/DSTWR.c:194-199 | `n` increments of a `uint8_t` counter add `n` modulo 256 |
| UWBFrame.EncodeFrame | Synchronization/src/UWBFrame.h:6-13 | the base frame packs to exactly 10 bytes, with the sequence number at byte 2 and the function code at byte 9 |
| UWBFrame.DecodeFrame | Synchronization/src/UWBFrame.h:6-13 | reading the base layout from a buffer re-encodes to the buffer's first 10 bytes (encode after decode is the identity on them) |
| UWBFrame.FrameRoundTrip | Synchronization/src/UWBFrame.h:6-13 | decoding an encoded base frame gives it back |
| UWBFrame.EncodeResponse | Synchronization/src/UWBFrame.h:15-18 | the Response packs to exactly 11 bytes |
| UWBFrame.DecodeResponse | Synchronization/src/UWBFrame.h:15-18 | the Response layout is the base layout at bytes 0-9 and the activity code at byte 10; encode after decode gives back the first 11 bytes |
| UWBFrame.ResponseRoundTrip | Synchronization/src/UWBFrame.h:15-18 | decoding an encoded Response gives it back |
| UWBFrame.EncodeDelayData | Synchronization/src/UWBFrame.h:20-25 | the Final packs to exactly 22 bytes |
| UWBFrame.DecodeDelayData | Synchronization/src/UWBFrame.h:20-25 | the Final layout is the header at 0-9, then tx1, rx and tx2 little-endian at 10-13, 14-17 and 18-21; encode after decode gives back the first 22 bytes |
| UWBFrame.DelayDataRoundTrip | Synchronization/src/UWBFrame.h:20-25 | decoding an encoded Final gives it back |
| UWBFrame.FrameReadFromBuffer | Synchronization/src/DSTWR.c:264-265 | a base frame at the front of a longer receive buffer decodes to itself, whatever follows |
| UWBFrame.ResponseReadFromBuffer | Synchronization/src/DSTWR.c:132-133 | a Response at the front of a longer receive buffer decodes to itself |
| UWBFrame.DelayDataReadFromBuffer | Synchronization/src/DSTWR.c:219-220 | a Final at the front of a longer receive buffer decodes to itself |
| UWBFrame.PollCheckIsExact | Synchronization/src/DSTWR.c:266-272 | the responder's Poll check accepts a header exactly when it is the initiator's Poll for some sequence number |
| UWBFrame.ResponseCheckIsExact | Synchronization/src/DSTWR.c:135-142 | the initiator's Response check accepts exactly the responder's Response, with any sequence number |
| UWBFrame.FinalCheckIsExact | Synchronization/src/DSTWR.c:221-227 | the responder's Final check accepts exactly the Final header; the timestamps are not checked |
| UWBFrame.StagesAreDistinct | Synchronization/src/DSTWR.c:135-142 | no header passes two of the Poll, Response and Final checks |
| Timestamp.Compose | Synchronization/src/DSTWR.c:143-151 | `(hi << 8) \| lo` is below 2^40 whatever the registers hold |
| Timestamp.ComposeReadsBack | Synchronization/src/DSTWR.c:143-151 | composing the hi (bits 39-8) and lo (bits 31-0) registers of a 40-bit stamp gives the stamp |
| Timestamp.Low32IsModulo | Synchronization/src/DSTWR.c:159-161 | the `(uint32_t)` truncation keeps a stamp modulo 2^32 |
| Timestamp.WidenedIsWire | Synchronization/src/DSTWR.c:239 | a 32-bit wire field read into a `uint64_t` result field is below 2^32 |
| Timestamp.DelayedTxTimeIsQuotient | Synchronization/src/DSTWR.c:153 | the delayed time is `(rx + 3400*63898) / 256` modulo 2^32 |
| Timestamp.DelayedTxTimeWraps | Synchronization/src/DSTWR.c:153 | for an arrival in the last turnaround before the 40-bit counter wraps, the 32-bit truncation drops exactly 2^40 from the sum: the delayed time is `(rx + 3400*63898 - 2^40) / 256` |
| Timestamp.DelayedTxTimeRoundsDown | Synchronization/src/DSTWR.c:153 | for every 40-bit arrival, 256 times the delayed time is the scheduled instant on the 40-bit counter (wrapping past 2^40) rounded down to a multiple of 256 |
| Timestamp.PredictionDropsLowBit | Synchronization/src/DSTWR.c:157 | the predicted stamp minus 16385 is `(t / 2) * 512`: the low bit of the delayed time is dropped |
| Timestamp.PredictionAligned | Synchronization/src/DSTWR.c:157 | the predicted stamp minus 16385 is a multiple of 512 below 2^40 |
| Timestamp.PredictionWithinWindow | Synchronization/src/DSTWR.c:153-157 | for every 40-bit arrival, the predicted stamp, antenna delay aside, lies in the 512-tick window ending at `rx + 3400*63898` on the 40-bit counter, across the wrap too |
| Timestamp.DumpIsStamp | TwoWayRanging/src/main.c:46-70 | the stamp assembled from a 5-byte dump is below 2^40 and is the stamp whose dump it is |
| Timestamp.ReadoutsAgree | TwoWayRanging/src/main.c:46-70 | the byte dump and the register pair of the same stamp assemble to that stamp |
| Timestamp.HornerOfDump | TwoWayRanging/src/main.c:51-55 | shifting the five bytes in from the highest computes the sum of `tab[i] * 256^i` |
| Timestamp.ReadStampBytes | TwoWayRanging/src/main.c:46-70 | `get_tx_timestamp_u64` / `get_rx_timestamp_u64` return the sum of `ts_tab[i] * 256^i`, a 40-bit stamp |
| DSTWR.SetInitiatorDone | Synchronization/src/DSTWR.c:45-48 | registering `initiatorDone` sets that slot and changes nothing else |
| DSTWR.SetResultProcessor | Synchronization/src/DSTWR.c:50-53 | registering `resultProcessor` sets that slot and changes nothing else |
| DSTWR.PollAttempts | Synchronization/src/DSTWR.c:194-199 | the do-while sends one more Poll than there were refusals, the k-th stamped with the counter advanced k times, and advances the counter by the number of attempts |
| DSTWR.Initiator | Synchronization/src/DSTWR.c:191-200 | `initiator()` enables the receive interrupts, sends the Polls of the loop and advances the counter by the number of attempts |
| DSTWR.FinalFor | Synchronization/src/DSTWR.c:125-126 | the Final is the Poll header with function code 0x23 and the given sequence number, so it passes the responder's Final check |
| DSTWR.InitiatorRX | Synchronization/src/DSTWR.c:120-177 | a rejected frame falls back to `initiator()`; an accepted one schedules the delayed time and the Final (counter, then low 32 bits of tx1, rx and predicted tx2) and increments the counter; a refused start falls back to `initiator()` after the Final |
| DSTWR.InitiatorTX | Synchronization/src/DSTWR.c:114-118 | `initiatorTX` calls `initiatorDone` exactly when it is set, and does nothing else |
| DSTWR.InitiatorRXFault | Synchronization/src/DSTWR.c:179-181 | `initiatorRXFault` is `initiator()` |
| DSTWR.InitiatorStart | Synchronization/src/DSTWR.c:183-189 | `initiatorStart` installs the initiator callbacks and runs `initiator()` |
| DSTWR.Responder | Synchronization/src/DSTWR.c:205-208 | `responder()` installs `responderRX` and turns the receiver on |
| DSTWR.ResponderRX | Synchronization/src/DSTWR.c:249-296 | the counter is never changed; a rejected frame falls back to `responder()`; an accepted Poll records its arrival, schedules the Response with the current counter and installs `responderSecondRX`; a failed start falls back to `responder()` |
| DSTWR.ResponderSecondRX | Synchronization/src/DSTWR.c:212-247 | the counter rises by one whatever arrives; a rejected frame falls back to `responder()`; a valid Final issues no command and reports `(tx1, firstRx, tx, rx, tx2, localRx)` exactly when `resultProcessor` is set |
| DSTWR.ResponderRXFault | Synchronization/src/DSTWR.c:298-300 | `responderRXFault` is `responder()` |
| DSTWR.ResponderStart | Synchronization/src/DSTWR.c:302-306 | `responderStart` enables the receive interrupts and runs `responder()` |
| DSTWR.Dispatch | Synchronization/src/DSTWR.c:183-207 | the callbacks registered by `dwt_setcallbacks` never touch the hook slots; the responder registers no transmit callback (here and at line 287), so its transmissions end unnoticed; `initiatorDone` is reached only from `initiatorTX` and `resultProcessor` only from `responderSecondRX`, each only when set |
| Exchange.PollsAreImmediate | Synchronization/src/DSTWR.c:194-199 | no attempt of the Poll loop is a delayed transmission |
| Exchange.InitiatorSendsFinalOnlyOnResponse | Synchronization/src/DSTWR.c:132-176 | a listening initiator schedules a delayed transmission exactly when the frame passes the Response check; every other frame only re-sends Polls |
| Exchange.ResponderAnswersOnlyPolls | Synchronization/src/DSTWR.c:264-295 | a listening responder schedules a delayed transmission exactly when the frame passes the Poll check, keeping its counter |
| Exchange.FaultsRestart | Synchronization/src/DSTWR.c:179-181 | a receive timeout or error restarts the initiator with `initiator()` and the responder with `responder()` |
| Exchange.EarlyFinalIgnored | Synchronization/src/DSTWR.c:264-272 | a Final arriving while the responder waits for a Poll produces no result and the responder keeps listening |
| Exchange.ResultProvenance | Synchronization/src/DSTWR.c:239 | in a result, tx1, rx2 and tx3 come off the wire and fit in 32 bits; rx1, tx2 and rx3 are local 40-bit stamps |
| Exchange.FirstRxStaysStamp | Synchronization/src/DSTWR.c:273-276 | every handler keeps the recorded Poll arrival below 2^40 |
| Exchange.PollAnswered | Synchronization/src/DSTWR.c:264-291 | the initiator's Poll, received by a listening responder, is answered with the Response at the delayed time |
| Exchange.ResponseAnswered | Synchronization/src/DSTWR.c:132-171 | the responder's Response, received by a listening initiator, is answered with the Final at the delayed time |
| Exchange.FinalCompletesRound | Synchronization/src/DSTWR.c:219-242 | the initiator's Final, received by the waiting responder, yields the result with the six stamps in DSTWR.h order |
| Exchange.RoundDeliversResult | Synchronization/src/DSTWR.c:120-296 | a complete Poll, Response, Final round between the two roles delivers the result built from the stamps the radio reported |
| Session.TimeOfFlight | Synchronization/src/main.c:18-19 | the estimator has no value exactly when all four durations are zero |
| Session.EstimatorRecoversFlightTime | Synchronization/src/main.c:18-19 | over exact reals, when each loop is two flights plus the other side's processing, the estimator returns the flight time |
| Session.TimeOfFlightOfConsistentRound | Synchronization/src/main.c:18-19 | on the durations of a round whose loops are each two flights plus the other side's processing, `printResult`'s estimator returns the flight time |
| Session.Main | Synchronization/src/main.c:33-49 | `main` registers exactly the build's hook and starts the build's role only when the radio initialised |
| Session.PrintResult | Synchronization/src/main.c:12-26 | `printResult` reports the result's durations and ends in `responder()` |
| Session.RepeatRanging | Synchronization/src/main.c:28-31 | `repeatRanging` ends in `initiator()`, sending a new round of Polls |
| Session.SystemStep | Synchronization/src/main.c:33-49 | an event never changes which hooks are registered; durations are printed only after the responder's second stage took a frame, and the responder then listens for the next Poll |
| Session.SystemStepKeepsRunning | Synchronization/src/main.c:33-49 | every event keeps a node started by `main` in its build's role, with its build's hook |
| Session.RunKeepsRunning | Synchronization/src/main.c:33-49 | a node started by `main` stays in its role over any sequence of events |
| Session.ResponderKeepsListening | Synchronization/src/main.c:12-26 | every receive event on the responder ends with the receiver on or a Response scheduled; durations are reported exactly when a round completed |
| Session.LastPollListens | Synchronization/src/DSTWR.c:194-199 | the Poll that ends the loop turns the receiver on after transmission |
| Session.InitiatorKeepsRanging | Synchronization/src/main.c:28-31 | after every event it is told of, the initiator has a transmission outstanding, and waits for the transmit interrupt exactly when that is the Final |
| Session.ReportedDurationsPairStamps | Synchronization/src/main.c:13-16 | each reported duration subtracts two stamps of one provenance: the loop and processing of the initiator come from the Final's fields, those of the responder from its own captures |
| Polling.Store32 | TwoWayRanging/src/main.c:141-146 | a store through a `uint32_t*` writes the little-endian word at the offset and leaves every other byte |
| Polling.ReadFrame | TwoWayRanging/src/main.c:125-127 | the frame is copied into the buffer only when it fits; bytes past the frame keep their old contents |
| Polling.LoopPass | TwoWayRanging/src/main.c:111-116 | each pass first sends the Poll array stamped with the counter, immediately, with the receiver on afterwards |
| Polling.StartHasTemplates | TwoWayRanging/src/main.c:20-22 | the arrays as initialised have their constant bytes |
| Polling.PassKeepsTemplates | TwoWayRanging/src/main.c:111-166 | a pass writes only byte 2 of the Poll array, and only byte 2 and bytes 10-21 of the Final array |
| Polling.PassesKeepTemplates | TwoWayRanging/src/main.c:111-166 | after any number of passes every constant byte of the two arrays is intact |
| Polling.PollBytesAreThePoll | TwoWayRanging/src/main.c:20 | `tx_poll_msg` with the counter in byte 2 is the packed Poll header |
| Polling.ResponseBytesAreTheResponse | TwoWayRanging/src/main.c:21 | the first ten bytes of `rx_resp_msg` are the packed Response header with sequence 0, and byte 10 its activity code |
| Polling.FinalHeaderBytes | TwoWayRanging/src/main.c:22 | the first ten bytes of `tx_final_msg` with the counter in byte 2 are the packed Final header |
| Polling.FilledFinalIsTheFinal | TwoWayRanging/src/main.c:136-148 | whatever earlier passes left in the Final array, filling it gives exactly the Final that `DSTWR.c` builds for the same counter and stamps |
| Polling.PassSendsThePoll | TwoWayRanging/src/main.c:112-116 | the Poll each pass sends is byte for byte the interrupt-driven initiator's Poll |
| Polling.PassCounts | TwoWayRanging/src/main.c:120-159 | the counter rises by one per pass, and by one more only when the delayed Final start succeeded |
| Polling.FailedReceiveWritesNothing | TwoWayRanging/src/main.c:161-163 | on a receive timeout or error nothing is written and only the Poll went out |
| Polling.FrameReadOnlyIfItFits | TwoWayRanging/src/main.c:125-129 | a frame of at most 20 bytes lands in the buffer (byte 2 zeroed); a longer one leaves the previous contents, byte 2 zeroed |
| Polling.AcceptedPassSendsTheFinal | TwoWayRanging/src/main.c:130-152 | after an accepted Response the pass schedules the delayed time from the Response's arrival and sends the same Final as `DSTWR.c` |
| Polling.AcceptanceIsResponseHeader | TwoWayRanging/src/main.c:129-130 | the 10-byte comparison accepts a buffer exactly when its first ten bytes are a Response header with any sequence number |
| Polling.AcceptanceIgnoresActivity | TwoWayRanging/src/main.c:129-130 | the interrupt-driven check is the polling one plus the activity code at byte 10 |
| Polling.InterruptAcceptanceCarriesOver | TwoWayRanging/src/main.c:125-130 | every Response that `initiatorRX` accepts is accepted here too when it fits the 20-byte buffer |
| Polling.ResponderResponseAccepted | TwoWayRanging/src/main.c:125-130 | the responder's Response, read in full, is accepted by the polling initiator |
| Polling.ActivityCodeNotChecked | TwoWayRanging/src/main.c:129-130 | a Response with a wrong activity code is rejected by `initiatorRX` but accepted here |
| MeshSync.TypeOf | chat/src/synchronization.c:5 | a type byte selects a case of the switch exactly when it is below 4, and that case's code is the byte |
| MeshSync.TypeCodeRoundTrip | chat/src/synchronization.c:5 | every message type's code selects that type |
| MeshSync.EncodeAddress | chat/src/synchronization.c:9-12 | the address message packs to 3 bytes with the type first |
| MeshSync.DecodeAddress | chat/src/synchronization.c:9-12 | reading the address layout re-encodes to the message's first 3 bytes |
| MeshSync.AddressRoundTrip | chat/src/synchronization.c:9-12 | decoding a packed address message gives it back, whatever follows it |
| MeshSync.EncodeResult | chat/src/synchronization.c:14-17 | the result message packs to 9 bytes with the type first |
| MeshSync.DecodeResult | chat/src/synchronization.c:14-17 | reading the result layout re-encodes to the message's first 9 bytes |
| MeshSync.ResultRoundTrip | chat/src/synchronization.c:14-17 | decoding a packed result message gives it back, whatever follows it |
| MeshSync.BroadcastMaster | chat/src/synchronization.c:19-22 | `broadcastMaster` broadcasts the single byte `SetMaster` |
| MeshSync.GetClockDelta | chat/src/synchronization.c:24-27 | `getClockDelta(a, b)` unicasts to `a` the packed address message `SetupSynchronization, b` |
| MeshSync.SetupSynchronizationSend | chat/src/synchronization.c:29-34 | `setupSynchronization` unicasts the single byte `StartSynchronization` to the initiator |
| MeshSync.StartSynchronizationSend | chat/src/synchronization.c:36-41 | `startSynchronization` unicasts the packed result message with delta 420 to the master, whoever asked |
| MeshSync.MessageHandler | chat/src/synchronization.c:43-59 | `SetMaster` makes the sender the master and sends nothing; `SetupSynchronization` tells the address it carries to start; `StartSynchronization` sends the master the result message with delta 420; every other type changes nothing |
| MeshSync.HandlerEffects | chat/src/synchronization.c:43-59 | the handler changes the master only on `SetMaster` (to the sender), and sends one message exactly on types 1 and 2 |
| MeshSync.SetupForwardsToSecond | chat/src/synchronization.c:49-51 | handling `getClockDelta`'s request tells the address it carries to start |
| MeshSync.SynchronizationReachesMaster | chat/src/synchronization.c:19-54 | announce, request, set-up and start in sequence: the second node sends the master the result message carrying the delta |

## Left out

- Radio bring-up (`initializeUWB`, the configuration tables and its
  logging calls): only its boolean outcome enters `Session.Main`.
- The `dwt_*` driver is not part of this model.
  - Frame length, receive-buffer bytes, timestamp registers or dumps, and
    the answers of `dwt_starttx` are inputs.
  - Writes, scheduling and receiver enabling are output commands.
  - `dwt_writetxdata`, `dwt_writetxfctrl` and `dwt_starttx` form one
    `Transmit` command.
  - Clearing status bits (`dwt_writesysstatuslo`) is not modelled.
- DSTWR.Dispatch: the driver's interrupt delivery is not part of this model.
  The model assumes an event reaches a callback only while its interrupt is
  enabled and its slot is non-NULL. Events arrive one at a time; concurrency
  is not modelled.
- DSTWR.PollAttempts: the model covers runs in which `dwt_starttx`
  eventually accepts a Poll; the number of refusals is a `nat` input. If the
  radio refuses forever, the code's `while` loop never ends, sending Polls
  without end and never returning to run another callback; that run is not
  modelled.
- The receiver settings `RX_DELAY`, `RX_TIME_OUT` and `PREAMBLE_TIME_OUT`
  are not modelled. They are configuration passed to the driver.
- The busy-waits of the polling loop are not modelled. Each collapses into
  one `Status` input. The answer of the Poll's own `dwt_starttx` is ignored,
  as the code ignores it.
- `k_msleep`, `printf`, `printk`, `LOG_*` and the `dk_set_led` call that
  `messageHandler` makes on `SetMaster`: timing and diagnostics only.
  This includes the `printk` of a received clock delta, which is why
  `MeshSync.MessageHandler` does not require a 9-byte result message.
- MeshSync.MessageHandler: requires a message of at least one byte, and of at
  least three bytes when its type is `SetupSynchronization`. On a shorter
  message the code reads past the end, and what that reads is not modelled.
- Session.TimeOfFlight: the estimator is stated over exact reals. It leaves
  out the double rounding, the `DWT_TIME_UNITS` scaling and the distance
  `timeOfFlight * SPEED_OF_LIGHT`.
- Session.DurationsOf: the differences are plain wrapping `uint64_t`
  subtractions. The model proves no wrap-around-safe elapsed time, because
  the code promises none.
- Timestamp.ComposeReadsBack: proved for register pairs read from one 40-bit
  stamp. Pairs that disagree on bits 8-31 are only bounded
  (`Timestamp.Compose`), not characterised.
- `initiatorStart` and `responderStart` each clear two status bits before
  starting. Only the interrupt and callback changes are modelled.
- The RSSI example program is not part of this model. It is Bluetooth
  scanning with a floating-point distance heuristic.
- The mesh's `sendUnicast` and `sendBroadcast` are not part of this model.
  They are appends to the outbox.
