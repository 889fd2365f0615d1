/**
  The DW3000 as the ranging firmware sees it. The driver itself is not part of
  this model: what it reports (frame length, received bytes, timestamp
  registers, the answer of `dwt_starttx`) arrives as inputs, and what the
  firmware asks of it (schedule, transmit, receive) leaves as commands.
 */
module Radio {
  import opened Bytes
  import opened Timestamp

  /** The answer of `dwt_starttx`: `DWT_SUCCESS` or `DWT_ERROR`. */
  datatype StartResult = StartSuccess | StartError

  /** The flags of a `dwt_starttx` call: immediate or at the programmed delayed
      time, and whether the receiver is to be turned on after the frame
      (`DWT_RESPONSE_EXPECTED`). */
  datatype TxMode = Immediate(responseExpected: bool) | Delayed(responseExpected: bool)

  /** What the firmware asks of the radio. A `Transmit` stands for the sequence
      `dwt_writetxdata`, `dwt_writetxfctrl`, `dwt_starttx` with these bytes. */
  datatype Command =
    | SetDelayedTime(time: bv32)
    | Transmit(frame: seq<Byte>, mode: TxMode)
    | EnableReceive

  /** The pair `dwt_read{tx,rx}timestamphi32` / `dwt_read{tx,rx}timestamplo32`. */
  datatype StampRegisters = StampRegisters(hi: bv32, lo: bv32)

  /** The 40-bit stamp the firmware assembles from a register pair. */
  function Stamp(r: StampRegisters): bv64
  {
    Compose(r.hi, r.lo)
  }

  /** The radio's receive buffer; it is larger than any frame the firmware
      reads out of it, so every `dwt_readrxdata` of a known layout is in range. */
  type RxBuffer = s: seq<Byte> | |s| >= 22 witness seq(22, _ => 0)

  /** One interrupt as the driver reports it to the installed callbacks. */
  datatype Event =
    | FrameReceived(frameLength: bv16, data: RxBuffer, txStamp: StampRegisters, rxStamp: StampRegisters)
    | ReceiveTimeout
    | ReceiveError
    | TransmitDone

  /** How the radio answers the `dwt_starttx` calls made while one event is
      handled: the immediate Poll is refused `pollRejections` times before it
      is accepted, and a delayed start answers `delayedStart`. */
  datatype StartAnswers = StartAnswers(pollRejections: nat, delayedStart: StartResult)
}
