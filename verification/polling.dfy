/**
  The polling initiator of the stand-alone ranging program: the same Poll,
  Response, Final exchange as the interrupt-driven initiator, written over
  hand-made byte arrays and a busy-waiting loop. One pass of the loop is a
  step from the program's state and the radio status it waits for to the new
  state and the commands it issued.
 */
module Polling {
  import opened Bytes
  import opened Timestamp
  import opened UWBFrame
  import opened Radio
  import DSTWR

  const BUFFER_SIZE: nat := 20

  /** `tx_poll_msg`: frame control 0x8841, sequence 0, PAN 0xDECA, then the
      characters 'W' 'A' 'V' 'E' (0x57 0x41 0x56 0x45) and function code 0x21. */
  const TX_POLL_MSG: seq<Byte> := [0x41, 0x88, 0, 0xCA, 0xDE, 0x57, 0x41, 0x56, 0x45, 0x21]

  /** `rx_resp_msg`: the expected Response, addresses 'V' 'E' and 'W' 'A',
      function code 0x10 and activity code 0x02, padded to 13 bytes. */
  const RX_RESP_MSG: seq<Byte> := [0x41, 0x88, 0, 0xCA, 0xDE, 0x56, 0x45, 0x57, 0x41, 0x10, 0x02, 0, 0]

  /** `tx_final_msg`: the Poll header with function code 0x23 and twelve
      zero bytes for the three timestamps. */
  const TX_FINAL_MSG: seq<Byte> :=
    [0x41, 0x88, 0, 0xCA, 0xDE, 0x57, 0x41, 0x56, 0x45, 0x23, 0, 0, 0, 0, 0, 0, 0, 0, 0, 0, 0, 0]

  type Buffer = s: seq<Byte> | |s| == BUFFER_SIZE witness seq(20, _ => 0)
  type PollMessage = s: seq<Byte> | |s| == 10 witness seq(10, _ => 0)
  type FinalMessage = s: seq<Byte> | |s| == 22 witness seq(22, _ => 0)

  /** The program's state across passes: the counter, the receive buffer and
      the two outgoing arrays, which keep whatever was last written into them. */
  datatype Poller = Poller(sequenceNumber: Byte, buffer: Buffer, pollMessage: PollMessage, finalMessage: FinalMessage)

  /** The state on entering the loop: a zero counter, the zeroed static
      buffer and the arrays as initialised. */
  const START: Poller := Poller(0, seq(20, _ => 0), TX_POLL_MSG, TX_FINAL_MSG)

  /** What the busy-wait on the status register ends with: a good frame
      (with its length, the radio's receive buffer, the two timestamp dumps
      and the answer to the delayed start that follows if the frame is
      accepted), or a receive timeout or error. */
  datatype Status =
    | FrameGood(frameSize: bv16, data: RxBuffer, txDump: StampBytes, rxDump: StampBytes, finalStart: StartResult)
    | TimeoutOrError

  datatype Pass = Pass(poller: Poller, commands: seq<Command>)

  /** `*(uint32_t *)&m[offset] = x` on a little-endian target. */
  function Store32(m: seq<Byte>, offset: nat, x: bv32): (r: seq<Byte>)
    requires offset + 4 <= |m|
    ensures |r| == |m|
    ensures r[offset..offset + 4] == Le32(x)
    ensures forall i :: 0 <= i < |m| && !(offset <= i < offset + 4) ==> r[i] == m[i]
  {
    m[..offset] + Le32(x) + m[offset + 4..]
  }

  /** `dwt_readrxdata(buffer, frameSize, 0)`, done only when the frame fits. */
  function ReadFrame(buffer: Buffer, frameSize: bv16, data: RxBuffer): (r: Buffer)
    ensures frameSize as int <= BUFFER_SIZE ==> r[..frameSize] == data[..frameSize]
    ensures forall i :: 0 <= i < BUFFER_SIZE && frameSize as int <= i ==> r[i] == buffer[i]
    ensures frameSize as int > BUFFER_SIZE ==> r == buffer
  {
    if frameSize as int <= BUFFER_SIZE then data[..frameSize] + buffer[frameSize..] else buffer
  }

  /** `memcmp(buffer, rx_resp_msg, 10) == 0` after the sequence byte was zeroed. */
  predicate AcceptsResponse(buffer: Buffer)
  {
    buffer[..10] == RX_RESP_MSG[..10]
  }

  /** The Final as the program lays it out: the three 32-bit truncations
      stored at offsets 10, 14 and 18, then the counter at byte 2. */
  function FillFinal(m: FinalMessage, sequenceNumber: Byte, tx1: bv64, rx: bv64, tx2: bv64): FinalMessage
  {
    Store32(Store32(Store32(m, 10, Low32(tx1)), 14, Low32(rx)), 18, Low32(tx2))[2 := sequenceNumber]
  }

  /** One pass of the loop: send the Poll stamped with the counter, count it,
      wait; on a good frame read it (if it fits), zero its sequence byte and
      compare it with the expected Response; on a match schedule the Final
      and count it once more if the delayed start succeeded. */
  function LoopPass(p: Poller, status: Status): (r: Pass)
    ensures r.commands != [] && r.commands[0] == Transmit(p.pollMessage[2 := p.sequenceNumber], Immediate(true))
    ensures r.poller.pollMessage == p.pollMessage[2 := p.sequenceNumber]
  {
    var poll := p.pollMessage[2 := p.sequenceNumber];
    var sent := [Transmit(poll, Immediate(true))];
    var counted := p.sequenceNumber + 1;
    match status
    case TimeoutOrError =>
      Pass(p.(sequenceNumber := counted, pollMessage := poll), sent)
    case FrameGood(frameSize, data, txDump, rxDump, finalStart) =>
      var buffer := ReadFrame(p.buffer, frameSize, data)[2 := 0];
      if !AcceptsResponse(buffer) then
        Pass(p.(sequenceNumber := counted, buffer := buffer, pollMessage := poll), sent)
      else
        var tx1 := StampOfBytes(txDump);
        var rx := StampOfBytes(rxDump);
        var finalTxTime := DelayedTxTime(rx);
        var final := FillFinal(p.finalMessage, counted, tx1, rx, PredictedTxStamp(finalTxTime));
        var next := if finalStart == StartSuccess then counted + 1 else counted;
        Pass(Poller(next, buffer, poll, final), sent + [SetDelayedTime(finalTxTime), Transmit(final, Delayed(false))])
  }

  // ----- The arrays against the packed layouts ----------------------------------

  /** The constant bytes of the two outgoing arrays are intact: only the
      sequence byte of the Poll, and the sequence byte and the timestamp words
      of the Final, are ever written. */
  predicate Templates(p: Poller)
  {
    && p.pollMessage == TX_POLL_MSG[2 := p.pollMessage[2]]
    && p.finalMessage[..10] == TX_FINAL_MSG[..10][2 := p.finalMessage[2]]
  }

  lemma StartHasTemplates()
    ensures Templates(START)
  {
  }

  lemma PassKeepsTemplates(p: Poller, status: Status)
    requires Templates(p)
    ensures Templates(LoopPass(p, status).poller)
  {
    var m := LoopPass(p, status).poller.finalMessage;
    PassKeepsFinalTemplate(p, status);
    assert m[..10] == TX_FINAL_MSG[..10][2 := m[2]];
  }

  lemma PassKeepsFinalTemplate(p: Poller, status: Status)
    requires p.finalMessage[..10] == TX_FINAL_MSG[..10][2 := p.finalMessage[2]]
    ensures var m := LoopPass(p, status).poller.finalMessage;
            m[..10] == TX_FINAL_MSG[..10][2 := m[2]]
  {
    if status.FrameGood? && AcceptsResponse(ReadFrame(p.buffer, status.frameSize, status.data)[2 := 0]) {
      var tx1, rx := StampOfBytes(status.txDump), StampOfBytes(status.rxDump);
      var tx2 := PredictedTxStamp(DelayedTxTime(rx));
      AcceptedPassFillsFinal(p, status);
      FillKeepsHeader(p.finalMessage, p.sequenceNumber + 1, tx1, rx, tx2);
      HeaderTemplateKept(p.finalMessage, FillFinal(p.finalMessage, p.sequenceNumber + 1, tx1, rx, tx2), p.sequenceNumber + 1);
    } else {
      RejectingPassKeepsFinal(p, status);
    }
  }

  lemma AcceptedPassFillsFinal(p: Poller, status: Status)
    requires status.FrameGood? && AcceptsResponse(ReadFrame(p.buffer, status.frameSize, status.data)[2 := 0])
    ensures var rx := StampOfBytes(status.rxDump);
            LoopPass(p, status).poller.finalMessage
            == FillFinal(p.finalMessage, p.sequenceNumber + 1, StampOfBytes(status.txDump), rx, PredictedTxStamp(DelayedTxTime(rx)))
  {
  }

  lemma RejectingPassKeepsFinal(p: Poller, status: Status)
    requires !(status.FrameGood? && AcceptsResponse(ReadFrame(p.buffer, status.frameSize, status.data)[2 := 0]))
    ensures LoopPass(p, status).poller.finalMessage == p.finalMessage
    ensures LoopPass(p, status).poller.sequenceNumber == p.sequenceNumber + 1
    ensures |LoopPass(p, status).commands| == 1
  {
  }

  lemma HeaderTemplateKept(m: FinalMessage, filled: FinalMessage, sequenceNumber: Byte)
    requires m[..10] == TX_FINAL_MSG[..10][2 := m[2]]
    requires filled[..10] == m[..10][2 := sequenceNumber]
    ensures filled[..10] == TX_FINAL_MSG[..10][2 := filled[2]]
  {
  }

  /** Filling the Final rewrites its sequence byte and nothing else of the header. */
  lemma FillKeepsHeader(m: FinalMessage, sequenceNumber: Byte, tx1: bv64, rx: bv64, tx2: bv64)
    ensures FillFinal(m, sequenceNumber, tx1, rx, tx2)[..10] == m[..10][2 := sequenceNumber]
  {
    var a := Store32(m, 10, Low32(tx1));
    var b := Store32(a, 14, Low32(rx));
    var c := Store32(b, 18, Low32(tx2));
    assert c[..10] == m[..10];
  }

  /** `tx_poll_msg` with the counter in byte 2 is the packed Poll header. */
  lemma PollBytesAreThePoll(sequenceNumber: Byte)
    ensures TX_POLL_MSG[2 := sequenceNumber] == EncodeFrame(PollFrame(sequenceNumber))
  {
  }

  /** The first ten bytes of `rx_resp_msg` are the packed Response header with
      sequence number 0, and byte 10 its activity code. */
  lemma ResponseBytesAreTheResponse()
    ensures RX_RESP_MSG[..10] == EncodeFrame(ResponseFor(0).base)
    ensures RX_RESP_MSG[10] == ResponseFor(0).activityCode
  {
  }

  /** The first ten bytes of `tx_final_msg` with the counter in byte 2 are the
      packed Final header. */
  lemma FinalHeaderBytes(sequenceNumber: Byte)
    ensures TX_FINAL_MSG[..10][2 := sequenceNumber] == EncodeFrame(FinalHeader(sequenceNumber))
  {
  }

  /** Whatever was left in the Final array by earlier passes, filling it gives
      exactly the packed Final the interrupt-driven initiator sends for the
      same counter and stamps. */
  lemma FilledFinalIsTheFinal(m: FinalMessage, sequenceNumber: Byte, tx1: bv64, rx: bv64)
    requires m[..10] == TX_FINAL_MSG[..10][2 := m[2]]
    ensures FillFinal(m, sequenceNumber, tx1, rx, PredictedTxStamp(DelayedTxTime(rx)))
            == EncodeDelayData(DSTWR.FinalFor(sequenceNumber, tx1, rx))
  {
    var tx2 := PredictedTxStamp(DelayedTxTime(rx));
    var f := FillFinal(m, sequenceNumber, tx1, rx, tx2);
    var a := Store32(m, 10, Low32(tx1));
    var b := Store32(a, 14, Low32(rx));
    var c := Store32(b, 18, Low32(tx2));
    FillKeepsHeader(m, sequenceNumber, tx1, rx, tx2);
    FinalHeaderBytes(sequenceNumber);
    assert f[..10] == EncodeFrame(FinalHeader(sequenceNumber));
    assert f[10..14] == Le32(Low32(tx1)) by {
      assert b[10..14] == a[10..14];
      assert c[10..14] == b[10..14];
    }
    assert f[14..18] == Le32(Low32(rx)) by {
      assert c[14..18] == b[14..18];
    }
    assert f[18..22] == Le32(Low32(tx2));
    assert f == f[..10] + f[10..14] + f[14..18] + f[18..22];
  }

  /** The state after a sequence of passes of the endless loop. */
  function Passes(p: Poller, statuses: seq<Status>): Poller
    decreases |statuses|
  {
    if statuses == [] then p else Passes(LoopPass(p, statuses[0]).poller, statuses[1..])
  }

  /** However many passes ran, the outgoing arrays keep their constant bytes,
      so every pass sends well-formed frames. */
  lemma PassesKeepTemplates(statuses: seq<Status>)
    ensures Templates(Passes(START, statuses))
  {
    StartHasTemplates();
    TemplatesPersist(START, statuses);
  }

  lemma {:induction false} TemplatesPersist(p: Poller, statuses: seq<Status>)
    requires Templates(p)
    ensures Templates(Passes(p, statuses))
    decreases |statuses|
  {
    if statuses != [] {
      PassKeepsTemplates(p, statuses[0]);
      TemplatesPersist(LoopPass(p, statuses[0]).poller, statuses[1..]);
    }
  }

  // ----- What a pass sends ------------------------------------------------------

  /** A Response is taken from the buffer as it is after the read. */
  predicate Accepted(p: Poller, status: Status)
  {
    status.FrameGood? && AcceptsResponse(ReadFrame(p.buffer, status.frameSize, status.data)[2 := 0])
  }

  /** The Poll each pass sends is the packed Poll stamped with the counter,
      the same bytes and flags as the interrupt-driven initiator's. */
  lemma PassSendsThePoll(p: Poller, status: Status)
    requires Templates(p)
    ensures LoopPass(p, status).commands[0] == DSTWR.PollTransmit(p.sequenceNumber)
  {
    PollBytesAreThePoll(p.sequenceNumber);
    assert p.pollMessage[2 := p.sequenceNumber] == TX_POLL_MSG[2 := p.sequenceNumber];
  }

  /** Each pass counts its Poll, and counts the Final only when one was sent;
      only an accepted Response leads to more than the Poll. */
  lemma PassCounts(p: Poller, status: Status)
    ensures LoopPass(p, status).poller.sequenceNumber
            == if Accepted(p, status) && status.finalStart == StartSuccess
               then p.sequenceNumber + 2 else p.sequenceNumber + 1
    ensures |LoopPass(p, status).commands| == if Accepted(p, status) then 3 else 1
  {
    if Accepted(p, status) {
      AcceptedPassCounts(p, status);
    } else {
      RejectingPassKeepsFinal(p, status);
    }
  }

  lemma AcceptedPassCounts(p: Poller, status: Status)
    requires Accepted(p, status)
    ensures var r := LoopPass(p, status);
            && r.poller.sequenceNumber == (if status.finalStart == StartSuccess then p.sequenceNumber + 2 else p.sequenceNumber + 1)
            && |r.commands| == 3
  {
  }

  /** A receive timeout or error writes nothing: buffer and Final stay as
      they were, and only the Poll went out. */
  lemma FailedReceiveWritesNothing(p: Poller)
    ensures var r := LoopPass(p, TimeoutOrError);
            r.poller.buffer == p.buffer && r.poller.finalMessage == p.finalMessage && |r.commands| == 1
  {
  }

  /** A good frame lands in the buffer only when it fits; a longer one leaves
      the previous contents to be compared. Either way byte 2 is zeroed. */
  lemma FrameReadOnlyIfItFits(p: Poller, status: Status)
    requires status.FrameGood?
    ensures LoopPass(p, status).poller.buffer[2] == 0
    ensures status.frameSize as int <= BUFFER_SIZE ==>
              forall i :: 0 <= i < status.frameSize as int && i != 2 ==> LoopPass(p, status).poller.buffer[i] == status.data[i]
    ensures status.frameSize as int > BUFFER_SIZE ==> LoopPass(p, status).poller.buffer == p.buffer[2 := 0]
  {
    var read := ReadFrame(p.buffer, status.frameSize, status.data);
    assert LoopPass(p, status).poller.buffer == read[2 := 0];
  }

  /** After an accepted Response the pass schedules the Final at the delayed
      time computed from the Response's arrival and sends exactly the bytes the
      interrupt-driven initiator sends for the same counter and stamps. */
  lemma AcceptedPassSendsTheFinal(p: Poller, status: Status)
    requires Templates(p) && Accepted(p, status)
    ensures var tx1, rx := StampOfBytes(status.txDump), StampOfBytes(status.rxDump);
            LoopPass(p, status).commands
            == [DSTWR.PollTransmit(p.sequenceNumber),
                SetDelayedTime(DelayedTxTime(rx)),
                DSTWR.FinalTransmit(p.sequenceNumber + 1, tx1, rx)]
  {
    var tx1, rx := StampOfBytes(status.txDump), StampOfBytes(status.rxDump);
    PassSendsThePoll(p, status);
    AcceptedPassFillsFinal(p, status);
    FilledFinalIsTheFinal(p.finalMessage, p.sequenceNumber + 1, tx1, rx);
  }

  // ----- What a pass accepts ----------------------------------------------------

  /** Zeroing byte 2 of an encoded header encodes the header with sequence number 0. */
  lemma ZeroedSequence(f: Frame)
    ensures EncodeFrame(f)[2 := 0] == EncodeFrame(f.(sequenceNumber := 0))
  {
  }

  /** The comparison accepts exactly the buffers whose first ten bytes are a
      Response header, with any sequence number. */
  lemma AcceptanceIsResponseHeader(b: Buffer)
    ensures AcceptsResponse(b[2 := 0]) <==> DecodeFrame(b) == ResponseFor(b[2]).base
  {
    var expected := ResponseFor(b[2]).base;
    ResponseBytesAreTheResponse();
    ZeroedSequence(expected);
    assert expected.(sequenceNumber := 0) == ResponseFor(0).base;
    assert b[2 := 0][..10] == b[..10][2 := 0];
    if AcceptsResponse(b[2 := 0]) {
      assert b[..10] == EncodeFrame(expected) by {
        assert b[..10] == b[..10][2 := 0][2 := b[2]];
        assert EncodeFrame(expected) == EncodeFrame(expected)[2 := 0][2 := b[2]];
      }
      FrameReadFromBuffer(expected, b[10..]);
      assert b == b[..10] + b[10..];
    }
  }

  /** The interrupt-driven initiator's check is stricter: it also wants the
      activity code, which the comparison of ten bytes does not reach. */
  lemma AcceptanceIgnoresActivity(b: Buffer)
    ensures IsResponseForInitiator(DecodeResponse(b)) <==> AcceptsResponse(b[2 := 0]) && b[10] == RESPONSE_ACTIVITY
  {
    AcceptanceIsResponseHeader(b);
    ResponseCheckIsExact(DecodeResponse(b));
  }

  /** Every Response the interrupt-driven initiator accepts is accepted here
      too when it fits the buffer. The converse fails: a wrong activity code
      passes here, and a frame longer than the buffer is judged by stale bytes. */
  lemma InterruptAcceptanceCarriesOver(p: Poller, status: Status)
    requires status.FrameGood? && status.frameSize as int <= BUFFER_SIZE
    requires DSTWR.InitiatorAccepts(status.frameSize, status.data)
    ensures Accepted(p, status)
  {
    var data := status.data;
    var expected := ResponseFor(data[2]).base;
    ResponseCheckIsExact(DecodeResponse(data));
    assert DecodeFrame(data) == expected;
    assert data[..10] == EncodeFrame(expected);
    var read := ReadFrame(p.buffer, status.frameSize, data);
    assert read[..10] == data[..10] by {
      assert read[..status.frameSize] == data[..status.frameSize];
    }
    ResponseBytesAreTheResponse();
    ZeroedSequence(expected);
    assert read[2 := 0][..10] == EncodeFrame(expected)[2 := 0];
  }

  /** The responder's Response, read in full, is accepted by the polling
      initiator: the two programs interoperate. */
  lemma ResponderResponseAccepted(p: Poller, responseSequence: Byte, stale: RxBuffer,
                                  txDump: StampBytes, rxDump: StampBytes, finalStart: StartResult)
    ensures Accepted(p, FrameGood(11, EncodeResponse(ResponseFor(responseSequence)) + stale, txDump, rxDump, finalStart))
  {
    ResponseReadFromBuffer(ResponseFor(responseSequence), stale);
    InterruptAcceptanceCarriesOver(p, FrameGood(11, EncodeResponse(ResponseFor(responseSequence)) + stale, txDump, rxDump, finalStart));
  }

  /** A frame with the Response header and a wrong activity code, which the
      interrupt-driven initiator rejects, is accepted here. */
  lemma ActivityCodeNotChecked(p: Poller, stale: RxBuffer, txDump: StampBytes, rxDump: StampBytes, finalStart: StartResult)
    ensures var data := EncodeResponse(ResponseFor(0).(activityCode := 0)) + stale;
            && !DSTWR.InitiatorAccepts(11, data)
            && Accepted(p, FrameGood(11, data, txDump, rxDump, finalStart))
  {
    var r := ResponseFor(0).(activityCode := 0);
    var data := EncodeResponse(r) + stale;
    ResponseReadFromBuffer(r, stale);
    var read := ReadFrame(p.buffer, 11, data);
    assert read[..11] == data[..11];
    assert read[..10] == EncodeFrame(r.base);
    ResponseBytesAreTheResponse();
  }
}
