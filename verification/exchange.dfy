/**
  Properties of the DS-TWR role engines taken together: what each handler
  accepts, how faults and completions restart the roles, where the stamps of
  a result come from, and the complete round in which what one role
  transmits is what the other accepts.
 */
module Exchange {
  import opened Bytes
  import opened Timestamp
  import opened UWBFrame
  import opened Radio
  import opened DSTWR

  /** Some command schedules a delayed transmission. */
  predicate SendsDelayed(commands: seq<Command>)
  {
    exists k :: 0 <= k < |commands| && commands[k].Transmit? && commands[k].mode.Delayed?
  }

  predicate ListeningInitiator(n: Node)
  {
    n.callbacks == InitiatorCallbacks && n.interrupts == ReceiveInterrupts
  }

  predicate Responding(n: Node)
  {
    n.callbacks.ResponderCallbacks? && n.interrupts == ReceiveInterrupts
  }

  /** Every attempt of the Poll loop is an immediate transmission. */
  lemma PollsAreImmediate(s: Byte, rejections: nat)
    ensures !SendsDelayed(PollAttempts(s, rejections).commands)
  {
    var cs := PollAttempts(s, rejections).commands;
    forall k | 0 <= k < |cs|
      ensures !(cs[k].Transmit? && cs[k].mode.Delayed?)
    {
      assert cs[k] == PollTransmit(Advance(s, k));
    }
  }

  /** A listening initiator sends its Final exactly when the received frame
      passes the Response check; every other frame, whatever its bytes or
      length, only re-sends Polls. */
  lemma InitiatorSendsFinalOnlyOnResponse(n: Node, e: Event, answers: StartAnswers)
    requires ListeningInitiator(n) && e.FrameReceived?
    ensures SendsDelayed(Dispatch(n, e, answers).commands) <==> InitiatorAccepts(e.frameLength, e.data)
    ensures !InitiatorAccepts(e.frameLength, e.data) ==> Dispatch(n, e, answers) == Initiator(n, answers)
  {
    var s := Dispatch(n, e, answers);
    assert s == InitiatorRX(n, e, answers);
    if InitiatorAccepts(e.frameLength, e.data) {
      assert s.commands[1].Transmit? && s.commands[1].mode.Delayed?;
    } else {
      PollsAreImmediate(n.sequenceNumber, answers.pollRejections);
    }
  }

  /** A listening responder answers exactly the frames that pass the Poll
      check, and it answers with its counter unchanged. */
  lemma ResponderAnswersOnlyPolls(n: Node, e: Event, answers: StartAnswers)
    requires Responding(n) && n.callbacks.stage == AwaitingPoll && e.FrameReceived?
    ensures SendsDelayed(Dispatch(n, e, answers).commands) <==> ResponderAccepts(e.frameLength, e.data)
    ensures Dispatch(n, e, answers).node.sequenceNumber == n.sequenceNumber
  {
    var s := Dispatch(n, e, answers);
    assert s == ResponderRX(n, e, answers);
    if ResponderAccepts(e.frameLength, e.data) {
      assert s.commands[1].Transmit? && s.commands[1].mode.Delayed?;
    } else {
      assert s.commands == [EnableReceive];
    }
  }

  /** Receive timeouts and errors restart the role: the initiator polls
      again and the responder listens again. */
  lemma FaultsRestart(n: Node, e: Event, answers: StartAnswers)
    requires e.ReceiveTimeout? || e.ReceiveError?
    requires n.interrupts == ReceiveInterrupts
    ensures n.callbacks == InitiatorCallbacks ==> Dispatch(n, e, answers) == Initiator(n, answers)
    ensures n.callbacks.ResponderCallbacks? ==> Dispatch(n, e, answers) == Responder(n)
  {
  }

  /** A Final that arrives while the responder still waits for a Poll is
      not taken for one: no result, and the responder keeps listening. */
  lemma EarlyFinalIgnored(n: Node, e: Event, answers: StartAnswers)
    requires Responding(n) && n.callbacks.stage == AwaitingPoll && e.FrameReceived?
    requires FinalAccepted(e.frameLength, e.data)
    ensures Dispatch(n, e, answers) == Responder(n)
  {
    var f := DecodeDelayData(e.data);
    assert f.base == DecodeFrame(e.data);
    StagesAreDistinct(f.base, 0, f.tx1, f.rx, f.tx2);
  }

  /** The stamps of a result have the provenance `printResult` relies on: the
      initiator's three (tx1, rx2, tx3) come off the wire and fit in 32 bits,
      the responder's three (rx1, tx2, rx3) were captured locally and fit in
      the 40-bit counter range. */
  lemma ResultProvenance(n: Node, e: Event, answers: StartAnswers)
    requires IsStamp(n.firstRxTimeStamp)
    ensures var s := Dispatch(n, e, answers);
            s.notice.ResultReady? ==>
              && IsWireStamp(s.notice.result.tx1) && IsWireStamp(s.notice.result.rx2) && IsWireStamp(s.notice.result.tx3)
              && IsStamp(s.notice.result.rx1) && IsStamp(s.notice.result.tx2) && IsStamp(s.notice.result.rx3)
  {
    var s := Dispatch(n, e, answers);
    if s.notice.ResultReady? {
      assert e.FrameReceived? && n.callbacks == ResponderCallbacks(AwaitingFinal);
      var f := DecodeDelayData(e.data);
      assert s.notice.result == RoundResult(n.firstRxTimeStamp, f, Stamp(e.txStamp), Stamp(e.rxStamp));
      WidenedIsWire(f.tx1);
      WidenedIsWire(f.rx);
      WidenedIsWire(f.tx2);
    }
  }

  /** Every handler keeps the recorded Poll arrival inside the counter range. */
  lemma FirstRxStaysStamp(n: Node, e: Event, answers: StartAnswers)
    requires IsStamp(n.firstRxTimeStamp)
    ensures IsStamp(Dispatch(n, e, answers).node.firstRxTimeStamp)
  {
  }

  // ----- One complete round ---------------------------------------------------

  /** A frame as it lies in the receive buffer, followed by whatever the
      buffer held before. */
  function Received(frame: seq<Byte>, stale: RxBuffer): RxBuffer
  {
    frame + stale
  }

  /** The responder answers the initiator's Poll, whatever its sequence
      number and whatever follows it in the buffer. */
  lemma PollAnswered(
    responder: Node, answers: StartAnswers, pollSequence: Byte, stale: RxBuffer,
    pollLength: bv16, earlierTx: StampRegisters, pollRx: StampRegisters)
    requires Responding(responder) && responder.callbacks.stage == AwaitingPoll
    requires answers.delayedStart == StartSuccess && pollLength as int >= FRAME_SIZE
    ensures
      var s := Dispatch(responder, FrameReceived(pollLength, Received(EncodeFrame(PollFrame(pollSequence)), stale), earlierTx, pollRx), answers);
      && s.commands == [SetDelayedTime(DelayedTxTime(Stamp(pollRx))), ResponseTransmit(responder.sequenceNumber)]
      && s.node == responder.(firstRxTimeStamp := Stamp(pollRx), callbacks := ResponderCallbacks(AwaitingFinal))
  {
    FrameReadFromBuffer(PollFrame(pollSequence), stale);
    assert ResponderAccepts(pollLength, Received(EncodeFrame(PollFrame(pollSequence)), stale));
  }

  /** The initiator answers the responder's Response with the Final. */
  lemma ResponseAnswered(
    initiator: Node, answers: StartAnswers, responseSequence: Byte, stale: RxBuffer,
    responseLength: bv16, pollTx: StampRegisters, responseRx: StampRegisters)
    requires ListeningInitiator(initiator)
    requires answers.delayedStart == StartSuccess && responseLength as int >= RESPONSE_FRAME_SIZE
    ensures
      var s := Dispatch(initiator, FrameReceived(responseLength, Received(EncodeResponse(ResponseFor(responseSequence)), stale), pollTx, responseRx), answers);
      && s.commands == [SetDelayedTime(DelayedTxTime(Stamp(responseRx))), FinalTransmit(initiator.sequenceNumber, Stamp(pollTx), Stamp(responseRx))]
      && s.node == initiator.(sequenceNumber := initiator.sequenceNumber + 1, interrupts := TransmitInterrupt)
  {
    ResponseReadFromBuffer(ResponseFor(responseSequence), stale);
    assert InitiatorAccepts(responseLength, Received(EncodeResponse(ResponseFor(responseSequence)), stale));
  }

  /** The responder turns the initiator's Final into the result of the round. */
  lemma FinalCompletesRound(
    responder: Node, answers: StartAnswers, finalSequence: Byte, tx1: bv64, rx: bv64, stale: RxBuffer,
    finalLength: bv16, responseTx: StampRegisters, finalRx: StampRegisters)
    requires Responding(responder) && responder.callbacks.stage == AwaitingFinal && responder.resultProcessorSet
    requires finalLength as int >= DELAY_DATA_FRAME_SIZE
    ensures
      var s := Dispatch(responder, FrameReceived(finalLength, Received(EncodeDelayData(FinalFor(finalSequence, tx1, rx)), stale), responseTx, finalRx), answers);
      s.notice == ResultReady(RangingResult(
        Widen(Low32(tx1)), responder.firstRxTimeStamp, Stamp(responseTx),
        Widen(Low32(rx)), Widen(Low32(PredictedTxStamp(DelayedTxTime(rx)))), Stamp(finalRx)))
  {
    DelayDataReadFromBuffer(FinalFor(finalSequence, tx1, rx), stale);
    assert FinalAccepted(finalLength, Received(EncodeDelayData(FinalFor(finalSequence, tx1, rx)), stale));
  }

  /** One round between a listening initiator and a responder waiting for a
      Poll, each delivering what the other transmitted: the responder's
      result pairs the initiator's stamps (Poll sent, Response received,
      Final predicted, all truncated to 32 bits) with its own (Poll received,
      Response sent, Final received). */
  lemma RoundDeliversResult(
    initiator: Node, responder: Node, answers: StartAnswers, pollSequence: Byte, stale: RxBuffer,
    pollLength: bv16, responseLength: bv16, finalLength: bv16,
    earlierTx: StampRegisters, pollTx: StampRegisters, pollRx: StampRegisters,
    responseTx: StampRegisters, responseRx: StampRegisters, finalRx: StampRegisters)
    requires ListeningInitiator(initiator)
    requires Responding(responder) && responder.callbacks.stage == AwaitingPoll && responder.resultProcessorSet
    requires answers.delayedStart == StartSuccess
    requires pollLength as int >= FRAME_SIZE && responseLength as int >= RESPONSE_FRAME_SIZE
    requires finalLength as int >= DELAY_DATA_FRAME_SIZE
    ensures
      var s1 := Dispatch(responder, FrameReceived(pollLength, Received(EncodeFrame(PollFrame(pollSequence)), stale), earlierTx, pollRx), answers);
      var response := EncodeResponse(ResponseFor(responder.sequenceNumber));
      var s2 := Dispatch(initiator, FrameReceived(responseLength, Received(response, stale), pollTx, responseRx), answers);
      var final := EncodeDelayData(FinalFor(initiator.sequenceNumber, Stamp(pollTx), Stamp(responseRx)));
      var s3 := Dispatch(s1.node, FrameReceived(finalLength, Received(final, stale), responseTx, finalRx), answers);
      && s1.commands == [SetDelayedTime(DelayedTxTime(Stamp(pollRx))), Transmit(response, Delayed(true))]
      && s2.commands == [SetDelayedTime(DelayedTxTime(Stamp(responseRx))), Transmit(final, Delayed(false))]
      && s3.notice == ResultReady(RangingResult(
           Widen(Low32(Stamp(pollTx))), Stamp(pollRx), Stamp(responseTx),
           Widen(Low32(Stamp(responseRx))), Widen(Low32(PredictedTxStamp(DelayedTxTime(Stamp(responseRx))))),
           Stamp(finalRx)))
  {
    PollAnswered(responder, answers, pollSequence, stale, pollLength, earlierTx, pollRx);
    ResponseAnswered(initiator, answers, responder.sequenceNumber, stale, responseLength, pollTx, responseRx);
    var s1 := Dispatch(responder, FrameReceived(pollLength, Received(EncodeFrame(PollFrame(pollSequence)), stale), earlierTx, pollRx), answers);
    FinalCompletesRound(s1.node, answers, initiator.sequenceNumber, Stamp(pollTx), Stamp(responseRx), stale, finalLength, responseTx, finalRx);
  }
}
