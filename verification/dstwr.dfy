/**
  The interrupt-driven DS-TWR role engines. The initiator sends a Poll, waits
  for the Response, then sends a delayed Final carrying its three timestamps;
  the responder waits for a Poll, sends a delayed Response, waits for the
  Final and hands the six timestamps of the round to the result processor.
  A node's behaviour is keyed by the callbacks currently installed and by
  the interrupts currently enabled; each callback is a function from the node
  and one radio event to the next node, the commands issued and what the
  node reports to the application.
 */
module DSTWR {
  import opened Bytes
  import opened Timestamp
  import opened UWBFrame
  import opened Radio

  /** The six stamps of one round, in the order of the `DSTWRResult` fields. */
  datatype RangingResult = RangingResult(tx1: bv64, rx1: bv64, tx2: bv64, rx2: bv64, tx3: bv64, rx3: bv64)

  datatype ResponderStage = AwaitingPoll | AwaitingFinal

  /** The callbacks registered with `dwt_setcallbacks`. */
  datatype Callbacks = NoCallbacks | InitiatorCallbacks | ResponderCallbacks(stage: ResponderStage)

  /** The interrupt sources enabled with `dwt_setinterrupt(..., DWT_ENABLE_INT_ONLY)`:
      frame received, receive timeout and receive errors; or frame sent. */
  datatype Interrupts = NoInterrupts | ReceiveInterrupts | TransmitInterrupt

  /** The module's globals: the shared sequence counter, the installed
      callbacks, the interrupt mask, the stamp of the last accepted Poll, and
      whether the two application hooks are non-NULL. */
  datatype Node = Node(
    sequenceNumber: Byte,
    callbacks: Callbacks,
    interrupts: Interrupts,
    firstRxTimeStamp: bv64,
    initiatorDoneSet: bool,
    resultProcessorSet: bool)

  /** The two nodes have the same hooks registered. */
  predicate SameHooks(a: Node, b: Node)
  {
    a.initiatorDoneSet == b.initiatorDoneSet && a.resultProcessorSet == b.resultProcessorSet
  }

  /** Calls into the application hooks. */
  datatype Notice = NoNotice | InitiatorDone | ResultReady(result: RangingResult)

  datatype Step = Step(node: Node, commands: seq<Command>, notice: Notice)

  /** The zero-initialised globals at boot. */
  const BOOT: Node := Node(0, NoCallbacks, NoInterrupts, 0, false, false)

  function SetInitiatorDone(n: Node): (m: Node)
    ensures m.initiatorDoneSet && m == n.(initiatorDoneSet := m.initiatorDoneSet)
  {
    n.(initiatorDoneSet := true)
  }

  function SetResultProcessor(n: Node): (m: Node)
    ensures m.resultProcessorSet && m == n.(resultProcessorSet := m.resultProcessorSet)
  {
    n.(resultProcessorSet := true)
  }

  // ----- Initiator --------------------------------------------------------------

  /** One attempt of the Poll loop: the Poll stamped with `s`, sent at once with
      the receiver turned on afterwards. */
  function PollTransmit(s: Byte): Command
  {
    Transmit(EncodeFrame(PollFrame(s)), Immediate(true))
  }

  datatype PollRun = PollRun(next: Byte, commands: seq<Command>)

  /** The do-while of `initiator()`: each attempt stamps the Poll with the
      counter and increments it, until `dwt_starttx` stops answering
      `DWT_ERROR`. The counter advances by exactly the number of attempts,
      and the k-th attempt carries the k-th counter value. */
  function PollAttempts(sequenceNumber: Byte, rejections: nat): (r: PollRun)
    ensures r.next == Advance(sequenceNumber, rejections + 1)
    ensures |r.commands| == rejections + 1
    ensures forall k :: 0 <= k < |r.commands| ==> r.commands[k] == PollTransmit(Advance(sequenceNumber, k))
    decreases rejections
  {
    var first := PollTransmit(sequenceNumber);
    AdvanceFromNext(sequenceNumber);
    if rejections == 0 then
      PollRun(sequenceNumber + 1, [first])
    else
      var rest := PollAttempts(sequenceNumber + 1, rejections - 1);
      PollRun(rest.next, [first] + rest.commands)
  }

  /** `initiator()`: enable the receive interrupts, then poll until a start succeeds. */
  function Initiator(n: Node, answers: StartAnswers): (s: Step)
    ensures s.node == n.(sequenceNumber := Advance(n.sequenceNumber, answers.pollRejections + 1),
                         interrupts := ReceiveInterrupts)
    ensures s.commands == PollAttempts(n.sequenceNumber, answers.pollRejections).commands
    ensures s.notice == NoNotice
  {
    var run := PollAttempts(n.sequenceNumber, answers.pollRejections);
    Step(n.(sequenceNumber := run.next, interrupts := ReceiveInterrupts), run.commands, NoNotice)
  }

  /** The initiator's check on a received frame: long enough for a Response,
      and a Response from the responder to the initiator. */
  predicate InitiatorAccepts(frameLength: bv16, data: RxBuffer)
  {
    frameLength as int >= RESPONSE_FRAME_SIZE && IsResponseForInitiator(DecodeResponse(data))
  }

  /** The Final the initiator builds: the Poll header with function code 0x23,
      and the low 32 bits of the Poll's transmit stamp, the Response's receive
      stamp and the predicted transmit stamp of the Final itself. */
  function FinalFor(sequenceNumber: Byte, tx1: bv64, rx: bv64): (d: DelayDataFrame)
    ensures IsFinalForResponder(d)
    ensures d.base.sequenceNumber == sequenceNumber
  {
    DelayDataFrame(FinalHeader(sequenceNumber), Low32(tx1), Low32(rx), Low32(PredictedTxStamp(DelayedTxTime(rx))))
  }

  /** The command that sends the Final. */
  function FinalTransmit(sequenceNumber: Byte, tx1: bv64, rx: bv64): Command
  {
    Transmit(EncodeDelayData(FinalFor(sequenceNumber, tx1, rx)), Delayed(false))
  }

  /** `initiatorRX`. An accepted Response schedules the Final one turnaround
      after the Response's arrival and sends it with the counter as it stands,
      leaving only the transmit interrupt enabled; anything else, or a refused
      delayed start, falls back to `initiator()`. */
  function InitiatorRX(n: Node, e: Event, answers: StartAnswers): (s: Step)
    requires e.FrameReceived?
    ensures s.notice == NoNotice && s.node.firstRxTimeStamp == n.firstRxTimeStamp
    ensures SameHooks(s.node, n)
    ensures !InitiatorAccepts(e.frameLength, e.data) ==> s == Initiator(n, answers)
    ensures InitiatorAccepts(e.frameLength, e.data) ==>
              && |s.commands| >= 2
              && s.commands[0] == SetDelayedTime(DelayedTxTime(Stamp(e.rxStamp)))
              && s.commands[1] == FinalTransmit(n.sequenceNumber, Stamp(e.txStamp), Stamp(e.rxStamp))
    ensures InitiatorAccepts(e.frameLength, e.data) && answers.delayedStart == StartSuccess ==>
              s.node == n.(sequenceNumber := n.sequenceNumber + 1, interrupts := TransmitInterrupt) && |s.commands| == 2
    ensures InitiatorAccepts(e.frameLength, e.data) && answers.delayedStart == StartError ==>
              var again := Initiator(n.(sequenceNumber := n.sequenceNumber + 1), answers);
              && s.node == again.node
              && s.commands == [SetDelayedTime(DelayedTxTime(Stamp(e.rxStamp))),
                                FinalTransmit(n.sequenceNumber, Stamp(e.txStamp), Stamp(e.rxStamp))] + again.commands
  {
    if InitiatorAccepts(e.frameLength, e.data) then
      var tx1 := Stamp(e.txStamp);
      var rx := Stamp(e.rxStamp);
      var final := [SetDelayedTime(DelayedTxTime(rx)), FinalTransmit(n.sequenceNumber, tx1, rx)];
      var sent := n.(sequenceNumber := n.sequenceNumber + 1, interrupts := TransmitInterrupt);
      if answers.delayedStart == StartSuccess then
        Step(sent, final, NoNotice)
      else
        // `initiator()` enables the receive interrupts again, so the
        // transmit interrupt set for the Final does not survive it.
        var again := Initiator(n.(sequenceNumber := n.sequenceNumber + 1), answers);
        Step(again.node, final + again.commands, NoNotice)
    else
      Initiator(n, answers)
  }

  /** `initiatorTX`: the Final has gone out; call `initiatorDone` if it is set. */
  function InitiatorTX(n: Node): (s: Step)
    ensures s.node == n && s.commands == []
    ensures s.notice == (if n.initiatorDoneSet then InitiatorDone else NoNotice)
  {
    Step(n, [], if n.initiatorDoneSet then InitiatorDone else NoNotice)
  }

  /** `initiatorRXFault`: a timeout or error restarts the exchange. */
  function InitiatorRXFault(n: Node, answers: StartAnswers): (s: Step)
    ensures s == Initiator(n, answers)
  {
    Initiator(n, answers)
  }

  /** `initiatorStart`: install the initiator's callbacks, then poll. */
  function InitiatorStart(n: Node, answers: StartAnswers): (s: Step)
    ensures s == Initiator(n.(callbacks := InitiatorCallbacks), answers)
  {
    Initiator(n.(callbacks := InitiatorCallbacks), answers)
  }

  // ----- Responder --------------------------------------------------------------

  /** `responder()`: install the Poll handler and turn the receiver on. */
  function Responder(n: Node): (s: Step)
    ensures s.node == n.(callbacks := ResponderCallbacks(AwaitingPoll))
    ensures s.commands == [EnableReceive] && s.notice == NoNotice
  {
    Step(n.(callbacks := ResponderCallbacks(AwaitingPoll)), [EnableReceive], NoNotice)
  }

  /** The responder's check on a received frame: long enough for a header,
      and a Poll from the initiator to the responder. */
  predicate ResponderAccepts(frameLength: bv16, data: RxBuffer)
  {
    frameLength as int >= FRAME_SIZE && IsPollForResponder(DecodeFrame(data))
  }

  /** The command that sends the Response. */
  function ResponseTransmit(sequenceNumber: Byte): Command
  {
    Transmit(EncodeResponse(ResponseFor(sequenceNumber)), Delayed(true))
  }

  /** `responderRX`. An accepted Poll has its arrival recorded, and the
      Response goes out one turnaround later with the counter as it stands:
      this handler never increments it. The Final handler is installed before
      the start is attempted; a refused start, or any other frame, falls back
      to `responder()`. */
  function ResponderRX(n: Node, e: Event, answers: StartAnswers): (s: Step)
    requires e.FrameReceived?
    ensures s.node.sequenceNumber == n.sequenceNumber && s.notice == NoNotice
    ensures SameHooks(s.node, n)
    ensures !ResponderAccepts(e.frameLength, e.data) ==> s == Responder(n)
    ensures ResponderAccepts(e.frameLength, e.data) ==>
              && s.node.firstRxTimeStamp == Stamp(e.rxStamp)
              && |s.commands| >= 2
              && s.commands[0] == SetDelayedTime(DelayedTxTime(Stamp(e.rxStamp)))
              && s.commands[1] == ResponseTransmit(n.sequenceNumber)
    ensures ResponderAccepts(e.frameLength, e.data) && answers.delayedStart == StartSuccess ==>
              s.node == n.(firstRxTimeStamp := Stamp(e.rxStamp), callbacks := ResponderCallbacks(AwaitingFinal))
              && |s.commands| == 2
    ensures ResponderAccepts(e.frameLength, e.data) && answers.delayedStart == StartError ==>
              s.node == n.(firstRxTimeStamp := Stamp(e.rxStamp), callbacks := ResponderCallbacks(AwaitingPoll))
              && |s.commands| == 3 && s.commands[2] == EnableReceive
  {
    if ResponderAccepts(e.frameLength, e.data) then
      var rx := Stamp(e.rxStamp);
      var recorded := n.(firstRxTimeStamp := rx, callbacks := ResponderCallbacks(AwaitingFinal));
      var response := [SetDelayedTime(DelayedTxTime(rx)), ResponseTransmit(n.sequenceNumber)];
      if answers.delayedStart == StartSuccess then
        Step(recorded, response, NoNotice)
      else
        var again := Responder(recorded);
        Step(again.node, response + again.commands, NoNotice)
    else
      Responder(n)
  }

  /** The responder's check on a received Final. */
  predicate FinalAccepted(frameLength: bv16, data: RxBuffer)
  {
    frameLength as int >= DELAY_DATA_FRAME_SIZE && IsFinalForResponder(DecodeDelayData(data))
  }

  /** The round as the responder assembles it: the initiator's stamps from the
      Final, its own from the first Poll and the current registers. */
  function RoundResult(firstRx: bv64, f: DelayDataFrame, tx: bv64, rx: bv64): RangingResult
  {
    RangingResult(Widen(f.tx1), firstRx, tx, Widen(f.rx), Widen(f.tx2), rx)
  }

  /** `responderSecondRX`. The counter is incremented whatever arrives; a valid
      Final produces the result, which reaches the application only through a
      set result processor, and the receiver is not turned back on. */
  function ResponderSecondRX(n: Node, e: Event): (s: Step)
    requires e.FrameReceived?
    ensures s.node.sequenceNumber == n.sequenceNumber + 1
    ensures s.node.firstRxTimeStamp == n.firstRxTimeStamp
    ensures SameHooks(s.node, n)
    ensures !FinalAccepted(e.frameLength, e.data) ==> s == Responder(n.(sequenceNumber := s.node.sequenceNumber))
    ensures FinalAccepted(e.frameLength, e.data) ==>
              && s.node == n.(sequenceNumber := s.node.sequenceNumber)
              && s.commands == []
              && (s.notice.ResultReady? <==> n.resultProcessorSet)
    ensures s.notice.ResultReady? ==>
              s.notice.result == RoundResult(n.firstRxTimeStamp, DecodeDelayData(e.data), Stamp(e.txStamp), Stamp(e.rxStamp))
  {
    var counted := n.(sequenceNumber := n.sequenceNumber + 1);
    if FinalAccepted(e.frameLength, e.data) then
      var result := RoundResult(n.firstRxTimeStamp, DecodeDelayData(e.data), Stamp(e.txStamp), Stamp(e.rxStamp));
      Step(counted, [], if n.resultProcessorSet then ResultReady(result) else NoNotice)
    else
      Responder(counted)
  }

  /** `responderRXFault`: a timeout or error sends the responder back to listening. */
  function ResponderRXFault(n: Node): (s: Step)
    ensures s == Responder(n)
  {
    Responder(n)
  }

  /** `responderStart`: enable the receive interrupts, then listen. */
  function ResponderStart(n: Node): (s: Step)
    ensures s == Responder(n.(interrupts := ReceiveInterrupts))
  {
    Responder(n.(interrupts := ReceiveInterrupts))
  }

  // ----- Interrupt delivery -----------------------------------------------------

  /** The callback an event reaches: receive events only while the receive
      interrupts are enabled, the transmit event only while the transmit
      interrupt is; and never a NULL callback slot. */
  function Dispatch(n: Node, e: Event, answers: StartAnswers): (s: Step)
    // only the setters register hooks: no callback sets or clears a slot
    ensures SameHooks(s.node, n)
    // the responder registers no transmit callback, so its transmissions end unnoticed
    ensures e.TransmitDone? && n.callbacks.ResponderCallbacks? ==> s == Step(n, [], NoNotice)
    // `initiatorDone` is reached only through `initiatorTX`
    ensures s.notice.InitiatorDone? ==> e.TransmitDone? && n.callbacks == InitiatorCallbacks && n.initiatorDoneSet
    // `resultProcessor` is reached only through `responderSecondRX`
    ensures s.notice.ResultReady? ==>
              e.FrameReceived? && n.callbacks == ResponderCallbacks(AwaitingFinal) && n.resultProcessorSet
  {
    match e
    case FrameReceived(_, _, _, _) =>
      if n.interrupts != ReceiveInterrupts then Step(n, [], NoNotice)
      else (
        match n.callbacks
        case NoCallbacks => Step(n, [], NoNotice)
        case InitiatorCallbacks => InitiatorRX(n, e, answers)
        case ResponderCallbacks(AwaitingPoll) => ResponderRX(n, e, answers)
        case ResponderCallbacks(AwaitingFinal) => ResponderSecondRX(n, e))
    case ReceiveTimeout() | ReceiveError() =>
      if n.interrupts != ReceiveInterrupts then Step(n, [], NoNotice)
      else (
        match n.callbacks
        case NoCallbacks => Step(n, [], NoNotice)
        case InitiatorCallbacks => InitiatorRXFault(n, answers)
        case ResponderCallbacks(_) => ResponderRXFault(n))
    case TransmitDone() =>
      if n.interrupts == TransmitInterrupt && n.callbacks == InitiatorCallbacks then InitiatorTX(n)
      else Step(n, [], NoNotice)
  }
}
