/**
  The ranging application around the role engines: `main` registers the hook
  of the role the firmware was built for and starts that role; the hooks
  close the loop, the responder's result processor reporting the round's
  durations and listening again, the initiator's completion hook starting the
  next round. The reported distance is the DS-TWR estimator applied to the
  durations, stated here over exact reals in units of the radio's ticks.
 */
module Session {
  import opened Bytes
  import opened Wrappers
  import opened Timestamp
  import opened Radio
  import opened DSTWR
  import UWBFrame
  import Exchange

  // ----- The estimator --------------------------------------------------------

  /** The four durations of `printResult`, named as there. */
  datatype Durations = Durations(firstLoop: bv64, firstProcessing: bv64, secondLoop: bv64, secondProcessing: bv64)

  /** `later - earlier` on `uint64_t`, wrapping modulo 2^64 as C does. */
  function Elapsed(later: bv64, earlier: bv64): bv64
  {
    later - earlier
  }

  /** The durations of `printResult`: the initiator's loop from its Poll to
      the Response, the responder's processing from the Poll to its
      Response, the responder's loop from its Response to the Final, and the
      initiator's processing from the Response to its Final. */
  function DurationsOf(r: RangingResult): Durations
  {
    Durations(Elapsed(r.rx2, r.tx1), Elapsed(r.tx2, r.rx1), Elapsed(r.rx3, r.tx2), Elapsed(r.tx3, r.rx2))
  }

  /** `(double)x` for a duration, without rounding. */
  function Real(x: bv64): real
  {
    x as int as real
  }

  /** `(roundA * roundB - replyA * replyB) / (roundA + roundB + replyA + replyB)`. */
  function Estimate(roundA: real, replyA: real, roundB: real, replyB: real): real
    requires roundA + roundB + replyA + replyB != 0.0
  {
    (roundA * roundB - replyA * replyB) / (roundA + roundB + replyA + replyB)
  }

  /** The time of flight `printResult` computes, in ticks; there is none when
      the denominator vanishes, which happens only when all four durations
      are zero. */
  function TimeOfFlight(d: Durations): (t: Option<real>)
    ensures t.None? <==> d == Durations(0, 0, 0, 0)
  {
    var roundA, replyA := Real(d.firstLoop), Real(d.firstProcessing);
    var roundB, replyB := Real(d.secondLoop), Real(d.secondProcessing);
    if roundA + roundB + replyA + replyB == 0.0 then None
    else Some(Estimate(roundA, replyA, roundB, replyB))
  }

  /** The estimator is exact when both loops take two flights plus the other
      side's processing: it returns the time of flight whatever the two
      processing times are. */
  lemma EstimatorRecoversFlightTime(flight: real, replyA: real, replyB: real)
    requires 4.0 * flight + 2.0 * replyA + 2.0 * replyB != 0.0
    ensures Estimate(2.0 * flight + replyA, replyA, 2.0 * flight + replyB, replyB) == flight
  {
    var roundA, roundB := 2.0 * flight + replyA, 2.0 * flight + replyB;
    var sum := roundA + roundB + replyA + replyB;
    assert sum == 2.0 * (2.0 * flight + replyA + replyB);
    assert roundA * roundB - replyA * replyB == flight * sum by {
      assert roundA * roundB == 4.0 * flight * flight + 2.0 * flight * replyB + 2.0 * flight * replyA + replyA * replyB;
    }
  }

  /** `printResult`'s estimator, on the four durations of a round in which
      each loop is two flights plus the other side's processing, gives the
      flight time. */
  lemma TimeOfFlightOfConsistentRound(d: Durations, flight: real)
    requires flight > 0.0
    requires Real(d.firstLoop) == 2.0 * flight + Real(d.firstProcessing)
    requires Real(d.secondLoop) == 2.0 * flight + Real(d.secondProcessing)
    ensures TimeOfFlight(d) == Some(flight)
  {
    assert d != Durations(0, 0, 0, 0);
    EstimatorRecoversFlightTime(flight, Real(d.firstProcessing), Real(d.secondProcessing));
  }


  // ----- Wiring the roles -----------------------------------------------------

  /** The `INITIATOR` build switch. */
  datatype Build = InitiatorBuild | ResponderBuild

  /** What a node does in reaction to one event, hooks included: its next
      state, the commands issued, and the durations `printResult` reported. */
  datatype Outcome = Outcome(node: Node, commands: seq<Command>, reported: Option<Durations>)

  /** The initiator build's callbacks and hook: the initiator's handlers with
      some interrupt enabled, and only `initiatorDone` registered. */
  predicate InitiatorRole(n: Node)
  {
    n.callbacks == InitiatorCallbacks && n.interrupts != NoInterrupts && n.initiatorDoneSet && !n.resultProcessorSet
  }

  /** The responder build's callbacks and hook: a responder handler with the
      receive interrupts enabled, and only `resultProcessor` registered. */
  predicate ResponderRole(n: Node)
  {
    n.callbacks.ResponderCallbacks? && n.interrupts == ReceiveInterrupts && n.resultProcessorSet && !n.initiatorDoneSet
  }

  /** A node running its build's role with its build's hook, as `main` leaves
      it and as every event keeps it. */
  predicate Running(build: Build, n: Node)
  {
    && IsStamp(n.firstRxTimeStamp)
    && (build == InitiatorBuild ==> InitiatorRole(n))
    && (build == ResponderBuild ==> ResponderRole(n))
  }

  /** `main`: register exactly the build's hook, then start the build's role
      only if the radio initialised. */
  function Main(build: Build, initialised: bool, answers: StartAnswers): (o: Outcome)
    ensures o.node.initiatorDoneSet <==> build == InitiatorBuild
    ensures o.node.resultProcessorSet <==> build == ResponderBuild
    ensures initialised ==> Running(build, o.node) && o.commands != []
    ensures !initialised ==> o.commands == [] && o.node.callbacks == NoCallbacks && o.node.interrupts == NoInterrupts
    ensures o.reported == None
  {
    match build
    case InitiatorBuild =>
      var n := SetInitiatorDone(BOOT);
      if initialised then
        var s := InitiatorStart(n, answers);
        Outcome(s.node, s.commands, None)
      else
        Outcome(n, [], None)
    case ResponderBuild =>
      var n := SetResultProcessor(BOOT);
      if initialised then
        var s := ResponderStart(n);
        Outcome(s.node, s.commands, None)
      else
        Outcome(n, [], None)
  }

  /** `printResult`: report the durations, then listen for the next Poll. */
  function PrintResult(n: Node, r: RangingResult): (o: Outcome)
    ensures o.reported == Some(DurationsOf(r))
    ensures o.node.callbacks == ResponderCallbacks(AwaitingPoll) && o.commands == [EnableReceive]
  {
    var s := Responder(n);
    Outcome(s.node, s.commands, Some(DurationsOf(r)))
  }

  /** `repeatRanging`: start the next round (the pause before it is not modelled). */
  function RepeatRanging(n: Node, answers: StartAnswers): (o: Outcome)
    ensures o.node.interrupts == ReceiveInterrupts && o.reported == None
    ensures o.commands == PollAttempts(n.sequenceNumber, answers.pollRejections).commands
  {
    var s := Initiator(n, answers);
    Outcome(s.node, s.commands, None)
  }

  /** One event on a node: the callback it reaches, then the hook that
      callback invoked. */
  function SystemStep(n: Node, e: Event, answers: StartAnswers): (o: Outcome)
    ensures SameHooks(o.node, n)
    // durations are printed only when the responder's second stage took a
    // frame, and then it listens for the next Poll
    ensures o.reported.Some? ==>
              && e.FrameReceived? && n.callbacks == ResponderCallbacks(AwaitingFinal)
              && o.node.callbacks == ResponderCallbacks(AwaitingPoll) && o.commands == [EnableReceive]
  {
    var s := Dispatch(n, e, answers);
    match s.notice
    case NoNotice => Outcome(s.node, s.commands, None)
    case InitiatorDone =>
      var t := RepeatRanging(s.node, answers);
      Outcome(t.node, s.commands + t.commands, t.reported)
    case ResultReady(r) =>
      var p := PrintResult(s.node, r);
      Outcome(p.node, s.commands + p.commands, p.reported)
  }

  /** Every event keeps a running node running its role. */
  lemma SystemStepKeepsRunning(build: Build, n: Node, e: Event, answers: StartAnswers)
    requires Running(build, n)
    ensures Running(build, SystemStep(n, e, answers).node)
  {
    Exchange.FirstRxStaysStamp(n, e, answers);
    if build == InitiatorBuild {
      InitiatorStepKeepsRunning(n, e, answers);
    } else {
      ResponderStepKeepsRunning(n, e, answers);
    }
  }

  lemma InitiatorStepKeepsRunning(n: Node, e: Event, answers: StartAnswers)
    requires InitiatorRole(n)
    ensures InitiatorRole(SystemStep(n, e, answers).node)
  {
    var s := Dispatch(n, e, answers);
    assert !s.notice.ResultReady?;
  }

  lemma ResponderStepKeepsRunning(n: Node, e: Event, answers: StartAnswers)
    requires ResponderRole(n)
    ensures ResponderRole(SystemStep(n, e, answers).node)
  {
    if e.FrameReceived? {
      if n.callbacks.stage == AwaitingPoll {
        assert Dispatch(n, e, answers) == ResponderRX(n, e, answers);
      } else {
        ResponderFinalKeepsRole(n, e, answers);
      }
    } else {
      assert Dispatch(n, e, answers).notice == NoNotice;
    }
  }

  lemma ResponderFinalKeepsRole(n: Node, e: Event, answers: StartAnswers)
    requires ResponderRole(n) && n.callbacks.stage == AwaitingFinal && e.FrameReceived?
    ensures ResponderRole(SystemStep(n, e, answers).node)
  {
    var s := Dispatch(n, e, answers);
    assert s == ResponderSecondRX(n, e);
    if s.notice.ResultReady? {
      assert SystemStep(n, e, answers).node == PrintResult(s.node, s.notice.result).node;
    }
  }

  /** The node after a sequence of events, each with the radio's answers. */
  function Run(n: Node, events: seq<(Event, StartAnswers)>): Node
    decreases |events|
  {
    if events == [] then n else Run(SystemStep(n, events[0].0, events[0].1).node, events[1..])
  }

  /** A node started by `main` runs its role for ever, whatever the radio does. */
  lemma {:induction false} RunKeepsRunning(build: Build, n: Node, events: seq<(Event, StartAnswers)>)
    requires Running(build, n)
    ensures Running(build, Run(n, events))
    decreases |events|
  {
    if events != [] {
      SystemStepKeepsRunning(build, n, events[0].0, events[0].1);
      RunKeepsRunning(build, SystemStep(n, events[0].0, events[0].1).node, events[1..]);
    }
  }

  /** The responder application never leaves the radio deaf: every receive
      event ends with the receiver turned on, or with the Response scheduled
      to turn it on after transmission. The durations are reported exactly
      when a round completed. */
  lemma ResponderKeepsListening(n: Node, e: Event, answers: StartAnswers)
    requires Running(ResponderBuild, n) && !e.TransmitDone?
    ensures var o := SystemStep(n, e, answers);
            && o.commands != []
            && (o.commands[|o.commands| - 1] == EnableReceive
                || o.commands[|o.commands| - 1] == ResponseTransmit(n.sequenceNumber))
    ensures SystemStep(n, e, answers).reported.Some? <==> Dispatch(n, e, answers).notice.ResultReady?
    ensures Dispatch(n, e, answers).notice.ResultReady? ==>
              SystemStep(n, e, answers).reported == Some(DurationsOf(Dispatch(n, e, answers).notice.result))
  {
    var s := Dispatch(n, e, answers);
    if e.FrameReceived? && n.callbacks.stage == AwaitingPoll && ResponderAccepts(e.frameLength, e.data) {
      assert s == ResponderRX(n, e, answers);
    }
  }

  /** The last attempt of the Poll loop is a Poll sent at once with the
      receiver turned on afterwards. */
  lemma LastPollListens(sequenceNumber: Byte, rejections: nat)
    ensures var c := PollAttempts(sequenceNumber, rejections).commands;
            c[|c| - 1].Transmit? && c[|c| - 1].mode == Immediate(true)
  {
    var c := PollAttempts(sequenceNumber, rejections).commands;
    assert c[|c| - 1] == PollTransmit(Advance(sequenceNumber, |c| - 1));
  }

  /** The transmission an outcome leaves outstanding: its last command is a
      transmit, and only a Final (sent late, with the receiver off) leaves
      the node waiting for the transmit interrupt. */
  predicate AwaitsOwnTransmission(o: Outcome)
  {
    && o.commands != [] && o.commands[|o.commands| - 1].Transmit?
    && (o.commands[|o.commands| - 1].mode == Delayed(false) <==> o.node.interrupts == TransmitInterrupt)
  }

  /** The initiator application always has a transmission outstanding after
      an event it is told of: a Poll, or the Final whose completion it then
      waits for. */
  lemma InitiatorKeepsRanging(n: Node, e: Event, answers: StartAnswers)
    requires Running(InitiatorBuild, n)
    requires if e.TransmitDone? then n.interrupts == TransmitInterrupt else n.interrupts == ReceiveInterrupts
    ensures AwaitsOwnTransmission(SystemStep(n, e, answers))
  {
    if e.FrameReceived? {
      InitiatorReceiveKeepsRanging(n, e, answers);
    } else if e.TransmitDone? {
      InitiatorFinalSentKeepsRanging(n, answers);
    } else {
      InitiatorFaultKeepsRanging(n, e, answers);
    }
  }

  lemma InitiatorFaultKeepsRanging(n: Node, e: Event, answers: StartAnswers)
    requires n.callbacks == InitiatorCallbacks && n.interrupts == ReceiveInterrupts && (e.ReceiveTimeout? || e.ReceiveError?)
    ensures AwaitsOwnTransmission(SystemStep(n, e, answers))
  {
    assert Dispatch(n, e, answers) == Initiator(n, answers);
    LastPollListens(n.sequenceNumber, answers.pollRejections);
  }

  lemma InitiatorFinalSentKeepsRanging(n: Node, answers: StartAnswers)
    requires n.callbacks == InitiatorCallbacks && n.interrupts == TransmitInterrupt && n.initiatorDoneSet
    ensures AwaitsOwnTransmission(SystemStep(n, TransmitDone, answers))
  {
    FinalSentRepeats(n, answers);
    LastPollListens(n.sequenceNumber, answers.pollRejections);
  }

  /** The end of the Final reaches `repeatRanging` and nothing else. */
  lemma FinalSentRepeats(n: Node, answers: StartAnswers)
    requires n.callbacks == InitiatorCallbacks && n.interrupts == TransmitInterrupt && n.initiatorDoneSet
    ensures SystemStep(n, TransmitDone, answers) == RepeatRanging(n, answers)
  {
    assert Dispatch(n, TransmitDone, answers) == Step(n, [], InitiatorDone);
    var t := RepeatRanging(n, answers);
    assert SystemStep(n, TransmitDone, answers) == Outcome(t.node, [] + t.commands, t.reported);
    assert [] + t.commands == t.commands;
  }

  lemma InitiatorReceiveKeepsRanging(n: Node, e: Event, answers: StartAnswers)
    requires n.callbacks == InitiatorCallbacks && n.interrupts == ReceiveInterrupts && e.FrameReceived?
    ensures AwaitsOwnTransmission(SystemStep(n, e, answers))
  {
    InitiatorReceiveOutcome(n, e, answers);
    InitiatorRXAwaits(n, e, answers);
  }

  /** A frame reaching the initiator calls no hook. */
  lemma InitiatorReceiveOutcome(n: Node, e: Event, answers: StartAnswers)
    requires n.callbacks == InitiatorCallbacks && n.interrupts == ReceiveInterrupts && e.FrameReceived?
    ensures var s := InitiatorRX(n, e, answers);
            SystemStep(n, e, answers) == Outcome(s.node, s.commands, None)
  {
    assert Dispatch(n, e, answers) == InitiatorRX(n, e, answers);
  }

  lemma InitiatorRXAwaits(n: Node, e: Event, answers: StartAnswers)
    requires e.FrameReceived?
    ensures var s := InitiatorRX(n, e, answers);
            AwaitsOwnTransmission(Outcome(s.node, s.commands, None))
  {
    if !InitiatorAccepts(e.frameLength, e.data) {
      RejectedResponsePollsAgain(n, e, answers);
    } else if answers.delayedStart == StartError {
      RefusedFinalPollsAgain(n, e, answers);
    } else {
      StartedFinalAwaited(n, e, answers);
    }
  }

  lemma RejectedResponsePollsAgain(n: Node, e: Event, answers: StartAnswers)
    requires e.FrameReceived? && !InitiatorAccepts(e.frameLength, e.data)
    ensures var s := InitiatorRX(n, e, answers);
            AwaitsOwnTransmission(Outcome(s.node, s.commands, None))
  {
    assert InitiatorRX(n, e, answers) == Initiator(n, answers);
    LastPollListens(n.sequenceNumber, answers.pollRejections);
  }

  lemma StartedFinalAwaited(n: Node, e: Event, answers: StartAnswers)
    requires e.FrameReceived? && InitiatorAccepts(e.frameLength, e.data) && answers.delayedStart == StartSuccess
    ensures var s := InitiatorRX(n, e, answers);
            AwaitsOwnTransmission(Outcome(s.node, s.commands, None))
  {
    var s := InitiatorRX(n, e, answers);
    assert |s.commands| == 2 && s.commands[1] == FinalTransmit(n.sequenceNumber, Stamp(e.txStamp), Stamp(e.rxStamp));
  }

  lemma RefusedFinalPollsAgain(n: Node, e: Event, answers: StartAnswers)
    requires e.FrameReceived? && InitiatorAccepts(e.frameLength, e.data) && answers.delayedStart == StartError
    ensures var s := InitiatorRX(n, e, answers);
            && s.commands != [] && s.node.interrupts == ReceiveInterrupts
            && s.commands[|s.commands| - 1].Transmit? && s.commands[|s.commands| - 1].mode == Immediate(true)
  {
    var s := InitiatorRX(n, e, answers);
    var again := Initiator(n.(sequenceNumber := n.sequenceNumber + 1), answers);
    var final := [SetDelayedTime(DelayedTxTime(Stamp(e.rxStamp))),
                  FinalTransmit(n.sequenceNumber, Stamp(e.txStamp), Stamp(e.rxStamp))];
    LastPollListens(n.sequenceNumber + 1, answers.pollRejections);
    LastOfConcat(final, again.commands);
  }

  lemma LastOfConcat<T>(a: seq<T>, b: seq<T>)
    requires b != []
    ensures (a + b)[|a + b| - 1] == b[|b| - 1]
  {
  }

  /** Each reported duration pairs two stamps of one provenance: the
      initiator's loop and processing are differences of the two 32-bit
      stamps the Final carried, the responder's processing and loop are
      differences of the 40-bit stamps it captured itself. */
  lemma ReportedDurationsPairStamps(n: Node, e: Event, answers: StartAnswers)
    requires Running(ResponderBuild, n)
    ensures var o := SystemStep(n, e, answers);
            o.reported.Some? ==>
              && e.FrameReceived? && n.callbacks == ResponderCallbacks(AwaitingFinal)
              && var f := UWBFrame.DecodeDelayData(e.data);
                 o.reported.value == Durations(Elapsed(Widen(f.rx), Widen(f.tx1)),
                                               Elapsed(Stamp(e.txStamp), n.firstRxTimeStamp),
                                               Elapsed(Stamp(e.rxStamp), Stamp(e.txStamp)),
                                               Elapsed(Widen(f.tx2), Widen(f.rx)))
  {
    var s := Dispatch(n, e, answers);
    if e.FrameReceived? && n.callbacks == ResponderCallbacks(AwaitingFinal) {
      assert s == ResponderSecondRX(n, e);
    } else {
      assert !s.notice.ResultReady?;
    }
  }
}
