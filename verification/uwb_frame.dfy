/**
  The three packed frame layouts of the DS-TWR exchange. The header is the
  IEEE 802.15.4 MAC data-frame header of section 7.2 of IEEE 802.15.4-2015 with
  frame control 0x8841 (data frame, PAN-ID compression, short addresses),
  followed by a one-byte function code that names the stage of the exchange.
 */
module UWBFrame {
  import opened Bytes

  const FRAME_CONTROL: bv16 := 0x8841
  const PAN_ID: bv16 := 0xDECA
  const INITIATOR_ADDRESS: bv16 := 0x4556
  const RESPONDER_ADDRESS: bv16 := 0x4157

  const POLL_CODE: Byte := 0x21
  const RESPONSE_CODE: Byte := 0x10
  const FINAL_CODE: Byte := 0x23
  const RESPONSE_ACTIVITY: Byte := 0x02

  /** `sizeof` of the three packed structures. */
  const FRAME_SIZE: nat := 10
  const RESPONSE_FRAME_SIZE: nat := 11
  const DELAY_DATA_FRAME_SIZE: nat := 22

  datatype Frame = Frame(
    frameControl: bv16,
    sequenceNumber: Byte,
    panId: bv16,
    destination: bv16,
    source: bv16,
    functionCode: Byte)

  datatype ResponseFrame = ResponseFrame(base: Frame, activityCode: Byte)

  /** The Final frame: header plus the low 32 bits of three timestamps. */
  datatype DelayDataFrame = DelayDataFrame(base: Frame, tx1: bv32, rx: bv32, tx2: bv32)

  // ----- Encoding ------------------------------------------------------------

  function EncodeFrame(f: Frame): (b: seq<Byte>)
    ensures |b| == FRAME_SIZE
    ensures b[2] == f.sequenceNumber && b[9] == f.functionCode
  {
    Le16(f.frameControl) + [f.sequenceNumber] + Le16(f.panId)
      + Le16(f.destination) + Le16(f.source) + [f.functionCode]
  }

  /** Reads the packed header from the first ten bytes; re-encoding the result
      reproduces exactly those bytes, so no byte is ignored or invented. */
  function DecodeFrame(b: seq<Byte>): (f: Frame)
    requires |b| >= FRAME_SIZE
    ensures EncodeFrame(f) == b[..FRAME_SIZE]
    ensures f.sequenceNumber == b[2] && f.functionCode == b[9]
  {
    Frame(FromLe16(b[0..2]), b[2], FromLe16(b[3..5]), FromLe16(b[5..7]), FromLe16(b[7..9]), b[9])
  }

  lemma FrameRoundTrip(f: Frame)
    ensures DecodeFrame(EncodeFrame(f)) == f
  {
    var b := EncodeFrame(f);
    assert b == Le16(f.frameControl) + [f.sequenceNumber] + Le16(f.panId) + Le16(f.destination)
                + Le16(f.source) + [f.functionCode];
    assert b[0..2] == Le16(f.frameControl);
    assert b[3..5] == Le16(f.panId);
    assert b[5..7] == Le16(f.destination);
    assert b[7..9] == Le16(f.source);
    Le16RoundTrip(f.frameControl);
    Le16RoundTrip(f.panId);
    Le16RoundTrip(f.destination);
    Le16RoundTrip(f.source);
  }

  function EncodeResponse(r: ResponseFrame): (b: seq<Byte>)
    ensures |b| == RESPONSE_FRAME_SIZE
  {
    EncodeFrame(r.base) + [r.activityCode]
  }

  /** Reads the Response layout: header bytes 0-9, activity code byte 10. */
  function DecodeResponse(b: seq<Byte>): (r: ResponseFrame)
    requires |b| >= RESPONSE_FRAME_SIZE
    ensures EncodeResponse(r) == b[..RESPONSE_FRAME_SIZE]
    ensures r.base == DecodeFrame(b) && r.activityCode == b[10]
  {
    ResponseFrame(DecodeFrame(b), b[10])
  }

  lemma ResponseRoundTrip(r: ResponseFrame)
    ensures DecodeResponse(EncodeResponse(r)) == r
  {
    var b := EncodeResponse(r);
    assert b[..FRAME_SIZE] == EncodeFrame(r.base);
    FrameRoundTrip(r.base);
  }

  function EncodeDelayData(d: DelayDataFrame): (b: seq<Byte>)
    ensures |b| == DELAY_DATA_FRAME_SIZE
  {
    EncodeFrame(d.base) + Le32(d.tx1) + Le32(d.rx) + Le32(d.tx2)
  }

  /** Reads the Final layout: header bytes 0-9, then tx1, rx and tx2 as
      little-endian words at offsets 10, 14 and 18. */
  function DecodeDelayData(b: seq<Byte>): (d: DelayDataFrame)
    requires |b| >= DELAY_DATA_FRAME_SIZE
    ensures EncodeDelayData(d) == b[..DELAY_DATA_FRAME_SIZE]
    ensures d.base == DecodeFrame(b)
    ensures Le32(d.tx1) == b[10..14] && Le32(d.rx) == b[14..18] && Le32(d.tx2) == b[18..22]
  {
    var d := DelayDataFrame(DecodeFrame(b), FromLe32(b[10..14]), FromLe32(b[14..18]), FromLe32(b[18..22]));
    assert b[..DELAY_DATA_FRAME_SIZE] == b[..FRAME_SIZE] + b[10..14] + b[14..18] + b[18..22];
    d
  }

  lemma DelayDataRoundTrip(d: DelayDataFrame)
    ensures DecodeDelayData(EncodeDelayData(d)) == d
  {
    var b := EncodeDelayData(d);
    assert b[..FRAME_SIZE] == EncodeFrame(d.base);
    assert b[10..14] == Le32(d.tx1);
    assert b[14..18] == Le32(d.rx);
    assert b[18..22] == Le32(d.tx2);
    FrameRoundTrip(d.base);
    Le32RoundTrip(d.tx1);
    Le32RoundTrip(d.rx);
    Le32RoundTrip(d.tx2);
  }

  /** A receiver reads a frame from the front of a longer buffer: whatever
      follows the encoded frame, decoding gives the frame back. */
  lemma FrameReadFromBuffer(f: Frame, rest: seq<Byte>)
    ensures DecodeFrame(EncodeFrame(f) + rest) == f
  {
    var b := EncodeFrame(f) + rest;
    assert b[..FRAME_SIZE] == EncodeFrame(f);
    FrameRoundTrip(f);
    assert DecodeFrame(b) == DecodeFrame(b[..FRAME_SIZE]);
  }

  lemma ResponseReadFromBuffer(r: ResponseFrame, rest: seq<Byte>)
    ensures DecodeResponse(EncodeResponse(r) + rest) == r
  {
    var b := EncodeResponse(r) + rest;
    assert b == EncodeFrame(r.base) + ([r.activityCode] + rest);
    FrameReadFromBuffer(r.base, [r.activityCode] + rest);
  }

  lemma DelayDataReadFromBuffer(d: DelayDataFrame, rest: seq<Byte>)
    ensures DecodeDelayData(EncodeDelayData(d) + rest) == d
  {
    var b := EncodeDelayData(d) + rest;
    assert b[..DELAY_DATA_FRAME_SIZE] == EncodeDelayData(d);
    DelayDataRoundTrip(d);
    assert DecodeDelayData(b) == DecodeDelayData(b[..DELAY_DATA_FRAME_SIZE]);
  }

  // ----- The frames each role builds ----------------------------------------

  /** The initiator's Poll (`firstTxFrame`) stamped with a sequence number. */
  function PollFrame(sequenceNumber: Byte): Frame
  {
    Frame(FRAME_CONTROL, sequenceNumber, PAN_ID, RESPONDER_ADDRESS, INITIATOR_ADDRESS, POLL_CODE)
  }

  /** The Final header: the Poll header with function code 0x23. */
  function FinalHeader(sequenceNumber: Byte): Frame
  {
    PollFrame(sequenceNumber).(functionCode := FINAL_CODE)
  }

  /** The responder's reply, addressed back to the initiator. */
  function ResponseFor(sequenceNumber: Byte): ResponseFrame
  {
    ResponseFrame(
      Frame(FRAME_CONTROL, sequenceNumber, PAN_ID, INITIATOR_ADDRESS, RESPONDER_ADDRESS, RESPONSE_CODE),
      RESPONSE_ACTIVITY)
  }

  // ----- What each receiver accepts ------------------------------------------

  /** The initiator's check on a received Response. */
  predicate IsResponseForInitiator(r: ResponseFrame)
  {
    && r.base.frameControl == FRAME_CONTROL
    && r.base.panId == PAN_ID
    && r.base.destination == INITIATOR_ADDRESS
    && r.base.source == RESPONDER_ADDRESS
    && r.base.functionCode == RESPONSE_CODE
    && r.activityCode == RESPONSE_ACTIVITY
  }

  /** The responder's check on a received Poll. */
  predicate IsPollForResponder(f: Frame)
  {
    && f.frameControl == FRAME_CONTROL
    && f.panId == PAN_ID
    && f.destination == RESPONDER_ADDRESS
    && f.source == INITIATOR_ADDRESS
    && f.functionCode == POLL_CODE
  }

  /** The responder's check on a received Final; the timestamps are not checked. */
  predicate IsFinalForResponder(d: DelayDataFrame)
  {
    && d.base.frameControl == FRAME_CONTROL
    && d.base.panId == PAN_ID
    && d.base.destination == RESPONDER_ADDRESS
    && d.base.source == INITIATOR_ADDRESS
    && d.base.functionCode == FINAL_CODE
  }

  /** A header passes the Poll check exactly when it is the initiator's Poll
      for some sequence number: only the sequence number is left free. */
  lemma PollCheckIsExact(f: Frame)
    ensures IsPollForResponder(f) <==> f == PollFrame(f.sequenceNumber)
  {
  }

  lemma ResponseCheckIsExact(r: ResponseFrame)
    ensures IsResponseForInitiator(r) <==> r == ResponseFor(r.base.sequenceNumber)
  {
  }

  /** A Final passes exactly when its header is the Final header; the three
      timestamps are taken on trust. */
  lemma FinalCheckIsExact(d: DelayDataFrame)
    ensures IsFinalForResponder(d) <==> d.base == FinalHeader(d.base.sequenceNumber)
  {
  }

  /** The three stages cannot be confused: no header passes two of the checks. */
  lemma StagesAreDistinct(f: Frame, a: Byte, t1: bv32, t2: bv32, t3: bv32)
    ensures !(IsPollForResponder(f) && IsFinalForResponder(DelayDataFrame(f, t1, t2, t3)))
    ensures !(IsPollForResponder(f) && IsResponseForInitiator(ResponseFrame(f, a)))
    ensures !(IsFinalForResponder(DelayDataFrame(f, t1, t2, t3)) && IsResponseForInitiator(ResponseFrame(f, a)))
  {
  }
}
