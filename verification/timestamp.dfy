/**
  Timestamp bookkeeping of the DS-TWR exchange on the DW3000: the radio counts
  time in ticks of a 40-bit counter; the firmware assembles 40-bit stamps from
  register reads, schedules delayed transmissions in units of 256 ticks, predicts
  the stamp a delayed frame will carry, and truncates stamps to 32 bits for the
  wire. All of it is unsigned fixed-width arithmetic, written here in bit-vectors.
 */
module Timestamp {
  import opened Bytes

  const DUMMY_ANTENNA_DELAY: bv64 := 16385
  const UUS_TO_DWT_TIME: bv64 := 63898
  const TX_DELAY: bv64 := 3400

  /** The turnaround `TX_DELAY * UUS_TO_DWT_TIME`, in ticks. */
  const TURNAROUND: bv64 := TX_DELAY * UUS_TO_DWT_TIME

  /** 2^40, the modulus of the radio's time counter. */
  const STAMP_MODULUS: bv64 := 0x100_0000_0000

  predicate IsStamp(t: bv64)
  {
    t < STAMP_MODULUS
  }

  // ----- Assembling a stamp from the two 32-bit timestamp registers ----------

  /** The "hi32" register holds bits 39..8 of a stamp. */
  function HiRegister(t: bv64): bv32
  {
    ((t >> 8) & 0xFFFF_FFFF) as bv32
  }

  /** The "lo32" register holds bits 31..0 of a stamp. */
  function LoRegister(t: bv64): bv32
  {
    (t & 0xFFFF_FFFF) as bv32
  }

  /** `ts = 0; ts |= hi; ts <<= 8; ts |= lo;` on a `uint64_t`: whatever the
      registers hold, the result fits in the 40-bit counter range. */
  function Compose(hi: bv32, lo: bv32): (t: bv64)
    ensures IsStamp(t)
  {
    ((hi as bv64) << 8) | (lo as bv64)
  }

  /** Reading back the registers of any 40-bit stamp gives the stamp. */
  lemma ComposeReadsBack(t: bv64)
    requires IsStamp(t)
    ensures Compose(HiRegister(t), LoRegister(t)) == t
  {
  }

  // ----- Truncation for the wire ---------------------------------------------

  /** `(uint32_t)x`. */
  function Low32(x: bv64): bv32
  {
    (x & 0xFFFF_FFFF) as bv32
  }

  /** The truncation keeps the stamp modulo 2^32. */
  lemma Low32IsModulo(x: bv64)
    ensures Low32(x) as bv64 == x % 0x1_0000_0000
  {
  }

  /** A 32-bit field read into a `uint64_t`. */
  function Widen(x: bv32): bv64
  {
    x as bv64
  }

  /** A stamp as carried in a Final: it fits in 32 bits. */
  predicate IsWireStamp(t: bv64)
  {
    t < 0x1_0000_0000
  }

  /** Widening a 32-bit wire field back to `uint64_t` keeps it below 2^32. */
  lemma WidenedIsWire(x: bv32)
    ensures IsWireStamp(Widen(x))
  {
  }

  // ----- Delayed transmission -------------------------------------------------

  /** The value handed to `dwt_setdelayedtrxtime`:
      `(uint32_t)((rx + TX_DELAY * UUS_TO_DWT_TIME) >> 8)` over `uint64_t`. */
  function DelayedTxTime(rx: bv64): bv32
  {
    (((rx + TURNAROUND) >> 8) & 0xFFFF_FFFF) as bv32
  }

  /** The delayed time counts units of 256 ticks, modulo 2^32. */
  lemma DelayedTxTimeIsQuotient(rx: bv64)
    ensures DelayedTxTime(rx) as bv64 == ((rx + TURNAROUND) / 256) % 0x1_0000_0000
  {
  }

  /** The instant one turnaround after `rx` on the 40-bit counter, which
      keeps only the low 40 bits of the sum. */
  function ScheduledInstant(rx: bv64): bv64
  {
    (rx + TURNAROUND) & (STAMP_MODULUS - 1)
  }

  /** An arrival in the last turnaround before the counter wraps: the sum
      passes 2^40, and the 32-bit truncation of its quotient drops exactly
      2^40 from it. */
  lemma DelayedTxTimeWraps(rx: bv64)
    requires IsStamp(rx) && rx >= STAMP_MODULUS - TURNAROUND
    ensures DelayedTxTime(rx) as bv64 == (rx + TURNAROUND - STAMP_MODULUS) / 256
  {
    DelayedTxTimeIsQuotient(rx);
  }

  /** Before the wrap the scheduled instant is the plain sum. */
  lemma ScheduledBeforeWrap(rx: bv64)
    requires rx < STAMP_MODULUS - TURNAROUND
    ensures ScheduledInstant(rx) == rx + TURNAROUND
  {
  }

  /** Past the wrap the scheduled instant is the sum less 2^40. */
  lemma ScheduledAfterWrap(rx: bv64)
    requires IsStamp(rx) && rx >= STAMP_MODULUS - TURNAROUND
    ensures ScheduledInstant(rx) == rx + TURNAROUND - STAMP_MODULUS
  {
  }

  lemma RoundsDownBeforeWrap(rx: bv64)
    requires rx < STAMP_MODULUS - TURNAROUND
    ensures DelayedTxTime(rx) as bv64 * 256 <= rx + TURNAROUND < DelayedTxTime(rx) as bv64 * 256 + 256
  {
  }

  lemma RoundsDownAfterWrap(rx: bv64)
    requires IsStamp(rx) && rx >= STAMP_MODULUS - TURNAROUND
    ensures DelayedTxTime(rx) as bv64 * 256 <= rx + TURNAROUND - STAMP_MODULUS < DelayedTxTime(rx) as bv64 * 256 + 256
  {
    DelayedTxTimeWraps(rx);
  }

  /** 256 times the delayed time is the scheduled instant, wrapped onto the
      40-bit counter, rounded down to a multiple of 256 ticks. */
  lemma DelayedTxTimeRoundsDown(rx: bv64)
    requires IsStamp(rx)
    ensures DelayedTxTime(rx) as bv64 * 256 <= ScheduledInstant(rx) < DelayedTxTime(rx) as bv64 * 256 + 256
  {
    if rx < STAMP_MODULUS - TURNAROUND {
      ScheduledBeforeWrap(rx);
      RoundsDownBeforeWrap(rx);
    } else {
      ScheduledAfterWrap(rx);
      RoundsDownAfterWrap(rx);
    }
  }

  /** The stamp the delayed frame is predicted to carry:
      `((uint64_t)(t & 0xFFFFFFFE) << 8) + DUMMY_ANTENNA_DELAY`. */
  function PredictedTxStamp(t: bv32): bv64
  {
    (((t & 0xFFFF_FFFE) as bv64) << 8) + DUMMY_ANTENNA_DELAY
  }

  /** The radio ignores the lowest bit of the delayed time: the prediction is
      the antenna delay past the even unit at or below `t`. */
  lemma PredictionDropsLowBit(t: bv32)
    ensures PredictedTxStamp(t) >= DUMMY_ANTENNA_DELAY
    ensures PredictedTxStamp(t) - DUMMY_ANTENNA_DELAY == ((t as bv64) / 2) * 512
  {
  }

  /** Without the antenna delay the prediction is a multiple of 512 ticks
      inside the 40-bit counter range. */
  lemma PredictionAligned(t: bv32)
    ensures (PredictedTxStamp(t) - DUMMY_ANTENNA_DELAY) % 512 == 0
    ensures PredictedTxStamp(t) - DUMMY_ANTENNA_DELAY < STAMP_MODULUS
  {
  }

  /** The predicted stamp of a frame scheduled one turnaround after `rx` lies,
      antenna delay aside, in the 512-tick window ending at that instant on
      the 40-bit counter, across the wrap too. */
  lemma PredictionWithinWindow(rx: bv64)
    requires IsStamp(rx)
    ensures PredictedTxStamp(DelayedTxTime(rx)) - DUMMY_ANTENNA_DELAY <= ScheduledInstant(rx)
    ensures ScheduledInstant(rx) < PredictedTxStamp(DelayedTxTime(rx)) - DUMMY_ANTENNA_DELAY + 512
  {
    DelayedTxTimeRoundsDown(rx);
    PredictionDropsLowBit(DelayedTxTime(rx));
  }

  // ----- Assembling a stamp from a 5-byte dump -------------------------------

  /** The five bytes `dwt_readtxtimestamp` / `dwt_readrxtimestamp` write. */
  type StampBytes = s: seq<Byte> | |s| == 5 witness [0, 0, 0, 0, 0]

  /** The bytes a 40-bit stamp is dumped as, least significant first. */
  function BytesOfStamp(t: bv64): StampBytes
  {
    [ (t & 0xFF) as Byte, ((t >> 8) & 0xFF) as Byte, ((t >> 16) & 0xFF) as Byte,
      ((t >> 24) & 0xFF) as Byte, ((t >> 32) & 0xFF) as Byte ]
  }

  /** The sum over i in 0..4 of `tab[i] * 256^i`. */
  function StampOfBytes(tab: StampBytes): bv64
  {
    tab[0] as bv64 + 0x100 * tab[1] as bv64 + 0x1_0000 * tab[2] as bv64
      + 0x100_0000 * tab[3] as bv64 + 0x1_0000_0000 * tab[4] as bv64
  }

  /** Every dump assembles to a 40-bit stamp, the stamp whose dump it is. */
  lemma DumpIsStamp(tab: StampBytes)
    ensures IsStamp(StampOfBytes(tab))
    ensures BytesOfStamp(StampOfBytes(tab)) == tab
  {
  }

  /** The two ways the firmware reads a stamp agree: the register pair and the
      byte dump of the same stamp assemble to that stamp. */
  lemma ReadoutsAgree(t: bv64)
    requires IsStamp(t)
    ensures StampOfBytes(BytesOfStamp(t)) == t
    ensures StampOfBytes(BytesOfStamp(t)) == Compose(HiRegister(t), LoRegister(t))
  {
    DumpReadsBack(t);
    ComposeReadsBack(t);
  }

  lemma DumpReadsBack(t: bv64)
    requires IsStamp(t)
    ensures StampOfBytes(BytesOfStamp(t)) == t
  {
  }

  /** The value of `ts` after the loop has consumed `tab[from..]`, highest
      index first: `ts <<= 8; ts |= tab[i]` for i = |tab|-1 down to `from`. */
  function Horner(tab: seq<Byte>, from: nat): bv64
    requires from <= |tab|
    decreases |tab| - from
  {
    if from == |tab| then 0 else (Horner(tab, from + 1) << 8) | tab[from] as bv64
  }

  lemma HornerAt(tab: seq<Byte>, j: nat)
    requires j < |tab|
    ensures Horner(tab, j) == (Horner(tab, j + 1) << 8) | tab[j] as bv64
  {
  }

  function Nested(a: Byte, b: Byte, c: Byte, d: Byte, e: Byte): bv64
  {
    ((((((((e as bv64) << 8) | d as bv64) << 8) | c as bv64) << 8) | b as bv64) << 8) | a as bv64
  }

  /** Shifting in five bytes, highest first, computes their weighted sum. */
  lemma NestedIsSum(a: Byte, b: Byte, c: Byte, d: Byte, e: Byte)
    ensures Nested(a, b, c, d, e)
         == a as bv64 + 0x100 * b as bv64 + 0x1_0000 * c as bv64 + 0x100_0000 * d as bv64 + 0x1_0000_0000 * e as bv64
  {
  }

  lemma HornerUnfold(tab: StampBytes)
    ensures Horner(tab, 0) == Nested(tab[0], tab[1], tab[2], tab[3], tab[4])
  {
    assert Horner(tab, 5) == 0;
    HornerAt(tab, 4);
    HornerAt(tab, 3);
    HornerAt(tab, 2);
    HornerAt(tab, 1);
    HornerAt(tab, 0);
  }

  lemma HornerOfDump(tab: StampBytes)
    ensures Horner(tab, 0) == StampOfBytes(tab)
  {
    HornerUnfold(tab);
    NestedIsSum(tab[0], tab[1], tab[2], tab[3], tab[4]);
  }

  /** `get_tx_timestamp_u64` / `get_rx_timestamp_u64` after the dump:
      for i from 4 down to 0, `ts <<= 8; ts |= ts_tab[i]`. */
  method ReadStampBytes(tab: StampBytes) returns (ts: bv64)
    ensures ts == StampOfBytes(tab)
    ensures IsStamp(ts)
  {
    ts := 0;
    var i: int := 4;
    while i >= 0
      invariant -1 <= i <= 4
      invariant ts == Horner(tab, i + 1)
    {
      HornerAt(tab, i);
      ts := ts << 8;
      ts := ts | tab[i] as bv64;
      i := i - 1;
    }
    HornerOfDump(tab);
    DumpIsStamp(tab);
  }
}
