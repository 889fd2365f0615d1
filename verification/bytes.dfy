/**
  Fixed-width unsigned integers as they lie in memory on the little-endian
  targets the firmware runs on. Every packed structure of the ranging firmware
  (UWB frames, mesh messages) is a concatenation of these encodings.
 */
module Bytes {

  type Byte = bv8

  /** A `uint16_t` in memory: low byte first. */
  function Le16(x: bv16): (b: seq<Byte>)
    ensures |b| == 2
  {
    [(x & 0xFF) as Byte, (x >> 8) as Byte]
  }

  /** The two bytes weigh 1 and 256. */
  lemma Le16Value(x: bv16)
    ensures Le16(x)[0] as bv16 + 0x100 * Le16(x)[1] as bv16 == x
  {
  }

  /** Reads a `uint16_t` from two bytes in memory; re-encoding gives the bytes back. */
  function FromLe16(b: seq<Byte>): (x: bv16)
    requires |b| == 2
    ensures Le16(x) == b
  {
    (b[0] as bv16) | ((b[1] as bv16) << 8)
  }

  lemma Le16RoundTrip(x: bv16)
    ensures FromLe16(Le16(x)) == x
  {
  }

  /** A `uint32_t` in memory: least significant byte first. */
  function Le32(x: bv32): (b: seq<Byte>)
    ensures |b| == 4
  {
    [(x & 0xFF) as Byte, ((x >> 8) & 0xFF) as Byte, ((x >> 16) & 0xFF) as Byte, (x >> 24) as Byte]
  }

  /** The four bytes weigh 1, 2^8, 2^16 and 2^24. */
  lemma Le32Value(x: bv32)
    ensures var b := Le32(x);
            b[0] as bv32 + 0x100 * b[1] as bv32 + 0x1_0000 * b[2] as bv32 + 0x100_0000 * b[3] as bv32 == x
  {
  }

  /** Reads a `uint32_t` from four bytes in memory; re-encoding gives the bytes back. */
  function FromLe32(b: seq<Byte>): (x: bv32)
    requires |b| == 4
    ensures Le32(x) == b
  {
    (b[0] as bv32) | ((b[1] as bv32) << 8) | ((b[2] as bv32) << 16) | ((b[3] as bv32) << 24)
  }

  lemma Le32RoundTrip(x: bv32)
    ensures FromLe32(Le32(x)) == x
  {
  }

  /** A `uint64_t` in memory: the low word's encoding followed by the high word's. */
  function Le64(x: bv64): (b: seq<Byte>)
    ensures |b| == 8
    ensures b[..4] == Le32((x & 0xFFFF_FFFF) as bv32)
    ensures b[4..] == Le32((x >> 32) as bv32)
  {
    Le32((x & 0xFFFF_FFFF) as bv32) + Le32((x >> 32) as bv32)
  }

  function Join(lo: bv32, hi: bv32): bv64
  {
    (lo as bv64) | ((hi as bv64) << 32)
  }

  /** Reads a `uint64_t` from eight bytes in memory; re-encoding gives the bytes back. */
  function FromLe64(b: seq<Byte>): (x: bv64)
    requires |b| == 8
    ensures Le64(x) == b
  {
    var lo := FromLe32(b[..4]);
    var hi := FromLe32(b[4..]);
    JoinEncodes(lo, hi);
    assert b == b[..4] + b[4..];
    Join(lo, hi)
  }

  lemma JoinEncodes(lo: bv32, hi: bv32)
    ensures Le64(Join(lo, hi)) == Le32(lo) + Le32(hi)
  {
    JoinLow(lo, hi);
    JoinHigh(lo, hi);
  }

  lemma JoinLow(lo: bv32, hi: bv32)
    ensures (Join(lo, hi) & 0xFFFF_FFFF) as bv32 == lo
  {
  }

  lemma JoinHigh(lo: bv32, hi: bv32)
    ensures (Join(lo, hi) >> 32) as bv32 == hi
  {
  }

  lemma Le64RoundTrip(x: bv64)
    ensures FromLe64(Le64(x)) == x
  {
    var b := Le64(x);
    Le32RoundTrip((x & 0xFFFF_FFFF) as bv32);
    Le32RoundTrip((x >> 32) as bv32);
    assert b[..4] == Le32((x & 0xFFFF_FFFF) as bv32);
    assert b[4..] == Le32((x >> 32) as bv32);
  }

  // ----- The wrapping `uint8_t` counters ----------------------------------------

  /** `s++` on a `uint8_t` wraps modulo 256. */
  lemma NextByte(s: Byte)
    ensures (s + 1) as int == (s as int + 1) % 256
  {
    assert (s + 1) as int == if s == 255 then 0 else s as int + 1;
  }

  /** The value of a `uint8_t` counter after `n` increments. */
  function Advance(s: Byte, n: nat): Byte
    decreases n
  {
    if n == 0 then s else Advance(s + 1, n - 1)
  }

  /** Counting `k` increments from `s` is counting `k - 1` from `s + 1`. */
  lemma AdvanceFromNext(s: Byte)
    ensures forall k: nat :: 1 <= k ==> Advance(s, k) == Advance(s + 1, k - 1)
  {
  }

  /** `n` increments add `n` modulo 256. */
  lemma {:induction false} AdvanceIsModulo(s: Byte, n: nat)
    ensures Advance(s, n) as int == (s as int + n) % 256
    decreases n
  {
    if n > 0 {
      AdvanceIsModulo(s + 1, n - 1);
      NextByte(s);
      ShiftModulo(s as int, n - 1);
    }
  }

  /** Reducing the first summand modulo 256 leaves the sum's residue. */
  lemma ShiftModulo(a: int, m: nat)
    ensures ((a + 1) % 256 + m) % 256 == (a + 1 + m) % 256
  {
  }

}
