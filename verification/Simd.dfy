/**
 The three SSE2 intrinsics behind the bit transpose, on a register of two 64-bit lanes, and the
 lane-shift invariant that makes the transpose read one bit column per shift.
 */
module Simd {
  import opened Blocks

  datatype Register = Register(lo: bv64, hi: bv64)

  /** Eight bytes packed into a lane, byte 0 least significant. */
  function Lane(b: seq<bv8>): bv64
    requires |b| == 8
  {
    (b[0] as bv64) | ((b[1] as bv64) << 8) | ((b[2] as bv64) << 16) | ((b[3] as bv64) << 24) |
    ((b[4] as bv64) << 32) | ((b[5] as bv64) << 40) | ((b[6] as bv64) << 48) | ((b[7] as bv64) << 56)
  }

  /** `_mm_set_epi8`, with its arguments listed lowest byte first. */
  function SetEpi8(b: seq<bv8>): Register
    requires |b| == 16
  {
    Register(Lane(b[..8]), Lane(b[8..]))
  }

  function ShiftLane(l: bv64): bv64 {
    l << 1
  }

  /** `_mm_slli_epi64(r, 1)`: each lane shifts on its own, so bits cross bytes but not lanes. */
  function SlliEpi64(r: Register): Register {
    Register(ShiftLane(r.lo), ShiftLane(r.hi))
  }

  /** The top bits of a lane's eight bytes, gathered into one byte. */
  function LaneMask(l: bv64): bv8 {
    ((((l >> 7) & 0x01) | ((l >> 14) & 0x02) | ((l >> 21) & 0x04) | ((l >> 28) & 0x08) |
      ((l >> 35) & 0x10) | ((l >> 42) & 0x20) | ((l >> 49) & 0x40) | ((l >> 56) & 0x80)) & 0xff) as bv8
  }

  /** `_mm_movemask_epi8`, as the two bytes its 16-bit result occupies in memory. */
  function MovemaskEpi8(r: Register): seq<bv8> {
    [LaneMask(r.lo), LaneMask(r.hi)]
  }

  function ShiftLaneBy(l: bv64, s: nat): bv64 {
    if s == 0 then l else ShiftLane(ShiftLaneBy(l, s - 1))
  }

  /** The register after `s` one-bit shifts. */
  function Shifted(r: Register, s: nat): Register {
    if s == 0 then r else SlliEpi64(Shifted(r, s - 1))
  }

  // ---------- one lane, byte by byte ----------

  function LaneBytes(l: bv64): (b: seq<bv8>)
    ensures |b| == 8
  {
    [(l & 0xff) as bv8, ((l >> 8) & 0xff) as bv8, ((l >> 16) & 0xff) as bv8, ((l >> 24) & 0xff) as bv8,
     ((l >> 32) & 0xff) as bv8, ((l >> 40) & 0xff) as bv8, ((l >> 48) & 0xff) as bv8, ((l >> 56) & 0xff) as bv8]
  }

  lemma LaneBytesOfLane(b: seq<bv8>)
    requires |b| == 8
    ensures LaneBytes(Lane(b)) == b
  {
  }

  /** `y` is `x` moved up by one, bit 0 aside. */
  predicate MovedUp(x: bv8, y: bv8) {
    y & 0xfe == x << 1
  }

  /** A lane shift moves each byte up by one; only bit 0 takes the carry of the byte below. */
  lemma ShiftBytes(l: bv64)
    ensures (var x, y := LaneBytes(l), LaneBytes(ShiftLane(l));
             && MovedUp(x[0], y[0]) && MovedUp(x[1], y[1]) && MovedUp(x[2], y[2]) && MovedUp(x[3], y[3])
             && MovedUp(x[4], y[4]) && MovedUp(x[5], y[5]) && MovedUp(x[6], y[6]) && MovedUp(x[7], y[7]))
  {
  }

  lemma ShiftByte(l: bv64, m: nat)
    requires m < 8
    ensures MovedUp(LaneBytes(l)[m], LaneBytes(ShiftLane(l))[m])
  {
    ShiftBytes(l);
    if m == 0 {} else if m == 1 {} else if m == 2 {} else if m == 3 {} else if m == 4 {} else if m == 5 {} else if m == 6 {} else {}
  }

  lemma ShiftByteBit(x: bv8, y: bv8, t: nat)
    requires MovedUp(x, y) && 1 <= t < 8
    ensures ByteBit(y, t) == ByteBit(x, t - 1)
  {
    ByteBits(x);
    ByteBits(y);
    if t == 1 {} else if t == 2 {} else if t == 3 {} else if t == 4 {} else if t == 5 {} else if t == 6 {} else {}
  }

  /** Bit `m` of the mask is the top bit of byte `m`. */
  lemma MaskBits(l: bv64)
    ensures (var x, y := LaneMask(l), LaneBytes(l);
             && (x & 0x01 != 0 <==> y[0] & 0x80 != 0) && (x & 0x02 != 0 <==> y[1] & 0x80 != 0)
             && (x & 0x04 != 0 <==> y[2] & 0x80 != 0) && (x & 0x08 != 0 <==> y[3] & 0x80 != 0)
             && (x & 0x10 != 0 <==> y[4] & 0x80 != 0) && (x & 0x20 != 0 <==> y[5] & 0x80 != 0)
             && (x & 0x40 != 0 <==> y[6] & 0x80 != 0) && (x & 0x80 != 0 <==> y[7] & 0x80 != 0))
  {
  }

  lemma MaskBit(l: bv64, m: nat)
    requires m < 8
    ensures ByteBit(LaneMask(l), m) == ByteBit(LaneBytes(l)[m], 7)
  {
    MaskBits(l);
    PickBit(LaneMask(l), LaneBytes(l), m);
  }

  lemma PickBit(x: bv8, y: seq<bv8>, m: nat)
    requires |y| == 8 && m < 8
    requires (x & 0x01 != 0 <==> y[0] & 0x80 != 0) && (x & 0x02 != 0 <==> y[1] & 0x80 != 0)
    requires (x & 0x04 != 0 <==> y[2] & 0x80 != 0) && (x & 0x08 != 0 <==> y[3] & 0x80 != 0)
    requires (x & 0x10 != 0 <==> y[4] & 0x80 != 0) && (x & 0x20 != 0 <==> y[5] & 0x80 != 0)
    requires (x & 0x40 != 0 <==> y[6] & 0x80 != 0) && (x & 0x80 != 0 <==> y[7] & 0x80 != 0)
    ensures ByteBit(x, m) == ByteBit(y[m], 7)
  {
    ByteBits(x);
    ByteBits(y[m]);
  }

  // ---------- the lane-shift invariant ----------

  /** Bit `t >= s` of every byte of the lane is bit `t - s` of that byte of `b`: carries stay below bit `s`. */
  predicate Tracks(l: bv64, b: seq<bv8>, s: nat)
    requires |b| == 8
  {
    forall m: nat, t: nat | m < 8 && s <= t < 8 :: ByteBit(LaneBytes(l)[m], t) == ByteBit(b[m], t - s)
  }

  lemma ShiftTracks(l: bv64, b: seq<bv8>, s: nat)
    requires |b| == 8 && Tracks(l, b, s)
    ensures Tracks(ShiftLane(l), b, s + 1)
  {
    forall m: nat, t: nat | m < 8 && s + 1 <= t < 8
      ensures ByteBit(LaneBytes(ShiftLane(l))[m], t) == ByteBit(b[m], t - (s + 1))
    {
      ShiftByte(l, m);
      ShiftByteBit(LaneBytes(l)[m], LaneBytes(ShiftLane(l))[m], t);
      assert ByteBit(LaneBytes(l)[m], t - 1) == ByteBit(b[m], t - 1 - s);
    }
  }

  /** After any number of shifts, despite the carries between bytes. */
  lemma {:induction false} LaneInvariant(b: seq<bv8>, s: nat)
    requires |b| == 8
    ensures Tracks(ShiftLaneBy(Lane(b), s), b, s)
  {
    if s == 0 {
      LaneBytesOfLane(b);
    } else {
      LaneInvariant(b, s - 1);
      ShiftTracks(ShiftLaneBy(Lane(b), s - 1), b, s - 1);
    }
  }

  /** Within seven shifts the mask of a lane reads bit `7 - s` of every byte. */
  lemma LaneColumn(b: seq<bv8>, s: nat, m: nat)
    requires |b| == 8 && s < 8 && m < 8
    ensures ByteBit(LaneMask(ShiftLaneBy(Lane(b), s)), m) == ByteBit(b[m], 7 - s)
  {
    var l := ShiftLaneBy(Lane(b), s);
    LaneInvariant(b, s);
    MaskBit(l, m);
    assert ByteBit(LaneBytes(l)[m], 7) == ByteBit(b[m], 7 - s);
  }

  lemma {:induction false} ShiftedLanes(r: Register, s: nat)
    ensures Shifted(r, s) == Register(ShiftLaneBy(r.lo, s), ShiftLaneBy(r.hi, s))
  {
    if s > 0 {
      ShiftedLanes(r, s - 1);
    }
  }

  lemma ShiftedStep(r: Register, s: nat)
    ensures SlliEpi64(Shifted(r, s)) == Shifted(r, s + 1)
  {
  }

  /** For any 16 bytes, after `s` shifts movemask reads bit `7 - s` of every byte. */
  lemma MovemaskColumn(b: seq<bv8>, s: nat, m: nat)
    requires |b| == 16 && s < 8 && m < 16
    ensures ByteBit(MovemaskEpi8(Shifted(SetEpi8(b), s))[m / 8], m % 8) == ByteBit(b[m], 7 - s)
  {
    ShiftedLanes(SetEpi8(b), s);
    if m < 8 {
      LaneColumn(b[..8], s, m);
    } else {
      LaneColumn(b[8..], s, m - 8);
    }
  }
}
