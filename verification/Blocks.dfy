/**
 The 128-bit block (`__m128i`) as the 16 bytes it occupies in memory, the bit operations the
 protocols apply to it, and the packed bit order shared by every component.
 */
module Blocks {
  import Indexing

  /** A block, byte 0 first: bit `i` of the block is bit `i % 8` of byte `i / 8`. */
  type Block = b: seq<bv8> | |b| == 16 witness [0, 0, 0, 0, 0, 0, 0, 0, 0, 0, 0, 0, 0, 0, 0, 0]

  /** Bit `k` of a byte, lowest first. */
  predicate ByteBit(x: bv8, k: nat)
    requires k < 8
  {
    if k == 0 then x & 1 == 1 else ByteBit(x >> 1, k - 1)
  }

  predicate Bit(b: Block, i: nat)
    requires i < 128
  {
    ByteBit(b[i / 8], i % 8)
  }

  function Xor(a: Block, b: Block): Block {
    seq(16, p requires 0 <= p < 16 => a[p] ^ b[p])
  }

  function And(a: Block, b: Block): Block {
    seq(16, p requires 0 <= p < 16 => a[p] & b[p])
  }

  function Zero(): Block {
    seq(16, p => 0)
  }

  /** Slot `b` of a message pair. */
  function Slot(pair: (Block, Block), b: bool): Block {
    if b then pair.1 else pair.0
  }

  /** The byte whose bits are the given ones, lowest first: each is shifted in from the top. */
  function MakeByte(b: seq<bool>): bv8 {
    if b == [] then 0 else (MakeByte(b[..|b| - 1]) >> 1) | (if b[|b| - 1] then 0x80 else 0)
  }

  /** The block whose bit `i` is `f(i)`. */
  function FromBits(f: nat -> bool): Block {
    seq(16, p requires 0 <= p < 16 => ByteFromBits(f, 8 * p))
  }

  /** Bits `at .. at + 7`. */
  function ByteFromBits(f: nat -> bool, at: nat): bv8 {
    MakeByte([f(at), f(at + 1), f(at + 2), f(at + 3), f(at + 4), f(at + 5), f(at + 6), f(at + 7)])
  }

  /** Bit `i` of the binary form of `n`. */
  predicate IntBit(n: nat, i: nat) {
    if i == 0 then n % 2 == 1 else IntBit(n / 2, i - 1)
  }

  /** `_mm_set_epi64x(0, n)`: the low lane holds the low 64 bits of `n`, the high lane is zero. */
  function LowLane(n: nat): Block {
    FromBits((i: nat) => i < 64 && IntBit(n, i))
  }

  // ---------- bits of bytes ----------

  /** A shift and a mask read one bit. */
  lemma ShiftAndMask(x: bv8, k: nat)
    requires k < 8
    ensures (x >> k) & 1 == 1 <==> ByteBit(x, k)
  {
    if k == 0 {} else if k == 1 {} else if k == 2 {} else if k == 3 {}
    else if k == 4 {} else if k == 5 {} else if k == 6 {} else {}
  }

  lemma {:induction false} ByteBitXor(x: bv8, y: bv8, k: nat)
    requires k < 8
    ensures ByteBit(x ^ y, k) == (ByteBit(x, k) != ByteBit(y, k))
  {
    if k > 0 {
      ByteBitXor(x >> 1, y >> 1, k - 1);
      assert (x ^ y) >> 1 == (x >> 1) ^ (y >> 1);
    }
  }

  lemma {:induction false} ByteBitAnd(x: bv8, y: bv8, k: nat)
    requires k < 8
    ensures ByteBit(x & y, k) == (ByteBit(x, k) && ByteBit(y, k))
  {
    if k > 0 {
      ByteBitAnd(x >> 1, y >> 1, k - 1);
      assert (x & y) >> 1 == (x >> 1) & (y >> 1);
    }
  }

  /** The eight bits of a byte, one mask each. */
  lemma ByteBits(x: bv8)
    ensures (ByteBit(x, 0) <==> x & 0x01 != 0) && (ByteBit(x, 1) <==> x & 0x02 != 0)
    ensures (ByteBit(x, 2) <==> x & 0x04 != 0) && (ByteBit(x, 3) <==> x & 0x08 != 0)
    ensures (ByteBit(x, 4) <==> x & 0x10 != 0) && (ByteBit(x, 5) <==> x & 0x20 != 0)
    ensures (ByteBit(x, 6) <==> x & 0x40 != 0) && (ByteBit(x, 7) <==> x & 0x80 != 0)
  {
    ShiftAndMask(x, 1);
    ShiftAndMask(x, 2);
    ShiftAndMask(x, 3);
    ShiftAndMask(x, 4);
    ShiftAndMask(x, 5);
    ShiftAndMask(x, 6);
    ShiftAndMask(x, 7);
  }

  lemma BytesEqual(x: bv8, y: bv8)
    requires forall k: nat | k < 8 :: ByteBit(x, k) == ByteBit(y, k)
    ensures x == y
  {
    ByteBits(x);
    ByteBits(y);
    assert ByteBit(x, 0) == ByteBit(y, 0) && ByteBit(x, 1) == ByteBit(y, 1) && ByteBit(x, 2) == ByteBit(y, 2);
    assert ByteBit(x, 3) == ByteBit(y, 3) && ByteBit(x, 4) == ByteBit(y, 4) && ByteBit(x, 5) == ByteBit(y, 5);
    assert ByteBit(x, 6) == ByteBit(y, 6) && ByteBit(x, 7) == ByteBit(y, 7);
  }

  lemma ShiftedInBit(x: bv8, top: bool, k: nat)
    requires k < 8
    ensures ByteBit((x >> 1) | (if top then 0x80 else 0), k) == if k == 7 then top else ByteBit(x, k + 1)
  {
    ByteBits((x >> 1) | (if top then 0x80 else 0));
    ByteBits(x);
    if k == 0 {} else if k == 1 {} else if k == 2 {} else if k == 3 {}
    else if k == 4 {} else if k == 5 {} else if k == 6 {} else {}
  }

  lemma {:induction false} MakeByteBit(b: seq<bool>, k: nat)
    requires k < |b| <= 8
    ensures ByteBit(MakeByte(b), 8 - |b| + k) == b[k]
  {
    var rest := b[..|b| - 1];
    ShiftedInBit(MakeByte(rest), b[|b| - 1], 8 - |b| + k);
    if k < |rest| {
      MakeByteBit(rest, k);
    }
  }

  // ---------- bits of blocks ----------

  lemma BitXor(a: Block, b: Block, i: nat)
    requires i < 128
    ensures Bit(Xor(a, b), i) == (Bit(a, i) != Bit(b, i))
  {
    ByteBitXor(a[i / 8], b[i / 8], i % 8);
  }

  lemma BitAnd(a: Block, b: Block, i: nat)
    requires i < 128
    ensures Bit(And(a, b), i) == (Bit(a, i) && Bit(b, i))
  {
    ByteBitAnd(a[i / 8], b[i / 8], i % 8);
  }

  lemma {:induction false} ZeroByteBit(k: nat)
    requires k < 8
    ensures !ByteBit(0, k)
  {
    if k > 0 {
      ZeroByteBit(k - 1);
    }
  }

  lemma BitZero(i: nat)
    requires i < 128
    ensures !Bit(Zero(), i)
  {
    ZeroByteBit(i % 8);
  }

  lemma ByteFromBitsBit(f: nat -> bool, at: nat, k: nat)
    requires k < 8
    ensures ByteBit(ByteFromBits(f, at), k) == f(at + k)
  {
    MakeByteBit([f(at), f(at + 1), f(at + 2), f(at + 3), f(at + 4), f(at + 5), f(at + 6), f(at + 7)], k);
    if k == 0 {} else if k == 1 {} else if k == 2 {} else if k == 3 {}
    else if k == 4 {} else if k == 5 {} else if k == 6 {} else {}
  }

  lemma BitFromBits(f: nat -> bool, i: nat)
    requires i < 128
    ensures Bit(FromBits(f), i) == f(i)
  {
    ByteFromBitsBit(f, 8 * (i / 8), i % 8);
  }

  /** A block is determined by its 128 bits. */
  lemma BlocksEqual(a: Block, b: Block)
    requires forall i: nat | i < 128 :: Bit(a, i) == Bit(b, i)
    ensures a == b
  {
    forall p | 0 <= p < 16 ensures a[p] == b[p] {
      forall k: nat | k < 8 ensures ByteBit(a[p], k) == ByteBit(b[p], k) {
        assert Bit(a, 8 * p + k) == Bit(b, 8 * p + k);
      }
      BytesEqual(a[p], b[p]);
    }
  }

  // ---------- XOR algebra ----------

  lemma XorSwap(a: Block, b: Block, c: Block)
    ensures Xor(Xor(a, b), c) == Xor(Xor(a, c), b)
  {
  }

  lemma XorCancel(a: Block, b: Block)
    ensures Xor(Xor(a, b), b) == a
  {
  }

  lemma XorInjective(a: Block, b: Block, c: Block)
    requires Xor(a, b) == Xor(a, c)
    ensures b == c
  {
    forall p | 0 <= p < 16 ensures b[p] == c[p] {
      assert Xor(a, b)[p] == Xor(a, c)[p];
    }
  }

  lemma XorZero(a: Block)
    ensures Xor(a, Zero()) == a
  {
  }

  lemma XorAssociative(a: Block, b: Block, c: Block)
    ensures Xor(a, Xor(b, c)) == Xor(Xor(a, b), c)
  {
  }

  lemma ZeroXor(a: Block)
    ensures Xor(Zero(), a) == a
  {
  }

  /** The correction row unmasks: `b ^ (a ^ b ^ c)` is `a ^ c`. */
  lemma XorUnmask(a: Block, b: Block, c: Block)
    ensures Xor(b, Xor(Xor(a, b), c)) == Xor(a, c)
  {
  }

  // ---------- index tweaks ----------

  /** `n` has at most `k` bits. */
  predicate FitsBits(n: nat, k: nat) {
    if k == 0 then n == 0 else FitsBits(n / 2, k - 1)
  }

  lemma {:induction false} SameBits(a: nat, b: nat, k: nat)
    requires FitsBits(a, k) && FitsBits(b, k) && forall i: nat | i < k :: IntBit(a, i) == IntBit(b, i)
    ensures a == b
  {
    if k > 0 {
      forall i: nat | i < k - 1 ensures IntBit(a / 2, i) == IntBit(b / 2, i) {
        assert IntBit(a, i + 1) == IntBit(b, i + 1);
      }
      SameBits(a / 2, b / 2, k - 1);
      assert IntBit(a, 0) == IntBit(b, 0);
    }
  }

  function Pow2(k: nat): (p: nat)
    ensures p > 0
  {
    if k == 0 then 1 else 2 * Pow2(k - 1)
  }

  lemma DivideTwice(n: nat, p: nat)
    requires p > 0
    ensures n / 2 / p == n / (2 * p)
  {
    var q, r := Euclid(n, 2 * p);
    HalvedSplit(n, p, 2 * p, q, r);
    QuotientIs(n / 2, p, q, r / 2);
  }

  lemma Euclid(n: nat, d: nat) returns (q: nat, r: nat)
    requires d > 0
    ensures q == n / d && r < d && n == d * q + r
  {
    q, r := n / d, n % d;
  }

  lemma HalvedSplit(n: nat, p: nat, d: nat, q: nat, r: nat)
    requires d == 2 * p && n == d * q + r
    ensures n / 2 == p * q + r / 2
  {
    assert n == 2 * (p * q) + r;
  }

  lemma QuotientIs(n: nat, p: nat, q: nat, r: nat)
    requires r < p && n == p * q + r
    ensures n / p == q
  {
    if n / p < q {
      Indexing.ScaledOrder(n / p + 1, q, p);
    } else if n / p > q {
      Indexing.ScaledOrder(q + 1, n / p, p);
    }
  }

  lemma {:induction false} IntBitIff(n: nat, i: nat)
    ensures IntBit(n, i) <==> n / Pow2(i) % 2 == 1
  {
    if i > 0 {
      IntBitIff(n / 2, i - 1);
      DivideTwice(n, Pow2(i - 1));
    }
  }

  /** Bits 0 to 63 of the tweak are those of the index, bits 64 to 127 are clear. */
  lemma LowLaneBits(n: nat, i: nat)
    requires i < 128
    ensures Bit(LowLane(n), i) <==> i < 64 && n / Pow2(i) % 2 == 1
  {
    BitFromBits((x: nat) => x < 64 && IntBit(n, x), i);
    IntBitIff(n, i);
  }

  /** Indices of at most 64 bits have different tweaks. */
  lemma LowLaneInjective(a: nat, b: nat)
    requires FitsBits(a, 64) && FitsBits(b, 64) && LowLane(a) == LowLane(b)
    ensures a == b
  {
    forall i: nat | i < 64 ensures IntBit(a, i) == IntBit(b, i) {
      BitFromBits((x: nat) => x < 64 && IntBit(a, x), i);
      BitFromBits((x: nat) => x < 64 && IntBit(b, x), i);
    }
    SameBits(a, b, 64);
  }

  lemma {:induction false} ZeroBits(i: nat)
    ensures !IntBit(0, i)
  {
    if i > 0 {
      ZeroBits(i - 1);
    }
  }

  /** The chain's initial block `_mm_set_epi64x(0, 0)` is zero. */
  lemma LowLaneZero()
    ensures LowLane(0) == Zero()
  {
    forall i: nat | i < 128 ensures Bit(LowLane(0), i) == Bit(Zero(), i) {
      BitFromBits((x: nat) => x < 64 && IntBit(0, x), i);
      ZeroBits(i);
      BitZero(i);
    }
    BlocksEqual(LowLane(0), Zero());
  }
}
