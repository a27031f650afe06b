/**
 A `std::vector<block>` seen through a byte pointer: byte addressing, packed bit access, and the
 byte strings that `send_block` and `recv_block` put on the wire.
 */
module Memory {
  import opened Blocks

  /** Byte `p` of the buffer that holds the blocks `v`. */
  function ByteAt(v: seq<Block>, p: nat): bv8
    requires p < 16 * |v|
  {
    v[p / 16][p % 16]
  }

  /** `bit_from_blocks` */
  predicate BitFromBlocks(input: seq<Block>, idsOfBits: nat)
    requires idsOfBits < 128 * |input|
  {
    ByteBit(ByteAt(input, idsOfBits / 8), idsOfBits % 8)
  }

  /** The wire form of a run of blocks. */
  function Flatten(v: seq<Block>): (s: seq<bv8>)
    ensures |s| == 16 * |v|
  {
    seq(16 * |v|, p requires 0 <= p < 16 * |v| => ByteAt(v, p))
  }

  /** The blocks a receiver reads back from wire bytes. */
  function Parse(s: seq<bv8>): (v: seq<Block>)
    requires |s| % 16 == 0
    ensures |v| == |s| / 16
  {
    seq(|s| / 16, c requires 0 <= c < |s| / 16 => s[16 * c..16 * c + 16])
  }

  /** Packed bit `i` of a buffer is bit `i % 128` of its block `i / 128`. */
  lemma PackedBitOrder(v: seq<Block>, i: nat)
    requires i < 128 * |v|
    ensures BitFromBlocks(v, i) == Bit(v[i / 128], i % 128)
  {
    ByteOfBit(i / 128, i % 128, i);
  }

  /** The byte and bit within it, counted from the start of the buffer and from the start of the block. */
  lemma ByteOfBit(w: nat, t: nat, i: nat)
    requires t < 128 && i == 128 * w + t
    ensures i / 8 / 16 == w && i / 8 % 16 == t / 8 && i % 8 == t % 8
  {
    assert i / 8 == 16 * w + t / 8;
  }

  /** The source computes that bit by a byte load, a shift and a mask. */
  lemma LoadShiftMask(v: seq<Block>, i: nat)
    requires i < 128 * |v|
    ensures BitFromBlocks(v, i) <==> (ByteAt(v, i / 8) >> (i % 8)) & 1 == 1
  {
    ShiftAndMask(ByteAt(v, i / 8), i % 8);
  }

  /** Byte `b` of block `c` is byte `16c + b` on the wire. */
  lemma FlattenAt(v: seq<Block>, c: nat, b: nat)
    requires c < |v| && b < 16
    ensures Flatten(v)[16 * c + b] == v[c][b]
  {
    assert (16 * c + b) / 16 == c && (16 * c + b) % 16 == b;
  }

  lemma ParseAt(s: seq<bv8>, c: nat, b: nat)
    requires |s| % 16 == 0 && c < |s| / 16 && b < 16
    ensures Parse(s)[c][b] == s[16 * c + b]
  {
  }

  lemma ParseFlatten(v: seq<Block>)
    ensures Parse(Flatten(v)) == v
  {
    var s := Flatten(v);
    forall c | 0 <= c < |v| ensures s[16 * c..16 * c + 16] == v[c] {
      forall b | 0 <= b < 16 ensures s[16 * c + b] == v[c][b] {
        assert (16 * c + b) / 16 == c && (16 * c + b) % 16 == b;
      }
    }
  }

  lemma FlattenParse(s: seq<bv8>)
    requires |s| % 16 == 0
    ensures Flatten(Parse(s)) == s
  {
  }
}
