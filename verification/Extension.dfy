/**
 What the two OT extensions share: generator rows selected by secret bits, the columns that a tiled
 bit transpose reads, and the algebra that relates the two.
 */
module Extension {
  import opened Blocks
  import opened Indexing
  import opened Memory
  import opened Primitives

  // ---------- bit matrices stored as rows of blocks ----------

  /** Bit `r` of row `i`. */
  predicate RowBit(m: seq<seq<Block>>, i: nat, r: nat)
    requires i < |m| && r < 128 * |m[i]|
  {
    Bit(m[i][r / 128], r % 128)
  }

  /** Bits `128j .. 128j+127` of column `r`, as a block. */
  function Column(m: seq<seq<Block>>, j: nat, r: nat): Block
    requires 128 * j + 128 <= |m| && forall i | 0 <= i < |m| :: r < 128 * |m[i]|
  {
    FromBits((k: nat) => k < 128 && RowBit(m, 128 * j + k, r))
  }

  lemma ColumnBit(m: seq<seq<Block>>, j: nat, r: nat, k: nat)
    requires 128 * j + 128 <= |m| && forall i | 0 <= i < |m| :: r < 128 * |m[i]|
    requires k < 128
    ensures Bit(Column(m, j, r), k) == RowBit(m, 128 * j + k, r)
  {
    BitFromBits((k: nat) => k < 128 && RowBit(m, 128 * j + k, r), k);
  }

  /** Choosing each row from `a` or `b` by a bit of `s` masks the difference of the columns with `s`. */
  lemma SelectedColumn(a: seq<seq<Block>>, b: seq<seq<Block>>, q: seq<seq<Block>>, s: Block, rows: nat, cols: nat,
                       j: nat, r: nat)
    requires Dims(a, rows, cols) && Dims(b, rows, cols) && Dims(q, rows, cols)
    requires 128 * j + 128 <= rows && r < 128 * cols
    requires forall k: nat | k < 128 :: q[128 * j + k] == if Bit(s, k) then b[128 * j + k] else a[128 * j + k]
    ensures Column(q, j, r) == Xor(Column(a, j, r), And(s, Xor(Column(a, j, r), Column(b, j, r))))
  {
    var ca, cb, cq := Column(a, j, r), Column(b, j, r), Column(q, j, r);
    forall k: nat | k < 128 ensures Bit(cq, k) == Bit(Xor(ca, And(s, Xor(ca, cb))), k) {
      ColumnBit(a, j, r, k);
      ColumnBit(b, j, r, k);
      ColumnBit(q, j, r, k);
      assert RowBit(q, 128 * j + k, r) == if Bit(s, k) then RowBit(b, 128 * j + k, r) else RowBit(a, 128 * j + k, r);
      BitXor(ca, And(s, Xor(ca, cb)), k);
      BitAnd(s, Xor(ca, cb), k);
      BitXor(ca, cb, k);
    }
    BlocksEqual(cq, Xor(ca, And(s, Xor(ca, cb))));
  }

  /** Flipping the bits of a column that `s` has set XORs the column with `s`. */
  lemma FlippedColumn(a: seq<seq<Block>>, q: seq<seq<Block>>, s: Block, cols: nat, r: nat, flip: bool)
    requires Dims(a, 128, cols) && Dims(q, 128, cols) && r < 128 * cols
    requires forall k: nat | k < 128 :: RowBit(q, k, r) == (RowBit(a, k, r) != (Bit(s, k) && flip))
    ensures Column(q, 0, r) == if flip then Xor(Column(a, 0, r), s) else Column(a, 0, r)
  {
    forall k: nat | k < 128
      ensures Bit(Column(q, 0, r), k) == (Bit(Column(a, 0, r), k) != (Bit(s, k) && flip))
    {
      ColumnBit(a, 0, r, k);
      ColumnBit(q, 0, r, k);
    }
    FlippedBlock(Column(a, 0, r), Column(q, 0, r), s, flip);
  }

  lemma FlippedBlock(a: Block, q: Block, s: Block, flip: bool)
    requires forall k: nat | k < 128 :: Bit(q, k) == (Bit(a, k) != (Bit(s, k) && flip))
    ensures q == if flip then Xor(a, s) else a
  {
    var expected := if flip then Xor(a, s) else a;
    forall k: nat | k < 128 ensures Bit(q, k) == Bit(expected, k) {
      BitXor(a, s, k);
    }
    BlocksEqual(q, expected);
  }

  /** XORing row `k` with `x` where bit `k` of `s` is set XORs `s` into the columns where `x` has a one. */
  lemma CorrectedColumn(a: seq<seq<Block>>, q: seq<seq<Block>>, s: seq<Block>, x: seq<Block>, cols: nat, r: nat)
    requires Dims(a, 128, cols) && Dims(q, 128, cols) && 1 <= |s| && cols <= |x| && r < 128 * cols
    requires forall k: nat, c: nat {:trigger q[k][c]} | k < 128 && c < cols ::
      q[k][c] == if BitFromBlocks(s, k) then Xor(a[k][c], x[c]) else a[k][c]
    ensures Column(q, 0, r) == if BitFromBlocks(x, r) then Xor(Column(a, 0, r), s[0]) else Column(a, 0, r)
  {
    forall k: nat | k < 128 ensures RowBit(q, k, r) == (RowBit(a, k, r) != (Bit(s[0], k) && BitFromBlocks(x, r))) {
      var c := r / 128;
      var entry := q[k][c];
      assert entry == if BitFromBlocks(s, k) then Xor(a[k][c], x[c]) else a[k][c];
      PackedBitOrder(s, k);
      CorrectedBit(a, q, s[0], x, cols, r, k);
    }
    FlippedColumn(a, q, s[0], cols, r, BitFromBlocks(x, r));
  }

  lemma CorrectedBit(a: seq<seq<Block>>, q: seq<seq<Block>>, s: Block, x: seq<Block>, cols: nat, r: nat, k: nat)
    requires Dims(a, 128, cols) && Dims(q, 128, cols) && cols <= |x| && r < 128 * cols && k < 128
    requires q[k][r / 128] == if Bit(s, k) then Xor(a[k][r / 128], x[r / 128]) else a[k][r / 128]
    ensures RowBit(q, k, r) == (RowBit(a, k, r) != (Bit(s, k) && BitFromBlocks(x, r)))
  {
    PackedBitOrder(x, r);
    BitXor(a[k][r / 128], x[r / 128], r % 128);
  }

  /** Transposition distributes over XOR of rows. */
  lemma ColumnXor(a: seq<seq<Block>>, b: seq<seq<Block>>, q: seq<seq<Block>>, rows: nat, cols: nat, j: nat, r: nat)
    requires Dims(a, rows, cols) && Dims(b, rows, cols) && Dims(q, rows, cols)
    requires 128 * j + 128 <= rows && r < 128 * cols
    requires forall i: nat, c: nat | i < rows && c < cols :: q[i][c] == Xor(a[i][c], b[i][c])
    ensures Column(q, j, r) == Xor(Column(a, j, r), Column(b, j, r))
  {
    var ca, cb, cq := Column(a, j, r), Column(b, j, r), Column(q, j, r);
    forall k: nat | k < 128 ensures Bit(cq, k) == Bit(Xor(ca, cb), k) {
      ColumnBit(a, j, r, k);
      ColumnBit(b, j, r, k);
      ColumnBit(q, j, r, k);
      BitXor(ca, cb, k);
      BitXor(a[128 * j + k][r / 128], b[128 * j + k][r / 128], r % 128);
      assert q[128 * j + k][r / 128] == Xor(a[128 * j + k][r / 128], b[128 * j + k][r / 128]);
    }
    BlocksEqual(cq, Xor(ca, cb));
  }

  // ---------- generators ----------

  /** `set_base_ots` of an extension sender: a generator per base key. */
  function Seed<S>(p: Primitives<S>, keys: seq<Block>): (prng: seq<S>)
    ensures |prng| == |keys|
  {
    seq(|keys|, i requires 0 <= i < |keys| => p.create(keys[i]))
  }

  /** `set_base_ots` of an extension receiver: two generators per pair of base keys. */
  function SeedPairs<S>(p: Primitives<S>, keys: seq<(Block, Block)>): (pairs: seq<(S, S)>)
    ensures |pairs| == |keys|
  {
    seq(|keys|, i requires 0 <= i < |keys| => (p.create(keys[i].0), p.create(keys[i].1)))
  }

  /** Where different seeds give different states, different keys seed different generators, index by index. */
  lemma SeedsTellKeys<S>(p: Primitives<S>, keys: seq<Block>, keys': seq<Block>, i: nat)
    requires forall a: Block, b: Block :: p.create(a) == p.create(b) ==> a == b
    requires i < |keys| && i < |keys'|
    ensures Seed(p, keys)[i] == Seed(p, keys')[i] <==> keys[i] == keys'[i]
  {
  }

  lemma SeedPairsTellKeys<S>(p: Primitives<S>, keys: seq<(Block, Block)>, keys': seq<(Block, Block)>, i: nat)
    requires forall a: Block, b: Block :: p.create(a) == p.create(b) ==> a == b
    requires i < |keys| && i < |keys'|
    ensures SeedPairs(p, keys)[i] == SeedPairs(p, keys')[i] <==> keys[i] == keys'[i]
  {
  }

  /** One row of `cols` blocks from each of the first `rows` generators. */
  function GenerateRows<S>(p: Primitives<S>, prng: seq<S>, rows: nat, cols: nat): (m: seq<seq<Block>>)
    requires rows <= |prng|
    ensures Dims(m, rows, cols)
  {
    seq(rows, i requires 0 <= i < rows => Generate(p, prng[i], cols))
  }

  function AdvanceRows<S>(p: Primitives<S>, prng: seq<S>, rows: nat, cols: nat): (prng': seq<S>)
    ensures |prng'| == |prng|
  {
    seq(|prng|, i requires 0 <= i < |prng| => if i < rows then Advance(p, prng[i], cols) else prng[i])
  }

  /** The generators at position 0 (or, with `b`, position 1) of every pair. */
  function Side<S>(pairs: seq<(S, S)>, b: bool): (prng: seq<S>)
    ensures |prng| == |pairs|
  {
    seq(|pairs|, i requires 0 <= i < |pairs| => if b then pairs[i].1 else pairs[i].0)
  }

  function AdvancePairs<S>(p: Primitives<S>, pairs: seq<(S, S)>, rows: nat, cols: nat): (pairs': seq<(S, S)>)
    ensures |pairs'| == |pairs|
  {
    seq(|pairs|, i requires 0 <= i < |pairs| =>
      if i < rows then (Advance(p, pairs[i].0, cols), Advance(p, pairs[i].1, cols)) else pairs[i])
  }

  /** Lockstep: generator `i` of the sender is in the state of the receiver's generator that bit `i` selects. */
  predicate Matched<S(==)>(choices: seq<Block>, prng: seq<S>, pairs: seq<(S, S)>, rows: nat) {
    && rows <= 128 * |choices| && rows <= |prng| && rows <= |pairs|
    && forall i: nat | i < rows :: prng[i] == if BitFromBlocks(choices, i) then pairs[i].1 else pairs[i].0
  }

  lemma MatchedAdvance<S>(p: Primitives<S>, choices: seq<Block>, prng: seq<S>, pairs: seq<(S, S)>, rows: nat, cols: nat)
    requires Matched(choices, prng, pairs, rows)
    ensures Matched(choices, AdvanceRows(p, prng, rows, cols), AdvancePairs(p, pairs, rows, cols), rows)
  {
  }

  /** In lockstep, each sender row is the receiver row that the sender's bit selects. */
  lemma MatchedRows<S>(p: Primitives<S>, choices: seq<Block>, prng: seq<S>, pairs: seq<(S, S)>, rows: nat, cols: nat,
                       i: nat)
    requires Matched(choices, prng, pairs, rows) && i < rows
    ensures GenerateRows(p, prng, rows, cols)[i]
         == GenerateRows(p, Side(pairs, Bit(choices[i / 128], i % 128)), rows, cols)[i]
  {
    PackedBitOrder(choices, i);
  }

  /**
   `set_base_ots` adds to an earlier setup instead of replacing it: the old seeds stay in front while the
   new choices move in front of the old ones. After a second call on both sides the generators the rounds
   use are in lockstep exactly when, at every index, the two choice vectors have the same bit or the two
   old generators of the receiver are the same anyway.
   */
  lemma SecondSetupMatchesIff<S>(choices: seq<Block>, prng: seq<S>, pairs: seq<(S, S)>,
                                 choices': seq<Block>, prng': seq<S>, pairs': seq<(S, S)>, rows: nat)
    requires Matched(choices, prng, pairs, rows) && rows <= 128 * |choices'|
    ensures Matched(choices' + choices, prng + prng', pairs + pairs', rows)
       <==> forall i: nat | i < rows :: BitFromBlocks(choices', i) == BitFromBlocks(choices, i) || pairs[i].0 == pairs[i].1
  {
    forall i: nat | i < rows ensures BitFromBlocks(choices' + choices, i) == BitFromBlocks(choices', i) {
      PackedBitOrder(choices' + choices, i);
      PackedBitOrder(choices', i);
    }
  }
}
