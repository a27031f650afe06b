/**
 The IKNP extension as functions of the parties' states, and the relation between the message pairs of
 the sender and the messages of the receiver.
 */
module Iknp {
  import opened Blocks
  import opened Indexing
  import opened Memory
  import opened Primitives
  import opened Extension

  /** The matrix the receiver sends: row `i` is `t0[i] ^ t1[i] ^ choices`. */
  function CorrectionMatrix<S>(p: Primitives<S>, pairs: seq<(S, S)>, choices: seq<Block>,
                               cols: nat): (m: seq<seq<Block>>)
    requires 128 <= |pairs| && cols <= |choices|
    ensures Dims(m, 128, cols)
  {
    var t0 := GenerateRows(p, Side(pairs, false), 128, cols);
    var t1 := GenerateRows(p, Side(pairs, true), 128, cols);
    seq(128, i requires 0 <= i < 128 => CorrectionRow(t0[i], t1[i], choices, cols))
  }

  function CorrectionRow(t0: seq<Block>, t1: seq<Block>, choices: seq<Block>, cols: nat): (row: seq<Block>)
    requires |t0| == cols && |t1| == cols && cols <= |choices|
    ensures |row| == cols
  {
    seq(cols, j requires 0 <= j < cols => Xor(Xor(t0[j], t1[j]), choices[j]))
  }

  /** Column `i`, tweaked by its index. */
  function Tweaked(m: seq<seq<Block>>, cols: nat, i: nat): Block
    requires Dims(m, 128, cols) && i < 128 * cols
  {
    Xor(Column(m, 0, i), LowLane(i))
  }

  /** The tweaked column is bit `i` of every row, with the binary form of `i` XORed into bits 0 to 63. */
  lemma TweakedBits(m: seq<seq<Block>>, cols: nat, i: nat, b: nat)
    requires Dims(m, 128, cols) && i < 128 * cols && b < 128
    ensures Bit(Tweaked(m, cols, i), b) <==> RowBit(m, b, i) != (b < 64 && i / Pow2(b) % 2 == 1)
  {
    ColumnBit(m, 0, i, b);
    LowLaneBits(i, b);
    BitXor(Column(m, 0, i), LowLane(i), b);
  }

  /** The tweak keeps equal columns at different indices apart, for indices of at most 64 bits. */
  lemma TweaksSeparate(m: seq<seq<Block>>, cols: nat, i: nat, j: nat)
    requires Dims(m, 128, cols) && i < 128 * cols && j < 128 * cols
    requires FitsBits(i, 64) && FitsBits(j, 64) && Column(m, 0, i) == Column(m, 0, j)
    ensures Tweaked(m, cols, i) == Tweaked(m, cols, j) <==> i == j
  {
    if Tweaked(m, cols, i) == Tweaked(m, cols, j) {
      XorInjective(Column(m, 0, i), LowLane(i), LowLane(j));
      LowLaneInjective(i, j);
    }
  }

  /** The receiver's message `i`: the hash of column `i` of `t0`, tweaked by the index. */
  function ReceiverMessages<S>(p: Primitives<S>, pairs: seq<(S, S)>, cols: nat): (messages: seq<Block>)
    requires 128 <= |pairs|
    ensures |messages| == 128 * cols
  {
    var t0 := GenerateRows(p, Side(pairs, false), 128, cols);
    seq<Block>(128 * cols, i requires 0 <= i < 128 * cols => p.hash(Tweaked(t0, cols, i)))
  }

  /** The sender's rows: a generator row, corrected by the received row where its secret bit is set. */
  function SenderMatrix<S>(p: Primitives<S>, secret: seq<Block>, prng: seq<S>, received: seq<seq<Block>>,
                           cols: nat): (m: seq<seq<Block>>)
    requires 1 <= |secret| && 128 <= |prng| && Dims(received, 128, cols)
    ensures Dims(m, 128, cols)
  {
    var g := GenerateRows(p, prng, 128, cols);
    seq(128, i requires 0 <= i < 128 => CorrectedRow(g[i], received[i], BitFromBlocks(secret, i)))
  }

  function CorrectedRow(g: seq<Block>, u: seq<Block>, correct: bool): (row: seq<Block>)
    requires |g| == |u|
    ensures |row| == |g|
  {
    if correct then seq(|g|, j requires 0 <= j < |g| => Xor(g[j], u[j])) else g
  }

  /** The sender's pair `i`: the tweaked column hashed as it is, and with the whole secret XORed in. */
  function SenderMessages<S>(p: Primitives<S>, secret: seq<Block>, prng: seq<S>, received: seq<seq<Block>>,
                             cols: nat): (messages: seq<(Block, Block)>)
    requires 1 <= |secret| && 128 <= |prng| && Dims(received, 128, cols)
    ensures |messages| == 128 * cols
  {
    var q := SenderMatrix(p, secret, prng, received, cols);
    seq(128 * cols, i requires 0 <= i < 128 * cols =>
      (p.hash(Tweaked(q, cols, i)), p.hash(Xor(Tweaked(q, cols, i), secret[0]))))
  }

  /** An entry of the sender's matrix, from the four rows it depends on. */
  lemma SenderEntry<S>(p: Primitives<S>, secret: seq<Block>, prng: seq<S>, pairs: seq<(S, S)>, choices: seq<Block>,
                       cols: nat, k: nat, c: nat)
    requires 1 <= |secret| && 128 <= |prng| && 128 <= |pairs| && cols <= |choices| && k < 128 && c < cols
    ensures (var g := GenerateRows(p, prng, 128, cols)[k][c];
             var t0 := GenerateRows(p, Side(pairs, false), 128, cols)[k][c];
             var t1 := GenerateRows(p, Side(pairs, true), 128, cols)[k][c];
             SenderMatrix(p, secret, prng, CorrectionMatrix(p, pairs, choices, cols), cols)[k][c]
             == if BitFromBlocks(secret, k) then Xor(g, Xor(Xor(t0, t1), choices[c])) else g)
  {
  }

  /** In lockstep the sender's rows are `t0`, with the choices XORed in where its secret bit is set. */
  lemma SenderMatrixRelation<S>(p: Primitives<S>, secret: seq<Block>, prng: seq<S>, pairs: seq<(S, S)>,
                                choices: seq<Block>,
                                cols: nat, k: nat, c: nat)
    requires Matched(secret, prng, pairs, 128) && cols <= |choices| && k < 128 && c < cols
    ensures (var t0 := GenerateRows(p, Side(pairs, false), 128, cols);
             SenderMatrix(p, secret, prng, CorrectionMatrix(p, pairs, choices, cols), cols)[k][c]
             == if BitFromBlocks(secret, k) then Xor(t0[k][c], choices[c]) else t0[k][c])
  {
    var g := GenerateRows(p, prng, 128, cols);
    var t0 := GenerateRows(p, Side(pairs, false), 128, cols);
    var t1 := GenerateRows(p, Side(pairs, true), 128, cols);
    MatchedRows(p, secret, prng, pairs, 128, cols, k);
    PackedBitOrder(secret, k);
    assert g[k] == if BitFromBlocks(secret, k) then t1[k] else t0[k];
    SenderEntry(p, secret, prng, pairs, choices, cols, k, c);
    XorUnmask(t0[k][c], t1[k][c], choices[c]);
  }

  /** In lockstep the sender's tweaked column is the receiver's, offset by the secret where the choice bit is set. */
  lemma SenderColumn<S>(p: Primitives<S>, secret: seq<Block>, prng: seq<S>, pairs: seq<(S, S)>, choices: seq<Block>,
                        cols: nat, i: nat)
    requires Matched(secret, prng, pairs, 128) && cols <= |choices| && i < 128 * cols
    ensures (var t := Tweaked(GenerateRows(p, Side(pairs, false), 128, cols), cols, i);
             Tweaked(SenderMatrix(p, secret, prng, CorrectionMatrix(p, pairs, choices, cols), cols), cols, i)
             == if BitFromBlocks(choices, i) then Xor(t, secret[0]) else t)
  {
    var t0 := GenerateRows(p, Side(pairs, false), 128, cols);
    var q := SenderMatrix(p, secret, prng, CorrectionMatrix(p, pairs, choices, cols), cols);
    forall k: nat, c: nat | k < 128 && c < cols
      ensures q[k][c] == if BitFromBlocks(secret, k) then Xor(t0[k][c], choices[c]) else t0[k][c]
    {
      SenderMatrixRelation(p, secret, prng, pairs, choices, cols, k, c);
    }
    CorrectedColumn(t0, q, secret, choices, cols, i);
    XorSwap(Column(t0, 0, i), secret[0], LowLane(i));
  }

  /**
   Message pair `i`: with `t` the tweaked column of `t0`, the slot the receiver chose is `H(t)`, which is
   the receiver's message, and the other slot is `H(t ^ s)` for the sender's secret block `s`.
   */
  lemma MessagePair<S>(p: Primitives<S>, secret: seq<Block>, prng: seq<S>, pairs: seq<(S, S)>, choices: seq<Block>,
                       cols: nat, i: nat)
    requires Matched(secret, prng, pairs, 128) && cols <= |choices| && i < 128 * cols
    ensures var t := Tweaked(GenerateRows(p, Side(pairs, false), 128, cols), cols, i);
            var pair := SenderMessages(p, secret, prng, CorrectionMatrix(p, pairs, choices, cols), cols)[i];
            && Slot(pair, BitFromBlocks(choices, i)) == p.hash(t) == ReceiverMessages(p, pairs, cols)[i]
            && Slot(pair, !BitFromBlocks(choices, i)) == p.hash(Xor(t, secret[0]))
  {
    var t := Tweaked(GenerateRows(p, Side(pairs, false), 128, cols), cols, i);
    SenderColumn(p, secret, prng, pairs, choices, cols, i);
    XorCancel(t, secret[0]);
  }
}
