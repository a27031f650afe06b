/**
 The KKRT extension as functions of the parties' states, and the relation between the sender's
 `encode` and the messages of the receiver.
 */
module Kkrt {
  import opened Blocks
  import opened Indexing
  import opened Primitives
  import opened Extension

  /** Extension sizes are rounded up to whole blocks. */
  function RoundUp(n: nat): (m: nat)
    ensures m % 128 == 0 && n <= m < n + 128
  {
    if n % 128 != 0 then n + (128 - n % 128) else n
  }

  /** Word `j` of the codeword of `x`. */
  function Code<S>(p: Primitives<S>, x: Block, j: nat): Block {
    Xor(p.hash(Xor(x, LowLane(j))), x)
  }

  /** Word `j` is the hash of the block tweaked by `j`, with the block itself XORed in again. */
  lemma CodeWord<S>(p: Primitives<S>, x: Block, j: nat)
    ensures Xor(Code(p, x, j), x) == p.hash(Xor(x, LowLane(j)))
    ensures p.hash(Xor(x, LowLane(j))) == Xor(x, LowLane(j)) ==> Code(p, x, j) == LowLane(j)
  {
    XorCancel(p.hash(Xor(x, LowLane(j))), x);
  }

  /** So words of different blocks differ even under a hash that gives the two the same value. */
  lemma CodeWordsDiffer<S>(p: Primitives<S>, x: Block, y: Block, j: nat)
    requires p.hash(Xor(x, LowLane(j))) == p.hash(Xor(y, LowLane(j)))
    ensures Code(p, x, j) == Code(p, y, j) <==> x == y
  {
    if Code(p, x, j) == Code(p, y, j) {
      XorInjective(p.hash(Xor(x, LowLane(j))), x, y);
    }
  }

  /** Positions past the last choice act as zero choices. */
  function ChoiceAt(choices: seq<Block>, i: nat): Block {
    if i < |choices| then choices[i] else Zero()
  }

  /** The transpose of a bit matrix of `128 * th` rows, as rows of `th` blocks. */
  function Columns(t: seq<seq<Block>>, th: nat, cols: nat): (m: seq<seq<Block>>)
    requires Dims(t, 128 * th, cols)
    ensures Dims(m, 128 * cols, th)
  {
    seq(128 * cols, r requires 0 <= r < 128 * cols => ColumnRow(t, th, cols, r))
  }

  function ColumnRow(t: seq<seq<Block>>, th: nat, cols: nat, r: nat): (row: seq<Block>)
    requires Dims(t, 128 * th, cols) && r < 128 * cols
    ensures |row| == th
  {
    seq<Block>(th, j requires 0 <= j < th => Column(t, j, r))
  }

  /** `row_mat0` (or, with `b`, `row_mat1`). */
  function RowMat<S>(p: Primitives<S>, pairs: seq<(S, S)>, b: bool, th: nat, cols: nat): (m: seq<seq<Block>>)
    requires 128 * th <= |pairs|
    ensures Dims(m, 128 * cols, th)
  {
    Columns(GenerateRows(p, Side(pairs, b), 128 * th, cols), th, cols)
  }

  /** The matrix the receiver sends: entry (i, j) is `code_j(x_i) ^ t0 ^ t1`. */
  function CorrectionMatrix<S>(p: Primitives<S>, pairs: seq<(S, S)>, choices: seq<Block>, th: nat,
                               cols: nat): (m: seq<seq<Block>>)
    requires 128 * th <= |pairs|
    ensures Dims(m, 128 * cols, th)
  {
    var t0, t1 := RowMat(p, pairs, false, th, cols), RowMat(p, pairs, true, th, cols);
    seq(128 * cols, i requires 0 <= i < 128 * cols => CorrectionRow(p, ChoiceAt(choices, i), t0[i], t1[i], th))
  }

  function CorrectionRow<S>(p: Primitives<S>, x: Block, t0: seq<Block>, t1: seq<Block>, th: nat): (row: seq<Block>)
    requires |t0| == th && |t1| == th
    ensures |row| == th
  {
    seq<Block>(th, j requires 0 <= j < th => Xor(Code(p, x, j), Xor(t0[j], t1[j])))
  }

  /** The hash chain over `inputs`, tweaked by `idx` at every link. */
  function Chain<S>(p: Primitives<S>, inputs: seq<Block>, idx: nat): Block {
    if inputs == [] then LowLane(0)
    else p.hash(Xor(Chain(p, inputs[..|inputs| - 1], idx), Xor(inputs[|inputs| - 1], LowLane(idx))))
  }

  /** With base size 128 the chain is a single hash of the tweaked block. */
  lemma OneLink<S>(p: Primitives<S>, x: Block, idx: nat)
    ensures Chain(p, [x], idx) == p.hash(Xor(x, LowLane(idx)))
  {
    LowLaneZero();
    assert [x][..0] == [];
    ZeroXor(Xor(x, LowLane(idx)));
  }

  lemma ChainStep<S>(p: Primitives<S>, inputs: seq<Block>, x: Block, idx: nat)
    ensures Chain(p, inputs + [x], idx) == p.hash(Xor(Chain(p, inputs, idx), Xor(x, LowLane(idx))))
  {
    assert (inputs + [x])[..|inputs|] == inputs;
  }

  /** With base size 256 the hash of the first tweaked block is XORed into the second. */
  lemma TwoLinks<S>(p: Primitives<S>, x: Block, y: Block, idx: nat)
    ensures Chain(p, [x, y], idx) == p.hash(Xor(p.hash(Xor(x, LowLane(idx))), Xor(y, LowLane(idx))))
  {
    OneLink(p, x, idx);
    ChainStep(p, [x], y, idx);
    assert [x] + [y] == [x, y];
  }

  /** Every link counts: with a hash that tells blocks apart, changing any one of them changes the chain. */
  lemma {:induction false} ChainTellsLinks<S>(p: Primitives<S>, inputs: seq<Block>, l: nat, x: Block, idx: nat)
    requires Injective(p) && l < |inputs|
    ensures Chain(p, inputs[l := x], idx) == Chain(p, inputs, idx) <==> x == inputs[l]
    decreases |inputs|
  {
    var front, last := inputs[..|inputs| - 1], inputs[|inputs| - 1];
    var changed: seq<Block> := inputs[l := x];
    if l < |front| {
      var front': seq<Block> := front[l := x];
      ChainTellsLinks(p, front, l, x, idx);
      assert changed[..|inputs| - 1] == front';
      XorCancel(Chain(p, front, idx), Xor(last, LowLane(idx)));
      XorCancel(Chain(p, front', idx), Xor(last, LowLane(idx)));
    } else {
      assert changed[..|inputs| - 1] == front;
      if Chain(p, changed, idx) == Chain(p, inputs, idx) {
        XorInjective(Chain(p, front, idx), Xor(x, LowLane(idx)), Xor(last, LowLane(idx)));
        XorCancel(x, LowLane(idx));
        XorCancel(last, LowLane(idx));
      }
    }
  }

  function XorAll(inputs: seq<Block>): Block {
    if inputs == [] then Zero() else Xor(inputs[0], XorAll(inputs[1..]))
  }

  lemma {:induction false} XorAllAppend(inputs: seq<Block>, x: Block)
    ensures XorAll(inputs + [x]) == Xor(XorAll(inputs), x)
  {
    if inputs == [] {
      assert ([x])[1..] == [];
      XorZero(x);
      ZeroXor(x);
    } else {
      XorAllAppend(inputs[1..], x);
      assert (inputs + [x])[1..] == inputs[1..] + [x];
      XorAssociative(inputs[0], XorAll(inputs[1..]), x);
    }
  }

  function IfOdd(n: nat, t: Block): Block {
    if n % 2 == 1 then t else Zero()
  }

  /** Under a hash that keeps its input the chain is the XOR of all links, and of the tweak once per link. */
  lemma {:induction false} ChainOfIdentity<S>(p: Primitives<S>, inputs: seq<Block>, idx: nat)
    requires forall b: Block :: p.hash(b) == b
    ensures Chain(p, inputs, idx) == Xor(XorAll(inputs), IfOdd(|inputs|, LowLane(idx)))
  {
    if inputs == [] {
      LowLaneZero();
      XorZero(Zero());
    } else {
      var front, last := inputs[..|inputs| - 1], inputs[|inputs| - 1];
      assert front + [last] == inputs;
      ChainOfIdentity(p, front, idx);
      ChainStep(p, front, last, idx);
      XorAllAppend(front, last);
      OneMoreTweak(XorAll(front), last, |front|, LowLane(idx));
    }
  }

  lemma OneMoreTweak(a: Block, b: Block, n: nat, t: Block)
    ensures Xor(Xor(a, IfOdd(n, t)), Xor(b, t)) == Xor(Xor(a, b), IfOdd(n + 1, t))
  {
    if n % 2 == 1 {
      XorZero(Xor(a, b));
      TweakTwice(a, b, t);
    } else {
      XorZero(a);
      XorAssociative(a, b, t);
    }
  }

  lemma TweakTwice(a: Block, b: Block, t: Block)
    ensures Xor(Xor(a, t), Xor(b, t)) == Xor(a, b)
  {
  }

  function ReceiverMessages<S>(p: Primitives<S>, pairs: seq<(S, S)>, n: nat, th: nat, cols: nat): (messages: seq<Block>)
    requires 128 * th <= |pairs| && n <= 128 * cols
    ensures |messages| == n
  {
    var t0 := RowMat(p, pairs, false, th, cols);
    seq<Block>(n, i requires 0 <= i < n => Chain(p, t0[i], i))
  }

  /** The sender's `q_mat`: its own columns, corrected by the received matrix under the secret mask. */
  function QMatrix<S>(p: Primitives<S>, secret: seq<Block>, prng: seq<S>, received: seq<seq<Block>>, th: nat,
                      cols: nat): (q: seq<seq<Block>>)
    requires th <= |secret| && 128 * th <= |prng| && Dims(received, 128 * cols, th)
    ensures Dims(q, 128 * cols, th)
  {
    CorrectedColumns(secret, Columns(GenerateRows(p, prng, 128 * th, cols), th, cols), received, th, cols)
  }

  function CorrectedColumns(secret: seq<Block>, g: seq<seq<Block>>, received: seq<seq<Block>>, th: nat,
                            cols: nat): (q: seq<seq<Block>>)
    requires th <= |secret| && Dims(g, 128 * cols, th) && Dims(received, 128 * cols, th)
    ensures Dims(q, 128 * cols, th)
  {
    seq(128 * cols, i requires 0 <= i < 128 * cols => QRow(secret, g[i], received[i], th))
  }

  function QRow(secret: seq<Block>, g: seq<Block>, u: seq<Block>, th: nat): (row: seq<Block>)
    requires th <= |secret| && |g| == th && |u| == th
    ensures |row| == th
  {
    seq<Block>(th, j requires 0 <= j < th => Xor(g[j], And(u[j], secret[j])))
  }

  /** The chain inputs of `encode(idx, x)`. */
  function EncodeInputs<S>(p: Primitives<S>, secret: seq<Block>, q: seq<Block>, x: Block): (inputs: seq<Block>)
    requires |q| <= |secret|
    ensures |inputs| == |q|
  {
    seq<Block>(|q|, j requires 0 <= j < |q| => Xor(And(secret[j], Code(p, x, j)), q[j]))
  }

  function Encode<S>(p: Primitives<S>, secret: seq<Block>, q: seq<Block>, idx: nat, x: Block): Block
    requires |q| <= |secret|
  {
    Chain(p, EncodeInputs(p, secret, q, x), idx)
  }

  // ---------- the encode relation ----------

  /** `(s & x) ^ (a ^ (s & (a ^ b)) ^ ((c ^ a ^ b) & s))` is `a ^ (s & (x ^ c))`. */
  lemma MaskedOffset(a: Block, b: Block, s: Block, c: Block, x: Block)
    ensures Xor(And(s, x), Xor(Xor(a, And(s, Xor(a, b))), And(Xor(c, Xor(a, b)), s))) == Xor(a, And(s, Xor(x, c)))
  {
  }

  /** In lockstep row `128j + k` of the sender is the receiver's row that bit `k` of secret block `j` selects. */
  lemma SelectedRow<S>(p: Primitives<S>, secret: seq<Block>, prng: seq<S>, pairs: seq<(S, S)>, th: nat, cols: nat,
                       j: nat, k: nat)
    requires Matched(secret, prng, pairs, 128 * th) && j < th && k < 128
    ensures (var i := 128 * j + k;
             var side := Side(pairs, Bit(secret[j], k));
             GenerateRows(p, prng, 128 * th, cols)[i] == GenerateRows(p, side, 128 * th, cols)[i])
  {
    var i := 128 * j + k;
    assert i / 128 == j && i % 128 == k;
    MatchedRows(p, secret, prng, pairs, 128 * th, cols, i);
  }

  /** In lockstep a sender column is the receiver's `t0` column with the masked difference `t0 ^ t1`. */
  lemma SenderColumn<S>(p: Primitives<S>, secret: seq<Block>, prng: seq<S>, pairs: seq<(S, S)>, th: nat, cols: nat,
                        i: nat, j: nat)
    requires Matched(secret, prng, pairs, 128 * th) && i < 128 * cols && j < th
    ensures (var a, b := RowMat(p, pairs, false, th, cols)[i][j], RowMat(p, pairs, true, th, cols)[i][j];
             Columns(GenerateRows(p, prng, 128 * th, cols), th, cols)[i][j] == Xor(a, And(secret[j], Xor(a, b))))
  {
    var g := GenerateRows(p, prng, 128 * th, cols);
    var t0 := GenerateRows(p, Side(pairs, false), 128 * th, cols);
    var t1 := GenerateRows(p, Side(pairs, true), 128 * th, cols);
    forall k: nat | k < 128 ensures g[128 * j + k] == if Bit(secret[j], k) then t1[128 * j + k] else t0[128 * j + k] {
      SelectedRow(p, secret, prng, pairs, th, cols, j, k);
    }
    SelectedColumn(t0, t1, g, secret[j], 128 * th, cols, j, i);
  }

  /** Chain input `j` of `encode(i, x)`: the receiver's block, offset by the masked difference of two codewords. */
  function OffsetInput<S>(p: Primitives<S>, secret: Block, t0: Block, x: Block, choice: Block, j: nat): Block {
    Xor(t0, And(secret, Xor(Code(p, x, j), Code(p, choice, j))))
  }

  /** The receiver's row with the masked difference of the two codewords XORed in. */
  function OffsetRow<S>(p: Primitives<S>, secret: seq<Block>, t0: seq<Block>, x: Block, choice: Block): (row: seq<Block>)
    requires |t0| <= |secret|
    ensures |row| == |t0|
  {
    seq<Block>(|t0|, j requires 0 <= j < |t0| => OffsetInput(p, secret[j], t0[j], x, choice, j))
  }

  lemma EncodeInput<S>(p: Primitives<S>, secret: seq<Block>, prng: seq<S>, pairs: seq<(S, S)>, choices: seq<Block>,
                       th: nat, cols: nat, i: nat, x: Block, j: nat)
    requires Matched(secret, prng, pairs, 128 * th) && i < 128 * cols && j < th
    ensures (var q := QMatrix(p, secret, prng, CorrectionMatrix(p, pairs, choices, th, cols), th, cols);
             EncodeInputs(p, secret, q[i], x)[j]
             == OffsetInput(p, secret[j], RowMat(p, pairs, false, th, cols)[i][j], x, ChoiceAt(choices, i), j))
  {
    SenderColumn(p, secret, prng, pairs, th, cols, i, j);
    var a, b := RowMat(p, pairs, false, th, cols)[i][j], RowMat(p, pairs, true, th, cols)[i][j];
    MaskedOffset(a, b, secret[j], Code(p, ChoiceAt(choices, i), j), Code(p, x, j));
  }

  /**
   What `encode(i, x)` computes for every block `x`: the receiver's hash chain, with `s_j & (code_j(x) ^
   code_j(choice_i))` XORed into link `j`.
   */
  lemma EncodeRelation<S>(p: Primitives<S>, secret: seq<Block>, prng: seq<S>, pairs: seq<(S, S)>, choices: seq<Block>,
                          th: nat, cols: nat, i: nat, x: Block)
    requires Matched(secret, prng, pairs, 128 * th) && i < 128 * cols
    ensures (var q := QMatrix(p, secret, prng, CorrectionMatrix(p, pairs, choices, th, cols), th, cols);
             var t0 := RowMat(p, pairs, false, th, cols);
             Encode(p, secret, q[i], i, x) == Chain(p, OffsetRow(p, secret, t0[i], x, ChoiceAt(choices, i)), i))
  {
    var q := QMatrix(p, secret, prng, CorrectionMatrix(p, pairs, choices, th, cols), th, cols);
    var t0 := RowMat(p, pairs, false, th, cols);
    var offset := OffsetRow(p, secret, t0[i], x, ChoiceAt(choices, i));
    forall j | 0 <= j < th ensures EncodeInputs(p, secret, q[i], x)[j] == offset[j] {
      EncodeInput(p, secret, prng, pairs, choices, th, cols, i, x, j);
    }
    assert EncodeInputs(p, secret, q[i], x) == offset;
  }

  lemma OffsetVanishes<S>(p: Primitives<S>, secret: Block, t0: Block, x: Block, j: nat)
    ensures OffsetInput(p, secret, t0, x, x, j) == t0
  {
  }

  /** Encoding the receiver's own choice gives the receiver's message. */
  lemma EncodeAgrees<S>(p: Primitives<S>, secret: seq<Block>, prng: seq<S>, pairs: seq<(S, S)>, choices: seq<Block>,
                        th: nat, cols: nat, i: nat)
    requires Matched(secret, prng, pairs, 128 * th) && i < |choices| <= 128 * cols
    ensures (var q := QMatrix(p, secret, prng, CorrectionMatrix(p, pairs, choices, th, cols), th, cols);
             Encode(p, secret, q[i], i, choices[i]) == ReceiverMessages(p, pairs, |choices|, th, cols)[i])
  {
    EncodeRelation(p, secret, prng, pairs, choices, th, cols, i, choices[i]);
    var t0 := RowMat(p, pairs, false, th, cols);
    var offset := OffsetRow(p, secret, t0[i], choices[i], ChoiceAt(choices, i));
    forall j | 0 <= j < th ensures offset[j] == t0[i][j] {
      OffsetVanishes(p, secret[j], t0[i][j], choices[i], j);
    }
    assert offset == t0[i];
  }

  lemma XorIsIdentity(a: Block, d: Block)
    requires Xor(a, d) == a
    ensures d == Zero()
  {
    forall b | 0 <= b < 16 ensures d[b] == 0 {
      assert Xor(a, d)[b] == a[b] ^ d[b];
    }
  }

  /**
   `encode(i, x)` chains the receiver's own blocks exactly when the secret masks away every difference
   between the codewords of `x` and of the receiver's choice.
   */
  lemma SameChainInputsIff<S>(p: Primitives<S>, secret: seq<Block>, prng: seq<S>, pairs: seq<(S, S)>,
                              choices: seq<Block>,
                              th: nat, cols: nat, i: nat, x: Block)
    requires Matched(secret, prng, pairs, 128 * th) && i < 128 * cols
    ensures (var q := QMatrix(p, secret, prng, CorrectionMatrix(p, pairs, choices, th, cols), th, cols);
             EncodeInputs(p, secret, q[i], x) == RowMat(p, pairs, false, th, cols)[i]
             <==> forall j: nat | j < th :: And(secret[j], Xor(Code(p, x, j), Code(p, ChoiceAt(choices, i), j))) == Zero())
  {
    var q := QMatrix(p, secret, prng, CorrectionMatrix(p, pairs, choices, th, cols), th, cols);
    var inputs, t0 := EncodeInputs(p, secret, q[i], x), RowMat(p, pairs, false, th, cols)[i];
    forall j: nat | j < th
      ensures inputs[j] == t0[j] <==> And(secret[j], Xor(Code(p, x, j), Code(p, ChoiceAt(choices, i), j))) == Zero()
    {
      EncodeInput(p, secret, prng, pairs, choices, th, cols, i, x, j);
      var d := And(secret[j], Xor(Code(p, x, j), Code(p, ChoiceAt(choices, i), j)));
      if inputs[j] == t0[j] {
        XorIsIdentity(t0[j], d);
      }
      XorZero(t0[j]);
    }
  }

  /**
   With a hash that tells blocks apart, `encode(i, x)` is not the receiver's message when the secret leaves a
   difference between the codewords of `x` and of its choice in exactly one word, whichever it is.
   */
  lemma EncodeDiffers<S>(p: Primitives<S>, secret: seq<Block>, prng: seq<S>, pairs: seq<(S, S)>, choices: seq<Block>,
                         th: nat, cols: nat, i: nat, x: Block, l: nat)
    requires Matched(secret, prng, pairs, 128 * th) && |choices| <= 128 * cols && i < |choices| && l < th && Injective(p)
    requires forall j: nat | j < th ::
      And(secret[j], Xor(Code(p, x, j), Code(p, choices[i], j))) == Zero() <==> j != l
    ensures (var q := QMatrix(p, secret, prng, CorrectionMatrix(p, pairs, choices, th, cols), th, cols);
             Encode(p, secret, q[i], i, x) != ReceiverMessages(p, pairs, |choices|, th, cols)[i])
  {
    var q := QMatrix(p, secret, prng, CorrectionMatrix(p, pairs, choices, th, cols), th, cols);
    var inputs, t0 := EncodeInputs(p, secret, q[i], x), RowMat(p, pairs, false, th, cols)[i];
    forall j: nat | j < th ensures inputs[j] == t0[j] <==> j != l {
      var d := And(secret[j], Xor(Code(p, x, j), Code(p, choices[i], j)));
      EncodeInput(p, secret, prng, pairs, choices, th, cols, i, x, j);
      XorZero(t0[j]);
      if inputs[j] == t0[j] {
        XorIsIdentity(t0[j], d);
      }
    }
    assert inputs == t0[l := inputs[l]];
    ChainTellsLinks(p, t0, l, inputs[l], i);
  }

  // ---------- padding ----------

  function Padded(choices: seq<Block>): (padded: seq<Block>)
    ensures |padded| == RoundUp(|choices|)
  {
    choices + seq(RoundUp(|choices|) - |choices|, i => Zero())
  }

  /** A run with `n` choices sends and receives what a run with zero blocks appended does, message for message. */
  lemma PaddingTransparent<S>(p: Primitives<S>, pairs: seq<(S, S)>, choices: seq<Block>, th: nat)
    requires 128 * th <= |pairs|
    ensures (var cols, padded := RoundUp(|choices|) / 128, Padded(choices);
             && RoundUp(|padded|) / 128 == cols
             && CorrectionMatrix(p, pairs, choices, th, cols) == CorrectionMatrix(p, pairs, padded, th, cols)
             && ReceiverMessages(p, pairs, |choices|, th, cols) == ReceiverMessages(p, pairs, |padded|, th, cols)[..|choices|])
  {
  }

  /** Whole-matrix view of the tiled transpose: bit `b` of block (r, j) is bit `r` of row `128j + b`. */
  lemma ColumnsAreTranspose(t: seq<seq<Block>>, th: nat, cols: nat, r: nat, j: nat, b: nat)
    requires Dims(t, 128 * th, cols) && r < 128 * cols && j < th && b < 128
    ensures Bit(Columns(t, th, cols)[r][j], b) == Bit(t[128 * j + b][r / 128], r % 128)
  {
    ColumnBit(t, j, r, b);
  }
}
