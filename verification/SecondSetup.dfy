/**
 What a second `set_base_ots` on the same objects does to the rounds after it. The old seeds stay in front
 while the new choices move in front of the old ones, so the sender's generators were selected by the old
 choice bits and its corrections follow the new ones.
 */
module SecondSetup {
  import opened Blocks
  import opened Indexing
  import opened Memory
  import opened Primitives
  import opened Extension
  import opened Rounds
  import Iknp
  import IknpParties
  import Kkrt

  /** Row `k` of `t0`, or of `t1` where the two choice vectors differ. */
  function DriftedRows<S>(p: Primitives<S>, earlier: seq<Block>, secret: seq<Block>, pairs: seq<(S, S)>, rows: nat,
                          cols: nat): (m: seq<seq<Block>>)
    requires rows <= |pairs| && rows <= 128 * |earlier| && rows <= 128 * |secret|
    ensures Dims(m, rows, cols)
  {
    seq(rows, k requires 0 <= k < rows =>
      GenerateRows(p, Side(pairs, BitFromBlocks(earlier, k) != BitFromBlocks(secret, k)), rows, cols)[k])
  }

  /** No row drifts: wherever the choice bits differ, both generators of the receiver yield the same row. */
  ghost predicate NoDrift<S>(p: Primitives<S>, earlier: seq<Block>, secret: seq<Block>, pairs: seq<(S, S)>, rows: nat,
                       cols: nat)
    requires rows <= |pairs| && rows <= 128 * |earlier| && rows <= 128 * |secret|
  {
    forall k: nat | k < rows ::
      BitFromBlocks(secret, k) == BitFromBlocks(earlier, k) || Generate(p, pairs[k].0, cols) == Generate(p, pairs[k].1, cols)
  }

  lemma NoDriftIff<S>(p: Primitives<S>, earlier: seq<Block>, secret: seq<Block>, pairs: seq<(S, S)>, rows: nat, cols: nat)
    requires rows <= |pairs| && rows <= 128 * |earlier| && rows <= 128 * |secret|
    ensures NoDrift(p, earlier, secret, pairs, rows, cols)
       <==> DriftedRows(p, earlier, secret, pairs, rows, cols) == GenerateRows(p, Side(pairs, false), rows, cols)
  {
    var d, t0 := DriftedRows(p, earlier, secret, pairs, rows, cols), GenerateRows(p, Side(pairs, false), rows, cols);
    forall k: nat | k < rows
      ensures d[k] == t0[k]
         <==> BitFromBlocks(secret, k) == BitFromBlocks(earlier, k) || Generate(p, pairs[k].0, cols) == Generate(p, pairs[k].1, cols)
    {
    }
  }

  // ---------- IKNP ----------

  lemma SenderRow<S>(p: Primitives<S>, earlier: seq<Block>, secret: seq<Block>, prng: seq<S>, pairs: seq<(S, S)>,
                     choices: seq<Block>, cols: nat, k: nat, c: nat)
    requires Matched(earlier, prng, pairs, 128) && 1 <= |secret| && cols <= |choices| && k < 128 && c < cols
    ensures (var d := DriftedRows(p, earlier, secret, pairs, 128, cols);
             Iknp.SenderMatrix(p, secret, prng, Iknp.CorrectionMatrix(p, pairs, choices, cols), cols)[k][c]
             == if BitFromBlocks(secret, k) then Xor(d[k][c], choices[c]) else d[k][c])
  {
    var entry := Iknp.SenderMatrix(p, secret, prng, Iknp.CorrectionMatrix(p, pairs, choices, cols), cols)[k][c];
    var g := GenerateRows(p, prng, 128, cols)[k];
    var d := DriftedRows(p, earlier, secret, pairs, 128, cols)[k];
    var t0 := GenerateRows(p, Side(pairs, false), 128, cols)[k];
    var t1 := GenerateRows(p, Side(pairs, true), 128, cols)[k];
    var o, s := BitFromBlocks(earlier, k), BitFromBlocks(secret, k);
    PackedBitOrder(earlier, k);
    MatchedRows(p, earlier, prng, pairs, 128, cols, k);
    assert g == if o then t1 else t0;
    assert d == if o != s then t1 else t0;
    Iknp.SenderEntry(p, secret, prng, pairs, choices, cols, k, c);
    DriftedEntry(entry, g[c], d[c], t0[c], t1[c], choices[c], o, s);
  }

  /** An entry generated on side `o` and corrected if `s`: `t0` if the two agree, else `t1`, plus the choices if `s`. */
  lemma DriftedEntry(entry: Block, g: Block, d: Block, t0: Block, t1: Block, x: Block, o: bool, s: bool)
    requires entry == if s then Xor(g, Xor(Xor(t0, t1), x)) else g
    requires g == if o then t1 else t0
    requires d == if o != s then t1 else t0
    ensures entry == if s then Xor(d, x) else d
  {
  }

  lemma DriftedColumn<S>(p: Primitives<S>, earlier: seq<Block>, secret: seq<Block>, prng: seq<S>, pairs: seq<(S, S)>,
                         choices: seq<Block>, cols: nat, i: nat)
    requires Matched(earlier, prng, pairs, 128) && 1 <= |secret| && cols <= |choices| && i < 128 * cols
    ensures (var t := Iknp.Tweaked(DriftedRows(p, earlier, secret, pairs, 128, cols), cols, i);
             Iknp.Tweaked(Iknp.SenderMatrix(p, secret, prng, Iknp.CorrectionMatrix(p, pairs, choices, cols), cols), cols, i)
             == if BitFromBlocks(choices, i) then Xor(t, secret[0]) else t)
  {
    var d := DriftedRows(p, earlier, secret, pairs, 128, cols);
    var q := Iknp.SenderMatrix(p, secret, prng, Iknp.CorrectionMatrix(p, pairs, choices, cols), cols);
    forall k: nat, c: nat | k < 128 && c < cols
      ensures q[k][c] == if BitFromBlocks(secret, k) then Xor(d[k][c], choices[c]) else d[k][c]
    {
      SenderRow(p, earlier, secret, prng, pairs, choices, cols, k, c);
    }
    CorrectedColumn(d, q, secret, choices, cols, i);
    assert Column(q, 0, i) == if BitFromBlocks(choices, i) then Xor(Column(d, 0, i), secret[0]) else Column(d, 0, i);
    XorSwap(Column(d, 0, i), secret[0], LowLane(i));
  }

  /**
   The pair the sender computes when its generators follow `earlier` and its choices are `secret`: the slot
   the receiver chose hashes column `i` of the drifted rows, for any hash.
   */
  lemma DriftedPair<S>(p: Primitives<S>, earlier: seq<Block>, secret: seq<Block>, prng: seq<S>, pairs: seq<(S, S)>,
                       choices: seq<Block>, cols: nat, i: nat)
    requires Matched(earlier, prng, pairs, 128) && 1 <= |secret| && cols <= |choices| && i < 128 * cols
    ensures (var t := Iknp.Tweaked(DriftedRows(p, earlier, secret, pairs, 128, cols), cols, i);
             var pair := Iknp.SenderMessages(p, secret, prng, Iknp.CorrectionMatrix(p, pairs, choices, cols), cols)[i];
             && Slot(pair, BitFromBlocks(choices, i)) == p.hash(t)
             && Slot(pair, !BitFromBlocks(choices, i)) == p.hash(Xor(t, secret[0])))
  {
    var t := Iknp.Tweaked(DriftedRows(p, earlier, secret, pairs, 128, cols), cols, i);
    DriftedColumn(p, earlier, secret, prng, pairs, choices, cols, i);
    XorCancel(t, secret[0]);
  }

  /** Rows with the same columns are the same. */
  lemma ColumnsDetermine(a: seq<seq<Block>>, b: seq<seq<Block>>, cols: nat)
    requires Dims(a, 128, cols) && Dims(b, 128, cols)
    requires forall r: nat | r < 128 * cols :: Column(a, 0, r) == Column(b, 0, r)
    ensures a == b
  {
    forall k: nat | k < 128 ensures a[k] == b[k] {
      forall c: nat | c < cols ensures a[k][c] == b[k][c] {
        forall x: nat | x < 128 ensures Bit(a[k][c], x) == Bit(b[k][c], x) {
          var r := 128 * c + x;
          assert Column(a, 0, r) == Column(b, 0, r);
          ColumnBit(a, 0, r, k);
          ColumnBit(b, 0, r, k);
          assert r / 128 == c && r % 128 == x;
        }
        BlocksEqual(a[k][c], b[k][c]);
      }
    }
  }

  /** Message `i` of the round is the chosen slot. */
  predicate IknpAgreesAt<S>(p: Primitives<S>, secret: seq<Block>, prng: seq<S>, pairs: seq<(S, S)>,
                            choices: seq<Block>, cols: nat, i: nat)
    requires 1 <= |secret| && 128 <= |prng| && 128 <= |pairs| && cols <= |choices| && i < 128 * cols
  {
    Iknp.ReceiverMessages(p, pairs, cols)[i]
    == Slot(Iknp.SenderMessages(p, secret, prng, Iknp.CorrectionMatrix(p, pairs, choices, cols), cols)[i],
            BitFromBlocks(choices, i))
  }

  ghost predicate IknpAgrees<S>(p: Primitives<S>, secret: seq<Block>, prng: seq<S>, pairs: seq<(S, S)>,
                                choices: seq<Block>, cols: nat)
    requires 1 <= |secret| && 128 <= |prng| && 128 <= |pairs| && cols <= |choices|
  {
    forall i: nat | i < 128 * cols :: IknpAgreesAt(p, secret, prng, pairs, choices, cols, i)
  }

  lemma AgreesAtIff<S>(p: Primitives<S>, earlier: seq<Block>, secret: seq<Block>, prng: seq<S>, pairs: seq<(S, S)>,
                       choices: seq<Block>, cols: nat, i: nat)
    requires Matched(earlier, prng, pairs, 128) && 1 <= |secret| && cols <= |choices| && i < 128 * cols && Injective(p)
    ensures IknpAgreesAt(p, secret, prng, pairs, choices, cols, i)
       <==> Column(DriftedRows(p, earlier, secret, pairs, 128, cols), 0, i)
            == Column(GenerateRows(p, Side(pairs, false), 128, cols), 0, i)
  {
    var d := DriftedRows(p, earlier, secret, pairs, 128, cols);
    var t0 := GenerateRows(p, Side(pairs, false), 128, cols);
    DriftedPair(p, earlier, secret, prng, pairs, choices, cols, i);
    assert Iknp.ReceiverMessages(p, pairs, cols)[i] == p.hash(Iknp.Tweaked(t0, cols, i));
    XorCancel(Column(d, 0, i), LowLane(i));
    XorCancel(Column(t0, 0, i), LowLane(i));
  }

  /** With a hash that tells blocks apart, the round agrees exactly when no row drifts. */
  lemma IknpAgreesIff<S>(p: Primitives<S>, earlier: seq<Block>, secret: seq<Block>, prng: seq<S>, pairs: seq<(S, S)>,
                         choices: seq<Block>, cols: nat)
    requires Matched(earlier, prng, pairs, 128) && 1 <= |secret| && cols <= |choices| && Injective(p)
    ensures IknpAgrees(p, secret, prng, pairs, choices, cols) <==> NoDrift(p, earlier, secret, pairs, 128, cols)
  {
    var d := DriftedRows(p, earlier, secret, pairs, 128, cols);
    var t0 := GenerateRows(p, Side(pairs, false), 128, cols);
    NoDriftIff(p, earlier, secret, pairs, 128, cols);
    forall i: nat | i < 128 * cols
      ensures IknpAgreesAt(p, secret, prng, pairs, choices, cols, i) <==> Column(d, 0, i) == Column(t0, 0, i)
    {
      AgreesAtIff(p, earlier, secret, prng, pairs, choices, cols, i);
    }
    if forall i: nat | i < 128 * cols :: Column(d, 0, i) == Column(t0, 0, i) {
      ColumnsDetermine(d, t0, cols);
    }
  }

  // ---------- KKRT ----------

  lemma DriftedOffset(a: Block, b: Block, o: Block, s: Block, c: Block, x: Block)
    ensures Xor(And(s, x), Xor(Xor(a, And(o, Xor(a, b))), And(Xor(c, Xor(a, b)), s)))
         == Xor(Xor(a, And(s, Xor(x, c))), And(Xor(o, s), Xor(a, b)))
  {
  }

  /** What drifts in block (`i`, `j`): the difference of `t0` and `t1` where the choice bits differ. */
  function Drift<S>(p: Primitives<S>, earlier: seq<Block>, secret: seq<Block>, pairs: seq<(S, S)>, th: nat, cols: nat,
                    i: nat, j: nat): Block
    requires 128 * th <= |pairs| && th <= |earlier| && th <= |secret| && i < 128 * cols && j < th
  {
    And(Xor(earlier[j], secret[j]),
        Xor(Kkrt.RowMat(p, pairs, false, th, cols)[i][j], Kkrt.RowMat(p, pairs, true, th, cols)[i][j]))
  }

  /** Link `j` of `encode(i, x)` when generators follow `earlier` and choices are `secret`: the usual one plus the drift. */
  lemma DriftedInput<S>(p: Primitives<S>, earlier: seq<Block>, secret: seq<Block>, prng: seq<S>, pairs: seq<(S, S)>,
                        choices: seq<Block>, th: nat, cols: nat, i: nat, x: Block, j: nat)
    requires Matched(earlier, prng, pairs, 128 * th) && th <= |secret| && i < 128 * cols && j < th
    ensures (var q := Kkrt.QMatrix(p, secret, prng, Kkrt.CorrectionMatrix(p, pairs, choices, th, cols), th, cols);
             var t0 := Kkrt.RowMat(p, pairs, false, th, cols);
             Kkrt.EncodeInputs(p, secret, q[i], x)[j]
             == Xor(Kkrt.OffsetInput(p, secret[j], t0[i][j], x, Kkrt.ChoiceAt(choices, i), j),
                    Drift(p, earlier, secret, pairs, th, cols, i, j)))
  {
    Kkrt.SenderColumn(p, earlier, prng, pairs, th, cols, i, j);
    var a, b := Kkrt.RowMat(p, pairs, false, th, cols)[i][j], Kkrt.RowMat(p, pairs, true, th, cols)[i][j];
    DriftedOffset(a, b, earlier[j], secret[j], Kkrt.Code(p, Kkrt.ChoiceAt(choices, i), j), Kkrt.Code(p, x, j));
  }

  /** `encode(i, choices[i])` chains the receiver's blocks exactly when nothing drifts in row `i`. */
  lemma ChainsAgreeIff<S>(p: Primitives<S>, earlier: seq<Block>, secret: seq<Block>, prng: seq<S>, pairs: seq<(S, S)>,
                          choices: seq<Block>, th: nat, cols: nat, i: nat)
    requires Matched(earlier, prng, pairs, 128 * th) && th <= |secret| && |choices| <= 128 * cols && i < |choices|
    ensures (var q := Kkrt.QMatrix(p, secret, prng, Kkrt.CorrectionMatrix(p, pairs, choices, th, cols), th, cols);
             Kkrt.EncodeInputs(p, secret, q[i], choices[i]) == Kkrt.RowMat(p, pairs, false, th, cols)[i]
             <==> forall j: nat | j < th :: Drift(p, earlier, secret, pairs, th, cols, i, j) == Zero())
  {
    var q := Kkrt.QMatrix(p, secret, prng, Kkrt.CorrectionMatrix(p, pairs, choices, th, cols), th, cols);
    var inputs, t0 := Kkrt.EncodeInputs(p, secret, q[i], choices[i]), Kkrt.RowMat(p, pairs, false, th, cols)[i];
    forall j: nat | j < th ensures inputs[j] == t0[j] <==> Drift(p, earlier, secret, pairs, th, cols, i, j) == Zero() {
      DriftedInput(p, earlier, secret, prng, pairs, choices, th, cols, i, choices[i], j);
      Kkrt.OffsetVanishes(p, secret[j], t0[j], choices[i], j);
      XorZero(t0[j]);
      if inputs[j] == t0[j] {
        Kkrt.XorIsIdentity(t0[j], Drift(p, earlier, secret, pairs, th, cols, i, j));
      }
    }
  }

  /** With base size 128 and a hash that tells blocks apart, message `i` agrees exactly when its block does not drift. */
  lemma KkrtAgreesIff<S>(p: Primitives<S>, earlier: seq<Block>, secret: seq<Block>, prng: seq<S>, pairs: seq<(S, S)>,
                         choices: seq<Block>, cols: nat, i: nat)
    requires Matched(earlier, prng, pairs, 128) && 1 <= |secret| && |choices| <= 128 * cols && i < |choices| && Injective(p)
    ensures (var q := Kkrt.QMatrix(p, secret, prng, Kkrt.CorrectionMatrix(p, pairs, choices, 1, cols), 1, cols);
             Kkrt.Encode(p, secret, q[i], i, choices[i]) == Kkrt.ReceiverMessages(p, pairs, |choices|, 1, cols)[i]
             <==> Drift(p, earlier, secret, pairs, 1, cols, i, 0) == Zero())
  {
    ChainsAgreeIff(p, earlier, secret, prng, pairs, choices, 1, cols, i);
    var q := Kkrt.QMatrix(p, secret, prng, Kkrt.CorrectionMatrix(p, pairs, choices, 1, cols), 1, cols);
    var inputs, t0 := Kkrt.EncodeInputs(p, secret, q[i], choices[i]), Kkrt.RowMat(p, pairs, false, 1, cols)[i];
    assert inputs == [inputs[0]] && t0 == [t0[0]];
    Kkrt.OneLink(p, inputs[0], i);
    Kkrt.OneLink(p, t0[0], i);
    XorCancel(inputs[0], LowLane(i));
    XorCancel(t0[0], LowLane(i));
  }

  // ---------- the second call ----------

  /** A second setup leaves the generators of the first in place, and puts the new choice bits first. */
  lemma StillMatchesOld<S>(choices: seq<Block>, prng: seq<S>, pairs: seq<(S, S)>, choices': seq<Block>, prng': seq<S>,
                           pairs': seq<(S, S)>, rows: nat)
    requires Matched(choices, prng, pairs, rows) && rows <= 128 * |choices'|
    ensures Matched(choices, prng + prng', pairs + pairs', rows)
    ensures forall i: nat | i < rows :: BitFromBlocks(choices' + choices, i) == BitFromBlocks(choices', i)
  {
    forall i: nat | i < rows ensures BitFromBlocks(choices' + choices, i) == BitFromBlocks(choices', i) {
      PackedBitOrder(choices' + choices, i);
      PackedBitOrder(choices', i);
    }
  }

  /** The seeds of the second setup are never used: no row comes from them and no round moves them. */
  lemma SecondSeedsUnused<S>(p: Primitives<S>, prng: seq<S>, prng': seq<S>, pairs: seq<(S, S)>, pairs': seq<(S, S)>,
                             cols: nat)
    requires |prng| == |pairs|
    ensures GenerateRows(p, prng + prng', |prng|, cols) == GenerateRows(p, prng, |prng|, cols)
    ensures AdvanceRows(p, prng + prng', |prng|, cols) == AdvanceRows(p, prng, |prng|, cols) + prng'
    ensures AdvancePairs(p, pairs + pairs', |pairs|, cols) == AdvancePairs(p, pairs, |pairs|, cols) + pairs'
  {
  }

  /** Where the two choice vectors agree, or the old generators do, rounds after the second setup keep their promise. */
  lemma SecondSetupAgrees<S>(proto: Protocol, p: Primitives<S>, n: nat, choices: seq<Block>, prng: seq<S>,
                             pairs: seq<(S, S)>, choices': seq<Block>, prng': seq<S>, pairs': seq<(S, S)>,
                             round: Round)
    requires ValidRound(proto, n, round) && Matched(choices, prng, pairs, n) && n <= 128 * |choices'|
    requires forall i: nat | i < n :: BitFromBlocks(choices', i) == BitFromBlocks(choices, i) || pairs[i].0 == pairs[i].1
    ensures SenderCols(proto, round) == ReceiverCols(proto, round)
    ensures Agree(proto, p, n, choices' + choices, round,
                  SenderOut(proto, p, n, choices' + choices, prng + prng', round,
                            Matrix(proto, p, n, pairs + pairs', round)),
                  ReceiverOutput(proto, p, n, pairs + pairs', round))
  {
    SecondSetupMatchesIff(choices, prng, pairs, choices', prng', pairs', n);
    RoundAgrees(proto, p, n, choices' + choices, prng + prng', pairs + pairs', round);
  }

  /** A round of two set-up objects on a channel with nothing under way. */
  method IknpRound<S>(sender: IknpParties.Sender<S>, receiver: IknpParties.Receiver<S>, net: Channel, ext: nat,
                      choices: seq<Block>)
    returns (sent: seq<(Block, Block)>, received: seq<Block>)
    requires ext > 0 && ext % 128 == 0 && ext <= 128 * |choices| && net.bytes == []
    requires sender.baseOtSizes == receiver.baseOtSizes == 128 && sender.extOtSizes == receiver.extOtSizes == ext
    requires 128 <= |sender.prng| && 128 <= |receiver.prng| && 1 <= |sender.baseChoices|
    modifies sender, receiver, net
    ensures received == Iknp.ReceiverMessages(receiver.prims, old(receiver.prng), ext / 128)
    ensures (var u := Iknp.CorrectionMatrix(receiver.prims, old(receiver.prng), choices, ext / 128);
             sent == Iknp.SenderMessages(sender.prims, old(sender.baseChoices), old(sender.prng), u, ext / 128))
  {
    ghost var u := Iknp.CorrectionMatrix(receiver.prims, receiver.prng, choices, ext / 128);
    var _, messages := receiver.Receive(net, choices);
    received := messages;
    ParseFlatten(RowMajor(u, 128, ext / 128));
    RowsOfRowMajor(u, 128, ext / 128);
    assert net.bytes[..16 * ext] == net.bytes == Flatten(RowMajor(u, 128, ext / 128));
    var _, pairs := sender.Send(net);
    sent := pairs;
  }

  lemma NoDriftAfterSetUps<S>(p: Primitives<S>, first: seq<Block>, pairs: seq<(S, S)>, second: seq<Block>,
                              pairs': seq<(S, S)>, rows: nat, cols: nat)
    requires rows <= |pairs| && rows <= 128 * |first| && rows <= 128 * |second|
    ensures NoDrift(p, first, second + first, pairs + pairs', rows, cols) <==> NoDrift(p, first, second, pairs, rows, cols)
  {
    forall k: nat | k < rows ensures BitFromBlocks(second + first, k) == BitFromBlocks(second, k) {
      PackedBitOrder(second + first, k);
      PackedBitOrder(second, k);
    }
    forall k: nat | k < rows ensures (pairs + pairs')[k] == pairs[k] {
    }
  }

  /**
   The objects: two setups on each side, both with matching base OTs, then an IKNP round. Every message is the
   chosen slot exactly when no row drifts.
   */
  method IknpSetUpTwice<S>(prims: Primitives<S>, ext: nat, first: seq<Block>, firstOts: seq<(Block, Block)>,
                           firstKeys: seq<Block>, second: seq<Block>, secondOts: seq<(Block, Block)>,
                           secondKeys: seq<Block>, choices: seq<Block>)
    returns (sent: seq<(Block, Block)>, received: seq<Block>)
    requires ext > 0 && ext % 128 == 0 && ext <= 128 * |choices| && Injective(prims)
    requires 1 <= |first| && 1 <= |second|
    requires Matched(first, Seed(prims, firstKeys), SeedPairs(prims, firstOts), 128)
    requires Matched(second, Seed(prims, secondKeys), SeedPairs(prims, secondOts), 128)
    ensures |sent| == |received| == ext
    ensures (forall i: nat | i < ext :: received[i] == Slot(sent[i], BitFromBlocks(choices, i)))
       <==> NoDrift(prims, first, second, SeedPairs(prims, firstOts), 128, ext / 128)
  {
    var sender := new IknpParties.Sender(prims, 128, ext);
    var receiver := new IknpParties.Receiver(prims, 128, ext);
    var net := new Channel();
    sender.SetBaseOts(first, firstKeys);
    receiver.SetBaseOts(firstOts);
    sender.SetBaseOts(second, secondKeys);
    receiver.SetBaseOts(secondOts);
    ghost var cols, prng, pairs := ext / 128, sender.prng, receiver.prng;
    assert sender.baseChoices == second + first;
    StillMatchesOld(first, Seed(prims, firstKeys), SeedPairs(prims, firstOts), second, Seed(prims, secondKeys),
                    SeedPairs(prims, secondOts), 128);
    IknpAgreesIff(prims, first, second + first, prng, pairs, choices, cols);
    NoDriftAfterSetUps(prims, first, SeedPairs(prims, firstOts), second, SeedPairs(prims, secondOts), 128, cols);
    sent, received := IknpRound(sender, receiver, net, ext, choices);
    forall i: nat | i < ext
      ensures IknpAgreesAt(prims, second + first, prng, pairs, choices, cols, i)
         <==> received[i] == Slot(sent[i], BitFromBlocks(choices, i))
    {
    }
  }

  // ---------- an input for which it fails ----------

  function Ones(): Block {
    seq(16, _ => 0xff)
  }

  /** A hash that keeps its input, and generators that repeat their seed. */
  function Echo(): Primitives<Block> {
    Primitives((b: Block) => b, (seed: Block) => seed, (s: Block, n: nat, i: nat) => s[i % 16], (s: Block, n: nat) => s)
  }

  function Repeat<T>(x: T): (s: seq<T>)
    ensures |s| == 128 && forall i | 0 <= i < 128 :: s[i] == x
  {
    seq(128, _ => x)
  }

  lemma EchoRow(s: Block)
    ensures Generate(Echo(), s, 1) == [s]
  {
    assert Generate(Echo(), s, 1)[0] == s;
  }

  lemma OnesByteBit(k: nat)
    requires k < 8
    ensures ByteBit(0xff, k)
  {
    ByteBits(0xff);
    if k == 0 {} else if k == 1 {} else if k == 2 {} else if k == 3 {}
    else if k == 4 {} else if k == 5 {} else if k == 6 {} else {}
  }

  lemma ConstantBits(i: nat)
    requires i < 128
    ensures !BitFromBlocks([Zero()], i) && BitFromBlocks([Ones()], i)
  {
    PackedBitOrder([Zero()], i);
    PackedBitOrder([Ones()], i);
    BitZero(i);
    OnesByteBit(i % 128 % 8);
  }

  /** Base keys (zero, one) at every index. */
  function EchoPairs(): (pairs: seq<(Block, Block)>)
    ensures |pairs| == 128 && forall i | 0 <= i < 128 :: pairs[i] == (Zero(), Ones())
  {
    SeedPairs(Echo(), Repeat((Zero(), Ones())))
  }

  function EchoKeys(key: Block): (prng: seq<Block>)
    ensures |prng| == 128 && forall i | 0 <= i < 128 :: prng[i] == key
  {
    Seed(Echo(), Repeat(key))
  }

  lemma EchoMatched()
    ensures Matched([Zero()], EchoKeys(Zero()), EchoPairs(), 128)
    ensures Matched([Ones()], EchoKeys(Ones()), EchoPairs(), 128)
  {
    forall i: nat | i < 128 ensures !BitFromBlocks([Zero()], i) && BitFromBlocks([Ones()], i) {
      ConstantBits(i);
    }
  }

  /**
   Base choices all zero, then all one, over the same base keys: each setup alone has the parties in lockstep,
   the two in a row have not, and in the round after them some message is not the slot the receiver chose.
   */
  lemma SecondSetupFails()
    ensures (var first, second := [Zero()], [Ones()];
             var prng, prng', pairs := EchoKeys(Zero()), EchoKeys(Ones()), EchoPairs();
             && Matched(first, prng, pairs, 128) && Matched(second, prng', pairs, 128)
             && !Matched(second + first, prng + prng', pairs + pairs, 128)
             && !IknpAgrees(Echo(), second + first, prng + prng', pairs + pairs, [Zero()], 1))
  {
    EchoMatched();
    ConstantBits(0);
    assert Zero()[0] != Ones()[0];
    SecondSetupMatchesIff([Zero()], EchoKeys(Zero()), EchoPairs(), [Ones()], EchoKeys(Ones()), EchoPairs(), 128);
    EchoRoundFails([Zero()], [Ones()], EchoKeys(Zero()), EchoKeys(Ones()), EchoPairs(), EchoPairs());
  }

  lemma EchoRoundFails(first: seq<Block>, second: seq<Block>, prng: seq<Block>, prng': seq<Block>,
                       pairs: seq<(Block, Block)>, pairs': seq<(Block, Block)>)
    requires |first| == |second| == 1 && |pairs| == 128 && pairs[0] == (Zero(), Ones())
    requires BitFromBlocks(first, 0) != BitFromBlocks(second, 0) && Matched(first, prng, pairs, 128)
    ensures !IknpAgrees(Echo(), second + first, prng + prng', pairs + pairs', [Zero()], 1)
  {
    StillMatchesOld(first, prng, pairs, second, prng', pairs', 128);
    EchoDrifts(first, second, pairs);
    NoDriftAfterSetUps(Echo(), first, pairs, second, pairs', 128, 1);
    IknpAgreesIff(Echo(), first, second + first, prng + prng', pairs + pairs', [Zero()], 1);
  }

  lemma EchoDrifts(first: seq<Block>, second: seq<Block>, pairs: seq<(Block, Block)>)
    requires |first| == |second| == 1 && |pairs| == 128 && pairs[0] == (Zero(), Ones())
    requires BitFromBlocks(first, 0) != BitFromBlocks(second, 0)
    ensures !NoDrift(Echo(), first, second, pairs, 128, 1)
  {
    EchoRow(Zero());
    EchoRow(Ones());
    assert Zero()[0] != Ones()[0];
    assert [Zero()][0] != [Ones()][0];
  }

  /** The objects on that input. */
  method EchoSetUpTwice() returns (sent: seq<(Block, Block)>, received: seq<Block>)
    ensures |sent| == |received| == 128
    ensures exists i: nat | i < 128 :: received[i] != sent[i].0
  {
    var first, second, ots := [Zero()], [Ones()], Repeat((Zero(), Ones()));
    EchoMatched();
    ConstantBits(0);
    EchoDrifts(first, second, EchoPairs());
    sent, received := IknpSetUpTwice(Echo(), 128, first, ots, Repeat(Zero()), second, ots, Repeat(Ones()), [Zero()]);
    var i: nat :| i < 128 && received[i] != Slot(sent[i], BitFromBlocks([Zero()], i));
    ConstantBits(i);
  }
}
