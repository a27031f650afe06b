/** One round of either extension, from the bytes on the wire to the outputs of the two parties. */
module Rounds {
  import opened Blocks
  import opened Indexing
  import opened Memory
  import opened Primitives
  import opened Extension
  import Iknp
  import Kkrt

  /** IKNP fixes its extension size for the whole session; KKRT takes one per round. */
  datatype Protocol = IknpExtension(ext: nat) | KkrtExtension

  /** What the sender (`size`) and the receiver (`choices`) bring to a round. */
  datatype Round = Round(size: nat, choices: seq<Block>)

  datatype SenderOutput = Pairs(pairs: seq<(Block, Block)>) | QMat(q: seq<seq<Block>>)

  /** What the code relies on: sizes it supports, enough choices, and sizes that agree once rounded up. */
  predicate ValidRound(proto: Protocol, n: nat, round: Round) {
    match proto
    case IknpExtension(ext) => n == 128 && ext > 0 && ext % 128 == 0 && ext <= 128 * |round.choices|
    case KkrtExtension =>
      && n > 0 && n % 128 == 0 && round.size > 0 && |round.choices| > 0
      && Kkrt.RoundUp(round.size) == Kkrt.RoundUp(|round.choices|)
  }

  function ReceiverCols(proto: Protocol, round: Round): nat {
    match proto
    case IknpExtension(ext) => ext / 128
    case KkrtExtension => Kkrt.RoundUp(|round.choices|) / 128
  }

  function SenderCols(proto: Protocol, round: Round): nat {
    match proto
    case IknpExtension(ext) => ext / 128
    case KkrtExtension => Kkrt.RoundUp(round.size) / 128
  }

  lemma ColsAgree(proto: Protocol, n: nat, round: Round)
    requires ValidRound(proto, n, round)
    ensures SenderCols(proto, round) == ReceiverCols(proto, round) > 0
  {
  }

  /** A round's matrix has `n * cols` blocks, however its rows are cut. */
  lemma Area(n: nat, cols: nat)
    requires n % 128 == 0
    ensures 128 * cols * (n / 128) == n * cols
  {
  }

  /** The blocks the receiver puts on the wire. */
  function Matrix<S>(proto: Protocol, p: Primitives<S>, n: nat, pairs: seq<(S, S)>, round: Round): (v: seq<Block>)
    requires ValidRound(proto, n, round) && n <= |pairs|
    ensures |v| == n * ReceiverCols(proto, round)
  {
    var cols := ReceiverCols(proto, round);
    Area(n, cols);
    match proto
    case IknpExtension(_) => RowMajor(Iknp.CorrectionMatrix(p, pairs, round.choices, cols), 128, cols)
    case KkrtExtension => RowMajor(Kkrt.CorrectionMatrix(p, pairs, round.choices, n / 128, cols), 128 * cols, n / 128)
  }

  function ReceiverOutput<S>(proto: Protocol, p: Primitives<S>, n: nat, pairs: seq<(S, S)>, round: Round): seq<Block>
    requires ValidRound(proto, n, round) && n <= |pairs|
  {
    var cols := ReceiverCols(proto, round);
    match proto
    case IknpExtension(_) => Iknp.ReceiverMessages(p, pairs, cols)
    case KkrtExtension => Kkrt.ReceiverMessages(p, pairs, |round.choices|, n / 128, cols)
  }

  /** What the sender makes of the blocks it received. */
  function SenderOut<S>(proto: Protocol, p: Primitives<S>, n: nat, secret: seq<Block>, prng: seq<S>, round: Round,
                        v: seq<Block>): SenderOutput
    requires ValidRound(proto, n, round) && n <= |prng| && n <= 128 * |secret|
    requires |v| == n * SenderCols(proto, round)
  {
    var cols := SenderCols(proto, round);
    Area(n, cols);
    match proto
    case IknpExtension(_) => Pairs(Iknp.SenderMessages(p, secret, prng, RowsOf(v, 128, cols), cols))
    case KkrtExtension => QMat(Kkrt.QMatrix(p, secret, prng, RowsOf(v, 128 * cols, n / 128), n / 128, cols))
  }

  /**
   The promise of a round. IKNP: message `i` of the receiver is the slot of pair `i` that its choice bit
   names. KKRT: message `i` is what the sender's `encode` gives for index `i` and the receiver's choice `i`.
   */
  predicate Agree<S>(proto: Protocol, p: Primitives<S>, n: nat, secret: seq<Block>, round: Round, sent: SenderOutput,
                     received: seq<Block>)
    requires ValidRound(proto, n, round) && n <= 128 * |secret|
  {
    match proto
    case IknpExtension(ext) =>
      && sent.Pairs? && |sent.pairs| == ext == |received|
      && forall i: nat | i < ext :: received[i] == Slot(sent.pairs[i], BitFromBlocks(round.choices, i))
    case KkrtExtension =>
      && sent.QMat? && |round.choices| == |received| <= |sent.q|
      && (forall i: nat | i < |sent.q| :: |sent.q[i]| == n / 128)
      && forall i: nat | i < |received| :: received[i] == Kkrt.Encode(p, secret, sent.q[i], i, round.choices[i])
  }

  /** In lockstep, a round in which the sender reads the receiver's matrix keeps its promise. */
  lemma RoundAgrees<S>(proto: Protocol, p: Primitives<S>, n: nat, secret: seq<Block>, prng: seq<S>,
                       pairs: seq<(S, S)>, round: Round)
    requires ValidRound(proto, n, round) && Matched(secret, prng, pairs, n)
    ensures SenderCols(proto, round) == ReceiverCols(proto, round)
    ensures Agree(proto, p, n, secret, round,
                  SenderOut(proto, p, n, secret, prng, round, Matrix(proto, p, n, pairs, round)),
                  ReceiverOutput(proto, p, n, pairs, round))
  {
    ColsAgree(proto, n, round);
    var cols := ReceiverCols(proto, round);
    match proto {
      case IknpExtension(ext) =>
        RowsOfRowMajor(Iknp.CorrectionMatrix(p, pairs, round.choices, cols), 128, cols);
        forall i: nat | i < ext
          ensures ReceiverOutput(proto, p, n, pairs, round)[i]
               == Slot(SenderOut(proto, p, n, secret, prng, round, Matrix(proto, p, n, pairs, round)).pairs[i], BitFromBlocks(round.choices, i))
        {
          Iknp.MessagePair(p, secret, prng, pairs, round.choices, cols, i);
        }
      case KkrtExtension =>
        Area(n, cols);
        var th := n / 128;
        RowsOfRowMajor(Kkrt.CorrectionMatrix(p, pairs, round.choices, th, cols), 128 * cols, th);
        forall i: nat | i < |round.choices|
          ensures ReceiverOutput(proto, p, n, pairs, round)[i]
               == Kkrt.Encode(p, secret, SenderOut(proto, p, n, secret, prng, round, Matrix(proto, p, n, pairs, round)).q[i], i, round.choices[i])
        {
          Kkrt.EncodeAgrees(p, secret, prng, pairs, round.choices, th, cols, i);
        }
    }
  }

  /** KKRT: sender sizes that round up alike are interchangeable, for what it waits for and what it computes. */
  lemma SizeTransparent<S>(p: Primitives<S>, n: nat, secret: seq<Block>, prng: seq<S>, choices: seq<Block>,
                           size: nat, size': nat, v: seq<Block>)
    requires ValidRound(KkrtExtension, n, Round(size, choices)) && size' > 0
    requires Kkrt.RoundUp(size') == Kkrt.RoundUp(size)
    requires n <= |prng| && n <= 128 * |secret| && |v| == n * SenderCols(KkrtExtension, Round(size, choices))
    ensures ValidRound(KkrtExtension, n, Round(size', choices))
    ensures Need(KkrtExtension, n, Round(size', choices)) == 16 * |v|
    ensures SenderOut(KkrtExtension, p, n, secret, prng, Round(size', choices), v)
         == SenderOut(KkrtExtension, p, n, secret, prng, Round(size, choices), v)
  {
  }

  // ---------- any number of rounds ----------

  /** Everything the rounds after the base OTs depend on: `prng` and `pairs` are the freshly seeded generators. */
  datatype Setup<!S> = Setup(
    proto: Protocol,
    prims: Primitives<S>,
    n: nat,
    secret: seq<Block>,
    prng: seq<S>,
    pairs: seq<(S, S)>,
    rounds: seq<Round>)

  predicate ValidSetup<S>(e: Setup<S>) {
    && e.n > 0 && e.n % 128 == 0
    && e.n <= 128 * |e.secret| && e.n <= |e.prng| && e.n <= |e.pairs|
    && forall k | 0 <= k < |e.rounds| :: ValidRound(e.proto, e.n, e.rounds[k])
  }

  function Size(n: nat, cols: nat): nat {
    n * cols
  }

  /** The bytes the sender waits for in a round. */
  function Need(proto: Protocol, n: nat, round: Round): nat {
    16 * Size(n, SenderCols(proto, round))
  }

  /** The sender's generators after `k` rounds. */
  function PrngAt<S>(e: Setup<S>, k: nat): (prng: seq<S>)
    requires ValidSetup(e) && k <= |e.rounds|
    ensures |prng| == |e.prng|
  {
    if k == 0 then e.prng
    else AdvanceRows(e.prims, PrngAt(e, k - 1), e.n, SenderCols(e.proto, e.rounds[k - 1]))
  }

  /** The receiver's generators after `k` rounds. */
  function PairsAt<S>(e: Setup<S>, k: nat): (pairs: seq<(S, S)>)
    requires ValidSetup(e) && k <= |e.rounds|
    ensures |pairs| == |e.pairs|
  {
    if k == 0 then e.pairs
    else AdvancePairs(e.prims, PairsAt(e, k - 1), e.n, ReceiverCols(e.proto, e.rounds[k - 1]))
  }

  function MatrixAt<S>(e: Setup<S>, k: nat): (v: seq<Block>)
    requires ValidSetup(e) && k < |e.rounds|
    ensures |v| == Size(e.n, SenderCols(e.proto, e.rounds[k]))
  {
    ColsAgree(e.proto, e.n, e.rounds[k]);
    Matrix(e.proto, e.prims, e.n, PairsAt(e, k), e.rounds[k])
  }

  function WireAt<S>(e: Setup<S>, k: nat): (s: seq<bv8>)
    requires ValidSetup(e) && k < |e.rounds|
    ensures |s| == Need(e.proto, e.n, e.rounds[k])
  {
    Flatten(MatrixAt(e, k))
  }

  function SentAt<S>(e: Setup<S>, k: nat): SenderOutput
    requires ValidSetup(e) && k < |e.rounds|
  {
    SenderOut(e.proto, e.prims, e.n, e.secret, PrngAt(e, k), e.rounds[k], MatrixAt(e, k))
  }

  function ReceivedAt<S>(e: Setup<S>, k: nat): seq<Block>
    requires ValidSetup(e) && k < |e.rounds|
  {
    ReceiverOutput(e.proto, e.prims, e.n, PairsAt(e, k), e.rounds[k])
  }

  /** The wire bytes of every round. */
  function Wires<S>(e: Setup<S>): (w: seq<seq<bv8>>)
    requires ValidSetup(e)
    ensures |w| == |e.rounds|
  {
    seq(|e.rounds|, k requires 0 <= k < |e.rounds| => WireAt(e, k))
  }

  /** The receiver's messages of every round. */
  function AllReceived<S>(e: Setup<S>): (r: seq<seq<Block>>)
    requires ValidSetup(e)
    ensures |r| == |e.rounds|
  {
    seq(|e.rounds|, k requires 0 <= k < |e.rounds| => ReceivedAt(e, k))
  }

  /** Generators that start in lockstep are in lockstep after any number of rounds. */
  lemma {:induction false} LockstepAt<S>(e: Setup<S>, k: nat)
    requires ValidSetup(e) && k <= |e.rounds| && Matched(e.secret, e.prng, e.pairs, e.n)
    ensures Matched(e.secret, PrngAt(e, k), PairsAt(e, k), e.n)
  {
    if k > 0 {
      LockstepAt(e, k - 1);
      ColsAgree(e.proto, e.n, e.rounds[k - 1]);
      MatchedAdvance(e.prims, e.secret, PrngAt(e, k - 1), PairsAt(e, k - 1), e.n, ReceiverCols(e.proto, e.rounds[k - 1]));
    }
  }

  /** Every round keeps its promise. */
  lemma AgreementAt<S>(e: Setup<S>, k: nat)
    requires ValidSetup(e) && k < |e.rounds| && Matched(e.secret, e.prng, e.pairs, e.n)
    ensures Agree(e.proto, e.prims, e.n, e.secret, e.rounds[k], SentAt(e, k), ReceivedAt(e, k))
  {
    LockstepAt(e, k);
    RoundAgrees(e.proto, e.prims, e.n, e.secret, PrngAt(e, k), PairsAt(e, k), e.rounds[k]);
  }

  /** KKRT: what `encode(i, x)` gives on the matrix of round `k`, for every index and block. */
  lemma EncodeAt<S>(e: Setup<S>, k: nat, i: nat, x: Block)
    requires ValidSetup(e) && k < |e.rounds| && Matched(e.secret, e.prng, e.pairs, e.n) && e.proto.KkrtExtension?
    requires i < 128 * ReceiverCols(e.proto, e.rounds[k])
    ensures (var t0 := Kkrt.RowMat(e.prims, PairsAt(e, k), false, e.n / 128, ReceiverCols(e.proto, e.rounds[k]));
             && SentAt(e, k).QMat? && i < |SentAt(e, k).q| && |SentAt(e, k).q[i]| == e.n / 128
             && Kkrt.Encode(e.prims, e.secret, SentAt(e, k).q[i], i, x)
                == Kkrt.Chain(e.prims, Kkrt.OffsetRow(e.prims, e.secret, t0[i], x, Kkrt.ChoiceAt(e.rounds[k].choices, i)), i))
  {
    var th, cols := e.n / 128, ReceiverCols(e.proto, e.rounds[k]);
    LockstepAt(e, k);
    ColsAgree(e.proto, e.n, e.rounds[k]);
    Area(e.n, cols);
    RowsOfRowMajor(Kkrt.CorrectionMatrix(e.prims, PairsAt(e, k), e.rounds[k].choices, th, cols), 128 * cols, th);
    Kkrt.EncodeRelation(e.prims, e.secret, PrngAt(e, k), PairsAt(e, k), e.rounds[k].choices, th, cols, i, x);
  }
}
