/**
 The generators over whole runs: they keep their state between rounds, so the rows of successive rounds are
 successive stretches of one stream, and no byte of it is used twice.
 */
module Streams {
  import opened Blocks
  import opened Indexing
  import opened Primitives
  import opened Extension
  import opened Rounds

  /** The sender's generators, or those at one position of the receiver's pairs. */
  datatype Owner = SenderSide | ReceiverSide(second: bool)

  /** The states before round `k`. */
  function StatesAt<S>(e: Setup<S>, owner: Owner, k: nat): (states: seq<S>)
    requires ValidSetup(e) && k <= |e.rounds|
    ensures e.n <= |states|
  {
    match owner
    case SenderSide => PrngAt(e, k)
    case ReceiverSide(second) => Side(PairsAt(e, k), second)
  }

  function ColsAt<S>(e: Setup<S>, k: nat): nat
    requires k < |e.rounds|
  {
    ReceiverCols(e.proto, e.rounds[k])
  }

  /** Row `i` that the owner generates in round `k`. */
  function RowAt<S>(e: Setup<S>, owner: Owner, i: nat, k: nat): seq<Block>
    requires ValidSetup(e) && k < |e.rounds| && i < e.n
  {
    GenerateRows(e.prims, StatesAt(e, owner, k), e.n, ColsAt(e, k))[i]
  }

  /** Row `i` of every round. */
  function RowsOfOwner<S>(e: Setup<S>, owner: Owner, i: nat): (rows: seq<seq<Block>>)
    requires ValidSetup(e) && i < e.n
    ensures |rows| == |e.rounds|
  {
    seq(|e.rounds|, k requires 0 <= k < |e.rounds| => RowAt(e, owner, i, k))
  }

  /** The number of blocks in a row of every round. */
  function ColsOfRounds<S>(e: Setup<S>): (cols: seq<nat>)
    ensures |cols| == |e.rounds|
  {
    seq(|e.rounds|, k requires 0 <= k < |e.rounds| => ColsAt(e, k))
  }

  /** The state of generator `i` before every round, and after the last. */
  function StatesOfOwner<S>(e: Setup<S>, owner: Owner, i: nat): (states: seq<S>)
    requires ValidSetup(e) && i < e.n
    ensures |states| == |e.rounds| + 1
  {
    seq(|e.rounds| + 1, k requires 0 <= k < |e.rounds| + 1 => StatesAt(e, owner, k)[i])
  }

  function Sum(cols: seq<nat>): nat {
    if cols == [] then 0 else cols[0] + Sum(cols[1..])
  }

  /** Every row is generated from the state before it, which moves on to the next. */
  predicate Follows<S(==)>(p: Primitives<S>, states: seq<S>, cols: seq<nat>, rows: seq<seq<Block>>) {
    && |rows| == |cols| && |states| == |cols| + 1
    && (forall t: nat | t < |cols| :: rows[t] == Generate(p, states[t], cols[t]))
    && (forall t: nat | t < |cols| :: states[t + 1] == Advance(p, states[t], cols[t]))
  }

  lemma {:induction false} OneStretch<S(!new)>(p: Primitives<S>, states: seq<S>, cols: seq<nat>, rows: seq<seq<Block>>)
    requires ByteStream(p) && Follows(p, states, cols, rows)
    ensures Concat(rows) == Generate(p, states[0], Sum(cols))
  {
    if cols != [] {
      OneStretch(p, states[1..], cols[1..], rows[1..]);
      StreamSplit(p, states[0], cols[0], Sum(cols[1..]));
    }
  }

  lemma StretchFrom<S(!new)>(p: Primitives<S>, states: seq<S>, cols: seq<nat>, rows: seq<seq<Block>>, j: nat, k: nat)
    requires ByteStream(p) && Follows(p, states, cols, rows) && j <= k <= |cols|
    ensures Concat(rows[j..k]) == Generate(p, states[j], Sum(cols[j..k]))
  {
    OneStretch(p, states[j..k + 1], cols[j..k], rows[j..k]);
  }

  lemma StateStep<S>(e: Setup<S>, owner: Owner, i: nat, k: nat)
    requires ValidSetup(e) && k < |e.rounds| && i < e.n
    ensures StatesAt(e, owner, k + 1)[i] == Advance(e.prims, StatesAt(e, owner, k)[i], ColsAt(e, k))
  {
    ColsAgree(e.proto, e.n, e.rounds[k]);
  }

  lemma RowIsGenerated<S>(e: Setup<S>, owner: Owner, i: nat, k: nat)
    requires ValidSetup(e) && k < |e.rounds| && i < e.n
    ensures RowAt(e, owner, i, k) == Generate(e.prims, StatesAt(e, owner, k)[i], ColsAt(e, k))
  {
  }

  lemma RowsFollow<S>(e: Setup<S>, owner: Owner, i: nat)
    requires ValidSetup(e) && i < e.n
    ensures Follows(e.prims, StatesOfOwner(e, owner, i), ColsOfRounds(e), RowsOfOwner(e, owner, i))
  {
    forall t: nat | t < |e.rounds|
      ensures RowAt(e, owner, i, t) == Generate(e.prims, StatesAt(e, owner, t)[i], ColsAt(e, t))
      ensures StatesAt(e, owner, t + 1)[i] == Advance(e.prims, StatesAt(e, owner, t)[i], ColsAt(e, t))
    {
      RowIsGenerated(e, owner, i, t);
      StateStep(e, owner, i, t);
    }
  }

  /** With byte-stream generators the rows of any run of rounds are one stretch of the stream before them. */
  lemma RowsAreOneStretch<S(!new)>(e: Setup<S>, owner: Owner, i: nat, j: nat, k: nat)
    requires ValidSetup(e) && ByteStream(e.prims) && j <= k <= |e.rounds| && i < e.n
    ensures Concat(RowsOfOwner(e, owner, i)[j..k])
         == Generate(e.prims, StatesAt(e, owner, j)[i], Sum(ColsOfRounds(e)[j..k]))
  {
    RowsFollow(e, owner, i);
    StretchFrom(e.prims, StatesOfOwner(e, owner, i), ColsOfRounds(e), RowsOfOwner(e, owner, i), j, k);
  }

  /** What generator `i` has yielded in the first `k` rounds is the front of its seed's stream. */
  lemma RowsOfSeed<S(!new)>(e: Setup<S>, i: nat, k: nat)
    requires ValidSetup(e) && ByteStream(e.prims) && k <= |e.rounds| && i < e.n
    ensures (var size := Sum(ColsOfRounds(e)[..k]);
             && Concat(RowsOfOwner(e, SenderSide, i)[..k]) == Generate(e.prims, e.prng[i], size)
             && Concat(RowsOfOwner(e, ReceiverSide(false), i)[..k]) == Generate(e.prims, e.pairs[i].0, size)
             && Concat(RowsOfOwner(e, ReceiverSide(true), i)[..k]) == Generate(e.prims, e.pairs[i].1, size))
  {
    RowsAreOneStretch(e, SenderSide, i, 0, k);
    RowsAreOneStretch(e, ReceiverSide(false), i, 0, k);
    RowsAreOneStretch(e, ReceiverSide(true), i, 0, k);
  }
}
