/**
 Whole sessions as a transition system: a Naor-Pinkas exchange with swapped roles, one `set_base_ots`
 per side, then any number of extension rounds, over two FIFO links that deliver byte by byte. The
 extension receiver never waits once it is set up, so it may run any number of rounds ahead.
 */
module Session {
  import opened Blocks
  import opened Curves
  import opened Indexing
  import opened Memory
  import opened Primitives
  import opened Extension
  import opened Rounds
  import Kkrt
  import NaorPinkas

  /** Everything a session depends on; `secret` are the extension sender's base choices. */
  datatype Config<!S, !P> = Config(
    prims: Primitives<S>,
    curve: Curve<P>,
    hash: NaorPinkas.PointHash,
    n: nat,
    cs: seq<nat>,
    rs: seq<nat>,
    ks: seq<nat>,
    secret: seq<Block>,
    proto: Protocol,
    rounds: seq<Round>)

  predicate WellFormed<S, P>(c: Config<S, P>) {
    && |c.cs| == |c.rs| == |c.ks| == c.n <= 128 * |c.secret|
    && c.n > 0 && c.n % 128 == 0
    && forall k | 0 <= k < |c.rounds| :: ValidRound(c.proto, c.n, c.rounds[k])
  }

  // ---------- states and steps ----------

  datatype Link = Link(flight: seq<bv8>, arrived: seq<bv8>, sent: nat) {
    function Put(s: seq<bv8>): Link {
      Link(flight + s, arrived, sent + |s|)
    }

    function Deliver(): Link
      requires flight != []
    {
      Link(flight[1..], arrived + [flight[0]], sent)
    }

    function Take(n: nat): Link
      requires n <= |arrived|
    {
      Link(flight, arrived[n..], sent)
    }

    /** What was sent and not yet consumed, in order. */
    function Pending(): seq<bv8> {
      arrived + flight
    }
  }

  /** The extension sender: base receiver first. The last output is what it holds now. */
  datatype SenderPhase<S> = AwaitKeys | Sending(prng: seq<S>, outputs: seq<SenderOutput>)

  /** The extension receiver: base sender first. */
  datatype ReceiverPhase<S> = Start | AwaitReply | Receiving(pairs: seq<(S, S)>, outputs: seq<seq<Block>>)

  datatype State<S> = State(sender: SenderPhase<S>, receiver: ReceiverPhase<S>, toSender: Link, toReceiver: Link)

  datatype Actor = Sender | Receiver | LinkToSender | LinkToReceiver

  predicate Sized<S, P>(c: Config<S, P>, st: State<S>) {
    && (st.sender.Sending? ==> |st.sender.prng| == c.n)
    && (st.receiver.Receiving? ==> |st.receiver.pairs| == c.n)
  }

  function Init<S>(): State<S> {
    State(AwaitKeys, Start, Link([], [], 0), Link([], [], 0))
  }

  predicate Enabled<S, P>(c: Config<S, P>, st: State<S>, actor: Actor) {
    match actor
    case Sender => (
      match st.sender
      case AwaitKeys => 66 * c.n <= |st.toSender.arrived|
      case Sending(_, outputs) => |outputs| < |c.rounds| && Need(c.proto, c.n, c.rounds[|outputs|]) <= |st.toSender.arrived|)
    case Receiver => (
      match st.receiver
      case Start => true
      case AwaitReply => 33 * c.n <= |st.toReceiver.arrived|
      case Receiving(_, outputs) => |outputs| < |c.rounds|)
    case LinkToSender => st.toSender.flight != []
    case LinkToReceiver => st.toReceiver.flight != []
  }

  function SenderStep<S, P>(c: Config<S, P>, st: State<S>): (st': State<S>)
    requires WellFormed(c) && Sized(c, st) && Enabled(c, st, Sender)
    ensures Sized(c, st')
  {
    match st.sender
    case AwaitKeys =>
      var s := st.toSender.arrived[..66 * c.n];
      State(Sending(Seed(c.prims, NaorPinkas.ReceiverMessages(c.curve, c.hash, s, c.ks, c.secret)), []), st.receiver,
            st.toSender.Take(66 * c.n), st.toReceiver.Put(NaorPinkas.ReplyMessage(c.curve, s, c.ks, c.secret)))
    case Sending(prng, outputs) =>
      var round, need := c.rounds[|outputs|], Need(c.proto, c.n, c.rounds[|outputs|]);
      var output := SenderOut(c.proto, c.prims, c.n, c.secret, prng, round, Parse(st.toSender.arrived[..need]));
      State(Sending(AdvanceRows(c.prims, prng, c.n, SenderCols(c.proto, round)), outputs + [output]), st.receiver,
            st.toSender.Take(need), st.toReceiver)
  }

  function ReceiverStep<S, P>(c: Config<S, P>, st: State<S>): (st': State<S>)
    requires WellFormed(c) && Sized(c, st) && Enabled(c, st, Receiver)
    ensures Sized(c, st')
  {
    match st.receiver
    case Start => State(st.sender, AwaitReply, st.toSender.Put(NaorPinkas.KeyMessage(c.curve, c.cs, c.rs)), st.toReceiver)
    case AwaitReply =>
      var reply := st.toReceiver.arrived[..33 * c.n];
      State(st.sender, Receiving(SeedPairs(c.prims, NaorPinkas.SenderMessages(c.curve, c.hash, c.cs, c.rs, reply)), []),
            st.toSender, st.toReceiver.Take(33 * c.n))
    case Receiving(pairs, outputs) =>
      var round := c.rounds[|outputs|];
      State(st.sender,
            Receiving(AdvancePairs(c.prims, pairs, c.n, ReceiverCols(c.proto, round)),
                      outputs + [ReceiverOutput(c.proto, c.prims, c.n, pairs, round)]),
            st.toSender.Put(Flatten(Matrix(c.proto, c.prims, c.n, pairs, round))), st.toReceiver)
  }

  /** An actor that cannot step waits. */
  function Act<S, P>(c: Config<S, P>, st: State<S>, actor: Actor): (st': State<S>)
    requires WellFormed(c) && Sized(c, st)
    ensures Sized(c, st')
  {
    if !Enabled(c, st, actor) then st
    else match actor
      case Sender => SenderStep(c, st)
      case Receiver => ReceiverStep(c, st)
      case LinkToSender => st.(toSender := st.toSender.Deliver())
      case LinkToReceiver => st.(toReceiver := st.toReceiver.Deliver())
  }

  function RunFrom<S, P>(c: Config<S, P>, st: State<S>, schedule: seq<Actor>): (st': State<S>)
    requires WellFormed(c) && Sized(c, st)
    ensures Sized(c, st')
    decreases |schedule|
  {
    if schedule == [] then st else RunFrom(c, Act(c, st, schedule[0]), schedule[1..])
  }

  function Run<S, P>(c: Config<S, P>, schedule: seq<Actor>): State<S>
    requires WellFormed(c)
  {
    RunFrom(c, Init(), schedule)
  }

  // ---------- what every schedule computes ----------

  function Keys<S, P>(c: Config<S, P>): seq<bv8> {
    NaorPinkas.KeyMessage(c.curve, c.cs, c.rs)
  }

  function Reply<S, P>(c: Config<S, P>): (s: seq<bv8>)
    requires WellFormed(c)
    ensures |s| == 33 * c.n
  {
    NaorPinkas.ReplyMessage(c.curve, Keys(c), c.ks, c.secret)
  }

  /** What the base OTs set up for the extension rounds. */
  function SetupOf<S, P>(c: Config<S, P>): (e: Setup<S>)
    requires WellFormed(c)
    ensures ValidSetup(e) && |e.prng| == c.n && |e.pairs| == c.n && e.rounds == c.rounds
  {
    Setup(c.proto, c.prims, c.n, c.secret,
          Seed(c.prims, NaorPinkas.ReceiverMessages(c.curve, c.hash, Keys(c), c.ks, c.secret)),
          SeedPairs(c.prims, NaorPinkas.SenderMessages(c.curve, c.hash, c.cs, c.rs, Reply(c))),
          c.rounds)
  }

  /** The size of the wire bytes of rounds `0 .. k-1`. */
  function RoundBytes<S, P>(c: Config<S, P>, k: nat): nat
    requires k <= |c.rounds|
  {
    if k == 0 then 0 else RoundBytes(c, k - 1) + Need(c.proto, c.n, c.rounds[k - 1])
  }

  // ---------- the invariant ----------

  ghost predicate SenderAt<S, P>(c: Config<S, P>, sender: SenderPhase<S>)
    requires WellFormed(c)
  {
    sender.Sending? ==>
      && |sender.outputs| <= |c.rounds|
      && sender.prng == PrngAt(SetupOf(c), |sender.outputs|)
      && forall k: nat | k < |sender.outputs| :: sender.outputs[k] == SentAt(SetupOf(c), k)
  }

  ghost predicate ReceiverAt<S, P>(c: Config<S, P>, receiver: ReceiverPhase<S>)
    requires WellFormed(c)
  {
    receiver.Receiving? ==>
      && |receiver.outputs| <= |c.rounds|
      && receiver.pairs == PairsAt(SetupOf(c), |receiver.outputs|)
      && forall k: nat | k < |receiver.outputs| :: receiver.outputs[k] == ReceivedAt(SetupOf(c), k)
  }

  /** The links hold exactly what the phases say was sent and not yet consumed, in order. */
  ghost predicate LinksAt<S, P>(c: Config<S, P>, st: State<S>)
    requires WellFormed(c)
  {
    match (st.sender, st.receiver)
    case (AwaitKeys, Start) => st.toSender.Pending() == [] && st.toReceiver.Pending() == []
    case (AwaitKeys, AwaitReply) => st.toSender.Pending() == Keys(c) && st.toReceiver.Pending() == []
    case (Sending(_, outputs), AwaitReply) => outputs == [] && st.toSender.Pending() == [] && st.toReceiver.Pending() == Reply(c)
    case (Sending(_, outputs), Receiving(_, outputs')) =>
      && |outputs| <= |outputs'| <= |c.rounds|
      && st.toSender.Pending() == Concat(Wires(SetupOf(c))[|outputs|..|outputs'|]) && st.toReceiver.Pending() == []
    case _ => false
  }

  /** How much each party has sent so far. */
  ghost predicate CountsAt<S, P>(c: Config<S, P>, st: State<S>)
    requires WellFormed(c) && ReceiverAt(c, st.receiver)
  {
    && st.toReceiver.sent == (if st.sender.Sending? then 33 * c.n else 0)
    && st.toSender.sent == (match st.receiver
                            case Start => 0
                            case AwaitReply => 66 * c.n
                            case Receiving(_, outputs) => 66 * c.n + RoundBytes(c, |outputs|))
  }

  ghost predicate Inv<S, P>(c: Config<S, P>, st: State<S>)
    requires WellFormed(c)
  {
    && Sized(c, st)
    && SenderAt(c, st.sender)
    && ReceiverAt(c, st.receiver)
    && LinksAt(c, st)
    && CountsAt(c, st)
  }

  lemma TakePending(link: Link, n: nat, s: seq<bv8>, rest: seq<bv8>)
    requires n <= |link.arrived| && |s| == n && link.Pending() == s + rest
    ensures link.arrived[..n] == s && link.Take(n).Pending() == rest
  {
    assert link.arrived[..n] == link.Pending()[..n] == s;
    assert link.Take(n).Pending() == link.Pending()[n..] == rest;
  }

  lemma DeliverPending(link: Link)
    requires link.flight != []
    ensures link.Deliver().Pending() == link.Pending()
  {
  }

  lemma PutPending(link: Link, s: seq<bv8>)
    ensures link.Put(s).Pending() == link.Pending() + s
  {
  }

  lemma InvInit<S, P>(c: Config<S, P>)
    requires WellFormed(c)
    ensures Inv(c, Init())
  {
  }

  lemma InvBaseReceive<S, P>(c: Config<S, P>, st: State<S>)
    requires WellFormed(c) && Inv(c, st) && Enabled(c, st, Sender) && st.sender.AwaitKeys?
    ensures Inv(c, SenderStep(c, st))
  {
    TakePending(st.toSender, 66 * c.n, Keys(c), []);
    PutPending(st.toReceiver, Reply(c));
  }

  lemma SendEffect<S, P>(c: Config<S, P>, st: State<S>)
    requires WellFormed(c) && Inv(c, st) && Enabled(c, st, Sender) && st.sender.Sending?
    ensures (var k := |st.sender.outputs|;
             && SenderStep(c, st) == State(Sending(PrngAt(SetupOf(c), k + 1), st.sender.outputs + [SentAt(SetupOf(c), k)]), st.receiver,
                                           st.toSender.Take(Need(c.proto, c.n, c.rounds[k])), st.toReceiver)
             && k < |st.receiver.outputs|
             && st.toSender.Take(Need(c.proto, c.n, c.rounds[k])).Pending() == Concat(Wires(SetupOf(c))[k + 1..|st.receiver.outputs|]))
  {
    var k := |st.sender.outputs|;
    ConcatShrinks(Wires(SetupOf(c)), k, |st.receiver.outputs|);
    TakePending(st.toSender, Need(c.proto, c.n, c.rounds[k]), WireAt(SetupOf(c), k), Concat(Wires(SetupOf(c))[k + 1..|st.receiver.outputs|]));
    ParseFlatten(MatrixAt(SetupOf(c), k));
  }

  lemma NextSenderAt<S, P>(c: Config<S, P>, sender: SenderPhase<S>)
    requires WellFormed(c) && SenderAt(c, sender) && sender.Sending? && |sender.outputs| < |c.rounds|
    ensures (var k := |sender.outputs|;
             SenderAt(c, Sending(PrngAt(SetupOf(c), k + 1), sender.outputs + [SentAt(SetupOf(c), k)])))
  {
  }

  lemma InvSend<S, P>(c: Config<S, P>, st: State<S>)
    requires WellFormed(c) && Inv(c, st) && Enabled(c, st, Sender) && st.sender.Sending?
    ensures Inv(c, SenderStep(c, st))
  {
    SendEffect(c, st);
    NextSenderAt(c, st.sender);
  }

  lemma InvReply<S, P>(c: Config<S, P>, st: State<S>)
    requires WellFormed(c) && Inv(c, st) && Enabled(c, st, Receiver) && !st.receiver.Receiving?
    ensures Inv(c, ReceiverStep(c, st))
  {
    if st.receiver.Start? {
      PutPending(st.toSender, Keys(c));
    } else {
      TakePending(st.toReceiver, 33 * c.n, Reply(c), []);
      assert Wires(SetupOf(c))[0..0] == [];
    }
  }

  lemma ReceiveEffect<S, P>(c: Config<S, P>, st: State<S>)
    requires WellFormed(c) && Inv(c, st) && Enabled(c, st, Receiver) && st.receiver.Receiving?
    ensures (var m := |st.receiver.outputs|;
             ReceiverStep(c, st) == State(st.sender, Receiving(PairsAt(SetupOf(c), m + 1), st.receiver.outputs + [ReceivedAt(SetupOf(c), m)]),
                                          st.toSender.Put(WireAt(SetupOf(c), m)), st.toReceiver))
  {
    ColsAgree(c.proto, c.n, c.rounds[|st.receiver.outputs|]);
  }

  /** The receiver's next round appends its matrix to the link. */
  lemma NextReceiveLinks<S, P>(c: Config<S, P>, st: State<S>)
    requires WellFormed(c) && LinksAt(c, st) && st.receiver.Receiving? && |st.receiver.outputs| < |c.rounds|
    ensures (var m := |st.receiver.outputs|;
             LinksAt(c, State(st.sender, Receiving(PairsAt(SetupOf(c), m + 1), st.receiver.outputs + [ReceivedAt(SetupOf(c), m)]),
                              st.toSender.Put(WireAt(SetupOf(c), m)), st.toReceiver)))
  {
    var m := |st.receiver.outputs|;
    ConcatGrows(Wires(SetupOf(c)), |st.sender.outputs|, m);
    PutPending(st.toSender, WireAt(SetupOf(c), m));
  }

  lemma InvReceive<S, P>(c: Config<S, P>, st: State<S>)
    requires WellFormed(c) && Inv(c, st) && Enabled(c, st, Receiver) && st.receiver.Receiving?
    ensures Inv(c, ReceiverStep(c, st))
  {
    ReceiveEffect(c, st);
    NextReceiveLinks(c, st);
  }

  lemma InvAct<S, P>(c: Config<S, P>, st: State<S>, actor: Actor)
    requires WellFormed(c) && Inv(c, st)
    ensures Inv(c, Act(c, st, actor))
  {
    if Enabled(c, st, actor) {
      match actor {
        case Sender => if st.sender.Sending? { InvSend(c, st); } else { InvBaseReceive(c, st); }
        case Receiver => if st.receiver.Receiving? { InvReceive(c, st); } else { InvReply(c, st); }
        case LinkToSender => DeliverPending(st.toSender);
        case LinkToReceiver => DeliverPending(st.toReceiver);
      }
    }
  }

  lemma {:induction false} InvRunFrom<S, P>(c: Config<S, P>, st: State<S>, schedule: seq<Actor>)
    requires WellFormed(c) && Inv(c, st)
    ensures Inv(c, RunFrom(c, st, schedule))
    decreases |schedule|
  {
    if schedule != [] {
      InvAct(c, st, schedule[0]);
      InvRunFrom(c, Act(c, st, schedule[0]), schedule[1..]);
    }
  }

  /** Every state that any schedule reaches satisfies the invariant. */
  lemma EveryRun<S, P>(c: Config<S, P>, schedule: seq<Actor>)
    requires WellFormed(c)
    ensures Inv(c, Run(c, schedule))
  {
    InvInit<S, P>(c);
    InvRunFrom(c, Init(), schedule);
  }

  // ---------- lockstep and agreement ----------

  /** The base OT hands the sender, for each index, the key of the receiver's pair that its secret bit names. */
  lemma BaseKeysMatch<S, P(!new)>(c: Config<S, P>)
    requires WellFormed(c) && Laws(c.curve)
    ensures Matched(c.secret, PrngAt(SetupOf(c), 0), PairsAt(SetupOf(c), 0), c.n)
  {
    forall i: nat | i < c.n
      ensures PrngAt(SetupOf(c), 0)[i] == if BitFromBlocks(c.secret, i) then PairsAt(SetupOf(c), 0)[i].1 else PairsAt(SetupOf(c), 0)[i].0
    {
      NaorPinkas.Correct(c.curve, c.hash, c.cs, c.rs, c.ks, c.secret, i);
    }
  }

  /**
   End to end, in every state of every schedule: each round the sender has completed was completed by the
   receiver before, and the outputs of the two keep the round's promise.
   */
  lemma EveryCompletedRoundAgrees<S, P(!new)>(c: Config<S, P>, schedule: seq<Actor>, k: nat)
    requires WellFormed(c) && Laws(c.curve)
    requires (var st := Run(c, schedule); st.sender.Sending? && k < |st.sender.outputs|)
    ensures (var st := Run(c, schedule);
             && st.receiver.Receiving? && k < |st.receiver.outputs| && k < |c.rounds|
             && Agree(c.proto, c.prims, c.n, c.secret, c.rounds[k], st.sender.outputs[k], st.receiver.outputs[k]))
  {
    EveryRun(c, schedule);
    BaseKeysMatch(c);
    AgreementAt(SetupOf(c), k);
  }

  /**
   In every state of every schedule, with the receiver any number of rounds ahead: the sender's generators
   are those the receiver's selected seeds had after the same number of rounds, and the link holds exactly
   the matrices of the rounds in between.
   */
  lemma EveryStateInLockstep<S, P(!new)>(c: Config<S, P>, schedule: seq<Actor>)
    requires WellFormed(c) && Laws(c.curve)
    requires (var st := Run(c, schedule); st.sender.Sending? && st.receiver.Receiving?)
    ensures (var st := Run(c, schedule);
             var k, m := |st.sender.outputs|, |st.receiver.outputs|;
             && k <= m <= |c.rounds|
             && Matched(c.secret, st.sender.prng, PairsAt(SetupOf(c), k), c.n)
             && st.receiver.pairs == PairsAt(SetupOf(c), m)
             && st.toSender.Pending() == Concat(Wires(SetupOf(c))[k..m]))
  {
    EveryRun(c, schedule);
    BaseKeysMatch(c);
    LockstepAt(SetupOf(c), |Run(c, schedule).sender.outputs|);
  }

  // ---------- progress, termination, conservation ----------

  predicate Final<S, P>(c: Config<S, P>, st: State<S>) {
    && st.sender.Sending? && |st.sender.outputs| == |c.rounds|
    && st.receiver.Receiving? && |st.receiver.outputs| == |c.rounds|
  }

  lemma {:induction false} RoundBytesGrow<S, P>(c: Config<S, P>, j: nat, k: nat)
    requires j <= k <= |c.rounds|
    ensures RoundBytes(c, j) <= RoundBytes(c, k)
  {
    if j < k {
      RoundBytesGrow(c, j, k - 1);
    }
  }

  /** No deadlock: in every state that is not final some actor can step. */
  lemma Progress<S, P>(c: Config<S, P>, st: State<S>) returns (actor: Actor)
    requires WellFormed(c) && Inv(c, st) && !Final(c, st)
    ensures Enabled(c, st, actor)
  {
    if st.toSender.flight != [] {
      return LinkToSender;
    }
    if st.toReceiver.flight != [] {
      return LinkToReceiver;
    }
    assert st.toSender.Pending() == st.toSender.arrived && st.toReceiver.Pending() == st.toReceiver.arrived;
    if st.sender.AwaitKeys? {
      return if st.receiver.Start? then Receiver else Sender;
    }
    if st.receiver.AwaitReply? || |st.receiver.outputs| < |c.rounds| {
      return Receiver;
    }
    ConcatShrinks(Wires(SetupOf(c)), |st.sender.outputs|, |c.rounds|);
    return Sender;
  }

  function SenderStepsLeft<S, P>(c: Config<S, P>, sender: SenderPhase<S>): int {
    match sender
    case AwaitKeys => |c.rounds| + 1
    case Sending(_, outputs) => |c.rounds| - |outputs|
  }

  function ReceiverStepsLeft<S, P>(c: Config<S, P>, receiver: ReceiverPhase<S>): int {
    match receiver
    case Start => |c.rounds| + 2
    case AwaitReply => |c.rounds| + 1
    case Receiving(_, outputs) => |c.rounds| - |outputs|
  }

  /** Party steps to go, plus bytes not delivered yet, sent or not. */
  function Measure<S, P>(c: Config<S, P>, st: State<S>): int
    requires WellFormed(c)
  {
    SenderStepsLeft(c, st.sender) + ReceiverStepsLeft(c, st.receiver)
    + (66 * c.n + RoundBytes(c, |c.rounds|) - st.toSender.sent + |st.toSender.flight|)
    + (33 * c.n - st.toReceiver.sent + |st.toReceiver.flight|)
  }

  /** The length of a complete run: every party step, and one delivery per byte. */
  function RunLength<S, P>(c: Config<S, P>): int
    requires WellFormed(c)
  {
    2 * |c.rounds| + 3 + 99 * c.n + RoundBytes(c, |c.rounds|)
  }

  lemma MeasureBounds<S, P>(c: Config<S, P>, st: State<S>)
    requires WellFormed(c) && Inv(c, st)
    ensures Measure(c, st) >= 0
    ensures Measure<S, P>(c, Init()) == RunLength(c)
  {
    if st.receiver.Receiving? {
      RoundBytesGrow(c, |st.receiver.outputs|, |c.rounds|);
    }
  }

  /** Every step that is taken brings the end exactly one closer. */
  lemma StepDecreases<S, P>(c: Config<S, P>, st: State<S>, actor: Actor)
    requires WellFormed(c) && Inv(c, st) && Enabled(c, st, actor)
    ensures Measure(c, Act(c, st, actor)) == Measure(c, st) - 1
  {
  }

  lemma {:induction false} MeasureNeverGrows<S, P>(c: Config<S, P>, st: State<S>, schedule: seq<Actor>)
    requires WellFormed(c) && Inv(c, st)
    ensures Measure(c, RunFrom(c, st, schedule)) <= Measure(c, st)
    decreases |schedule|
  {
    if schedule != [] {
      InvAct(c, st, schedule[0]);
      if Enabled(c, st, schedule[0]) {
        StepDecreases(c, st, schedule[0]);
      }
      MeasureNeverGrows(c, Act(c, st, schedule[0]), schedule[1..]);
    }
  }

  /** A stretch of schedule in which an enabled actor gets its turn makes progress. */
  lemma {:induction false} TurnMakesProgress<S, P>(c: Config<S, P>, st: State<S>, schedule: seq<Actor>, actor: Actor)
    requires WellFormed(c) && Inv(c, st) && Enabled(c, st, actor) && actor in schedule
    ensures Measure(c, RunFrom(c, st, schedule)) < Measure(c, st)
    decreases |schedule|
  {
    InvAct(c, st, schedule[0]);
    if Enabled(c, st, schedule[0]) {
      StepDecreases(c, st, schedule[0]);
      MeasureNeverGrows(c, Act(c, st, schedule[0]), schedule[1..]);
    } else {
      TurnMakesProgress(c, st, schedule[1..], actor);
    }
  }

  lemma {:induction false} RunFromConcat<S, P>(c: Config<S, P>, st: State<S>, first: seq<Actor>, second: seq<Actor>)
    requires WellFormed(c) && Sized(c, st)
    ensures RunFrom(c, st, first + second) == RunFrom(c, RunFrom(c, st, first), second)
    decreases |first|
  {
    if first == [] {
      assert first + second == second;
    } else {
      assert (first + second)[1..] == first[1..] + second;
      RunFromConcat(c, Act(c, st, first[0]), first[1..], second);
    }
  }

  /** In a final state both links are empty, so nobody can step. */
  lemma FinalIsQuiescent<S, P>(c: Config<S, P>, st: State<S>, actor: Actor)
    requires WellFormed(c) && Inv(c, st) && Final(c, st)
    ensures !Enabled(c, st, actor) && Act(c, st, actor) == st
  {
  }

  lemma {:induction false} FinalStays<S, P>(c: Config<S, P>, st: State<S>, schedule: seq<Actor>)
    requires WellFormed(c) && Inv(c, st) && Final(c, st)
    ensures RunFrom(c, st, schedule) == st
    decreases |schedule|
  {
    if schedule != [] {
      FinalIsQuiescent(c, st, schedule[0]);
      FinalStays(c, st, schedule[1..]);
    }
  }

  /** A stretch of schedule in which everybody gets a turn. */
  predicate FullTurn(schedule: seq<Actor>) {
    Sender in schedule && Receiver in schedule && LinkToSender in schedule && LinkToReceiver in schedule
  }

  lemma {:induction false} FairFrom<S, P>(c: Config<S, P>, st: State<S>, turns: seq<seq<Actor>>)
    requires WellFormed(c) && Inv(c, st) && Measure(c, st) <= |turns|
    requires forall t | 0 <= t < |turns| :: FullTurn(turns[t])
    ensures Final(c, RunFrom(c, st, Concat(turns)))
    decreases |turns|
  {
    if Final(c, st) {
      FinalStays(c, st, Concat(turns));
    } else {
      var actor := Progress(c, st);
      StepDecreases(c, st, actor);
      InvAct(c, st, actor);
      MeasureBounds(c, Act(c, st, actor));
      var next := RunFrom(c, st, turns[0]);
      TurnMakesProgress(c, st, turns[0], actor);
      InvRunFrom(c, st, turns[0]);
      FairFrom(c, next, turns[1..]);
      RunFromConcat(c, st, turns[0], Concat(turns[1..]));
    }
  }

  /** What both parties have at the end, and empty links whose totals match what was sent. */
  function FinalState<S, P>(c: Config<S, P>): State<S>
    requires WellFormed(c)
  {
    var r := |c.rounds|;
    State(Sending(PrngAt(SetupOf(c), r), seq(r, k requires 0 <= k < r => SentAt(SetupOf(c), k))),
          Receiving(PairsAt(SetupOf(c), r), seq(r, k requires 0 <= k < r => ReceivedAt(SetupOf(c), k))),
          Link([], [], 66 * c.n + RoundBytes(c, r)),
          Link([], [], 33 * c.n))
  }

  lemma FinalStateUnique<S, P>(c: Config<S, P>, st: State<S>)
    requires WellFormed(c) && Inv(c, st) && Final(c, st)
    ensures st == FinalState(c)
  {
  }

  /**
   Termination and determinism: every schedule that gives everybody `RunLength` turns ends, and all of them
   end in the same state.
   */
  lemma FairSchedulesFinish<S, P>(c: Config<S, P>, turns: seq<seq<Actor>>)
    requires WellFormed(c) && RunLength(c) <= |turns|
    requires forall t | 0 <= t < |turns| :: FullTurn(turns[t])
    ensures Run(c, Concat(turns)) == FinalState(c)
  {
    InvInit<S, P>(c);
    MeasureBounds(c, Init());
    FairFrom(c, Init(), turns);
    EveryRun(c, Concat(turns));
    FinalStateUnique(c, Run(c, Concat(turns)));
  }

  /** No schedule deadlocks: where it leaves no actor a step, the session is complete and the links are empty. */
  lemma NoDeadlock<S, P>(c: Config<S, P>, schedule: seq<Actor>)
    requires WellFormed(c)
    ensures (forall actor :: !Enabled(c, Run(c, schedule), actor)) <==> Run(c, schedule) == FinalState(c)
  {
    var st := Run(c, schedule);
    EveryRun(c, schedule);
    if Final(c, st) {
      FinalStateUnique(c, st);
      forall actor ensures !Enabled(c, st, actor) {
        FinalIsQuiescent(c, st, actor);
      }
    } else {
      var actor := Progress(c, st);
      assert st != FinalState(c);
    }
  }

  /** The wire size of a round: `rows * cols` blocks for IKNP, `ext * threshhold` blocks for KKRT. */
  lemma RoundSize<S, P>(c: Config<S, P>, k: nat)
    requires WellFormed(c) && k < |c.rounds|
    ensures c.proto.IknpExtension? ==> Need(c.proto, c.n, c.rounds[k]) == 16 * c.proto.ext
    ensures c.proto.KkrtExtension? ==> Need(c.proto, c.n, c.rounds[k]) == 16 * (Kkrt.RoundUp(|c.rounds[k].choices|) * (c.n / 128))
  {
  }

  /**
   KKRT: from the end of a round until the next `send`, whatever else happens meanwhile, `encode(i, x_i)` on
   the sender's current matrix gives message `i` of that round.
   */
  lemma EncodeUntilNextSend<S, P(!new)>(c: Config<S, P>, schedule: seq<Actor>, i: nat)
    requires WellFormed(c) && Laws(c.curve) && c.proto.KkrtExtension?
    requires (var st := Run(c, schedule); st.sender.Sending? && 0 < |st.sender.outputs| <= |c.rounds|)
    requires i < |c.rounds[|Run(c, schedule).sender.outputs| - 1].choices|
    ensures (var st := Run(c, schedule);
             var k := |st.sender.outputs| - 1;
             && st.receiver.Receiving? && k < |st.receiver.outputs| && i < |st.receiver.outputs[k]|
             && st.sender.outputs[k].QMat? && i < |st.sender.outputs[k].q| && |st.sender.outputs[k].q[i]| <= |c.secret|
             && Kkrt.Encode(c.prims, c.secret, st.sender.outputs[k].q[i], i, c.rounds[k].choices[i]) == st.receiver.outputs[k][i])
  {
    EveryCompletedRoundAgrees(c, schedule, |Run(c, schedule).sender.outputs| - 1);
  }

  /**
   KKRT, in every state of every schedule in which the sender has completed a round: `encode(i, x)` on the
   matrix it holds is, for every index and every block `x`, chosen or not, the receiver's hash chain with
   `s_j & (code_j(x) ^ code_j(choice_i))` XORed into link `j`.
   */
  lemma EncodeInEveryState<S, P(!new)>(c: Config<S, P>, schedule: seq<Actor>, i: nat, x: Block)
    requires WellFormed(c) && Laws(c.curve) && c.proto.KkrtExtension?
    requires (var st := Run(c, schedule); st.sender.Sending? && 0 < |st.sender.outputs| <= |c.rounds|)
    requires i < 128 * ReceiverCols(c.proto, c.rounds[|Run(c, schedule).sender.outputs| - 1])
    ensures (var st := Run(c, schedule);
             var k := |st.sender.outputs| - 1;
             var t0 := Kkrt.RowMat(c.prims, PairsAt(SetupOf(c), k), false, c.n / 128, ReceiverCols(c.proto, c.rounds[k]));
             var choice := Kkrt.ChoiceAt(c.rounds[k].choices, i);
             && st.sender.outputs[k].QMat? && i < |st.sender.outputs[k].q| && |st.sender.outputs[k].q[i]| <= |c.secret|
             && Kkrt.Encode(c.prims, c.secret, st.sender.outputs[k].q[i], i, x)
                == Kkrt.Chain(c.prims, Kkrt.OffsetRow(c.prims, c.secret, t0[i], x, choice), i))
  {
    EveryRun(c, schedule);
    BaseKeysMatch(c);
    var outputs, k := Run(c, schedule).sender.outputs, |Run(c, schedule).sender.outputs| - 1;
    assert outputs[k] == SentAt(SetupOf(c), k);
    EncodeAt(SetupOf(c), k, i, x);
  }
}
