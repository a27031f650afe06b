/**
 The party objects themselves under every interleaving of their calls: a schedule decides whose turn it
 is, and a sender whose matrix has not arrived waits. These mirror the benchmark's repeated rounds and the
 tests' composition of base OTs with an extension.
 */
module Drivers {
  import opened Blocks
  import opened Curves
  import opened Indexing
  import opened Memory
  import opened Primitives
  import opened Extension
  import opened Rounds
  import opened Schedules
  import IknpParties
  import Kkrt
  import KkrtParties
  import NaorPinkas
  import NaorPinkasParties
  import Session

  /** A sender takes exactly the next matrix off a channel that holds those of rounds `k .. m-1`. */
  lemma NextMatrix<S>(e: Setup<S>, bytes: seq<bv8>, k: nat, m: nat)
    requires ValidSetup(e) && k < m <= |e.rounds| && bytes == Concat(Wires(e)[k..m])
    ensures (var need := Need(e.proto, e.n, e.rounds[k]);
             && need <= |bytes| && need % 16 == 0
             && Parse(bytes[..need]) == MatrixAt(e, k)
             && bytes[need..] == Concat(Wires(e)[k + 1..m]))
  {
    ConcatShrinks(Wires(e), k, m);
    var need := Need(e.proto, e.n, e.rounds[k]);
    assert bytes[..need] == WireAt(e, k);
    assert bytes[need..] == Concat(Wires(e)[k + 1..m]);
    ParseFlatten(MatrixAt(e, k));
  }

  // ---------- KKRT ----------

  /** The matrix that round `k - 1` left the sender with; nothing before the first round. */
  predicate Holds<S>(e: Setup<S>, q: seq<seq<Block>>, k: nat)
    requires ValidSetup(e) && k <= |e.rounds|
  {
    k > 0 ==> SentAt(e, k - 1) == QMat(q)
  }

  /**
   The objects after `k` sender and `m` receiver rounds, with the matrices of the rounds in between under
   way. The sender keeps the matrix of its last round until the next `send`.
   */
  ghost predicate KkrtAt<S>(e: Setup<S>, sender: KkrtParties.Sender<S>, receiver: KkrtParties.Receiver<S>,
                            net: Channel, k: nat, m: nat)
    reads sender, receiver, net
  {
    && ValidSetup(e) && e.proto.KkrtExtension? && k <= m <= |e.rounds|
    && sender.prims == receiver.prims == e.prims && sender.baseOtSizes == receiver.baseOtSizes == e.n
    && sender.baseChoices == e.secret && sender.prng == PrngAt(e, k)
    && Holds(e, sender.qMat, k)
    && receiver.prng == PairsAt(e, m)
    && net.bytes == Concat(Wires(e)[k..m])
  }

  method KkrtReceiverTurn<S>(ghost e: Setup<S>, ghost sender: KkrtParties.Sender<S>,
                             receiver: KkrtParties.Receiver<S>, net: Channel,
                             ghost k: nat, ghost m: nat, round: Round)
    returns (messages: seq<Block>)
    requires KkrtAt(e, sender, receiver, net, k, m) && m < |e.rounds| && round == e.rounds[m]
    modifies receiver, net
    ensures KkrtAt(e, sender, receiver, net, k, m + 1)
    ensures messages == AllReceived(e)[m]
  {
    var _, received := receiver.Receive(net, round.choices);
    messages := received;
    ConcatGrows(Wires(e), k, m);
  }

  method KkrtSenderTurn<S>(ghost e: Setup<S>, sender: KkrtParties.Sender<S>, ghost receiver: KkrtParties.Receiver<S>,
                           net: Channel,
                           ghost k: nat, ghost m: nat, round: Round)
    requires KkrtAt(e, sender, receiver, net, k, m) && k < m && round == e.rounds[k]
    modifies sender, net
    ensures KkrtAt(e, sender, receiver, net, k + 1, m)
  {
    NextMatrix(e, net.bytes, k, m);
    var _ := sender.Send(net, round.size);
  }

  /** The sender encodes the receiver's choices, as the test does. */
  method EncodeAll<S>(sender: KkrtParties.Sender<S>, choices: seq<Block>) returns (encoded: seq<Block>)
    requires |choices| <= |sender.qMat| && sender.baseOtSizes / 128 <= |sender.baseChoices|
    requires forall i: nat | i < |sender.qMat| :: |sender.qMat[i]| == sender.baseOtSizes / 128
    ensures |encoded| == |choices|
    ensures forall i: nat | i < |choices| ::
      encoded[i] == Kkrt.Encode(sender.prims, sender.baseChoices, sender.qMat[i], i, choices[i])
  {
    encoded := [];
    for i := 0 to |choices|
      invariant |encoded| == i
      invariant forall k: nat | k < i ::
        encoded[k] == Kkrt.Encode(sender.prims, sender.baseChoices, sender.qMat[k], k, choices[k])
    {
      var block := sender.Encode(i, choices[i]);
      encoded := encoded + [block];
    }
  }

  /** What `encode` gives for the receiver's choices of round `k`, on the matrix of that round. */
  function EncodedAt<S>(e: Setup<S>, k: nat): (r: seq<Block>)
    requires ValidSetup(e) && e.proto.KkrtExtension? && k < |e.rounds|
    ensures |r| == |e.rounds[k].choices|
  {
    var q, choices := SentAt(e, k).q, e.rounds[k].choices;
    seq<Block>(|choices|, i requires 0 <= i < |choices| => Kkrt.Encode(e.prims, e.secret, q[i], i, choices[i]))
  }

  function EncodedOfRounds<S>(e: Setup<S>): (r: seq<seq<Block>>)
    requires ValidSetup(e) && e.proto.KkrtExtension?
    ensures |r| == |e.rounds|
  {
    seq(|e.rounds|, k requires 0 <= k < |e.rounds| => EncodedAt(e, k))
  }

  lemma AllEncodedAgree<S>(e: Setup<S>, k: nat)
    requires ValidSetup(e) && e.proto.KkrtExtension? && k < |e.rounds| && Matched(e.secret, e.prng, e.pairs, e.n)
    ensures EncodedOfRounds(e)[k] == AllReceived(e)[k]
  {
    AgreementAt(e, k);
  }

  /** A round of the sender, and its encodings of the receiver's choices. */
  method KkrtSendAndEncode<S>(ghost e: Setup<S>, sender: KkrtParties.Sender<S>,
                              ghost receiver: KkrtParties.Receiver<S>, net: Channel,
                              ghost k: nat, ghost m: nat, round: Round)
    returns (encoded: seq<Block>)
    requires KkrtAt(e, sender, receiver, net, k, m) && k < m && round == e.rounds[k]
    modifies sender, net
    ensures KkrtAt(e, sender, receiver, net, k + 1, m)
    ensures encoded == EncodedOfRounds(e)[k]
  {
    KkrtSenderTurn(e, sender, receiver, net, k, m, round);
    encoded := EncodeAll(sender, round.choices);
  }

  /** A receiver turn with rounds left: its messages are appended. */
  method KkrtReceives<S>(ghost sender: KkrtParties.Sender<S>, receiver: KkrtParties.Receiver<S>, net: Channel,
                         rounds: seq<Round>, ghost k: nat, received: seq<seq<Block>>, ghost e: Setup<S>)
    returns (received': seq<seq<Block>>)
    requires KkrtAt(e, sender, receiver, net, k, |received|) && e.rounds == rounds && |received| < |rounds|
    requires received == AllReceived(e)[..|received|]
    modifies receiver, net
    ensures |received'| == |received| + 1 && KkrtAt(e, sender, receiver, net, k, |received'|)
    ensures received' == AllReceived(e)[..|received'|]
  {
    TakeNext(AllReceived(e), |received|);
    var messages := KkrtReceiverTurn(e, sender, receiver, net, k, |received|, rounds[|received|]);
    received' := received + [messages];
  }

  /** A sender turn with a matrix under way. */
  method KkrtSends<S>(sender: KkrtParties.Sender<S>, ghost receiver: KkrtParties.Receiver<S>, net: Channel,
                      rounds: seq<Round>, encoded: seq<seq<Block>>, ghost m: nat, ghost e: Setup<S>)
    returns (encoded': seq<seq<Block>>)
    requires KkrtAt(e, sender, receiver, net, |encoded|, m) && e.rounds == rounds && |encoded| < m
    requires encoded == EncodedOfRounds(e)[..|encoded|]
    modifies sender, net
    ensures |encoded'| == |encoded| + 1 && KkrtAt(e, sender, receiver, net, |encoded'|, m)
    ensures encoded' == EncodedOfRounds(e)[..|encoded'|]
  {
    TakeNext(EncodedOfRounds(e), |encoded|);
    var messages := KkrtSendAndEncode(e, sender, receiver, net, |encoded|, m, rounds[|encoded|]);
    encoded' := encoded + [messages];
  }

  /** One turn: the receiver plays its next round, or the sender the next one whose matrix is under way. */
  method KkrtTurn<S>(sender: KkrtParties.Sender<S>, receiver: KkrtParties.Receiver<S>, net: Channel, rounds: seq<Round>,
                    receiverTurn: bool, encoded: seq<seq<Block>>, received: seq<seq<Block>>, ghost e: Setup<S>)
    returns (encoded': seq<seq<Block>>, received': seq<seq<Block>>)
    requires KkrtAt(e, sender, receiver, net, |encoded|, |received|) && e.rounds == rounds
    requires encoded == EncodedOfRounds(e)[..|encoded|] && received == AllReceived(e)[..|received|]
    modifies sender, receiver, net
    ensures (|encoded'|, |received'|) == Turn(|encoded|, |received|, receiverTurn, |rounds|)
    ensures KkrtAt(e, sender, receiver, net, |encoded'|, |received'|)
    ensures encoded' == EncodedOfRounds(e)[..|encoded'|] && received' == AllReceived(e)[..|received'|]
  {
    encoded', received' := encoded, received;
    if receiverTurn && |received| < |rounds| {
      received' := KkrtReceives(sender, receiver, net, rounds, |encoded|, received, e);
    } else if !receiverTurn && |encoded| < |received| {
      encoded' := KkrtSends(sender, receiver, net, rounds, encoded, |received|, e);
    }
  }

  /**
   Any number of KKRT rounds in any order of turns: what the sender encodes for the receiver's choices in
   each round it has completed is what the receiver got in that round.
   */
  method RunKkrt<S>(sender: KkrtParties.Sender<S>, receiver: KkrtParties.Receiver<S>, net: Channel,
                    rounds: seq<Round>, schedule: seq<bool>,
                    ghost e: Setup<S>)
    returns (encoded: seq<seq<Block>>, received: seq<seq<Block>>)
    requires KkrtAt(e, sender, receiver, net, 0, 0) && e.rounds == rounds && Matched(e.secret, e.prng, e.pairs, e.n)
    modifies sender, receiver, net
    ensures (|encoded|, |received|) == Turns(schedule, |rounds|)
    ensures KkrtAt(e, sender, receiver, net, |encoded|, |received|)
    ensures encoded == received[..|encoded|] && received == AllReceived(e)[..|received|]
    ensures Matched(sender.baseChoices, sender.prng, PairsAt(e, |encoded|), e.n)
  {
    encoded, received := [], [];
    for t := 0 to |schedule|
      invariant (|encoded|, |received|) == Turns(schedule[..t], |rounds|)
      invariant KkrtAt(e, sender, receiver, net, |encoded|, |received|)
      invariant encoded == EncodedOfRounds(e)[..|encoded|] && received == AllReceived(e)[..|received|]
    {
      TurnsStep(schedule, t, |rounds|);
      encoded, received := KkrtTurn(sender, receiver, net, rounds, schedule[t], encoded, received, e);
    }
    assert schedule[..|schedule|] == schedule;
    forall j: nat | j < |encoded| ensures encoded[j] == received[j] {
      AllEncodedAgree(e, j);
    }
    LockstepAt(e, |encoded|);
  }

  // ---------- IKNP ----------

  ghost predicate IknpAt<S>(e: Setup<S>, sender: IknpParties.Sender<S>, receiver: IknpParties.Receiver<S>,
                            net: Channel, k: nat, m: nat)
    reads sender, receiver, net
  {
    && ValidSetup(e) && e.proto.IknpExtension? && e.n == 128 && k <= m <= |e.rounds|
    && sender.prims == receiver.prims == e.prims && sender.baseOtSizes == receiver.baseOtSizes == 128
    && sender.extOtSizes == receiver.extOtSizes == e.proto.ext > 0 && e.proto.ext % 128 == 0
    && sender.baseChoices == e.secret && sender.prng == PrngAt(e, k)
    && receiver.prng == PairsAt(e, m)
    && net.bytes == Concat(Wires(e)[k..m])
  }

  method IknpReceiverTurn<S>(ghost e: Setup<S>, ghost sender: IknpParties.Sender<S>,
                             receiver: IknpParties.Receiver<S>, net: Channel,
                             ghost k: nat, ghost m: nat, round: Round)
    returns (messages: seq<Block>)
    requires IknpAt(e, sender, receiver, net, k, m) && m < |e.rounds| && round == e.rounds[m]
    modifies receiver, net
    ensures IknpAt(e, sender, receiver, net, k, m + 1)
    ensures messages == AllReceived(e)[m]
  {
    var _, received := receiver.Receive(net, round.choices);
    messages := received;
    ConcatGrows(Wires(e), k, m);
  }

  /** The sender's message pairs of every round. */
  function PairsOfRounds<S>(e: Setup<S>): (r: seq<seq<(Block, Block)>>)
    requires ValidSetup(e) && e.proto.IknpExtension?
    ensures |r| == |e.rounds|
  {
    seq(|e.rounds|, k requires 0 <= k < |e.rounds| => SentAt(e, k).pairs)
  }

  method IknpSenderTurn<S>(ghost e: Setup<S>, sender: IknpParties.Sender<S>, ghost receiver: IknpParties.Receiver<S>,
                           net: Channel,
                           ghost k: nat, ghost m: nat)
    returns (messages: seq<(Block, Block)>)
    requires IknpAt(e, sender, receiver, net, k, m) && k < m
    modifies sender, net
    ensures IknpAt(e, sender, receiver, net, k + 1, m)
    ensures messages == PairsOfRounds(e)[k]
  {
    NextMatrix(e, net.bytes, k, m);
    var _, sent := sender.Send(net);
    messages := sent;
  }

  /** Message `i` of the receiver is the slot of pair `i` that choice bit `i` names. */
  predicate PairsAgree(round: Round, sent: seq<(Block, Block)>, received: seq<Block>) {
    && |sent| == |received| <= 128 * |round.choices|
    && forall i: nat | i < |sent| :: received[i] == Slot(sent[i], BitFromBlocks(round.choices, i))
  }

  lemma AllPairsAgree<S>(e: Setup<S>, k: nat)
    requires ValidSetup(e) && e.proto.IknpExtension? && k < |e.rounds| && Matched(e.secret, e.prng, e.pairs, e.n)
    ensures PairsAgree(e.rounds[k], PairsOfRounds(e)[k], AllReceived(e)[k])
  {
    AgreementAt(e, k);
  }

  /** A receiver turn with rounds left: its messages are appended. */
  method IknpReceives<S>(ghost sender: IknpParties.Sender<S>, receiver: IknpParties.Receiver<S>, net: Channel,
                         rounds: seq<Round>, ghost k: nat, received: seq<seq<Block>>, ghost e: Setup<S>)
    returns (received': seq<seq<Block>>)
    requires IknpAt(e, sender, receiver, net, k, |received|) && e.rounds == rounds && |received| < |rounds|
    requires received == AllReceived(e)[..|received|]
    modifies receiver, net
    ensures |received'| == |received| + 1 && IknpAt(e, sender, receiver, net, k, |received'|)
    ensures received' == AllReceived(e)[..|received'|]
  {
    TakeNext(AllReceived(e), |received|);
    var messages := IknpReceiverTurn(e, sender, receiver, net, k, |received|, rounds[|received|]);
    received' := received + [messages];
  }

  /** A sender turn with a matrix under way. */
  method IknpSends<S>(sender: IknpParties.Sender<S>, ghost receiver: IknpParties.Receiver<S>, net: Channel,
                      rounds: seq<Round>, sent: seq<seq<(Block, Block)>>, ghost m: nat, ghost e: Setup<S>)
    returns (sent': seq<seq<(Block, Block)>>)
    requires IknpAt(e, sender, receiver, net, |sent|, m) && e.rounds == rounds && |sent| < m
    requires sent == PairsOfRounds(e)[..|sent|]
    modifies sender, net
    ensures |sent'| == |sent| + 1 && IknpAt(e, sender, receiver, net, |sent'|, m)
    ensures sent' == PairsOfRounds(e)[..|sent'|]
  {
    TakeNext(PairsOfRounds(e), |sent|);
    var messages := IknpSenderTurn(e, sender, receiver, net, |sent|, m);
    sent' := sent + [messages];
  }

  /** One turn: the receiver plays its next round, or the sender the next one whose matrix is under way. */
  method IknpTurn<S>(sender: IknpParties.Sender<S>, receiver: IknpParties.Receiver<S>, net: Channel, rounds: seq<Round>,
                    receiverTurn: bool, sent: seq<seq<(Block, Block)>>, received: seq<seq<Block>>, ghost e: Setup<S>)
    returns (sent': seq<seq<(Block, Block)>>, received': seq<seq<Block>>)
    requires IknpAt(e, sender, receiver, net, |sent|, |received|) && e.rounds == rounds
    requires sent == PairsOfRounds(e)[..|sent|] && received == AllReceived(e)[..|received|]
    modifies sender, receiver, net
    ensures (|sent'|, |received'|) == Turn(|sent|, |received|, receiverTurn, |rounds|)
    ensures IknpAt(e, sender, receiver, net, |sent'|, |received'|)
    ensures sent' == PairsOfRounds(e)[..|sent'|] && received' == AllReceived(e)[..|received'|]
  {
    sent', received' := sent, received;
    if receiverTurn && |received| < |rounds| {
      received' := IknpReceives(sender, receiver, net, rounds, |sent|, received, e);
    } else if !receiverTurn && |sent| < |received| {
      sent' := IknpSends(sender, receiver, net, rounds, sent, |received|, e);
    }
  }

  /**
   Any number of IKNP rounds in any order of turns: in each round the sender has completed, the receiver's
   messages are the slots it chose.
   */
  method RunIknp<S>(sender: IknpParties.Sender<S>, receiver: IknpParties.Receiver<S>, net: Channel,
                    rounds: seq<Round>, schedule: seq<bool>,
                    ghost e: Setup<S>)
    returns (sent: seq<seq<(Block, Block)>>, received: seq<seq<Block>>)
    requires IknpAt(e, sender, receiver, net, 0, 0) && e.rounds == rounds && Matched(e.secret, e.prng, e.pairs, e.n)
    modifies sender, receiver, net
    ensures (|sent|, |received|) == Turns(schedule, |rounds|)
    ensures IknpAt(e, sender, receiver, net, |sent|, |received|)
    ensures forall k: nat | k < |sent| :: PairsAgree(rounds[k], sent[k], received[k])
    ensures sent == PairsOfRounds(e)[..|sent|] && received == AllReceived(e)[..|received|]
    ensures Matched(sender.baseChoices, sender.prng, PairsAt(e, |sent|), e.n)
  {
    sent, received := [], [];
    for t := 0 to |schedule|
      invariant (|sent|, |received|) == Turns(schedule[..t], |rounds|)
      invariant IknpAt(e, sender, receiver, net, |sent|, |received|)
      invariant sent == PairsOfRounds(e)[..|sent|] && received == AllReceived(e)[..|received|]
    {
      TurnsStep(schedule, t, |rounds|);
      sent, received := IknpTurn(sender, receiver, net, rounds, schedule[t], sent, received, e);
    }
    assert schedule[..|schedule|] == schedule;
    forall j: nat | j < |sent| ensures PairsAgree(rounds[j], sent[j], received[j]) {
      AllPairsAgree(e, j);
    }
    LockstepAt(e, |sent|);
  }

  // ---------- base OTs, then an extension ----------

  /** A Naor-Pinkas exchange between fresh objects, for any secret keys. */
  method BaseExchange<P(!new)>(curve: Curve<P>, hash: NaorPinkas.PointHash, n: nat, cs: seq<nat>, rs: seq<nat>,
                               ks: seq<nat>, choices: seq<Block>)
    returns (sendOts: seq<(Block, Block)>, recvOts: seq<Block>)
    requires Laws(curve) && |cs| == |rs| == |ks| == n <= 128 * |choices|
    ensures (var keys := NaorPinkas.KeyMessage(curve, cs, rs);
             && recvOts == NaorPinkas.ReceiverMessages(curve, hash, keys, ks, choices)
             && sendOts == NaorPinkas.SenderMessages(curve, hash, cs, rs, NaorPinkas.ReplyMessage(curve, keys, ks, choices)))
    ensures forall i: nat | i < n :: recvOts[i] == Slot(sendOts[i], BitFromBlocks(choices, i))
  {
    var toReceiver := new Channel();
    var toSender := new Channel();
    var sender := new NaorPinkasParties.Sender(curve, hash, n);
    var receiver := new NaorPinkasParties.Receiver(curve, hash, n);
    var cPk, buff := sender.SendKeys(toReceiver, cs, rs);
    ghost var keys := NaorPinkas.KeyMessage(curve, cs, rs);
    assert toReceiver.bytes == keys && keys[..66 * n] == keys;
    recvOts := receiver.Receive(toReceiver, toSender, choices, ks);
    ghost var reply := NaorPinkas.ReplyMessage(curve, keys, ks, choices);
    assert toSender.bytes == reply && reply[..33 * n] == reply;
    sendOts := sender.Finish(toSender, cPk, rs, buff, cs);
    forall i: nat | i < n ensures recvOts[i] == Slot(sendOts[i], BitFromBlocks(choices, i)) {
      NaorPinkas.Correct(curve, hash, cs, rs, ks, choices, i);
    }
  }

  /** Base OTs with swapped roles, then one `set_base_ots` per side. */
  method KkrtSetUp<S, P(!new)>(c: Session.Config<S, P>)
    returns (sender: KkrtParties.Sender<S>, receiver: KkrtParties.Receiver<S>, net: Channel)
    requires Session.WellFormed(c) && Laws(c.curve) && c.proto.KkrtExtension?
    ensures fresh(sender) && fresh(receiver) && fresh(net)
    ensures KkrtAt(Session.SetupOf(c), sender, receiver, net, 0, 0)
  {
    var sendOts, recvOts := BaseExchange(c.curve, c.hash, c.n, c.cs, c.rs, c.ks, c.secret);
    sender := new KkrtParties.Sender(c.prims, c.n);
    receiver := new KkrtParties.Receiver(c.prims, c.n);
    sender.SetBaseOts(c.secret, recvOts);
    receiver.SetBaseOts(sendOts);
    net := new Channel();
    ghost var e := Session.SetupOf(c);
    assert sender.prng == e.prng && receiver.prng == e.pairs && sender.baseChoices == e.secret;
    assert Wires(e)[0..0] == [];
  }

  /**
   Base OTs with swapped roles, one `set_base_ots` per side, then KKRT rounds in any order of turns, ending in
   the state the schedule leads to. The messages are those of the transition system, and what the sender
   encodes for the receiver's choices is what the receiver got.
   */
  method KkrtSession<S, P(!new)>(c: Session.Config<S, P>, schedule: seq<bool>)
    returns (sender: KkrtParties.Sender<S>, receiver: KkrtParties.Receiver<S>, net: Channel,
             encoded: seq<seq<Block>>, received: seq<seq<Block>>)
    requires Session.WellFormed(c) && Laws(c.curve) && c.proto.KkrtExtension?
    ensures fresh(sender) && fresh(receiver) && fresh(net)
    ensures (|encoded|, |received|) == Turns(schedule, |c.rounds|)
    ensures |encoded| == |received| == |c.rounds| <==> EnoughTurns(schedule, |c.rounds|)
    ensures KkrtAt(Session.SetupOf(c), sender, receiver, net, |encoded|, |received|)
    ensures received == Session.FinalState(c).receiver.outputs[..|received|] && encoded == received[..|encoded|]
  {
    sender, receiver, net := KkrtSetUp(c);
    ghost var e := Session.SetupOf(c);
    Session.BaseKeysMatch(c);
    CompleteIff(schedule, |c.rounds|);
    encoded, received := RunKkrt(sender, receiver, net, c.rounds, schedule, e);
    assert AllReceived(e) == Session.FinalState(c).receiver.outputs;
  }

  /** Base OTs with swapped roles, then one `set_base_ots` per side. */
  method IknpSetUp<S, P(!new)>(c: Session.Config<S, P>, ext: nat)
    returns (sender: IknpParties.Sender<S>, receiver: IknpParties.Receiver<S>, net: Channel)
    requires Session.WellFormed(c) && Laws(c.curve) && c.proto == IknpExtension(ext)
    requires c.n == 128 && ext > 0 && ext % 128 == 0
    ensures fresh(sender) && fresh(receiver) && fresh(net)
    ensures IknpAt(Session.SetupOf(c), sender, receiver, net, 0, 0)
  {
    var sendOts, recvOts := BaseExchange(c.curve, c.hash, c.n, c.cs, c.rs, c.ks, c.secret);
    sender := new IknpParties.Sender(c.prims, 128, ext);
    receiver := new IknpParties.Receiver(c.prims, 128, ext);
    sender.SetBaseOts(c.secret, recvOts);
    receiver.SetBaseOts(sendOts);
    net := new Channel();
    ghost var e := Session.SetupOf(c);
    assert sender.prng == e.prng && receiver.prng == e.pairs && sender.baseChoices == e.secret;
    assert Wires(e)[0..0] == [];
  }

  /**
   Base OTs with swapped roles, one `set_base_ots` per side, then IKNP rounds in any order of turns, ending in
   the state the schedule leads to. The pairs and messages are those of the transition system, and the
   messages are the slots the receiver chose.
   */
  method IknpSession<S, P(!new)>(c: Session.Config<S, P>, ext: nat, schedule: seq<bool>)
    returns (sender: IknpParties.Sender<S>, receiver: IknpParties.Receiver<S>, net: Channel,
             sent: seq<seq<(Block, Block)>>, received: seq<seq<Block>>)
    requires Session.WellFormed(c) && Laws(c.curve) && c.proto == IknpExtension(ext)
    requires c.n == 128 && ext > 0 && ext % 128 == 0
    ensures fresh(sender) && fresh(receiver) && fresh(net)
    ensures (|sent|, |received|) == Turns(schedule, |c.rounds|)
    ensures |sent| == |received| == |c.rounds| <==> EnoughTurns(schedule, |c.rounds|)
    ensures IknpAt(Session.SetupOf(c), sender, receiver, net, |sent|, |received|)
    ensures received == Session.FinalState(c).receiver.outputs[..|received|]
    ensures forall k: nat | k < |sent| ::
      Pairs(sent[k]) == Session.FinalState(c).sender.outputs[k] && PairsAgree(c.rounds[k], sent[k], received[k])
  {
    sender, receiver, net := IknpSetUp(c, ext);
    ghost var e := Session.SetupOf(c);
    Session.BaseKeysMatch(c);
    CompleteIff(schedule, |c.rounds|);
    sent, received := RunIknp(sender, receiver, net, c.rounds, schedule, e);
    assert AllReceived(e) == Session.FinalState(c).receiver.outputs;
  }
}
