/**
 How far the parties of a session can be apart: the extension receiver never waits, and every pair of
 positions in which the receiver is not behind is reached by some schedule.
 */
module Interleavings {
  import opened Indexing
  import opened Rounds
  import opened Session

  function Times(actor: Actor, j: nat): (schedule: seq<Actor>)
    ensures |schedule| == j
  {
    seq(j, _ => actor)
  }

  lemma TimesStep<S, P>(c: Config<S, P>, st: State<S>, actor: Actor, j: nat)
    requires WellFormed(c) && Sized(c, st) && j > 0
    ensures RunFrom(c, st, Times(actor, j)) == RunFrom(c, Act(c, st, actor), Times(actor, j - 1))
  {
    assert Times(actor, j)[1..] == Times(actor, j - 1);
  }

  /** The receiver, once set up, completes a round at every turn, whatever the sender and the links have done. */
  lemma {:induction false} ReceiverNeverWaits<S, P>(c: Config<S, P>, st: State<S>, j: nat)
    requires WellFormed(c) && Inv(c, st) && st.receiver.Receiving? && |st.receiver.outputs| + j <= |c.rounds|
    ensures (var st' := RunFrom(c, st, Times(Receiver, j));
             && Inv(c, st') && st'.sender == st.sender && st'.toReceiver == st.toReceiver
             && st'.receiver.Receiving? && |st'.receiver.outputs| == |st.receiver.outputs| + j)
    decreases j
  {
    if j > 0 {
      TimesStep(c, st, Receiver, j);
      InvAct(c, st, Receiver);
      ReceiveEffect(c, st);
      ReceiverNeverWaits(c, Act(c, st, Receiver), j - 1);
    }
  }

  /** Delivering everything on the link to the sender changes nothing else. */
  lemma {:induction false} DeliverToSender<S, P>(c: Config<S, P>, st: State<S>, j: nat)
    requires WellFormed(c) && Inv(c, st) && |st.toSender.flight| == j
    ensures (var st' := RunFrom(c, st, Times(LinkToSender, j));
             && Inv(c, st') && st'.sender == st.sender && st'.receiver == st.receiver
             && st'.toReceiver == st.toReceiver && st'.toSender.flight == [])
    decreases j
  {
    if j > 0 {
      TimesStep(c, st, LinkToSender, j);
      InvAct(c, st, LinkToSender);
      DeliverToSender(c, Act(c, st, LinkToSender), j - 1);
    }
  }

  lemma {:induction false} DeliverToReceiver<S, P>(c: Config<S, P>, st: State<S>, j: nat)
    requires WellFormed(c) && Inv(c, st) && |st.toReceiver.flight| == j
    ensures (var st' := RunFrom(c, st, Times(LinkToReceiver, j));
             && Inv(c, st') && st'.sender == st.sender && st'.receiver == st.receiver
             && st'.toSender == st.toSender && st'.toReceiver.flight == [])
    decreases j
  {
    if j > 0 {
      TimesStep(c, st, LinkToReceiver, j);
      InvAct(c, st, LinkToReceiver);
      DeliverToReceiver(c, Act(c, st, LinkToReceiver), j - 1);
    }
  }

  /** A matrix that has arrived is all the sender waits for. */
  lemma SenderReady<S, P>(c: Config<S, P>, st: State<S>)
    requires WellFormed(c) && Inv(c, st) && st.sender.Sending? && st.receiver.Receiving?
    requires st.toSender.flight == [] && |st.sender.outputs| < |st.receiver.outputs|
    ensures Enabled(c, st, Sender)
    ensures (var st' := SenderStep(c, st);
             && st'.sender.Sending? && |st'.sender.outputs| == |st.sender.outputs| + 1
             && st'.receiver == st.receiver && st'.toSender.flight == [])
  {
    ConcatShrinks(Wires(SetupOf(c)), |st.sender.outputs|, |st.receiver.outputs|);
    assert st.toSender.Pending() == st.toSender.arrived;
  }

  lemma {:induction false} SenderCatchesUp<S, P>(c: Config<S, P>, st: State<S>, j: nat)
    requires WellFormed(c) && Inv(c, st) && st.sender.Sending? && st.receiver.Receiving?
    requires st.toSender.flight == [] && |st.sender.outputs| + j <= |st.receiver.outputs|
    ensures (var st' := RunFrom(c, st, Times(Sender, j));
             && Inv(c, st') && st'.receiver == st.receiver && st'.toSender.flight == []
             && st'.sender.Sending? && |st'.sender.outputs| == |st.sender.outputs| + j)
    decreases j
  {
    if j > 0 {
      TimesStep(c, st, Sender, j);
      InvAct(c, st, Sender);
      SenderReady(c, st);
      SenderCatchesUp(c, Act(c, st, Sender), j - 1);
    }
  }

  lemma RunThen<S, P>(c: Config<S, P>, schedule: seq<Actor>, more: seq<Actor>)
    requires WellFormed(c)
    ensures Run(c, schedule + more) == RunFrom(c, Run(c, schedule), more)
  {
    RunFromConcat(c, Init(), schedule, more);
  }

  /** The base OTs' messages go back and forth once, and both parties are set up. */
  lemma SetUpSchedule<S, P>(c: Config<S, P>) returns (schedule: seq<Actor>)
    requires WellFormed(c)
    ensures (var st := Run(c, schedule);
             && Inv(c, st) && st.sender.Sending? && st.sender.outputs == []
             && st.receiver.Receiving? && st.receiver.outputs == [])
  {
    InvInit<S, P>(c);
    schedule := [Receiver];
    var st := Act(c, Init(), Receiver);
    InvAct(c, Init(), Receiver);
    assert Run(c, schedule) == st;
    DeliverToSender(c, st, |st.toSender.flight|);
    RunThen(c, schedule, Times(LinkToSender, |st.toSender.flight|));
    schedule := schedule + Times(LinkToSender, |st.toSender.flight|);
    schedule := SenderReplies(c, schedule);
    st := Run(c, schedule);
    DeliverToReceiver(c, st, |st.toReceiver.flight|);
    RunThen(c, schedule, Times(LinkToReceiver, |st.toReceiver.flight|));
    schedule := schedule + Times(LinkToReceiver, |st.toReceiver.flight|);
    schedule := ReceiverFinishes(c, schedule);
  }

  lemma SenderReplies<S, P>(c: Config<S, P>, schedule: seq<Actor>) returns (longer: seq<Actor>)
    requires WellFormed(c)
    requires (var st := Run(c, schedule);
              Inv(c, st) && st.sender.AwaitKeys? && st.receiver.AwaitReply? && st.toSender.flight == [])
    ensures (var st := Run(c, longer);
             Inv(c, st) && st.sender.Sending? && st.sender.outputs == [] && st.receiver.AwaitReply?)
  {
    var st := Run(c, schedule);
    longer := schedule + [Sender];
    RunThen(c, schedule, [Sender]);
    assert st.toSender.Pending() == st.toSender.arrived;
    InvAct(c, st, Sender);
    assert RunFrom(c, st, [Sender]) == Act(c, st, Sender);
  }

  lemma ReceiverFinishes<S, P>(c: Config<S, P>, schedule: seq<Actor>) returns (longer: seq<Actor>)
    requires WellFormed(c)
    requires (var st := Run(c, schedule);
              && Inv(c, st) && st.sender.Sending? && st.sender.outputs == []
              && st.receiver.AwaitReply? && st.toReceiver.flight == [])
    ensures (var st := Run(c, longer);
             && Inv(c, st) && st.sender.Sending? && st.sender.outputs == []
             && st.receiver.Receiving? && st.receiver.outputs == [])
  {
    var st := Run(c, schedule);
    longer := schedule + [Receiver];
    RunThen(c, schedule, [Receiver]);
    assert st.toReceiver.Pending() == st.toReceiver.arrived;
    InvAct(c, st, Receiver);
    assert RunFrom(c, st, [Receiver]) == Act(c, st, Receiver);
  }

  /** Every pair of positions with the receiver level or ahead, by any number of rounds, is reached. */
  lemma EveryLeadReached<S, P>(c: Config<S, P>, k: nat, m: nat) returns (schedule: seq<Actor>)
    requires WellFormed(c) && k <= m <= |c.rounds|
    ensures (var st := Run(c, schedule);
             && st.sender.Sending? && |st.sender.outputs| == k
             && st.receiver.Receiving? && |st.receiver.outputs| == m)
  {
    schedule := SetUpSchedule(c);
    ReceiverNeverWaits(c, Run(c, schedule), m);
    RunThen(c, schedule, Times(Receiver, m));
    schedule := schedule + Times(Receiver, m);
    var left := |Run(c, schedule).toSender.flight|;
    DeliverToSender(c, Run(c, schedule), left);
    RunThen(c, schedule, Times(LinkToSender, left));
    schedule := schedule + Times(LinkToSender, left);
    SenderCatchesUp(c, Run(c, schedule), k);
    RunThen(c, schedule, Times(Sender, k));
    schedule := schedule + Times(Sender, k);
  }

  /** These are all the positions there are: the receiver's lead is limited by nothing but the number of rounds. */
  lemma LeadsReachedIff<S, P>(c: Config<S, P>, k: nat, m: nat)
    requires WellFormed(c)
    ensures k <= m <= |c.rounds|
       <==> exists schedule ::
              (var st := Run(c, schedule);
               && st.sender.Sending? && |st.sender.outputs| == k
               && st.receiver.Receiving? && |st.receiver.outputs| == m)
  {
    if k <= m <= |c.rounds| {
      var schedule := EveryLeadReached(c, k, m);
    }
    forall schedule | (var st := Run(c, schedule);
                       && st.sender.Sending? && |st.sender.outputs| == k
                       && st.receiver.Receiving? && |st.receiver.outputs| == m)
      ensures k <= m <= |c.rounds|
    {
      EveryRun(c, schedule);
    }
  }
}
