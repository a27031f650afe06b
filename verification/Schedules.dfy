/**
 Schedules of turns: `true` is a turn of the extension receiver, `false` one of the sender. A receiver with
 rounds left never waits; a sender whose next matrix has not been sent yet lets its turn pass.
 */
module Schedules {

  function Min(a: nat, b: nat): nat {
    if a < b then a else b
  }

  /** How often `b` occurs. */
  function Count(schedule: seq<bool>, b: bool): nat {
    if schedule == [] then 0
    else Count(schedule[..|schedule| - 1], b) + if schedule[|schedule| - 1] == b then 1 else 0
  }

  /** One turn of a sender that has completed `k` rounds, or of a receiver that has completed `m`. */
  function Turn(k: nat, m: nat, receiver: bool, rounds: nat): (t: (nat, nat))
    requires k <= m <= rounds
    ensures t.0 <= t.1 <= rounds
  {
    if receiver then (k, Min(rounds, m + 1)) else (Min(m, k + 1), m)
  }

  /** How many of `rounds` rounds the sender and the receiver complete. */
  function Turns(schedule: seq<bool>, rounds: nat): (t: (nat, nat))
    ensures t.0 <= t.1 <= rounds
  {
    if schedule == [] then (0, 0)
    else
      var (k, m) := Turns(schedule[..|schedule| - 1], rounds);
      Turn(k, m, schedule[|schedule| - 1], rounds)
  }

  lemma TurnsStep(schedule: seq<bool>, t: nat, rounds: nat)
    requires t < |schedule|
    ensures (var (k, m) := Turns(schedule[..t], rounds);
             Turns(schedule[..t + 1], rounds) == Turn(k, m, schedule[t], rounds))
  {
    assert schedule[..t + 1][..t] == schedule[..t];
  }

  /** The receiver never waits: it completes a round per turn until none is left. */
  lemma {:induction false} ReceiverTurns(schedule: seq<bool>, rounds: nat)
    ensures Turns(schedule, rounds).1 == Min(rounds, Count(schedule, true))
  {
    if schedule != [] {
      ReceiverTurns(schedule[..|schedule| - 1], rounds);
    }
  }

  /** A bound on the sender's rounds: what the receiver completed before a cut, and the sender's turns after it. */
  function CutBound(schedule: seq<bool>, rounds: nat, cut: nat): nat
    requires cut <= |schedule|
  {
    Min(rounds, Count(schedule[..cut], true)) + Count(schedule[cut..], false)
  }

  lemma CutBoundStep(schedule: seq<bool>, rounds: nat, cut: nat)
    requires schedule != [] && cut < |schedule|
    ensures CutBound(schedule, rounds, cut)
         == CutBound(schedule[..|schedule| - 1], rounds, cut) + if schedule[|schedule| - 1] then 0 else 1
  {
    var before := schedule[..|schedule| - 1];
    assert schedule[..cut] == before[..cut];
    assert schedule[cut..][..|schedule| - cut - 1] == before[cut..];
  }

  lemma CutBoundEnd(schedule: seq<bool>, rounds: nat)
    ensures CutBound(schedule, rounds, |schedule|) == Turns(schedule, rounds).1
  {
    assert schedule[..|schedule|] == schedule;
    ReceiverTurns(schedule, rounds);
  }

  /** The sender completes as many rounds as the least bound of any cut allows. */
  lemma {:induction false} SenderTurns(schedule: seq<bool>, rounds: nat) returns (best: nat)
    ensures best <= |schedule| && Turns(schedule, rounds).0 == CutBound(schedule, rounds, best)
    ensures forall cut: nat | cut <= |schedule| :: Turns(schedule, rounds).0 <= CutBound(schedule, rounds, cut)
  {
    CutBoundEnd(schedule, rounds);
    if schedule == [] {
      return 0;
    }
    var before := schedule[..|schedule| - 1];
    best := SenderTurns(before, rounds);
    forall cut: nat | cut < |schedule|
      ensures CutBound(schedule, rounds, cut)
           == CutBound(before, rounds, cut) + if schedule[|schedule| - 1] then 0 else 1
    {
      CutBoundStep(schedule, rounds, cut);
    }
    var (k, m) := Turns(before, rounds);
    if !schedule[|schedule| - 1] && k == m {
      best := |schedule|;
    }
  }

  /** Wherever it is cut, the receiver's turns before the cut and the sender's turns after it are enough together. */
  ghost predicate EnoughTurns(schedule: seq<bool>, rounds: nat) {
    forall cut: nat | cut <= |schedule| :: rounds <= Count(schedule[..cut], true) + Count(schedule[cut..], false)
  }

  /** The schedules that complete all rounds. */
  lemma CompleteIff(schedule: seq<bool>, rounds: nat)
    ensures Turns(schedule, rounds) == (rounds, rounds) <==> EnoughTurns(schedule, rounds)
  {
    var best := SenderTurns(schedule, rounds);
    CutBoundEnd(schedule, rounds);
    if Turns(schedule, rounds) == (rounds, rounds) {
      forall cut: nat | cut <= |schedule|
        ensures rounds <= Count(schedule[..cut], true) + Count(schedule[cut..], false)
      {
        assert rounds <= CutBound(schedule, rounds, cut);
      }
    }
  }
}
