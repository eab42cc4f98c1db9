/**
 The dissemination barrier with parity and sense flags of `bench/diss_bar/mcs.c`.

 Each thread owns two banks of flags, one per parity, with one flag per round. A
 thread announces a round by storing its sense into the flag of the thread
 `2^round` places ahead, and waits until its own flag equals its sense. Flags are
 never reset: the parity alternates from call to call, the sense every two calls.
 */
module ParityBarrier {
  import opened Dissemination
  import opened Rounds

  datatype Flag = Flag(owner: nat, parity: nat, round: nat)

  datatype State = State(ps: seq<Progress>, flags: map<Flag, int>, parity: seq<nat>, sense: seq<nat>)

  function Flags(n: nat, rounds: nat): set<Flag> {
    set j: nat, p: nat, k: nat | 0 <= j < n && 0 <= p < 2 && 0 <= k < rounds :: Flag(j, p, k)
  }

  predicate WellFormed(s: State, rounds: nat) {
    && |s.parity| == |s.ps| && |s.sense| == |s.ps|
    && s.flags.Keys == Flags(|s.ps|, rounds)
    && (forall t :: 0 <= t < |s.ps| ==> ValidProgress(s.ps[t], 1, rounds) && s.parity[t] < 2 && s.sense[t] < 2)
  }

  function Init(n: nat, rounds: nat): (s: State)
    ensures WellFormed(s, rounds) && |s.ps| == n
  {
    State(seq(n, _ => Progress(0, 0, Outside)), map f | f in Flags(n, rounds) :: 0, seq(n, _ => 0), seq(n, _ => 1))
  }

  /** Thread `t` takes its next step in `mcs_barrier_wait`. */
  function Next(s: State, rounds: nat, t: nat): (s': State)
    requires WellFormed(s, rounds) && t < |s.ps|
    ensures WellFormed(s', rounds) && |s'.ps| == |s.ps|
  {
    var p := s.ps[t];
    var moved := s.(ps := s.ps[t := Advance(p, 1, rounds)]);
    match p.phase
    case Outside => moved
    case Announcing =>
      if p.round < rounds then
        moved.(flags := s.flags[Flag(Ahead(|s.ps|, t, Power(2, p.round)), s.parity[t], p.round) := s.sense[t]])
      else
        moved.(sense := s.sense[t := if s.parity[t] == 1 then 1 - s.sense[t] else s.sense[t]],
               parity := s.parity[t := 1 - s.parity[t]])
    case Listening(_) =>
      if s.flags[Flag(t, s.parity[t], p.round)] == s.sense[t] then moved else s
  }

  function Run(s: State, rounds: nat, schedule: seq<nat>): (s': State)
    requires WellFormed(s, rounds) && forall k :: 0 <= k < |schedule| ==> schedule[k] < |s.ps|
    ensures WellFormed(s', rounds) && |s'.ps| == |s.ps|
    decreases |schedule|
  {
    if schedule == [] then s
    else Next(Run(s, rounds, schedule[..|schedule| - 1]), rounds, schedule[|schedule| - 1])
  }

  // ----- The invariant -----

  /** The value of a flag after its writer announced round `k` in `count` calls:
      it flips with every second one, and each bank sees every second call. */
  function FlagValue(count: nat, parity: nat): int
    requires parity < 2
  {
    ((count + 1 - parity) / 2) % 2
  }

  ghost predicate Inv(s: State, rounds: nat) {
    && WellFormed(s, rounds)
    && Heard(s.ps, 1, rounds)
    && (forall t :: 0 <= t < |s.ps| ==>
          s.parity[t] == s.ps[t].episode % 2 && s.sense[t] == 1 - (s.ps[t].episode / 2) % 2)
    && (forall f :: f in s.flags ==>
          s.flags[f] == FlagValue(Announcements(s.ps[Back(|s.ps|, f.owner, Power(2, f.round))], f.round), f.parity))
  }

  /** The spin test is exact: it succeeds if and only if the peer has announced
      this round of this call. A flag left over from two calls ago never lets a
      thread through, and the flag is never overwritten before it was read. */
  lemma SpinTestIsExact(s: State, rounds: nat, t: nat)
    requires Inv(s, rounds) && Power(2, rounds) >= |s.ps| && t < |s.ps| && s.ps[t].phase.Listening?
    ensures s.flags[Flag(t, s.parity[t], s.ps[t].round)] == s.sense[t] <==> PeerAnnounced(s.ps, 1, t)
  {
    hide Back, Power, Peer, FlagValue, Heard, Inv;
    var k, e := s.ps[t].round, s.ps[t].episode;
    var w := Back(|s.ps|, t, Power(2, k));
    OnlyPeer(|s.ps|, t, k);
    WriterWithinOneCall(s, rounds, t, w);
    WaitedFlag(s, rounds, t);
    FlagMeetsSense(e, Announcements(s.ps[w], k));
  }

  /** What a waiting thread finds in its flag. */
  lemma WaitedFlag(s: State, rounds: nat, t: nat)
    requires Inv(s, rounds) && t < |s.ps| && s.ps[t].phase.Listening?
    ensures s.ps[t].phase.heard == 0 && s.sense[t] == 1 - (s.ps[t].episode / 2) % 2
    ensures var p := s.ps[t];
      && Flag(t, s.parity[t], p.round) in s.flags
      && s.flags[Flag(t, s.parity[t], p.round)]
        == FlagValue(Announcements(s.ps[Back(|s.ps|, t, Power(2, p.round))], p.round), p.episode % 2)
  {
    assert ValidProgress(s.ps[t], 1, rounds);
    assert Flag(t, s.parity[t], s.ps[t].round) in s.flags;
  }

  lemma WriterWithinOneCall(s: State, rounds: nat, t: nat, w: nat)
    requires Inv(s, rounds) && Power(2, rounds) >= |s.ps| && t < |s.ps| && w < |s.ps|
    ensures s.ps[t].episode <= s.ps[w].episode + 1 && s.ps[w].episode <= s.ps[t].episode + 1
  {
    HeardGivesBarrier(s.ps, 1, rounds);
    WithinOneCall(s.ps, t, w);
    WithinOneCall(s.ps, w, t);
  }

  lemma FlagMeetsSense(e: nat, count: nat)
    requires e <= count + 1 && count <= e + 2
    ensures FlagValue(count, e % 2) == 1 - (e / 2) % 2 <==> count > e
  {
    var h := e / 2;
    if count + 1 == e || count == e {
      assert (count + 1 - e % 2) / 2 == h;
    } else {
      assert (count + 1 - e % 2) / 2 == h + 1;
    }
  }

  /** An announcement sets the flag of the current bank to the current sense and
      leaves what the other bank should hold as it is. */
  lemma FlagFlips(e: nat)
    ensures FlagValue(e + 1, e % 2) == 1 - (e / 2) % 2
    ensures FlagValue(e + 1, 1 - e % 2) == FlagValue(e, 1 - e % 2)
  {
    var h := e / 2;
    if e % 2 == 0 {
      assert (e + 2) / 2 == h + 1;
    } else {
      assert (e + 1) / 2 == h + 1;
    }
  }

  /** A step keeps parity and sense in time with the number of calls. */
  lemma SensesStep(s: State, rounds: nat, t: nat, u: nat)
    requires Inv(s, rounds) && t < |s.ps| && u < |s.ps|
    ensures var s' := Next(s, rounds, t);
      s'.parity[u] == s'.ps[u].episode % 2 && s'.sense[u] == 1 - (s'.ps[u].episode / 2) % 2
  {
    hide Back, Power, FlagValue, Heard;
  }

  /** A step is made without a wait, or after the spin test succeeded. */
  lemma StepShape(s: State, rounds: nat, t: nat)
    requires Inv(s, rounds) && t < |s.ps|
    ensures Next(s, rounds, t).flags.Keys == s.flags.Keys
    ensures Next(s, rounds, t) != s ==> Next(s, rounds, t).ps == s.ps[t := Advance(s.ps[t], 1, rounds)]
    ensures Next(s, rounds, t) != s && s.ps[t].phase.Listening? ==>
              Flag(t, s.parity[t], s.ps[t].round) in s.flags
              && s.flags[Flag(t, s.parity[t], s.ps[t].round)] == s.sense[t]
  {
    hide Back, Power, FlagValue, Heard, Advance;
  }

  lemma StepKeepsInv(s: State, rounds: nat, t: nat)
    requires Inv(s, rounds) && Power(2, rounds) >= |s.ps| && t < |s.ps|
    ensures Inv(Next(s, rounds, t), rounds)
  {
    hide Back, Power, FlagValue, Heard, Next, Advance;
    var s' := Next(s, rounds, t);
    StepShape(s, rounds, t);
    if s' != s {
      if s.ps[t].phase.Listening? { SpinTestIsExact(s, rounds, t); }
      AdvanceKeepsHeard(s.ps, 1, rounds, t);
      forall u: nat | u < |s.ps|
        ensures s'.parity[u] == s'.ps[u].episode % 2 && s'.sense[u] == 1 - (s'.ps[u].episode / 2) % 2
      {
        SensesStep(s, rounds, t, u);
      }
      forall f | f in s'.flags
        ensures s'.flags[f] ==
          FlagValue(Announcements(s'.ps[Back(|s.ps|, f.owner, Power(2, f.round))], f.round), f.parity)
      {
        FlagStep(s, rounds, t, f);
      }
    }
  }

  lemma FlagStep(s: State, rounds: nat, t: nat, f: Flag)
    requires Inv(s, rounds) && t < |s.ps| && f in s.flags
    ensures Next(s, rounds, t).flags[f]
         == FlagValue(Announcements(Next(s, rounds, t).ps[Back(|s.ps|, f.owner, Power(2, f.round))], f.round), f.parity)
  {
    if s.ps[t].phase.Announcing? && s.ps[t].round < rounds {
      AnnouncedFlag(s, rounds, t, f);
    } else {
      hide Back, Power, Ahead, FlagValue, Heard;
      assert s.flags[f] == FlagValue(Announcements(s.ps[Back(|s.ps|, f.owner, Power(2, f.round))], f.round), f.parity);
    }
  }

  lemma AnnouncedFlag(s: State, rounds: nat, t: nat, f: Flag)
    requires Inv(s, rounds) && t < |s.ps| && f in s.flags && s.ps[t].phase.Announcing? && s.ps[t].round < rounds
    ensures Next(s, rounds, t).flags[f]
         == FlagValue(Announcements(Next(s, rounds, t).ps[Back(|s.ps|, f.owner, Power(2, f.round))], f.round), f.parity)
  {
    hide Back, Power, Ahead, FlagValue, Heard;
    assert s.flags[f] == FlagValue(Announcements(s.ps[Back(|s.ps|, f.owner, Power(2, f.round))], f.round), f.parity);
    BackOfAhead(|s.ps|, t, Power(2, s.ps[t].round));
    AheadOfBack(|s.ps|, f.owner, Power(2, f.round));
    FlagFlips(s.ps[t].episode);
  }

  // ----- The guarantees -----

  lemma {:induction false} Reachable(n: nat, rounds: nat, schedule: seq<nat>)
    requires n > 0 && Power(2, rounds) >= n && forall k :: 0 <= k < |schedule| ==> schedule[k] < n
    ensures Inv(Run(Init(n, rounds), rounds, schedule), rounds)
    decreases |schedule|
  {
    if schedule != [] {
      var before := schedule[..|schedule| - 1];
      Reachable(n, rounds, before);
      StepKeepsInv(Run(Init(n, rounds), rounds, before), rounds, schedule[|schedule| - 1]);
    }
  }

  /** When a thread is about to store into a flag, the owner of the flag has left
      the last call in which that flag was used. */
  ghost predicate OldFlagsWereRead(s: State, rounds: nat) {
    forall t, e :: 0 <= t < |s.ps| && 0 <= e
                   && s.ps[t].phase.Announcing? && s.ps[t].episode == e + 2 && s.ps[t].round < rounds
      ==> Finished(s.ps[Ahead(|s.ps|, t, Power(2, s.ps[t].round))], e)
  }

  predicate CanMove(s: State, rounds: nat, u: nat)
    requires WellFormed(s, rounds)
  {
    u < |s.ps| && Next(s, rounds, u) != s
  }

  /** A thread in the barrier that can take no step waits for one that can, or
      for one that has not entered the call yet. */
  ghost predicate NotStuck(s: State, rounds: nat, t: nat)
    requires WellFormed(s, rounds) && t < |s.ps|
  {
    exists u: nat :: CanMove(s, rounds, u) && s.ps[u].episode <= s.ps[t].episode
  }

  ghost predicate NeverStuck(s: State, rounds: nat)
    requires WellFormed(s, rounds)
  {
    forall t: nat :: t < |s.ps| ==> NotStuck(s, rounds, t)
  }

  /** The barrier is safe and reusable without end, for every number of threads
      and every interleaving, with as many rounds as `mcs_barrier_init` computes. */
  lemma BarrierIsSafe(n: nat, rounds: nat, schedule: seq<nat>)
    requires n > 0 && IsCeilLog2(n, rounds) && forall k :: 0 <= k < |schedule| ==> schedule[k] < n
    ensures BarrierHolds(Run(Init(n, rounds), rounds, schedule).ps)
    ensures OldFlagsWereRead(Run(Init(n, rounds), rounds, schedule), rounds)
    ensures NeverStuck(Run(Init(n, rounds), rounds, schedule), rounds)
  {
    var s := Run(Init(n, rounds), rounds, schedule);
    Reachable(n, rounds, schedule);
    HeardGivesBarrier(s.ps, 1, rounds);
    SafetyFromInv(s, rounds);
  }

  lemma SafetyFromInv(s: State, rounds: nat)
    requires Inv(s, rounds) && Power(2, rounds) >= |s.ps| && BarrierHolds(s.ps)
    ensures OldFlagsWereRead(s, rounds) && NeverStuck(s, rounds)
  {
    forall t, e | 0 <= t < |s.ps| && 0 <= e
                  && s.ps[t].phase.Announcing? && s.ps[t].episode == e + 2 && s.ps[t].round < rounds
      ensures Finished(s.ps[Ahead(|s.ps|, t, Power(2, s.ps[t].round))], e)
    {
      assert Finished(s.ps[t], e + 1);
    }
    NoneIsStuck(s, rounds);
  }

  lemma NoneIsStuck(s: State, rounds: nat)
    requires Inv(s, rounds) && Power(2, rounds) >= |s.ps|
    ensures NeverStuck(s, rounds)
  {
    forall t: nat | t < |s.ps| ensures NotStuck(s, rounds, t) {
      var u := Unblocked(s.ps, 1, rounds, t);
      Mover(s, rounds, u);
      assert CanMove(s, rounds, u) && s.ps[u].episode <= s.ps[t].episode;
    }
  }

  lemma Mover(s: State, rounds: nat, u: nat)
    requires Inv(s, rounds) && Power(2, rounds) >= |s.ps| && u < |s.ps|
    requires s.ps[u].phase.Listening? ==> PeerAnnounced(s.ps, 1, u)
    ensures CanMove(s, rounds, u) && Next(s, rounds, u).ps == s.ps[u := Advance(s.ps[u], 1, rounds)]
  {
    if s.ps[u].phase.Listening? { SpinTestIsExact(s, rounds, u); }
    assert Next(s, rounds, u).ps[u] == Advance(s.ps[u], 1, rounds);
  }

  // ----- Every call ends -----

  lemma {:induction false} RunAppend(s: State, rounds: nat, t: nat, rest: seq<nat>)
    requires WellFormed(s, rounds) && t < |s.ps| && forall k :: 0 <= k < |rest| ==> rest[k] < |s.ps|
    ensures Run(s, rounds, [t] + rest) == Run(Next(s, rounds, t), rounds, rest)
    decreases |rest|
  {
    var all := [t] + rest;
    if rest == [] {
      assert all[..|all| - 1] == [];
      assert Run(s, rounds, []) == s;
    } else {
      assert all[..|all| - 1] == [t] + rest[..|rest| - 1];
      RunAppend(s, rounds, t, rest[..|rest| - 1]);
    }
  }

  lemma {:induction false} Complete(s: State, rounds: nat, e: nat) returns (more: seq<nat>)
    requires Inv(s, rounds) && Power(2, rounds) >= |s.ps| && AllValid(s.ps, 1, rounds)
    ensures |more| == Work(s.ps, 1, rounds, e) && forall k :: 0 <= k < |more| ==> more[k] < |s.ps|
    ensures CallEnded(s.ps, Run(s, rounds, more).ps, e)
    decreases Work(s.ps, 1, rounds, e)
  {
    hide Inv, Next, Work, Heard, StepsLeft, Advance;
    more := [];
    if forall i :: 0 <= i < |s.ps| ==> Finished(s.ps[i], e) {
      NoWorkLeft(s.ps, 1, rounds, e);
    } else {
      HasHeard(s, rounds);
      var t := SomebodyGoesOn(s.ps, 1, rounds, e);
      Mover(s, rounds, t);
      StepKeepsInv(s, rounds, t);
      WorkDrops(s.ps, 1, rounds, e, t);
      var rest := Complete(Next(s, rounds, t), rounds, e);
      RunAppend(s, rounds, t, rest);
      more := [t] + rest;
      CallGoesOn(s.ps, 1, rounds, e, t, Run(s, rounds, more).ps);
    }
  }

  lemma HasHeard(s: State, rounds: nat)
    requires Inv(s, rounds)
    ensures WellFormed(s, rounds) && Heard(s.ps, 1, rounds) && AllValid(s.ps, 1, rounds)
  {
  }

  /** From every reachable state every call can be completed by all threads, with exactly
      the steps that the rounds ask for: one announcement and one wait each, besides
      entering and returning. */
  lemma EveryCallEnds(n: nat, rounds: nat, schedule: seq<nat>, e: nat) returns (more: seq<nat>)
    requires n > 0 && IsCeilLog2(n, rounds) && forall k :: 0 <= k < |schedule| ==> schedule[k] < n
    ensures AllValid(Run(Init(n, rounds), rounds, schedule).ps, 1, rounds)
    ensures |more| == Work(Run(Init(n, rounds), rounds, schedule).ps, 1, rounds, e)
    ensures forall k :: 0 <= k < |more| ==> more[k] < n
    ensures CallEnded(Run(Init(n, rounds), rounds, schedule).ps,
                      Run(Run(Init(n, rounds), rounds, schedule), rounds, more).ps, e)
  {
    var s := Run(Init(n, rounds), rounds, schedule);
    Reachable(n, rounds, schedule);
    HasHeard(s, rounds);
    hide Inv, Next;
    more := Complete(s, rounds, e);
  }
}
