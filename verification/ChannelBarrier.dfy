/**
 The dissemination barrier over Smelt channels of `src/barrier.c`.

 In round `r` thread `i` notifies thread `i + 2^r` and then receives a
 notification from thread `i - 2^r`. The two directions of a channel are separate
 queues, so a queue is identified by its two ends; of a notification only its
 existence matters, so a queue is the number sent and the number received.
 */
module ChannelBarrier {
  import opened Dissemination
  import opened Rounds
  import opened Channels

  datatype Ends = Ends(from: nat, to: nat)
  datatype State = State(ps: seq<Progress>, queues: map<Ends, Queue>)

  predicate WellFormed(s: State, rounds: nat) {
    && (forall t :: 0 <= t < |s.ps| ==> ValidProgress(s.ps[t], 1, rounds))
    && (forall i: nat, j: nat :: i < |s.ps| && j < |s.ps| ==> Ends(i, j) in s.queues)
  }

  function Init(n: nat, rounds: nat): (s: State)
    ensures WellFormed(s, rounds) && |s.ps| == n
  {
    State(seq(n, _ => Progress(0, 0, Outside)),
          map i: nat, j: nat | 0 <= i < n && 0 <= j < n :: Ends(i, j) := Queue(0, 0))
  }

  /** Thread `t` takes its next step in `smlt_dissem_barrier_wait`. */
  function Next(s: State, rounds: nat, t: nat): (s': State)
    requires WellFormed(s, rounds) && t < |s.ps|
    ensures WellFormed(s', rounds) && |s'.ps| == |s.ps|
  {
    var p := s.ps[t];
    var moved := s.(ps := s.ps[t := Advance(p, 1, rounds)]);
    match p.phase
    case Outside => moved
    case Announcing =>
      if p.round == rounds then moved
      else
        var q := Ends(t, Ahead(|s.ps|, t, Power(2, p.round)));
        moved.(queues := s.queues[q := s.queues[q].(sent := s.queues[q].sent + 1)])
    case Listening(_) =>
      var q := Ends(Back(|s.ps|, t, Power(2, p.round)), t);
      if s.queues[q].sent > s.queues[q].received then
        moved.(queues := s.queues[q := s.queues[q].(received := s.queues[q].received + 1)])
      else s
  }

  function Run(s: State, rounds: nat, schedule: seq<nat>): (s': State)
    requires WellFormed(s, rounds) && forall k :: 0 <= k < |schedule| ==> schedule[k] < |s.ps|
    ensures WellFormed(s', rounds) && |s'.ps| == |s.ps|
    decreases |schedule|
  {
    if schedule == [] then s
    else Next(Run(s, rounds, schedule[..|schedule| - 1]), rounds, schedule[|schedule| - 1])
  }

  // ----- Each directed queue serves one round -----

  /** `2^r` stays below the number of threads in every round. */
  lemma StepsAreShort(n: nat, rounds: nat, r: nat)
    requires IsCeilLog2(n, rounds) && r < rounds
    ensures Power(2, r) < n
  {
    if r < rounds - 1 { PowerStrictlyGrows(r, rounds - 1); }
  }

  lemma OneRoundPerQueue(n: nat, rounds: nat, i: nat, r: nat, q: nat)
    requires n > 0 && IsCeilLog2(n, rounds) && i < n && r < rounds && q < rounds
    ensures Ahead(n, i, Power(2, r)) == Ahead(n, i, Power(2, q)) <==> r == q
  {
    StepsAreShort(n, rounds, r);
    StepsAreShort(n, rounds, q);
    if r < q { PowerStrictlyGrows(r, q); }
    if q < r { PowerStrictlyGrows(q, r); }
    ShortWrap(n, i, Power(2, r));
    ShortWrap(n, i, Power(2, q));
  }

  lemma ShortWrap(n: nat, i: nat, d: nat)
    requires i < n && d < n
    ensures Ahead(n, i, d) == if i + d < n then i + d else i + d - n
  {
    if i + d >= n { WrapOnce(n, i + d - n); }
  }

  // ----- The invariant -----

  ghost predicate QueueOk(s: State, i: nat, r: nat)
    requires i < |s.ps|
  {
    var j := Ahead(|s.ps|, i, Power(2, r));
    Ends(i, j) in s.queues && s.queues[Ends(i, j)] == Queue(Announcements(s.ps[i], r), Completions(s.ps[j], r))
  }

  ghost predicate Inv(s: State, rounds: nat) {
    && WellFormed(s, rounds)
    && Heard(s.ps, 1, rounds)
    && (forall i: nat, r: nat {:trigger QueueOk(s, i, r)} :: i < |s.ps| && r < rounds ==> QueueOk(s, i, r))
  }

  /** A waiting thread finds a notification exactly when its peer has announced
      this round of this call. */
  lemma ReceiveIsExact(s: State, rounds: nat, t: nat)
    requires Inv(s, rounds) && t < |s.ps| && s.ps[t].phase.Listening?
    ensures var q := Ends(Back(|s.ps|, t, Power(2, s.ps[t].round)), t);
      q in s.queues && (s.queues[q].sent > s.queues[q].received <==> PeerAnnounced(s.ps, 1, t))
  {
    hide Back, Ahead, Power, Heard;
    var r := s.ps[t].round;
    var i := Back(|s.ps|, t, Power(2, r));
    AheadOfBack(|s.ps|, t, Power(2, r));
    assert QueueOk(s, i, r);
    OnlyPeer(|s.ps|, t, r);
  }

  lemma QueueStep(s: State, rounds: nat, t: nat, i: nat, r: nat)
    requires Inv(s, rounds) && IsCeilLog2(|s.ps|, rounds) && t < |s.ps| && i < |s.ps| && r < rounds
    requires Next(s, rounds, t) != s
    ensures QueueOk(Next(s, rounds, t), i, r)
  {
    hide Back, Ahead, Power, Heard, IsCeilLog2;
    assert QueueOk(s, i, r);
    var p := s.ps[t];
    if p.phase.Announcing? && p.round < rounds {
      OneRoundPerQueue(|s.ps|, rounds, t, p.round, r);
    } else if p.phase.Listening? {
      var k := Back(|s.ps|, t, Power(2, p.round));
      AheadOfBack(|s.ps|, t, Power(2, p.round));
      BackOfAhead(|s.ps|, i, Power(2, r));
      OneRoundPerQueue(|s.ps|, rounds, k, p.round, r);
      assert QueueOk(s, k, p.round);
    }
  }

  lemma StepKeepsInv(s: State, rounds: nat, t: nat)
    requires Inv(s, rounds) && IsCeilLog2(|s.ps|, rounds) && t < |s.ps|
    ensures Inv(Next(s, rounds, t), rounds)
  {
    hide Back, Ahead, Power, IsCeilLog2, QueueOk;
    var s' := Next(s, rounds, t);
    if s.ps[t].phase.Listening? { ReceiveIsExact(s, rounds, t); }
    if s' != s {
      AdvanceKeepsHeard(s.ps, 1, rounds, t);
      forall i: nat, r: nat | i < |s.ps| && r < rounds ensures QueueOk(s', i, r) { QueueStep(s, rounds, t, i, r); }
    }
  }

  lemma {:induction false} Reachable(n: nat, rounds: nat, schedule: seq<nat>)
    requires n > 0 && IsCeilLog2(n, rounds) && forall k :: 0 <= k < |schedule| ==> schedule[k] < n
    ensures Inv(Run(Init(n, rounds), rounds, schedule), rounds)
    decreases |schedule|
  {
    if schedule != [] {
      var before := schedule[..|schedule| - 1];
      Reachable(n, rounds, before);
      StepKeepsInv(Run(Init(n, rounds), rounds, before), rounds, schedule[|schedule| - 1]);
    }
  }

  // ----- The guarantees -----

  /** A queue never holds more than two notifications, and holds at most one when
      its sender is about to add another. */
  ghost predicate FewInFlight(s: State, rounds: nat) {
    && (forall i: nat, r: nat :: i < |s.ps| && r < rounds ==>
          var q := Ends(i, Ahead(|s.ps|, i, Power(2, r)));
          q in s.queues && s.queues[q].received <= s.queues[q].sent <= s.queues[q].received + 2)
    && (forall t: nat :: t < |s.ps| && s.ps[t].phase.Announcing? && s.ps[t].round < rounds ==>
          var q := Ends(t, Ahead(|s.ps|, t, Power(2, s.ps[t].round)));
          q in s.queues && s.queues[q].sent <= s.queues[q].received + 1)
  }

  lemma InFlight(s: State, rounds: nat, i: nat, r: nat)
    requires Inv(s, rounds) && Power(2, rounds) >= |s.ps| && i < |s.ps| && r < rounds
    ensures var q := Ends(i, Ahead(|s.ps|, i, Power(2, r)));
      && q in s.queues && s.queues[q].received <= s.queues[q].sent <= s.queues[q].received + 2
      && (!Announced(s.ps[i], s.ps[i].episode, r) ==> s.queues[q].sent <= s.queues[q].received + 1)
  {
    hide Back, Ahead, Power;
    assert QueueOk(s, i, r);
    var j := Ahead(|s.ps|, i, Power(2, r));
    HeardGivesBarrier(s.ps, 1, rounds);
    WithinOneCall(s.ps, i, j);
    BackOfAhead(|s.ps|, i, Power(2, r));
    OnlyPeer(|s.ps|, j, r);
    if Reached(s.ps[j], s.ps[j].episode, r + 1) {
      assert HeardFrom(s.ps[j], s.ps[j].episode, r, 1);
    } else if s.ps[j].episode > 0 {
      assert HeardFrom(s.ps[j], s.ps[j].episode - 1, r, 1);
    }
  }

  predicate CanMove(s: State, rounds: nat, u: nat)
    requires WellFormed(s, rounds)
  {
    u < |s.ps| && Next(s, rounds, u) != s
  }

  /** A thread in the barrier that can take no step waits for one that can, or
      for one that has not entered the call yet. */
  ghost predicate NotStuck(s: State, rounds: nat, t: nat)
    requires WellFormed(s, rounds) && t < |s.ps|
  {
    exists u: nat :: CanMove(s, rounds, u) && s.ps[u].episode <= s.ps[t].episode
  }

  ghost predicate NeverStuck(s: State, rounds: nat)
    requires WellFormed(s, rounds)
  {
    forall t: nat :: t < |s.ps| ==> NotStuck(s, rounds, t)
  }

  lemma Mover(s: State, rounds: nat, u: nat)
    requires Inv(s, rounds) && u < |s.ps|
    requires s.ps[u].phase.Listening? ==> PeerAnnounced(s.ps, 1, u)
    ensures CanMove(s, rounds, u) && Next(s, rounds, u).ps == s.ps[u := Advance(s.ps[u], 1, rounds)]
  {
    hide Back, Ahead, Power;
    if s.ps[u].phase.Listening? { ReceiveIsExact(s, rounds, u); }
    assert Next(s, rounds, u).ps[u] == Advance(s.ps[u], 1, rounds);
  }

  lemma NoneIsStuck(s: State, rounds: nat)
    requires Inv(s, rounds)
    ensures NeverStuck(s, rounds)
  {
    forall t: nat | t < |s.ps| ensures NotStuck(s, rounds, t) {
      var u := Unblocked(s.ps, 1, rounds, t);
      Mover(s, rounds, u);
      assert CanMove(s, rounds, u) && s.ps[u].episode <= s.ps[t].episode;
    }
  }

  /** For every number of threads, any number of reuses and every interleaving: a
      thread finishes wait `e` only after all threads have started it, the queues
      stay nearly empty, and nobody waits for good. */
  lemma BarrierIsSafe(n: nat, rounds: nat, schedule: seq<nat>)
    requires n > 0 && IsCeilLog2(n, rounds) && forall k :: 0 <= k < |schedule| ==> schedule[k] < n
    ensures BarrierHolds(Run(Init(n, rounds), rounds, schedule).ps)
    ensures FewInFlight(Run(Init(n, rounds), rounds, schedule), rounds)
    ensures NeverStuck(Run(Init(n, rounds), rounds, schedule), rounds)
  {
    var s := Run(Init(n, rounds), rounds, schedule);
    Reachable(n, rounds, schedule);
    HeardGivesBarrier(s.ps, 1, rounds);
    NoneIsStuck(s, rounds);
    FewFromInv(s, rounds);
  }

  lemma FewFromInv(s: State, rounds: nat)
    requires Inv(s, rounds) && Power(2, rounds) >= |s.ps|
    ensures FewInFlight(s, rounds)
  {
    hide Back, Ahead, Power, Inv;
    forall i: nat, r: nat | i < |s.ps| && r < rounds
      ensures var q := Ends(i, Ahead(|s.ps|, i, Power(2, r)));
        q in s.queues && s.queues[q].received <= s.queues[q].sent <= s.queues[q].received + 2
    {
      InFlight(s, rounds, i, r);
    }
    forall t: nat | t < |s.ps| && s.ps[t].phase.Announcing? && s.ps[t].round < rounds
      ensures var q := Ends(t, Ahead(|s.ps|, t, Power(2, s.ps[t].round)));
        q in s.queues && s.queues[q].sent <= s.queues[q].received + 1
    {
      InFlight(s, rounds, t, s.ps[t].round);
    }
  }

  // ----- Every call ends -----

  lemma {:induction false} RunAppend(s: State, rounds: nat, t: nat, rest: seq<nat>)
    requires WellFormed(s, rounds) && t < |s.ps| && forall k :: 0 <= k < |rest| ==> rest[k] < |s.ps|
    ensures Run(s, rounds, [t] + rest) == Run(Next(s, rounds, t), rounds, rest)
    decreases |rest|
  {
    var all := [t] + rest;
    if rest == [] {
      assert all[..|all| - 1] == [];
      assert Run(s, rounds, []) == s;
    } else {
      assert all[..|all| - 1] == [t] + rest[..|rest| - 1];
      RunAppend(s, rounds, t, rest[..|rest| - 1]);
    }
  }

  lemma {:induction false} Complete(s: State, rounds: nat, e: nat) returns (more: seq<nat>)
    requires Inv(s, rounds) && IsCeilLog2(|s.ps|, rounds) && AllValid(s.ps, 1, rounds)
    ensures |more| == Work(s.ps, 1, rounds, e) && forall k :: 0 <= k < |more| ==> more[k] < |s.ps|
    ensures CallEnded(s.ps, Run(s, rounds, more).ps, e)
    decreases Work(s.ps, 1, rounds, e)
  {
    hide Inv, Next, Work, Heard, StepsLeft, Advance;
    more := [];
    if forall i :: 0 <= i < |s.ps| ==> Finished(s.ps[i], e) {
      NoWorkLeft(s.ps, 1, rounds, e);
    } else {
      HasHeard(s, rounds);
      var t := SomebodyGoesOn(s.ps, 1, rounds, e);
      Mover(s, rounds, t);
      StepKeepsInv(s, rounds, t);
      WorkDrops(s.ps, 1, rounds, e, t);
      var rest := Complete(Next(s, rounds, t), rounds, e);
      RunAppend(s, rounds, t, rest);
      more := [t] + rest;
      CallGoesOn(s.ps, 1, rounds, e, t, Run(s, rounds, more).ps);
    }
  }

  lemma HasHeard(s: State, rounds: nat)
    requires Inv(s, rounds)
    ensures WellFormed(s, rounds) && Heard(s.ps, 1, rounds) && AllValid(s.ps, 1, rounds)
  {
  }

  /** From every reachable state every call can be completed by all threads, with exactly
      the steps that the rounds ask for: one announcement and one wait each, besides
      entering and returning. */
  lemma EveryCallEnds(n: nat, rounds: nat, schedule: seq<nat>, e: nat) returns (more: seq<nat>)
    requires n > 0 && IsCeilLog2(n, rounds) && forall k :: 0 <= k < |schedule| ==> schedule[k] < n
    ensures AllValid(Run(Init(n, rounds), rounds, schedule).ps, 1, rounds)
    ensures |more| == Work(Run(Init(n, rounds), rounds, schedule).ps, 1, rounds, e)
    ensures forall k :: 0 <= k < |more| ==> more[k] < n
    ensures CallEnded(Run(Init(n, rounds), rounds, schedule).ps,
                      Run(Run(Init(n, rounds), rounds, schedule), rounds, more).ps, e)
  {
    var s := Run(Init(n, rounds), rounds, schedule);
    Reachable(n, rounds, schedule);
    HasHeard(s, rounds);
    hide Inv, Next;
    more := Complete(s, rounds, e);
  }
}
