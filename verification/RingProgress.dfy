/**
 Nobody waits for good in the channel barrier over UMP rings, whatever their size; and
 rings of three messages are the smallest on which no notify ever has to wait.
 */
module RingProgress {
  import opened Dissemination
  import opened Rounds
  import opened Channels
  import opened ChannelBarrier
  import opened BarrierOverRings
  import Ump

  /** The ring a thread sends on in its round, or receives from. */
  function SendRing(s: System, rounds: nat, u: nat): Ump.State
    requires Shaped(s, rounds) && u < |s.ps|
  {
    s.rings[Ends(u, Ahead(|s.ps|, u, Power(2, s.ps[u].round)))]
  }

  function RecvRing(s: System, rounds: nat, u: nat): Ump.State
    requires Shaped(s, rounds) && u < |s.ps|
  {
    s.rings[Ends(Back(|s.ps|, u, Power(2, s.ps[u].round)), u)]
  }

  predicate HasRoom(ring: Ump.State) {
    Ump.RoomBy(ring.seqId, ring.ack, |ring.buf|)
  }

  /** Nothing that another thread has still to do keeps `u` from its next move: it has
      no wait before it, or its ring has room, or holds a notification. */
  predicate Free(s: System, rounds: nat, u: nat)
    requires Shaped(s, rounds) && u < |s.ps|
  {
    match s.ps[u].phase
    case Outside => true
    case Announcing => s.ps[u].round < rounds ==> HasRoom(SendRing(s, rounds, u))
    case Listening(_) => Pending(Counted(RecvRing(s, rounds, u)))
  }

  /** Thread `u` alone takes `k` steps. */
  function Solo(s: System, rounds: nat, u: nat, k: nat): (s': System)
    requires Shaped(s, rounds) && u < |s.ps|
    ensures Shaped(s', rounds) && |s'.ps| == |s.ps|
    decreases k
  {
    if k == 0 then s else Solo(Go(s, rounds, u), rounds, u, k - 1)
  }

  /** How many accesses the next move of `u` takes. */
  function Accesses(s: System, rounds: nat, u: nat): nat
    requires Shaped(s, rounds) && u < |s.ps|
  {
    match s.ps[u].phase
    case Outside => 1
    case Announcing =>
      if s.ps[u].round == rounds then 1
      else (match SendRing(s, rounds, u).tx case Resting => 3 case Refreshing(_) => 2 case Filling(_, _) => 1)
    case Listening(_) =>
      (match RecvRing(s, rounds, u).rx case Waiting => 3 case Seen(_) => 2 case _ => 1)
  }

  /** On a ring with room a notify is done, or a step closer to it. */
  lemma NotifyAdvances(ring: Ump.State)
    requires RingReady(ring) && HasRoom(ring)
    ensures NotifyStep(ring).1 <==> ring.tx.Filling?
    ensures !ring.tx.Filling? ==> HasRoom(NotifyStep(ring).0) && !NotifyStep(ring).0.tx.Resting?
    ensures ring.tx.Refreshing? ==> NotifyStep(ring).0.tx.Filling?
  {
    hide Ump.RoomBy;
  }

  /** On a ring with a notification a receive is done, or a step closer to it. */
  lemma ReceiveAdvances(ring: Ump.State, slots: nat)
    requires RingOk(ring, slots) && Pending(Counted(ring))
    ensures !ring.rx.Copying? && (ReceiveStep(ring).1 <==> ring.rx.Loaded?)
    ensures ring.rx.Waiting? ==> ReceiveStep(ring).0.rx.Seen?
    ensures ring.rx.Seen? ==> ReceiveStep(ring).0.rx.Loaded?
    ensures !ring.rx.Loaded? ==> Pending(Counted(ReceiveStep(ring).0))
  {
    var cached: nat :| Ump.Inv(ring, cached);
    Ump.PendingIsExact(ring, cached);
    hide Ump.Inv;
  }

  /** One step of a free thread is its move, or leaves it free and closer to it. */
  lemma FreeStep(s: System, rounds: nat, slots: nat, u: nat)
    requires Shaped(s, rounds) && RingsOk(s, slots) && u < |s.ps| && Free(s, rounds, u)
    ensures RingsOk(Go(s, rounds, u), slots)
    ensures Accesses(s, rounds, u) == 1 ==>
              Go(s, rounds, u).ps == s.ps[u := Advance(s.ps[u], 1, rounds)]
              && Projected(Go(s, rounds, u)) == Next(Projected(s), rounds, u)
    ensures Accesses(s, rounds, u) > 1 ==>
              Projected(Go(s, rounds, u)) == Projected(s) && Free(Go(s, rounds, u), rounds, u)
              && Accesses(Go(s, rounds, u), rounds, u) < Accesses(s, rounds, u)
  {
    hide Ahead, Back, Power, RingOk, RingReady, NotifyStep, ReceiveStep, HasRoom, Pending;
    GoProjects(s, rounds, slots, u);
    var p := s.ps[u];
    if p.phase.Announcing? && p.round < rounds {
      NotifyAdvances(SendRing(s, rounds, u));
    } else if p.phase.Listening? {
      ReceiveAdvances(RecvRing(s, rounds, u), slots);
    }
  }

  /** A free thread makes its move within three accesses of its own. */
  ghost predicate Able(s: System, rounds: nat, u: nat)
    requires Shaped(s, rounds)
  {
    u < |s.ps| && exists k: nat :: k <= 3 && Moved(s, rounds, u, k)
  }

  ghost predicate Moved(s: System, rounds: nat, u: nat, k: nat)
    requires Shaped(s, rounds) && u < |s.ps|
  {
    && Solo(s, rounds, u, k).ps == s.ps[u := Advance(s.ps[u], 1, rounds)]
    && Projected(Solo(s, rounds, u, k)) == Next(Projected(s), rounds, u)
  }

  lemma {:induction false} FreeMoves(s: System, rounds: nat, slots: nat, u: nat) returns (k: nat)
    requires Shaped(s, rounds) && RingsOk(s, slots) && u < |s.ps| && Free(s, rounds, u)
    ensures k <= Accesses(s, rounds, u) && Moved(s, rounds, u, k) && RingsOk(Solo(s, rounds, u, k), slots)
    decreases Accesses(s, rounds, u)
  {
    hide Go, Next, Free, Advance, RingsOk, Projected;
    FreeStep(s, rounds, slots, u);
    var s' := Go(s, rounds, u);
    if Accesses(s, rounds, u) == 1 {
      assert Solo(s', rounds, u, 0) == s';
      k := 1;
    } else {
      SamePlace(s, s');
      var l := FreeMoves(s', rounds, slots, u);
      k := l + 1;
    }
  }

  lemma SamePlace(s: System, s': System)
    requires Projected(s') == Projected(s)
    ensures s'.ps == s.ps
  {
  }

  // ----- Nobody waits for good -----

  /** A full ring has a notification in it, from an earlier call than the sender's. */
  lemma FullRing(s: System, rounds: nat, slots: nat, t: nat)
    requires Shaped(s, rounds) && RingsOk(s, slots) && Inv(Projected(s), rounds)
    requires t < |s.ps| && s.ps[t].phase.Announcing? && s.ps[t].round < rounds && !HasRoom(SendRing(s, rounds, t))
    ensures s.ps[Ahead(|s.ps|, t, Power(2, s.ps[t].round))].episode < s.ps[t].episode
  {
    hide Ahead, Power, Inv, HasRoom, RingOk, Ump.RoomBy;
    var ring := SendRing(s, rounds, t);
    assert RingOk(ring, slots);
    if |ring.sent| == Ump.Taken(ring) { DrainedHasRoom(ring, slots); }
    AtMostSent(ring, slots);
    CountedIs(ring);
    QueueAt(Projected(s), rounds, t, s.ps[t].round);
  }

  lemma DrainedHasRoom(ring: Ump.State, slots: nat)
    requires RingOk(ring, slots) && |ring.sent| == Ump.Taken(ring)
    ensures HasRoom(ring)
  {
    var cached: nat :| Ump.Inv(ring, cached);
    Ump.FlowControlFromInv(ring, cached);
  }

  lemma AtMostSent(ring: Ump.State, slots: nat)
    requires RingOk(ring, slots)
    ensures Ump.Taken(ring) <= |ring.sent|
  {
    var cached: nat :| Ump.Inv(ring, cached);
    Ump.FullUnlessRoom(ring, cached);
  }

  lemma QueueAt(s: State, rounds: nat, i: nat, r: nat)
    requires Inv(s, rounds) && i < |s.ps| && r < rounds
    ensures var j := Ahead(|s.ps|, i, Power(2, r));
      Ends(i, j) in s.queues && s.queues[Ends(i, j)] == Queue(Announcements(s.ps[i], r), Completions(s.ps[j], r))
  {
    assert QueueOk(s, i, r);
  }

  /** Whoever is not free waits for a chain of threads that ends in a free one, which
      is in the same or an earlier call or has yet to make it. */
  lemma {:induction false} SomebodyIsFree(s: System, rounds: nat, slots: nat, t: nat) returns (u: nat)
    requires Shaped(s, rounds) && RingsOk(s, slots) && Inv(Projected(s), rounds) && t < |s.ps|
    ensures u < |s.ps| && s.ps[u].episode <= s.ps[t].episode && Free(s, rounds, u)
    decreases s.ps[t].episode, !s.ps[t].phase.Outside?, s.ps[t].round, s.ps[t].phase.Listening?
  {
    hide Ahead, Back, Power, Inv, RingsOk, HasRoom, Projected;
    u := t;
    if !Free(s, rounds, t) {
      if s.ps[t].phase.Announcing? {
        FullRing(s, rounds, slots, t);
        u := SomebodyIsFree(s, rounds, slots, Ahead(|s.ps|, t, Power(2, s.ps[t].round)));
      } else {
        NotAnnounced(s, rounds, t);
        u := SomebodyIsFree(s, rounds, slots, Back(|s.ps|, t, Power(2, s.ps[t].round)));
      }
    }
  }

  lemma NotAnnounced(s: System, rounds: nat, t: nat)
    requires Shaped(s, rounds) && Inv(Projected(s), rounds)
    requires t < |s.ps| && s.ps[t].phase.Listening? && !Free(s, rounds, t)
    ensures !Announced(s.ps[Back(|s.ps|, t, Power(2, s.ps[t].round))], s.ps[t].episode, s.ps[t].round)
  {
    hide Back, Power, Inv;
    ReceiveIsExact(Projected(s), rounds, t);
    OnlyPeer(|s.ps|, t, s.ps[t].round);
    CountedIs(RecvRing(s, rounds, t));
  }

  /** On rings of any size, in every run of any number of threads: whoever waits waits
      for a thread that makes its next move within three accesses of its own. */
  lemma NobodyWaitsForGood(n: nat, rounds: nat, slots: nat, schedule: seq<nat>, t: nat) returns (u: nat)
    requires n > 0 && IsCeilLog2(n, rounds) && forall k :: 0 <= k < |schedule| ==> schedule[k] < n
    requires 2 <= slots < Ump.IDX_RANGE && t < n
    ensures var s := GoOn(Start(n, rounds, slots), rounds, schedule);
      Able(s, rounds, u) && s.ps[u].episode <= s.ps[t].episode
  {
    hide Go, Inv, RingsOk, Free, Moved;
    var s := GoOn(Start(n, rounds, slots), rounds, schedule);
    SystemInOrder(n, rounds, slots, schedule);
    u := SomebodyIsFree(s, rounds, slots, t);
    var k := FreeMoves(s, rounds, slots, u);
    AtMostThree(s, rounds, u);
  }

  lemma AtMostThree(s: System, rounds: nat, u: nat)
    requires Shaped(s, rounds) && u < |s.ps|
    ensures 1 <= Accesses(s, rounds, u) <= 3
  {
  }

  // ----- Every call ends -----

  /** The schedule on which `u` alone takes `k` steps. */
  function Alone(u: nat, k: nat): (schedule: seq<nat>)
    ensures |schedule| == k && forall j :: 0 <= j < k ==> schedule[j] == u
  {
    if k == 0 then [] else [u] + Alone(u, k - 1)
  }

  lemma {:induction false} GoOnAppend(s: System, rounds: nat, t: nat, rest: seq<nat>)
    requires Shaped(s, rounds) && t < |s.ps| && forall k :: 0 <= k < |rest| ==> rest[k] < |s.ps|
    ensures GoOn(s, rounds, [t] + rest) == GoOn(Go(s, rounds, t), rounds, rest)
    decreases |rest|
  {
    hide Go;
    var all := [t] + rest;
    if rest == [] {
      assert all[..|all| - 1] == [];
      assert GoOn(s, rounds, []) == s;
    } else {
      assert all[..|all| - 1] == [t] + rest[..|rest| - 1];
      GoOnAppend(s, rounds, t, rest[..|rest| - 1]);
    }
  }

  lemma {:induction false} AloneThenOthers(s: System, rounds: nat, u: nat, k: nat, rest: seq<nat>)
    requires Shaped(s, rounds) && u < |s.ps| && forall j :: 0 <= j < |rest| ==> rest[j] < |s.ps|
    ensures GoOn(s, rounds, Alone(u, k) + rest) == GoOn(Solo(s, rounds, u, k), rounds, rest)
    decreases k
  {
    hide Go;
    if k == 0 {
      assert Alone(u, 0) + rest == rest;
    } else {
      assert Alone(u, k) + rest == [u] + (Alone(u, k - 1) + rest);
      GoOnAppend(s, rounds, u, Alone(u, k - 1) + rest);
      AloneThenOthers(Go(s, rounds, u), rounds, u, k - 1, rest);
    }
  }

  lemma AllAreValid(s: System, rounds: nat)
    requires Shaped(s, rounds)
    ensures AllValid(s.ps, 1, rounds)
  {
  }

  lemma MoveKeepsInv(s: System, rounds: nat, u: nat, k: nat)
    requires Shaped(s, rounds) && Inv(Projected(s), rounds) && IsCeilLog2(|s.ps|, rounds) && u < |s.ps|
    requires Moved(s, rounds, u, k)
    ensures Inv(Projected(Solo(s, rounds, u, k)), rounds)
  {
    hide Inv, Solo;
    StepKeepsInv(Projected(s), rounds, u);
  }

  lemma {:induction false} Complete(s: System, rounds: nat, slots: nat, e: nat) returns (more: seq<nat>)
    requires Shaped(s, rounds) && RingsOk(s, slots) && Inv(Projected(s), rounds) && IsCeilLog2(|s.ps|, rounds)
    requires AllValid(s.ps, 1, rounds)
    ensures |more| <= 3 * Work(s.ps, 1, rounds, e) && forall k :: 0 <= k < |more| ==> more[k] < |s.ps|
    ensures CallEnded(s.ps, GoOn(s, rounds, more).ps, e)
    decreases Work(s.ps, 1, rounds, e)
  {
    hide Inv, Go, Next, Solo, Work, StepsLeft, Advance, RingsOk, Projected, Shaped, Free, IsCeilLog2;
    more := [];
    if i :| 0 <= i < |s.ps| && !Finished(s.ps[i], e) {
      var u := SomebodyIsFree(s, rounds, slots, i);
      var k := FreeMoves(s, rounds, slots, u);
      AtMostThree(s, rounds, u);
      MoveKeepsInv(s, rounds, u, k);
      WorkDrops(s.ps, 1, rounds, e, u);
      var rest := Complete(Solo(s, rounds, u, k), rounds, slots, e);
      AloneThenOthers(s, rounds, u, k, rest);
      more := Alone(u, k) + rest;
      CallGoesOn(s.ps, 1, rounds, e, u, GoOn(s, rounds, more).ps);
    }
  }

  /** On rings of any size every call can be completed by all threads from every state of
      every run, with at most three accesses for each step of the barrier. */
  lemma EveryCallEnds(n: nat, rounds: nat, slots: nat, schedule: seq<nat>, e: nat) returns (more: seq<nat>)
    requires n > 0 && IsCeilLog2(n, rounds) && forall k :: 0 <= k < |schedule| ==> schedule[k] < n
    requires 2 <= slots < Ump.IDX_RANGE
    ensures AllValid(GoOn(Start(n, rounds, slots), rounds, schedule).ps, 1, rounds)
    ensures |more| <= 3 * Work(GoOn(Start(n, rounds, slots), rounds, schedule).ps, 1, rounds, e)
    ensures forall k :: 0 <= k < |more| ==> more[k] < n
    ensures CallEnded(GoOn(Start(n, rounds, slots), rounds, schedule).ps,
                      GoOn(GoOn(Start(n, rounds, slots), rounds, schedule), rounds, more).ps, e)
  {
    hide Go, Inv, RingsOk;
    var s := GoOn(Start(n, rounds, slots), rounds, schedule);
    SystemInOrder(n, rounds, slots, schedule);
    AllAreValid(s, rounds);
    more := Complete(s, rounds, slots, e);
  }
}
