/**
 Three messages are the exact bound: on smaller rings the flow-control test of a
 notify in the barrier can fail, already with two threads.
 */
module RingBound {
  import opened Dissemination
  import opened Rounds
  import opened Channels
  import opened ChannelBarrier
  import opened BarrierOverRings
  import opened RingProgress
  import Ump

  /** A state at the end of a run of two threads. */
  ghost predicate At(slots: nat, schedule: seq<nat>, s: System) {
    && 2 <= slots < Ump.IDX_RANGE && (forall k :: 0 <= k < |schedule| ==> schedule[k] < 2)
    && s == GoOn(Start(2, 1, slots), 1, schedule) && |s.ps| == 2
  }

  lemma {:induction false} Extend(slots: nat, schedule: seq<nat>, s: System, u: nat, k: nat)
    returns (schedule': seq<nat>)
    requires At(slots, schedule, s) && u < 2
    ensures At(slots, schedule', Solo(s, 1, u, k))
    decreases k
  {
    hide Go;
    schedule' := schedule;
    if k > 0 {
      assert (schedule + [u])[..|schedule|] == schedule;
      schedule' := Extend(slots, schedule + [u], Go(s, 1, u), u, k - 1);
    }
  }

  /** What two threads have done lets `u` go on. */
  predicate MayMove(ps: seq<Progress>, u: nat)
    requires |ps| == 2 && u < 2
  {
    match ps[u].phase
    case Outside => true
    case Announcing => ps[u].round == 0 ==> Announcements(ps[u], 0) == Completions(ps[1 - u], 0)
    case Listening(_) => Announced(ps[1 - u], ps[u].episode, 0)
  }

  lemma Opposite(u: nat)
    requires u < 2
    ensures Power(2, 0) == 1 && Ahead(2, u, 1) == 1 - u && Back(2, u, 1) == 1 - u
  {
  }

  lemma TwoNeedOneRound()
    ensures IsCeilLog2(2, 1)
  {
    assert Power(2, 1) == 2 && Power(2, 0) == 1;
  }

  lemma MayMoveIsFree(slots: nat, s: System, u: nat)
    requires Shaped(s, 1) && |s.ps| == 2 && RingsOk(s, slots) && Inv(Projected(s), 1) && u < 2 && MayMove(s.ps, u)
    ensures Free(s, 1, u)
  {
    hide Inv, HasRoom, RingOk, Ahead, Back;
    Opposite(u);
    var p := s.ps[u];
    if p.phase.Announcing? && p.round == 0 {
      QueueAt(Projected(s), 1, u, 0);
      CountedIs(SendRing(s, 1, u));
      DrainedHasRoom(SendRing(s, 1, u), slots);
    } else if p.phase.Listening? {
      AnnouncedIsFree(s, u);
    }
  }

  lemma AnnouncedIsFree(s: System, u: nat)
    requires Shaped(s, 1) && |s.ps| == 2 && Inv(Projected(s), 1) && u < 2
    requires s.ps[u].phase.Listening? && Announced(s.ps[1 - u], s.ps[u].episode, 0)
    ensures Free(s, 1, u)
  {
    hide Inv, Back;
    Opposite(u);
    if !Free(s, 1, u) { NotAnnounced(s, 1, u); }
  }

  lemma Move(slots: nat, schedule: seq<nat>, s: System, u: nat) returns (schedule': seq<nat>, s': System)
    requires At(slots, schedule, s) && u < 2 && MayMove(s.ps, u)
    ensures At(slots, schedule', s') && s'.ps == s.ps[u := Advance(s.ps[u], 1, 1)]
  {
    hide Go, Inv, RingsOk, Free;
    TwoNeedOneRound();
    SystemInOrder(2, 1, slots, schedule);
    MayMoveIsFree(slots, s, u);
    var k := FreeMoves(s, 1, slots, u);
    schedule' := Extend(slots, schedule, s, u, k);
    s' := Solo(s, 1, u, k);
  }

  /** Thread 0 is about to notify in its second call, thread 1 has yet to receive in
      its first. */
  lemma OneBehind(slots: nat) returns (schedule: seq<nat>, s: System)
    requires 2 <= slots < Ump.IDX_RANGE
    ensures At(slots, schedule, s) && s.ps == [Progress(1, 0, Announcing), Progress(0, 0, Listening(0))]
  {
    hide Go;
    schedule, s := [], Start(2, 1, slots);
    assert s.ps == [Progress(0, 0, Outside), Progress(0, 0, Outside)];
    hide Start, GoOn;
    schedule, s := Move(slots, schedule, s, 0);
    schedule, s := Move(slots, schedule, s, 0);
    schedule, s := Move(slots, schedule, s, 1);
    schedule, s := Move(slots, schedule, s, 1);
    assert s.ps == [Progress(0, 0, Listening(0)), Progress(0, 0, Listening(0))];
    schedule, s := Move(slots, schedule, s, 0);
    schedule, s := Move(slots, schedule, s, 0);
    schedule, s := Move(slots, schedule, s, 0);
  }

  /** The same, one call later. */
  lemma OneBehindLater(slots: nat) returns (schedule: seq<nat>, s: System)
    requires 2 <= slots < Ump.IDX_RANGE
    ensures At(slots, schedule, s) && s.ps == [Progress(2, 0, Announcing), Progress(1, 0, Listening(0))]
  {
    schedule, s := OneBehind(slots);
    hide Go, Start, GoOn;
    schedule, s := Move(slots, schedule, s, 1);
    schedule, s := Move(slots, schedule, s, 1);
    schedule, s := Move(slots, schedule, s, 1);
    assert s.ps == [Progress(1, 0, Announcing), Progress(1, 0, Announcing)];
    schedule, s := Move(slots, schedule, s, 0);
    schedule, s := Move(slots, schedule, s, 1);
    assert s.ps == [Progress(1, 0, Listening(0)), Progress(1, 0, Listening(0))];
    schedule, s := Move(slots, schedule, s, 0);
    schedule, s := Move(slots, schedule, s, 0);
    schedule, s := Move(slots, schedule, s, 0);
  }

  /** A ring of one message is full with one in it, a ring of two also when the other
      was taken without an acknowledgement. */
  lemma SmallRingIsFull(ring: Ump.State, slots: nat)
    requires RingOk(ring, slots) && 2 <= slots <= 3 && |ring.sent| == slots - 1 && Ump.Taken(ring) == slots - 2
    ensures !HasRoom(ring)
  {
    var cached: nat :| Ump.Inv(ring, cached);
    Ump.FlowControlFromInv(ring, cached);
    hide Ump.RoomBy, Ump.Idx, Ump.EndsOk, Ump.SlotOk, Ump.Delivered;
    assert Ump.Counts(ring, cached);
  }

  lemma NotifyMustWait(slots: nat) returns (schedule: seq<nat>)
    requires 2 <= slots <= 3
    ensures forall k :: 0 <= k < |schedule| ==> schedule[k] < 2
    ensures !NotifiesAtOnce(GoOn(Start(2, 1, slots), 1, schedule), 1)
  {
    hide Go, Start, GoOn, Inv, RingOk, HasRoom;
    var s;
    if slots == 2 { schedule, s := OneBehind(slots); } else { schedule, s := OneBehindLater(slots); }
    TwoNeedOneRound();
    SystemInOrder(2, 1, slots, schedule);
    Opposite(0);
    QueueAt(Projected(s), 1, 0, 0);
    CountedIs(SendRing(s, 1, 0));
    SmallRingIsFull(SendRing(s, 1, 0), slots);
    RoomIsNeeded(s);
  }

  lemma RoomIsNeeded(s: System)
    requires Shaped(s, 1) && |s.ps| == 2 && s.ps[0].phase.Announcing? && s.ps[0].round == 0
    requires !HasRoom(SendRing(s, 1, 0))
    ensures !NotifiesAtOnce(s, 1)
  {
  }

  ghost predicate Legal(n: nat, rounds: nat, schedule: seq<nat>) {
    n > 0 && IsCeilLog2(n, rounds) && forall k :: 0 <= k < |schedule| ==> schedule[k] < n
  }

  /** The flow-control test of every notify succeeds at once, for all numbers of threads
      and in all runs, if and only if the rings hold at least three messages. */
  lemma ThreeMessagesAreExact(slots: nat)
    requires 2 <= slots < Ump.IDX_RANGE
    ensures (forall n: nat, rounds: nat, schedule: seq<nat> :: Legal(n, rounds, schedule) ==>
               NotifiesAtOnce(GoOn(Start(n, rounds, slots), rounds, schedule), rounds)) <==> slots - 1 >= 3
  {
    hide Go, Start, GoOn, NotifiesAtOnce, IsCeilLog2;
    if slots >= 4 {
      forall n: nat, rounds: nat, schedule: seq<nat> | Legal(n, rounds, schedule)
        ensures NotifiesAtOnce(GoOn(Start(n, rounds, slots), rounds, schedule), rounds)
      {
        NotifyNeverBlocks(n, rounds, slots, schedule);
      }
    } else {
      var schedule := NotifyMustWait(slots);
      TwoNeedOneRound();
      assert Legal(2, 1, schedule);
    }
  }
}
