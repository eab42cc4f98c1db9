/**
 The channel barrier over UMP rings: every directed queue is a ring, a notify is the
 loop on the flow-control test and then the control word, a receive is the loop on
 the epoch test and then the taking. A thread makes one access to a ring per step.
 */
module BarrierOverRings {
  import opened Dissemination
  import opened Rounds
  import opened Channels
  import opened ChannelBarrier
  import Ump

  datatype System = System(ps: seq<Progress>, rings: map<Ends, Ump.State>)

  /** Only notifications travel, and a notification is taken without a copy. */
  predicate RingReady(ring: Ump.State) {
    && Ump.WellFormed(ring)
    && (ring.tx.Filling? ==> ring.tx.msg == [])
    && (ring.tx.Refreshing? ==> ring.tx.msg == [])
    && !ring.rx.Copying? && (!ring.rx.Waiting? ==> ring.rx.words == 0)
  }

  predicate Shaped(s: System, rounds: nat) {
    && (forall t :: 0 <= t < |s.ps| ==> ValidProgress(s.ps[t], 1, rounds))
    && (forall i: nat, j: nat :: i < |s.ps| && j < |s.ps| ==> Ends(i, j) in s.rings)
    && (forall q :: q in s.rings ==> RingReady(s.rings[q]))
  }

  function Start(n: nat, rounds: nat, slots: nat): (s: System)
    requires 2 <= slots < Ump.IDX_RANGE
    ensures Shaped(s, rounds) && |s.ps| == n
  {
    System(seq(n, _ => Progress(0, 0, Outside)),
           map i: nat, j: nat | 0 <= i < n && 0 <= j < n :: Ends(i, j) := Ump.Init(slots))
  }

  /** The sender's next step in a notify, and whether the notification was sent. */
  function NotifyStep(ring: Ump.State): (r: (Ump.State, bool))
    requires RingReady(ring)
    ensures RingReady(r.0)
  {
    if ring.tx.Resting? then (Ump.Next(ring, Ump.Send([])), false) else (Ump.Next(ring, Ump.TxStep), ring.tx.Filling?)
  }

  /** The receiver's next step in a receive, and whether a notification was taken. */
  function ReceiveStep(ring: Ump.State): (r: (Ump.State, bool))
    requires RingReady(ring)
    ensures RingReady(r.0)
  {
    if ring.rx.Waiting? then (Ump.Next(ring, Ump.Receive(0)), false)
    else if ring.rx.Seen? then (Ump.Next(ring, Ump.RxStep), false)
    else (Ump.Next(Ump.Next(ring, Ump.RxStep), Ump.RxStep), true)
  }

  /** Thread `t` takes its next step in `smlt_dissem_barrier_wait`. */
  function Go(s: System, rounds: nat, t: nat): (s': System)
    requires Shaped(s, rounds) && t < |s.ps|
    ensures Shaped(s', rounds) && |s'.ps| == |s.ps|
  {
    var p := s.ps[t];
    var moved := s.ps[t := Advance(p, 1, rounds)];
    match p.phase
    case Outside => s.(ps := moved)
    case Announcing =>
      if p.round == rounds then s.(ps := moved)
      else
        var q := Ends(t, Ahead(|s.ps|, t, Power(2, p.round)));
        var (ring, sent) := NotifyStep(s.rings[q]);
        System(if sent then moved else s.ps, s.rings[q := ring])
    case Listening(_) =>
      var q := Ends(Back(|s.ps|, t, Power(2, p.round)), t);
      var (ring, taken) := ReceiveStep(s.rings[q]);
      System(if taken then moved else s.ps, s.rings[q := ring])
  }

  function GoOn(s: System, rounds: nat, schedule: seq<nat>): (s': System)
    requires Shaped(s, rounds) && forall k :: 0 <= k < |schedule| ==> schedule[k] < |s.ps|
    ensures Shaped(s', rounds) && |s'.ps| == |s.ps|
    decreases |schedule|
  {
    if schedule == [] then s
    else Go(GoOn(s, rounds, schedule[..|schedule| - 1]), rounds, schedule[|schedule| - 1])
  }

  // ----- The barrier on counted queues, which a run projects to -----

  function Counted(ring: Ump.State): Queue {
    Queue(|ring.sent|, Ump.Taken(ring))
  }

  function Projected(s: System): State {
    State(s.ps, map q | q in s.rings :: Counted(s.rings[q]))
  }

  ghost predicate RingOk(ring: Ump.State, slots: nat) {
    RingReady(ring) && |ring.buf| == slots - 1 && exists cached: nat :: Ump.Inv(ring, cached)
  }

  ghost predicate RingsOk(s: System, slots: nat) {
    forall q :: q in s.rings ==> RingOk(s.rings[q], slots)
  }

  /** A step of a notify keeps the ring in order and adds a message when it says so. */
  lemma NotifyKeepsRing(ring: Ump.State, slots: nat)
    requires RingOk(ring, slots)
    ensures RingOk(NotifyStep(ring).0, slots)
    ensures Counted(NotifyStep(ring).0) ==
      if NotifyStep(ring).1 then Counted(ring).(sent := |ring.sent| + 1) else Counted(ring)
  {
    var cached: nat :| Ump.Inv(ring, cached);
    var e := if ring.tx.Resting? then Ump.Send([]) else Ump.TxStep;
    var cached' := Ump.StepKeepsInv(ring, cached, e);
    Ump.Effects(ring, e);
  }

  /** A step of a receive keeps the ring in order; it takes a message when it says
      so, and then there was one. */
  lemma ReceiveKeepsRing(ring: Ump.State, slots: nat)
    requires RingOk(ring, slots)
    ensures RingOk(ReceiveStep(ring).0, slots)
    ensures ReceiveStep(ring).1 ==> Ump.Taken(ring) < |ring.sent|
    ensures Counted(ReceiveStep(ring).0) ==
      if ReceiveStep(ring).1 then Counted(ring).(received := Ump.Taken(ring) + 1) else Counted(ring)
  {
    var cached: nat :| Ump.Inv(ring, cached);
    var e := if ring.rx.Waiting? then Ump.Receive(0) else Ump.RxStep;
    var cached' := Ump.StepKeepsInv(ring, cached, e);
    Ump.Effects(ring, e);
    Ump.FullUnlessRoom(ring, cached);
    if ring.rx.Loaded? {
      var next := Ump.Next(ring, e);
      var cached'' := Ump.StepKeepsInv(next, cached', Ump.RxStep);
      Ump.Effects(next, Ump.RxStep);
    }
  }

  /** Every step is the barrier's step on counted queues, or leaves those alone. */
  lemma GoProjects(s: System, rounds: nat, slots: nat, t: nat)
    requires Shaped(s, rounds) && RingsOk(s, slots) && t < |s.ps|
    ensures RingsOk(Go(s, rounds, t), slots)
    ensures Projected(Go(s, rounds, t)) == Projected(s) || Projected(Go(s, rounds, t)) == Next(Projected(s), rounds, t)
  {
    hide Ahead, Back, Power, RingOk, RingReady, NotifyStep, ReceiveStep, Counted;
    var p := s.ps[t];
    if p.phase.Announcing? && p.round < rounds {
      var q := Ends(t, Ahead(|s.ps|, t, Power(2, p.round)));
      NotifyKeepsRing(s.rings[q], slots);
      OneRing(s, Go(s, rounds, t), q);
      CountedIs(s.rings[q]);
    } else if p.phase.Listening? {
      var q := Ends(Back(|s.ps|, t, Power(2, p.round)), t);
      ReceiveKeepsRing(s.rings[q], slots);
      OneRing(s, Go(s, rounds, t), q);
      CountedIs(s.rings[q]);
    } else {
      assert Projected(Go(s, rounds, t)) == Next(Projected(s), rounds, t);
    }
  }

  lemma CountedIs(ring: Ump.State)
    ensures Counted(ring) == Queue(|ring.sent|, Ump.Taken(ring))
  {
  }

  /** A step that changes one ring changes one counted queue. */
  lemma OneRing(s: System, s': System, q: Ends)
    requires q in s.rings && q in s'.rings && s'.rings == s.rings[q := s'.rings[q]]
    ensures Projected(s') == State(s'.ps, Projected(s).queues[q := Counted(s'.rings[q])])
  {
    hide Counted;
    assert Projected(s').queues == Projected(s).queues[q := Counted(s'.rings[q])];
  }

  /** Every run projects to a run of the barrier on counted queues. */
  lemma {:induction false} RunProjects(n: nat, rounds: nat, slots: nat, schedule: seq<nat>) returns (moves: seq<nat>)
    requires 2 <= slots < Ump.IDX_RANGE && forall k :: 0 <= k < |schedule| ==> schedule[k] < n
    ensures RingsOk(GoOn(Start(n, rounds, slots), rounds, schedule), slots)
    ensures forall k :: 0 <= k < |moves| ==> moves[k] < n
    ensures Projected(GoOn(Start(n, rounds, slots), rounds, schedule)) == Run(Init(n, rounds), rounds, moves)
    decreases |schedule|
  {
    hide Go, Next, Counted;
    if schedule == [] {
      moves := [];
      StartProjects(n, rounds, slots);
    } else {
      var before, t := schedule[..|schedule| - 1], schedule[|schedule| - 1];
      moves := RunProjects(n, rounds, slots, before);
      var s := GoOn(Start(n, rounds, slots), rounds, before);
      GoProjects(s, rounds, slots, t);
      if Projected(Go(s, rounds, t)) != Projected(s) {
        assert (moves + [t])[..|moves|] == moves;
        moves := moves + [t];
      }
    }
  }

  lemma StartProjects(n: nat, rounds: nat, slots: nat)
    requires 2 <= slots < Ump.IDX_RANGE
    ensures RingsOk(Start(n, rounds, slots), slots) && Projected(Start(n, rounds, slots)) == Init(n, rounds)
  {
    var cached := Ump.Reachable(slots, []);
    assert Ump.Run(Ump.Init(slots), []) == Ump.Init(slots);
    assert RingOk(Ump.Init(slots), slots);
    assert Projected(Start(n, rounds, slots)).queues == Init(n, rounds).queues;
  }

  // ----- The guarantees -----

  /** When a thread is about to notify, or in the middle of it, the flow-control test
      with the published acknowledgement succeeds. */
  ghost predicate NotifiesAtOnce(s: System, rounds: nat)
    requires Shaped(s, rounds)
  {
    forall t: nat :: t < |s.ps| && s.ps[t].phase.Announcing? && s.ps[t].round < rounds ==>
      var ring := s.rings[Ends(t, Ahead(|s.ps|, t, Power(2, s.ps[t].round)))];
      && Ump.RoomBy(ring.seqId, ring.ack, |ring.buf|)
      && (ring.tx.Refreshing? ==> NotifyStep(ring).0.tx.Filling?)
  }

  lemma RoomForOneMore(ring: Ump.State, slots: nat)
    requires RingOk(ring, slots) && slots >= 4 && |ring.sent| <= Ump.Taken(ring) + 1
    ensures Ump.RoomBy(ring.seqId, ring.ack, |ring.buf|)
  {
    var cached: nat :| Ump.Inv(ring, cached);
    hide Ump.Inv, Ump.RoomBy, Ump.Idx;
    Ump.FlowControlFromInv(ring, cached);
  }

  lemma NotifyAtOnce(s: System, rounds: nat, slots: nat, t: nat)
    requires Shaped(s, rounds) && RingsOk(s, slots) && slots >= 4
    requires Inv(Projected(s), rounds) && Power(2, rounds) >= |s.ps|
    requires t < |s.ps| && s.ps[t].phase.Announcing? && s.ps[t].round < rounds
    ensures var ring := s.rings[Ends(t, Ahead(|s.ps|, t, Power(2, s.ps[t].round)))];
      Ump.RoomBy(ring.seqId, ring.ack, |ring.buf|) && (ring.tx.Refreshing? ==> NotifyStep(ring).0.tx.Filling?)
  {
    hide Ahead, Power, Inv, RingOk, Ump.RoomBy;
    InFlight(Projected(s), rounds, t, s.ps[t].round);
    var q := Ends(t, Ahead(|s.ps|, t, Power(2, s.ps[t].round)));
    CountedIs(s.rings[q]);
    RoomForOneMore(s.rings[q], slots);
  }

  /** What holds in every run: each ring is in order, and the counted queues are those
      of a barrier in order. */
  lemma SystemInOrder(n: nat, rounds: nat, slots: nat, schedule: seq<nat>)
    requires n > 0 && IsCeilLog2(n, rounds) && forall k :: 0 <= k < |schedule| ==> schedule[k] < n
    requires 2 <= slots < Ump.IDX_RANGE
    ensures RingsOk(GoOn(Start(n, rounds, slots), rounds, schedule), slots)
    ensures Inv(Projected(GoOn(Start(n, rounds, slots), rounds, schedule)), rounds)
  {
    hide Go, Next, Inv;
    var moves := RunProjects(n, rounds, slots, schedule);
    Reachable(n, rounds, moves);
  }

  /** On rings of any size, for every number of threads and of reuses and every
      interleaving of the single accesses, the barrier property holds. */
  lemma BarrierHoldsOverRings(n: nat, rounds: nat, slots: nat, schedule: seq<nat>)
    requires n > 0 && IsCeilLog2(n, rounds) && forall k :: 0 <= k < |schedule| ==> schedule[k] < n
    requires 2 <= slots < Ump.IDX_RANGE
    ensures BarrierHolds(GoOn(Start(n, rounds, slots), rounds, schedule).ps)
  {
    hide Go;
    SystemInOrder(n, rounds, slots, schedule);
    HeardGivesBarrier(GoOn(Start(n, rounds, slots), rounds, schedule).ps, 1, rounds);
  }

  /** On rings of at least three messages, besides, no notify ever finds its ring full,
      however lazily the acknowledgements were published. */
  lemma NotifyNeverBlocks(n: nat, rounds: nat, slots: nat, schedule: seq<nat>)
    requires n > 0 && IsCeilLog2(n, rounds) && forall k :: 0 <= k < |schedule| ==> schedule[k] < n
    requires 4 <= slots < Ump.IDX_RANGE
    ensures BarrierHolds(GoOn(Start(n, rounds, slots), rounds, schedule).ps)
    ensures NotifiesAtOnce(GoOn(Start(n, rounds, slots), rounds, schedule), rounds)
  {
    hide Go, Inv;
    BarrierHoldsOverRings(n, rounds, slots, schedule);
    var s := GoOn(Start(n, rounds, slots), rounds, schedule);
    SystemInOrder(n, rounds, slots, schedule);
    forall t: nat | t < |s.ps| && s.ps[t].phase.Announcing? && s.ps[t].round < rounds
      ensures var ring := s.rings[Ends(t, Ahead(|s.ps|, t, Power(2, s.ps[t].round)))];
        Ump.RoomBy(ring.seqId, ring.ack, |ring.buf|) && (ring.tx.Refreshing? ==> NotifyStep(ring).0.tx.Filling?)
    {
      NotifyAtOnce(s, rounds, slots, t);
    }
  }
}
