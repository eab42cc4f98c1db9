/**
 When a copy out of the UMP ring can be wrong. A receive publishes its
 acknowledgement before the payload is copied, so the sender may go round the ring
 and store the next message into the slot under the copy. It can do so exactly in
 the two slots of a lap at which an acknowledgement is written.
 */
module UmpOvertaking {
  import opened Messages
  import opened Ump
  import opened UmpProgress

  /** A copy being made from slot `pos` holds words of the right message. */
  ghost predicate CopyOk(s: State, pos: nat) {
    s.rx.Copying? && s.rx.slot == pos ==> |s.got| < |s.sent| && Agree(s.rx.copy, s.sent[|s.got|])
  }

  /** A message of no words is sent; the receiver notices nothing of it. */
  lemma SendNothing(slots: nat, events: seq<Event>, cached: nat, s: State)
    returns (events': seq<Event>, cached': nat, s': State)
    requires At(slots, events, cached, s) && s.tx.Resting? && |s.sent| < Acked(s) + |s.buf|
    ensures At(slots, events', cached', s') && s'.tx.Resting? && s'.sent == s.sent + [[]]
    ensures s'.rx == s.rx && s'.got == s.got && s'.rxPos == s.rxPos
  {
    events', cached', s' := BeginSend(slots, events, cached, s, []);
    hide Inv;
    events', cached', s' := Go(slots, events', cached', s', TxStep);
  }

  /** A message of no words is received. */
  lemma ReceiveNothing(slots: nat, events: seq<Event>, cached: nat, s: State)
    returns (events': seq<Event>, cached': nat, s': State)
    requires At(slots, events, cached, s) && s.rx.Waiting? && Taken(s) < |s.sent|
    ensures At(slots, events', cached', s') && s'.rx.Waiting? && |s'.got| == |s.got| + 1
    ensures s'.tx == s.tx && s'.sent == s.sent && s'.rxPos == if s.rxPos + 1 == |s.buf| then 0 else s.rxPos + 1
  {
    events', cached', s' := BeginReceive(slots, events, cached, s, 0);
    hide Inv;
    events', cached', s' := Go(slots, events', cached', s', RxStep);
  }

  /** The first `pos` messages were sent and received one after the other. */
  lemma {:induction false} ReachPosition(slots: nat, pos: nat) returns (events: seq<Event>, cached: nat, s: State)
    requires 2 <= slots < IDX_RANGE && pos < slots - 1
    ensures At(slots, events, cached, s) && s.tx.Resting? && s.rx.Waiting?
    ensures s.rxPos == pos && |s.got| == |s.sent| == pos
    decreases pos
  {
    if pos == 0 {
      events := [];
      cached := Reachable(slots, events);
      s := Init(slots);
    } else {
      events, cached, s := ReachPosition(slots, pos - 1);
      FlowControlFromInv(s, cached);
      hide Inv, RoomBy;
      events, cached, s := SendNothing(slots, events, cached, s);
      events, cached, s := ReceiveNothing(slots, events, cached, s);
    }
  }

  /** The sender goes on for `k` messages while the receiver is copying. */
  lemma {:induction false} GoRound(slots: nat, events: seq<Event>, cached: nat, s: State, k: nat)
    returns (events': seq<Event>, cached': nat, s': State)
    requires At(slots, events, cached, s) && s.tx.Resting? && |s.sent| + k <= Acked(s) + |s.buf|
    ensures At(slots, events', cached', s') && s'.tx.Resting? && |s'.sent| == |s.sent| + k && s.sent <= s'.sent
    ensures s'.rx == s.rx && s'.got == s.got && s'.rxPos == s.rxPos
    decreases k
  {
    hide Inv;
    events', cached', s' := events, cached, s;
    if k > 0 {
      events', cached', s' := SendNothing(slots, events, cached, s);
      events', cached', s' := GoRound(slots, events', cached', s', k - 1);
    }
  }

  /** A message with the word 7 goes into slot `pos` and the receiver starts to copy it. */
  lemma StartCopy(slots: nat, pos: nat) returns (events: seq<Event>, cached: nat, s: State)
    requires 2 <= slots < IDX_RANGE && pos < slots - 1
    ensures At(slots, events, cached, s) && s.tx.Resting?
    ensures s.rx == Copying(1, [], pos, AckPosition(pos, slots - 1), false)
    ensures s.rxPos == (if pos + 1 == slots - 1 then 0 else pos + 1) && |s.got| == pos && |s.sent| == pos + 1
      && s.sent[pos] == [7]
  {
    hide Inv, RoomBy;
    events, cached, s := ReachPosition(slots, pos);
    FlowControlFromInv(s, cached);
    events, cached, s := BeginSend(slots, events, cached, s, [7]);
    events, cached, s := Go(slots, events, cached, s, TxStep);
    events, cached, s := Go(slots, events, cached, s, TxStep);
    events, cached, s := BeginReceive(slots, events, cached, s, 1);
  }

  /** Where the sender is when it has sent a ring full since the slot under the copy. */
  lemma SenderIsBack(s: State, cached: nat)
    requires Inv(s, cached) && s.rx.Copying? && |s.sent| == |s.got| + |s.buf|
    ensures WellFormed(s) && s.txPos == s.rx.slot
  {
  }

  /** The sender stores a word into the slot under the copy, and the receiver copies it. */
  lemma Overtake(slots: nat, events: seq<Event>, cached: nat, s: State)
    returns (events': seq<Event>, cached': nat, s': State)
    requires At(slots, events, cached, s) && s.tx.Resting? && |s.sent| < Acked(s) + |s.buf|
    requires s.rx.Copying? && s.rx.words == 1 && s.rx.copy == [] && s.txPos == s.rx.slot
    ensures At(slots, events', cached', s') && s'.got == s.got && s'.sent == s.sent
    ensures s'.rx.Copying? && s'.rx.slot == s.rx.slot && s'.rx.copy == [9]
  {
    events', cached', s' := BeginSend(slots, events, cached, s, [9]);
    hide Inv;
    events', cached', s' := Go(slots, events', cached', s', TxStep);
    events', cached', s' := Go(slots, events', cached', s', RxStep);
  }

  /** For every ring and every slot at which acknowledgements are written, a run in
      which a copy from that slot is wrong: it has a word of the message sent a
      ring full later. */
  lemma CopyCanBeWrong(slots: nat, pos: nat) returns (events: seq<Event>)
    requires 2 <= slots < IDX_RANGE && pos < slots - 1 && AckPosition(pos, slots - 1)
    ensures !CopyOk(Run(Init(slots), events), pos)
  {
    var cached, s;
    events, cached, s := StartCopy(slots, pos);
    assert Acked(s) == pos + 1;
    hide Inv, RoomBy;
    events, cached, s := GoRound(slots, events, cached, s, slots - 2);
    assert s.sent[pos] == [7] && Acked(s) == pos + 1;
    SenderIsBack(s, cached);
    events, cached, s := Overtake(slots, events, cached, s);
    assert s.rx.copy[0] == 9 && s.sent[pos][0] == 7;
  }

  /** The receiver may rely on the copies from a slot, in every run, if and only if
      no acknowledgement is written there: the slot is neither the one in the middle of
      the ring nor the last. */
  lemma CopyIsSafeIffNotAcknowledged(slots: nat, pos: nat)
    requires 2 <= slots < IDX_RANGE && pos < slots - 1
    ensures (forall events :: CopyOk(Run(Init(slots), events), pos)) <==> pos != (slots - 1) / 2 && pos != slots - 2
  {
    if AckPosition(pos, slots - 1) {
      var events := CopyCanBeWrong(slots, pos);
    } else {
      forall events ensures CopyOk(Run(Init(slots), events), pos) {
        var cached := Reachable(slots, events);
      }
    }
  }
}
