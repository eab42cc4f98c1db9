/**
 What becomes of the calls on a UMP queue: a send that finds room stores its message
 in a bounded number of steps, a receive that finds a message delivers it in a bounded
 number of steps, and from every state of every run a further message can be brought
 to the receiver.
 */
module UmpProgress {
  import opened Messages
  import opened Ump

  /** A state at the end of a run. */
  ghost predicate At(slots: nat, events: seq<Event>, cached: nat, s: State) {
    2 <= slots < IDX_RANGE && s == Run(Init(slots), events) && Inv(s, cached) && |s.buf| == slots - 1
  }

  lemma Go(slots: nat, events: seq<Event>, cached: nat, s: State, e: Event)
    returns (events': seq<Event>, cached': nat, s': State)
    requires At(slots, events, cached, s)
    ensures At(slots, events', cached', s') && s' == Next(s, e)
    ensures events <= events' && |events'| == |events| + 1
  {
    events' := events + [e];
    assert events'[..|events|] == events;
    s' := Next(s, e);
    cached' := StepKeepsInv(s, cached, e);
  }

  // ----- The sender -----

  /** From the send call to the first store of the message, with room in the ring. */
  lemma BeginSend(slots: nat, events: seq<Event>, cached: nat, s: State, msg: Message)
    returns (events': seq<Event>, cached': nat, s': State)
    requires At(slots, events, cached, s) && s.tx.Resting? && |s.sent| < Acked(s) + |s.buf|
    ensures At(slots, events', cached', s') && events <= events' && |events'| <= |events| + 2
    ensures s' == s.(tx := Filling(msg, 0), lastAck := s'.lastAck)
  {
    FlowControlFromInv(s, cached);
    hide Inv, RoomBy;
    events', cached', s' := Go(slots, events, cached, s, Send(msg));
    if s'.tx.Refreshing? {
      events', cached', s' := Go(slots, events', cached', s', TxStep);
    }
  }

  /** A message that is being stored is sent after one step for each word that is left
      and one more. */
  lemma {:induction false} FinishFilling(slots: nat, events: seq<Event>, cached: nat, s: State)
    returns (events': seq<Event>, cached': nat, s': State)
    requires At(slots, events, cached, s) && s.tx.Filling?
    ensures At(slots, events', cached', s') && events <= events'
    ensures |events'| == |events| + |s.tx.msg| - s.tx.filled + 1
    ensures s'.tx.Resting? && s'.sent == s.sent + [s.tx.msg] && s'.got == s.got && s'.rxPos == s.rxPos
    ensures s'.rx.Waiting? == s.rx.Waiting? && s'.rx.Copying? == s.rx.Copying?
    decreases |s.tx.msg| - s.tx.filled
  {
    hide Inv;
    events', cached', s' := Go(slots, events, cached, s, TxStep);
    if s'.tx.Filling? { events', cached', s' := FinishFilling(slots, events', cached', s'); }
  }

  /** A call of send that finds room sends its message within as many steps as the
      message has words and three more. */
  lemma SendOne(slots: nat, events: seq<Event>, cached: nat, s: State, msg: Message)
    returns (events': seq<Event>, cached': nat, s': State)
    requires At(slots, events, cached, s) && s.tx.Resting? && |s.sent| < Acked(s) + |s.buf|
    ensures At(slots, events', cached', s') && events <= events' && |events'| <= |events| + |msg| + 3
    ensures s'.tx.Resting? && s'.sent == s.sent + [msg] && s'.got == s.got && s'.rxPos == s.rxPos
    ensures s'.rx.Waiting? == s.rx.Waiting? && s'.rx.Copying? == s.rx.Copying?
  {
    events', cached', s' := BeginSend(slots, events, cached, s, msg);
    events', cached', s' := FinishFilling(slots, events', cached', s');
  }

  /** A call under way returns: the message is sent, or the ring is still full. */
  lemma EndSend(slots: nat, events: seq<Event>, cached: nat, s: State)
    returns (events': seq<Event>, cached': nat, s': State)
    requires At(slots, events, cached, s)
    ensures At(slots, events', cached', s') && events <= events' && s'.tx.Resting?
    ensures s.sent <= s'.sent && s'.got == s.got && s'.rx.Waiting? == s.rx.Waiting?
  {
    events', cached', s' := events, cached, s;
    hide Inv;
    if s'.tx.Refreshing? { events', cached', s' := Go(slots, events', cached', s', TxStep); }
    if s'.tx.Filling? { events', cached', s' := FinishFilling(slots, events', cached', s'); }
  }

  // ----- The receiver -----

  /** From the receive call to the publication of the acknowledgement. */
  lemma BeginReceive(slots: nat, events: seq<Event>, cached: nat, s: State, words: nat)
    returns (events': seq<Event>, cached': nat, s': State)
    requires At(slots, events, cached, s) && s.rx.Waiting? && Taken(s) < |s.sent|
    ensures At(slots, events', cached', s') && events <= events' && |events'| == |events| + 3
    ensures s'.got == s.got && s'.sent == s.sent && s'.tx == s.tx
    ensures s'.rx == Copying(words, [], s.rxPos, AckPosition(s.rxPos, |s.buf|), false)
    ensures s'.rxPos == if s.rxPos + 1 == |s.buf| then 0 else s.rxPos + 1
  {
    PendingIsExact(s, cached);
    ReceiveSteps(s, words);
    hide Inv, Next;
    events', cached', s' := Go(slots, events, cached, s, Receive(words));
    events', cached', s' := Go(slots, events', cached', s', RxStep);
    events', cached', s' := Go(slots, events', cached', s', RxStep);
  }

  lemma ReceiveSteps(s: State, words: nat)
    requires WellFormed(s) && s.rx.Waiting? && MessagePending(s)
    ensures Next(s, Receive(words)) == s.(rx := Seen(words))
    ensures var loaded := s.(rx := Loaded(words, s.buf[s.rxPos].ack));
      && Next(s.(rx := Seen(words)), RxStep) == loaded && WellFormed(loaded)
      && Next(loaded, RxStep) == Take(loaded)
  {
  }

  /** A copy ends after one step for each word that is left and one more. */
  lemma {:induction false} FinishCopying(slots: nat, events: seq<Event>, cached: nat, s: State)
    returns (events': seq<Event>, cached': nat, s': State)
    requires At(slots, events, cached, s) && s.rx.Copying?
    ensures At(slots, events', cached', s') && events <= events'
    ensures |events'| == |events| + s.rx.words - |s.rx.copy| + 1
    ensures s'.rx.Waiting? && s'.tx == s.tx && s'.sent == s.sent && |s'.got| == |s.got| + 1 && s.got <= s'.got
    ensures s'.got[|s.got|].words == s.rx.words && s'.got[|s.got|].overtaken == s.rx.overtaken
    decreases s.rx.words - |s.rx.copy|
  {
    hide Inv;
    events', cached', s' := Go(slots, events, cached, s, RxStep);
    if s'.rx.Copying? { events', cached', s' := FinishCopying(slots, events', cached', s'); }
  }

  /** A receive that finds a message delivers it within as many steps as words were
      asked for and four more, and the copy is right if the sender pauses meanwhile. */
  lemma ReceiveOne(slots: nat, events: seq<Event>, cached: nat, s: State, words: nat)
    returns (events': seq<Event>, cached': nat, s': State)
    requires At(slots, events, cached, s) && s.rx.Waiting? && |s.got| < |s.sent|
    ensures At(slots, events', cached', s') && events <= events' && |events'| == |events| + words + 4
    ensures s'.rx.Waiting? && s'.tx == s.tx && s'.sent == s.sent && |s'.got| == |s.got| + 1 && s.got <= s'.got
    ensures Carries(s'.got[|s.got|].copy, words, s.sent[|s.got|])
  {
    events', cached', s' := BeginReceive(slots, events, cached, s, words);
    events', cached', s' := FinishCopying(slots, events', cached', s');
  }

  /** A receive that saw a message takes it. */
  lemma EndSeen(slots: nat, events: seq<Event>, cached: nat, s: State)
    returns (events': seq<Event>, cached': nat, s': State)
    requires At(slots, events, cached, s) && s.rx.Seen?
    ensures At(slots, events', cached', s') && events <= events' && s'.rx.Copying?
    ensures s'.tx == s.tx && s'.sent == s.sent && s'.got == s.got
  {
    PendingIsExact(s, cached);
    hide Inv, Run, Init;
    events', cached', s' := Go(slots, events, cached, s, RxStep);
    events', cached', s' := Go(slots, events', cached', s', RxStep);
  }

  /** A receive under way returns. */
  lemma EndReceive(slots: nat, events: seq<Event>, cached: nat, s: State)
    returns (events': seq<Event>, cached': nat, s': State)
    requires At(slots, events, cached, s)
    ensures At(slots, events', cached', s') && events <= events' && s'.rx.Waiting?
    ensures s'.tx == s.tx && s'.sent == s.sent && s.got <= s'.got
  {
    hide Inv, Run, Init;
    events', cached', s' := events, cached, s;
    if s.rx.Seen? {
      events', cached', s' := EndSeen(slots, events, cached, s);
    } else if s.rx.Loaded? {
      events', cached', s' := Go(slots, events, cached, s, RxStep);
    }
    hide Next;
    if s'.rx.Copying? { events', cached', s' := FinishCopying(slots, events', cached', s'); }
  }

  /** What is in the ring can be received. */
  lemma {:induction false} Empty(slots: nat, events: seq<Event>, cached: nat, s: State)
    returns (events': seq<Event>, cached': nat, s': State)
    requires At(slots, events, cached, s) && s.rx.Waiting? && |s.got| <= |s.sent|
    ensures At(slots, events', cached', s') && events <= events' && s'.rx.Waiting?
    ensures s'.tx == s.tx && s'.sent == s.sent && s.got <= s'.got && |s'.got| == |s'.sent|
    decreases |s.sent| - |s.got|
  {
    hide Inv, Carries;
    events', cached', s' := events, cached, s;
    if |s.got| < |s.sent| {
      events', cached', s' := ReceiveOne(slots, events, cached, s, 0);
      events', cached', s' := Empty(slots, events', cached', s');
    }
  }

  /** Both ends come to rest and the ring is emptied. */
  lemma Settle(slots: nat, events: seq<Event>, cached: nat, s: State)
    returns (events': seq<Event>, cached': nat, s': State)
    requires At(slots, events, cached, s)
    ensures At(slots, events', cached', s') && events <= events' && s.sent <= s'.sent && s.got <= s'.got
    ensures s'.tx.Resting? && s'.rx.Waiting? && |s'.got| == |s'.sent|
  {
    var e1, c1, s1 := EndSend(slots, events, cached, s);
    var e2, c2, s2 := EndReceive(slots, e1, c1, s1);
    hide Run, Next, Carries;
    events', cached', s' := Empty(slots, e2, c2, s2);
  }

  /** A message is sent into an empty ring and received. */
  lemma SendAndReceive(slots: nat, events: seq<Event>, cached: nat, s: State, msg: Message, words: nat)
    returns (events': seq<Event>, cached': nat, s': State)
    requires At(slots, events, cached, s) && s.tx.Resting? && s.rx.Waiting? && |s.got| == |s.sent|
    ensures At(slots, events', cached', s') && events <= events' && |events'| <= |events| + |msg| + words + 7
    ensures s'.sent == s.sent + [msg] && |s'.got| == |s'.sent| && s.got <= s'.got
    ensures Carries(s'.got[|s.got|].copy, words, msg)
  {
    FlowControlFromInv(s, cached);
    hide Inv, RoomBy, Next, Carries;
    events', cached', s' := SendOne(slots, events, cached, s, msg);
    events', cached', s' := ReceiveOne(slots, events', cached', s', words);
  }

  /** From every state of every run, whatever is in the ring and under way at both ends:
      the run can go on so that everything sent is received and then a further message
      `msg`, with the words that were asked for. */
  lemma EveryMessageCanArrive(slots: nat, events: seq<Event>, msg: Message, words: nat) returns (more: seq<Event>)
    requires 2 <= slots < IDX_RANGE
    ensures events <= more
    ensures
      var s, s' := Run(Init(slots), events), Run(Init(slots), more);
      && s.sent <= s'.sent && s.got <= s'.got
      && |s'.got| == |s'.sent| > |s.sent|
      && s'.sent[|s'.sent| - 1] == msg
      && Carries(s'.got[|s'.got| - 1].copy, words, msg)
  {
    var cached := Reachable(slots, events);
    var s := Run(Init(slots), events);
    hide Inv, Next, Run, Carries, WellFormed, Init;
    var e1, c1, s1 := Settle(slots, events, cached, s);
    var e2, c2, s2 := SendAndReceive(slots, e1, c1, s1, msg, words);
    more := e2;
    assert s2 == Run(Init(slots), more);
  }
}
