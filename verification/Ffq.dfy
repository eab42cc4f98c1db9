/**
 The FastForward queue: one sender, one receiver and no shared index. A slot is
 free exactly when its first word is EMPTY; the sender writes that word last and
 the receiver resets it after copying. Every access to a slot is a step of its own.
 */
module Ffq {
  import opened Messages

  const MSG_WORDS: nat := 8
  const EMPTY: Word := 0xffff_ffff_ffff_ffff
  const NOTIFY: Word := 0

  /** The sender reads the first word even of a message of no words. */
  type Values = v: seq<Word> | |v| >= 1 witness [0]

  type Message = m: seq<Word> | 1 <= |m| <= MSG_WORDS witness [0]

  datatype Tx = Resting | Filling(msg: Message, next: nat)
  datatype Rx = Waiting | Copying(words: nat, copy: seq<Word>)

  /** What the receiver copied out of a slot, and the number of words it had asked for. */
  datatype Delivery = Delivery(words: nat, copy: seq<Word>)

  datatype State = State(
    slots: seq<seq<Word>>,
    txPos: nat, tx: Tx,
    rxPos: nat, rx: Rx,
    sent: seq<Message>, got: seq<Delivery>)

  datatype Event =
    | Send(values: Values)    // the sender calls send_raw; notify sends [NOTIFY]
    | TxStep
    | Receive(words: nat)     // the receiver calls recv_raw for that many words
    | RxStep

  /** A request for more words than a slot has is cut. */
  function Cut(words: nat): nat {
    if words > MSG_WORDS then MSG_WORDS else words
  }

  predicate WellFormed(s: State) {
    && |s.slots| >= 1 && s.txPos < |s.slots| && s.rxPos < |s.slots|
    && (forall x :: 0 <= x < |s.slots| ==> |s.slots[x]| == MSG_WORDS)
    && (s.tx.Filling? ==> 1 <= s.tx.next <= |s.tx.msg|)
    && (s.rx.Copying? ==> |s.rx.copy| <= Cut(s.rx.words))
  }

  /** `smlt_ffq_queue_init_tx` marks every slot empty; other words are arbitrary. */
  predicate IsInit(s: State) {
    && WellFormed(s)
    && (forall x :: 0 <= x < |s.slots| ==> s.slots[x][0] == EMPTY)
    && s.txPos == 0 && s.rxPos == 0 && s.tx.Resting? && s.rx.Waiting? && s.sent == [] && s.got == []
  }

  predicate CanSend(s: State)
    requires WellFormed(s)
  {
    s.slots[s.txPos][0] == EMPTY
  }

  predicate CanRecv(s: State)
    requires WellFormed(s)
  {
    s.slots[s.rxPos][0] != EMPTY
  }

  function Bump(pos: nat, size: nat): nat {
    if pos + 1 == size then 0 else pos + 1
  }

  function Truncated(values: Values): Message {
    if |values| > MSG_WORDS then values[..MSG_WORDS] else values
  }

  /** The store of the first word, which makes the message visible. */
  function Publish(s: State): State
    requires WellFormed(s) && s.tx.Filling?
  {
    s.(slots := s.slots[s.txPos := s.slots[s.txPos][0 := s.tx.msg[0]]],
       txPos := Bump(s.txPos, |s.slots|), tx := Resting, sent := s.sent + [s.tx.msg])
  }

  /** The store that frees the slot. */
  function Release(s: State): State
    requires WellFormed(s) && s.rx.Copying?
  {
    s.(slots := s.slots[s.rxPos := s.slots[s.rxPos][0 := EMPTY]],
       rxPos := Bump(s.rxPos, |s.slots|), rx := Waiting, got := s.got + [Delivery(s.rx.words, s.rx.copy)])
  }

  function Next(s: State, e: Event): (s': State)
    requires WellFormed(s)
    ensures WellFormed(s') && |s'.slots| == |s.slots|
  {
    match e
    case Send(values) =>
      if s.tx.Resting? && CanSend(s) then s.(tx := Filling(Truncated(values), 1)) else s
    case TxStep =>
      if s.tx.Resting? then s
      else if s.tx.next < |s.tx.msg| then
        s.(slots := s.slots[s.txPos := s.slots[s.txPos][s.tx.next := s.tx.msg[s.tx.next]]],
           tx := s.tx.(next := s.tx.next + 1))
      else Publish(s)
    case Receive(words) =>
      if s.rx.Waiting? && CanRecv(s) then s.(rx := Copying(words, [])) else s
    case RxStep =>
      if s.rx.Waiting? then s
      else if |s.rx.copy| < Cut(s.rx.words) then
        s.(rx := s.rx.(copy := s.rx.copy + [s.slots[s.rxPos][|s.rx.copy|]]))
      else Release(s)
  }

  function Run(s: State, events: seq<Event>): (s': State)
    requires WellFormed(s)
    ensures WellFormed(s') && |s'.slots| == |s.slots|
    decreases |events|
  {
    if events == [] then s else Next(Run(s, events[..|events| - 1]), events[|events| - 1])
  }

  /** No message starts with the word that marks a free slot. */
  predicate Sendable(e: Event) {
    e.Send? ==> e.values[0] != EMPTY
  }

  // ----- The invariant -----

  /** The number of the message that slot `x` was last used for, if not negative. */
  function Holder(s: State, x: nat): int {
    var lap := |s.sent| - s.txPos;
    if x < s.txPos then lap + x else lap - |s.slots| + x
  }

  ghost predicate Counts(s: State) {
    var n := |s.slots|;
    var txLap, rxLap := |s.sent| - s.txPos, |s.got| - s.rxPos;
    && (txLap == 0 || txLap >= n) && rxLap >= 0
    && (txLap == rxLap || txLap == rxLap + n)
    && |s.got| <= |s.sent| <= |s.got| + n
    && (s.tx.Filling? ==> |s.sent| < |s.got| + n)
    && (s.rx.Copying? ==> |s.got| < |s.sent|)
  }

  /** A slot is free exactly when it holds no message that is still to be received. */
  ghost predicate SlotOk(s: State, x: nat)
    requires WellFormed(s) && x < |s.slots|
  {
    var h := Holder(s, x);
    if |s.got| <= h < |s.sent| then Agree(s.slots[x], s.sent[h]) && s.slots[x][0] != EMPTY
    else s.slots[x][0] == EMPTY
  }

  ghost predicate EndsOk(s: State)
    requires WellFormed(s)
  {
    && (s.tx.Filling? ==> s.tx.msg[0] != EMPTY && forall k :: 1 <= k < s.tx.next ==> s.slots[s.txPos][k] == s.tx.msg[k])
    && (s.rx.Copying? && |s.got| < |s.sent| ==> Agree(s.rx.copy, s.sent[|s.got|]))
  }

  /** What was received is what was sent, in order, with as many words as asked for. */
  ghost predicate Delivered(s: State) {
    && |s.got| <= |s.sent|
    && forall i :: 0 <= i < |s.got| ==> Carries(s.got[i].copy, Cut(s.got[i].words), s.sent[i])
  }

  ghost predicate Inv(s: State) {
    && WellFormed(s)
    && Counts(s)
    && (forall x {:trigger SlotOk(s, x)} :: 0 <= x < |s.slots| ==> SlotOk(s, x))
    && EndsOk(s)
    && Delivered(s)
  }

  /** Both tests are exact, and every one of the slots is used: sending is possible
      exactly when fewer messages than slots are outstanding, receiving exactly when
      there is one. */
  predicate TestsExact(s: State)
    requires WellFormed(s)
  {
    && (CanSend(s) <==> |s.sent| - |s.got| < |s.slots|)
    && (CanRecv(s) <==> |s.got| < |s.sent|)
  }

  lemma TestsAreExact(s: State)
    requires Inv(s)
    ensures TestsExact(s)
  {
    assert SlotOk(s, s.txPos);
    assert SlotOk(s, s.rxPos);
  }

  lemma TxKeepsInv(s: State, e: Event)
    requires Inv(s) && Sendable(e) && !e.RxStep? && !e.Receive?
    requires !(e.TxStep? && s.tx.Filling? && s.tx.next == |s.tx.msg|)
    ensures Inv(Next(s, e))
  {
    var s' := Next(s, e);
    TestsAreExact(s);
    forall x | 0 <= x < |s.slots| ensures SlotOk(s', x) { assert SlotOk(s, x); }
  }

  lemma PublishKeepsInv(s: State)
    requires Inv(s) && s.tx.Filling? && s.tx.next == |s.tx.msg|
    ensures Inv(Publish(s))
  {
    var s' := Publish(s);
    forall x | 0 <= x < |s.slots| ensures SlotOk(s', x) { assert SlotOk(s, x); }
  }

  lemma RxKeepsInv(s: State, e: Event)
    requires Inv(s) && (e.RxStep? || e.Receive?) && !(e.RxStep? && s.rx.Copying? && |s.rx.copy| == Cut(s.rx.words))
    ensures Inv(Next(s, e))
  {
    var s' := Next(s, e);
    TestsAreExact(s);
    assert SlotOk(s, s.rxPos);
    forall x | 0 <= x < |s.slots| ensures SlotOk(s', x) { assert SlotOk(s, x); }
  }

  lemma ReleaseKeepsInv(s: State)
    requires Inv(s) && s.rx.Copying? && |s.rx.copy| == Cut(s.rx.words)
    ensures Inv(Release(s))
  {
    var s' := Release(s);
    forall x | 0 <= x < |s.slots| ensures SlotOk(s', x) { assert SlotOk(s, x); }
  }

  lemma StepKeepsInv(s: State, e: Event)
    requires Inv(s) && Sendable(e)
    ensures Inv(Next(s, e))
  {
    if e.TxStep? && s.tx.Filling? && s.tx.next == |s.tx.msg| { PublishKeepsInv(s); }
    else if e.RxStep? && s.rx.Copying? && |s.rx.copy| == Cut(s.rx.words) { ReleaseKeepsInv(s); }
    else if e.RxStep? || e.Receive? { RxKeepsInv(s, e); }
    else { TxKeepsInv(s, e); }
  }

  lemma {:induction false} Reachable(s: State, events: seq<Event>)
    requires IsInit(s) && forall k :: 0 <= k < |events| ==> Sendable(events[k])
    ensures Inv(Run(s, events))
    decreases |events|
  {
    if events != [] {
      var before := events[..|events| - 1];
      Reachable(s, before);
      StepKeepsInv(Run(s, before), events[|events| - 1]);
    }
  }

  // ----- The guarantees -----

  /** Each delivery is the whole message if enough words were asked for, and else as
      many of its first words as were. */
  ghost predicate PayloadsArrive(s: State) {
    && |s.got| <= |s.sent|
    && forall i :: 0 <= i < |s.got| ==>
         && (s.got[i].words >= |s.sent[i]| ==> s.sent[i] <= s.got[i].copy)
         && (s.got[i].words <= |s.sent[i]| ==> s.got[i].copy == s.sent[i][..s.got[i].words])
  }

  lemma DeliveredArrives(s: State)
    requires Delivered(s)
    ensures PayloadsArrive(s)
  {
    forall i | 0 <= i < |s.got|
      ensures s.got[i].words >= |s.sent[i]| ==> s.sent[i] <= s.got[i].copy
      ensures s.got[i].words <= |s.sent[i]| ==> s.got[i].copy == s.sent[i][..s.got[i].words]
    {
      CarriesWhole(s.got[i].copy, Cut(s.got[i].words), s.sent[i]);
    }
  }

  /** From the call to the delivery the receiver keeps to the number of words it was
      asked for, and delivers if it found a message. */
  lemma RequestIsKept(s: State, e: Event)
    requires Inv(s)
    ensures s.rx.Waiting? && e.Receive? && |s.got| < |s.sent| ==> Next(s, e).rx == Copying(e.words, [])
    ensures s.rx.Copying? && Next(s, e).rx.Copying? ==> Next(s, e).rx.words == s.rx.words && Next(s, e).got == s.got
    ensures s.rx.Copying? && Next(s, e).rx.Waiting? ==>
              |Next(s, e).got| == |s.got| + 1 && Next(s, e).got[|s.got|].words == s.rx.words
  {
    TestsAreExact(s);
  }

  /** A call of `send_raw` is admitted exactly when a slot is free. Its message is the
      first eight words of what it was given, or all of that if it is no longer; it is
      kept until it is visible, and then recorded. */
  lemma SendIsKept(s: State, e: Event)
    requires Inv(s)
    ensures s.tx.Resting? ==> (Next(s, e).tx.Filling? <==> e.Send? && |s.sent| - |s.got| < |s.slots|)
    ensures s.tx.Resting? && Next(s, e).tx.Filling? ==> IsCutOf(Next(s, e).tx.msg, e.values)
    ensures s.tx.Filling? && Next(s, e).tx.Filling? ==> Next(s, e).tx.msg == s.tx.msg
    ensures Next(s, e).sent ==
            if s.tx.Filling? && Next(s, e).tx.Resting? then s.sent + [s.tx.msg] else s.sent
  {
    TestsAreExact(s);
  }

  /** `msg` is what a slot can hold of `values`. */
  predicate IsCutOf(msg: seq<Word>, values: seq<Word>) {
    && (|values| <= MSG_WORDS ==> msg == values)
    && (|values| > MSG_WORDS ==> msg == values[..MSG_WORDS])
  }

  /** What the calls of `send_raw` in a run were given, in order, as far as a slot can hold it. */
  function Offered(events: seq<Event>): seq<seq<Word>>
    decreases |events|
  {
    if events == [] then []
    else
      var e := events[|events| - 1];
      Offered(events[..|events| - 1]) +
      if !e.Send? then [] else if |e.values| <= MSG_WORDS then [e.values] else [e.values[..MSG_WORDS]]
  }

  /** What was sent, and the message under way, were offered in that order. */
  predicate WasOffered(s: State, offered: seq<seq<Word>>) {
    && IsSubsequence(s.sent, offered)
    && (s.tx.Filling? ==> IsSubsequence(s.sent + [s.tx.msg], offered))
  }

  lemma StepWasOffered(s: State, e: Event, offered: seq<seq<Word>>, given: seq<Word>)
    requires Inv(s) && WasOffered(s, offered) && (e.Send? ==> IsCutOf(given, e.values))
    ensures WasOffered(Next(s, e), offered + if e.Send? then [given] else [])
  {
    SendIsKept(s, e);
    hide Next, Inv, IsSubsequence;
    if e.Send? {
      SubsequenceGrows(s.sent, offered, given);
      if s.tx.Filling? { SubsequenceGrows(s.sent + [s.tx.msg], offered, given); }
    } else {
      assert offered + [] == offered;
    }
  }

  lemma {:induction false} SentAsOffered(s: State, events: seq<Event>)
    requires IsInit(s) && forall k :: 0 <= k < |events| ==> Sendable(events[k])
    ensures WasOffered(Run(s, events), Offered(events))
    decreases |events|
  {
    if events != [] {
      var before, e := events[..|events| - 1], events[|events| - 1];
      SentAsOffered(s, before);
      Reachable(s, before);
      hide Inv, WasOffered, Next;
      var given := if !e.Send? then [] else if |e.values| <= MSG_WORDS then e.values else e.values[..MSG_WORDS];
      StepWasOffered(Run(s, before), e, Offered(before), given);
    }
  }

  /** In every run, for every ring size: what was sent is what the calls were given, in
      the order of the calls, only calls that found no free slot leave no trace; received
      messages are the sent ones in order, and the two tests are exact. */
  lemma RefinesBoundedFifo(s: State, events: seq<Event>)
    requires IsInit(s) && forall k :: 0 <= k < |events| ==> Sendable(events[k])
    ensures IsSubsequence(Run(s, events).sent, Offered(events))
    ensures Delivered(Run(s, events)) && PayloadsArrive(Run(s, events)) && TestsExact(Run(s, events))
  {
    Reachable(s, events);
    SentAsOffered(s, events);
    TestsAreExact(Run(s, events));
    DeliveredArrives(Run(s, events));
  }

  // ----- Whole receives -----

  /** The receiver's steps in one whole call. */
  function WholeReceive(words: nat, steps: nat): seq<Event> {
    if steps == 0 then [Receive(words)] else WholeReceive(words, steps - 1) + [RxStep]
  }

  lemma RunOneMore(s: State, events: seq<Event>, e: Event)
    requires WellFormed(s)
    ensures Run(s, events + [e]) == Next(Run(s, events), e)
  {
    assert (events + [e])[..|events|] == events;
  }

  lemma RunOne(s: State, e: Event)
    requires WellFormed(s)
    ensures Run(s, [e]) == Next(s, e)
  {
    assert [e][..0] == [];
    assert Run(s, []) == s;
  }

  lemma OneAccessMore(s: State, words: nat, k: nat)
    requires WellFormed(s) && k > 0
    ensures Run(s, WholeReceive(words, k)) == Next(Run(s, WholeReceive(words, k - 1)), RxStep)
  {
    hide Run, Next;
    RunOneMore(s, WholeReceive(words, k - 1), RxStep);
  }

  lemma BeginReceive(s: State, words: nat)
    requires Inv(s) && WellFormed(s) && s.rx.Waiting? && |s.got| < |s.sent|
    ensures Run(s, WholeReceive(words, 0)) == s.(rx := Copying(words, []))
    ensures Inv(Run(s, WholeReceive(words, 0))) && WellFormed(Run(s, WholeReceive(words, 0)))
  {
    TestsAreExact(s);
    RunOne(s, Receive(words));
    StepKeepsInv(s, Receive(words));
    hide Inv, Run;
  }

  lemma OneAccess(s: State)
    requires WellFormed(s) && s.rx.Copying? && |s.rx.copy| < Cut(s.rx.words)
    ensures var r := Next(s, RxStep);
      r.rx.Copying? && r == s.(rx := Copying(s.rx.words, r.rx.copy)) && |r.rx.copy| == |s.rx.copy| + 1
  {
  }

  lemma {:induction false} ReceiveInProgress(s: State, words: nat, k: nat)
    requires Inv(s) && WellFormed(s) && s.rx.Waiting? && |s.got| < |s.sent| && k <= Cut(words)
    ensures
      var r := Run(s, WholeReceive(words, k));
      Inv(r) && WellFormed(r) && r.rx.Copying? && r == s.(rx := Copying(words, r.rx.copy)) && |r.rx.copy| == k
    decreases k
  {
    hide Inv, Run, WellFormed, Next;
    if k == 0 {
      BeginReceive(s, words);
    } else {
      hide WholeReceive;
      ReceiveInProgress(s, words, k - 1);
      OneAccessMore(s, words, k);
      StepKeepsInv(Run(s, WholeReceive(words, k - 1)), RxStep);
      OneAccess(Run(s, WholeReceive(words, k - 1)));
    }
  }

  /** A call of `recv_raw` that finds a message delivers the oldest one: one access for
      each word asked for, at most eight, and two more. */
  lemma ReceiveCompletes(s: State, words: nat)
    requires Inv(s) && WellFormed(s) && s.rx.Waiting? && |s.got| < |s.sent|
    ensures
      var n := if words <= MSG_WORDS then words else MSG_WORDS;
      var r := Run(s, WholeReceive(words, n + 1));
      && Inv(r) && r.rx.Waiting? && r.tx == s.tx && r.sent == s.sent
      && |r.got| == |s.got| + 1 && s.got <= r.got
      && r.got[|s.got|].words == words && Carries(r.got[|s.got|].copy, n, s.sent[|s.got|])
  {
    hide Inv, Run, WholeReceive, WellFormed, Next, Carries;
    var n := if words <= MSG_WORDS then words else MSG_WORDS;
    ReceiveInProgress(s, words, n);
    OneAccessMore(s, words, n + 1);
    var before := Run(s, WholeReceive(words, n));
    StepKeepsInv(before, RxStep);
    LastAccess(before);
    DeliveredLast(Next(before, RxStep));
  }

  lemma LastAccess(s: State)
    requires WellFormed(s) && s.rx.Copying? && |s.rx.copy| == Cut(s.rx.words)
    ensures var r := Next(s, RxStep);
      r.rx.Waiting? && r.tx == s.tx && r.sent == s.sent && r.got == s.got + [Delivery(s.rx.words, s.rx.copy)]
  {
  }

  lemma DeliveredLast(s: State)
    requires Inv(s) && |s.got| > 0
    ensures var i := |s.got| - 1;
      i < |s.sent| && Carries(s.got[i].copy, Cut(s.got[i].words), s.sent[i])
  {
  }

  // ----- The condition on the first word -----

  /** The sender's steps in one whole call. */
  function WholeSend(values: Values, stores: nat): (events: seq<Event>)
    ensures forall k :: 0 <= k < |events| && events[k].Send? ==> events[k].values == values
  {
    if stores == 0 then [Send(values)] else WholeSend(values, stores - 1) + [TxStep]
  }

  lemma OneStoreMore(s: State, values: Values, k: nat)
    requires WellFormed(s) && k > 0
    ensures Run(s, WholeSend(values, k)) == Next(Run(s, WholeSend(values, k - 1)), TxStep)
  {
    hide Run, Next;
    RunOneMore(s, WholeSend(values, k - 1), TxStep);
  }

  /** Before the last store of the call its slot still looks free. */
  lemma {:induction false} SendInProgress(s: State, values: Values, k: nat)
    requires WellFormed(s) && s.tx.Resting? && CanSend(s) && k < |Truncated(values)|
    ensures var r := Run(s, WholeSend(values, k));
      r == s.(tx := Filling(Truncated(values), k + 1), slots := r.slots) && r.slots[s.txPos][0] == EMPTY
    ensures forall x :: 0 <= x < |s.slots| && x != s.txPos ==> Run(s, WholeSend(values, k)).slots[x] == s.slots[x]
    decreases k
  {
    hide Run;
    if k == 0 {
      RunOne(s, Send(values));
    } else {
      hide WholeSend;
      SendInProgress(s, values, k - 1);
      OneStoreMore(s, values, k);
    }
  }

  /** How many words a call with these values stores: all of them, but at most eight. */
  function Stores(values: Values): (n: nat) {
    if |values| <= MSG_WORDS then |values| else MSG_WORDS
  }

  /** The last store of the call marks the slot with the first word. */
  lemma SendCompletes(s: State, values: Values)
    requires WellFormed(s) && s.tx.Resting? && CanSend(s)
    ensures var r := Run(s, WholeSend(values, Stores(values)));
      && r.sent == s.sent + [values[..Stores(values)]] && r.got == s.got && r.rxPos == s.rxPos && r.tx.Resting?
      && r.slots[s.txPos][0] == values[0]
    ensures forall x :: 0 <= x < |s.slots| && x != s.txPos ==>
              Run(s, WholeSend(values, Stores(values))).slots[x] == s.slots[x]
  {
    hide Run, WholeSend;
    var k := Stores(values);
    assert values[..|values|] == values;
    SendInProgress(s, values, k - 1);
    OneStoreMore(s, values, k);
    hide Next;
    LastStore(Run(s, WholeSend(values, k - 1)));
  }

  lemma LastStore(s: State)
    requires WellFormed(s) && s.tx.Filling? && s.tx.next == |s.tx.msg|
    ensures var r := Next(s, TxStep);
      && r.sent == s.sent + [s.tx.msg] && r.got == s.got && r.rxPos == s.rxPos && r.tx.Resting?
      && r.slots[s.txPos][0] == s.tx.msg[0]
      && forall x :: 0 <= x < |s.slots| && x != s.txPos ==> r.slots[x] == s.slots[x]
  {
  }

  /** After a whole call of `send_raw` with a free slot, for a message of any length
      and whatever else is in the ring: the message was sent, all of it if it has at
      most eight words and its first eight words otherwise, and its slot is marked
      as used if and only if the first word is not EMPTY. On a ring that was drained
      the receiver sees the message if and only if that holds. */
  lemma VisibleIffNotEmpty(s: State, values: Values)
    requires Inv(s) && s.tx.Resting? && |s.sent| - |s.got| < |s.slots|
    ensures
      var n := if |values| <= MSG_WORDS then |values| else MSG_WORDS;
      var r := Run(s, WholeSend(values, n));
      && (|values| <= MSG_WORDS ==> r.sent == s.sent + [values])
      && (|values| > MSG_WORDS ==> r.sent == s.sent + [values[..MSG_WORDS]])
      && r.got == s.got && r.rxPos == s.rxPos && r.tx.Resting?
      && (r.slots[s.txPos][0] != EMPTY <==> values[0] != EMPTY)
      && (|s.got| == |s.sent| ==> (CanRecv(r) <==> values[0] != EMPTY))
  {
    TestsAreExact(s);
    SendCompletes(s, values);
    assert values[..|values|] == values;
    hide Run, WholeSend;
    if |s.got| == |s.sent| { DrainedEndsMeet(s); }
  }

  lemma DrainedEndsMeet(s: State)
    requires Inv(s) && |s.got| == |s.sent|
    ensures s.rxPos == s.txPos
  {
  }

  predicate SendsOnly(events: seq<Event>, values: Values) {
    forall k :: 0 <= k < |events| && events[k].Send? ==> events[k].values == values
  }

  /** From every initial state: the two tests are exact in all runs that send
      `values` if and only if its first word is not EMPTY. */
  lemma ExactIffNotEmpty(s: State, values: Values)
    requires IsInit(s)
    ensures (forall events :: SendsOnly(events, values) ==> TestsExact(Run(s, events))) <==> values[0] != EMPTY
  {
    if values[0] != EMPTY {
      forall events | SendsOnly(events, values) ensures TestsExact(Run(s, events)) {
        Reachable(s, events);
        TestsAreExact(Run(s, events));
      }
    } else {
      var events := WholeSend(values, Stores(values));
      Reachable(s, []);
      VisibleIffNotEmpty(s, values);
      assert SendsOnly(events, values) && !TestsExact(Run(s, events));
    }
  }
}
