/**
 The UMP ring queue: one sender, one receiver, one cache line per message.

 A slot's control word carries a one-bit epoch, which tells the receiver whether
 the slot was written in this lap, and the 16-bit sequence number of the message.
 The receiver publishes a sequence number as an acknowledgement twice per lap; the
 sender keeps a copy of it and reads the shared word only when the copy says the
 ring is full. Every access to shared memory is a step of its own.
 */
module Ump {
  import opened Messages

  const PAYLOAD_WORDS: nat := 7
  const IDX_RANGE: nat := 0x1_0000

  /** The value of a 16-bit index variable that was assigned `x`. */
  function Idx(x: int): nat {
    x % IDX_RANGE
  }

  type Message = m: seq<Word> | |m| <= PAYLOAD_WORDS witness []

  datatype Slot = Slot(epoch: bool, ack: nat, data: seq<Word>)

  datatype Tx =
    | Resting
    | Refreshing(msg: Message)             // the cached acknowledgement says full
    | Filling(msg: Message, filled: nat)   // storing the payload, then the control word

  datatype Rx =
    | Waiting
    | Seen(words: nat)                     // `can_recv` was true
    | Loaded(words: nat, stamp: nat)       // control word read, before the acknowledgement
    | Copying(words: nat, copy: seq<Word>, slot: nat, acked: bool, overtaken: bool)

  /** A message as the receiver copied it out of the ring, and the number of words
      it had asked for. `acked`: taking it published an acknowledgement. `overtaken`:
      the sender stored a payload word into the slot while it was being copied. */
  datatype Delivery = Delivery(words: nat, copy: seq<Word>, acked: bool, overtaken: bool)

  /** The shared memory, the two ends, and the history of the run. */
  datatype State = State(
    buf: seq<Slot>, ack: nat,
    txPos: nat, txEpoch: bool, seqId: nat, lastAck: nat, tx: Tx,
    rxPos: nat, rxEpoch: bool, rx: Rx,
    sent: seq<Message>, got: seq<Delivery>)

  datatype Event =
    | Send(msg: Message)      // the sender calls send, or notify with no payload
    | TxStep                  // the sender takes its next step
    | Receive(words: nat)     // the receiver polls, wanting that many words
    | RxStep                  // the receiver takes its next step

  /** The queue that `smlt_ump_queuepair_init` sets up for `slots` cache lines,
      one of which holds the acknowledgement. */
  function Init(slots: nat): (s: State)
    requires 2 <= slots < IDX_RANGE
    ensures WellFormed(s) && |s.buf| == slots - 1
  {
    State(seq(slots - 1, _ => Slot(false, 0, seq(PAYLOAD_WORDS, _ => 0))), 0,
          0, true, 1, 0, Resting,
          0, true, Waiting,
          [], [])
  }

  predicate WellFormed(s: State) {
    && 1 <= |s.buf| < IDX_RANGE - 1
    && s.txPos < |s.buf| && s.rxPos < |s.buf|
    && (forall x :: 0 <= x < |s.buf| ==> |s.buf[x].data| == PAYLOAD_WORDS)
    && (s.tx.Filling? ==> s.tx.filled <= |s.tx.msg|)
    && (s.rx.Copying? ==> s.rx.slot < |s.buf| && |s.rx.copy| <= s.rx.words)
  }

  /** The flow-control test on 16-bit sequence numbers. */
  predicate RoomBy(seqId: nat, ack: nat, numMsg: nat) {
    Idx(seqId - ack) <= numMsg
  }

  predicate MessagePending(s: State)
    requires WellFormed(s)
  {
    s.buf[s.rxPos].epoch == s.rxEpoch
  }

  /** The acknowledgement is written in the middle and at the end of a lap. */
  predicate AckPosition(pos: nat, numMsg: nat) {
    pos == numMsg / 2 || pos + 1 == numMsg
  }

  // ----- The size of a message -----

  /** Where in the ring, counted in words, the copy loops look for word `k` of a
      message: slot `x` has its control word first. */
  function Place(x: nat, k: nat): nat {
    x * (PAYLOAD_WORDS + 1) + 1 + k
  }

  /** The copy loops do not check the length. A word is stored and loaded inside its
      slot if and only if it is one of the first seven; the eighth is the control word
      of the next slot, or what follows the ring. */
  lemma WordFitsIff(x: nat, k: nat)
    ensures Place(x, k) < (x + 1) * (PAYLOAD_WORDS + 1) <==> k < PAYLOAD_WORDS
    ensures Place(x, PAYLOAD_WORDS) == (x + 1) * (PAYLOAD_WORDS + 1)
  {
  }

  function ControlWord(slot: Slot): Word {
    slot.ack * IDX_RANGE + if slot.epoch then 1 else 0
  }

  /** The word that the receiver's copy loop loads. Behind the ring it is taken as 0. */
  function Load(buf: seq<Slot>, x: nat, k: nat): Word
    requires x < |buf| && forall y :: 0 <= y < |buf| ==> |buf[y].data| == PAYLOAD_WORDS
  {
    if k < PAYLOAD_WORDS then buf[x].data[k]
    else
      var y, word := Place(x, k) / (PAYLOAD_WORDS + 1), Place(x, k) % (PAYLOAD_WORDS + 1);
      if y >= |buf| then 0 else if word == 0 then ControlWord(buf[y]) else buf[y].data[word - 1]
  }

  /** The ring as it lies in memory: for each slot its control word and its data. */
  function Flat(buf: seq<Slot>): seq<Word> {
    if buf == [] then []
    else
      var last := buf[|buf| - 1];
      Flat(buf[..|buf| - 1]) + [last.ack * 0x1_0000 + if last.epoch then 1 else 0] + last.data
  }

  lemma {:induction false} FlatAt(buf: seq<Slot>, y: nat, word: nat)
    requires y < |buf| && word < 8 && forall x :: 0 <= x < |buf| ==> |buf[x].data| == 7
    ensures |Flat(buf)| == 8 * |buf|
    ensures Flat(buf)[8 * y + word] == if word == 0 then ControlWord(buf[y]) else buf[y].data[word - 1]
    decreases |buf|
  {
    var n := |buf| - 1;
    if n > 0 {
      FlatAt(buf[..n], if y < n then y else 0, word);
    } else {
      assert Flat(buf[..0]) == [];
    }
  }

  /** The copy loop loads what lies in memory where word `k` of a slot would be, also
      behind the slot, as far as the ring goes. */
  lemma LoadsWhatLiesThere(buf: seq<Slot>, x: nat, k: nat)
    requires x < |buf| && forall y :: 0 <= y < |buf| ==> |buf[y].data| == 7
    ensures |Flat(buf)| == 8 * |buf|
    ensures Load(buf, x, k) == if 8 * x + 1 + k < |Flat(buf)| then Flat(buf)[8 * x + 1 + k] else 0
  {
    FlatAt(buf, 0, 0);
    var place := 8 * x + 1 + k;
    if place < |Flat(buf)| { FlatAt(buf, place / 8, place % 8); }
    hide Flat;
  }

  function Commit(s: State): State
    requires WellFormed(s) && s.tx.Filling?
  {
    var wraps := s.txPos + 1 == |s.buf|;
    s.(buf := s.buf[s.txPos := s.buf[s.txPos].(epoch := s.txEpoch, ack := s.seqId)],
       seqId := Idx(s.seqId + 1),
       txPos := if wraps then 0 else s.txPos + 1,
       txEpoch := if wraps then !s.txEpoch else s.txEpoch,
       tx := Resting,
       sent := s.sent + [s.tx.msg])
  }

  function Fill(s: State): State
    requires WellFormed(s) && s.tx.Filling? && s.tx.filled < |s.tx.msg|
  {
    var slot := s.buf[s.txPos];
    s.(buf := s.buf[s.txPos := slot.(data := slot.data[s.tx.filled := s.tx.msg[s.tx.filled]])],
       tx := s.tx.(filled := s.tx.filled + 1),
       rx := if s.rx.Copying? && s.rx.slot == s.txPos then s.rx.(overtaken := true) else s.rx)
  }

  function Take(s: State): State
    requires WellFormed(s) && s.rx.Loaded?
  {
    var wraps := s.rxPos + 1 == |s.buf|;
    var acks := AckPosition(s.rxPos, |s.buf|);
    s.(ack := if acks then s.rx.stamp else s.ack,
       rxPos := if wraps then 0 else s.rxPos + 1,
       rxEpoch := if wraps then !s.rxEpoch else s.rxEpoch,
       rx := Copying(s.rx.words, [], s.rxPos, acks, false))
  }

  function CopyWord(s: State): State
    requires WellFormed(s) && s.rx.Copying? && |s.rx.copy| < s.rx.words
  {
    s.(rx := s.rx.(copy := s.rx.copy + [Load(s.buf, s.rx.slot, |s.rx.copy|)]))
  }

  function Finish(s: State): State
    requires s.rx.Copying?
  {
    s.(rx := Waiting, got := s.got + [Delivery(s.rx.words, s.rx.copy, s.rx.acked, s.rx.overtaken)])
  }

  function Next(s: State, e: Event): (s': State)
    requires WellFormed(s)
    ensures WellFormed(s') && |s'.buf| == |s.buf|
  {
    match e
    case Send(msg) =>
      if !s.tx.Resting? then s
      else s.(tx := if RoomBy(s.seqId, s.lastAck, |s.buf|) then Filling(msg, 0) else Refreshing(msg))
    case TxStep => (
      match s.tx
      case Resting => s
      case Refreshing(msg) =>
        s.(lastAck := s.ack, tx := if RoomBy(s.seqId, s.ack, |s.buf|) then Filling(msg, 0) else Resting)
      case Filling(msg, filled) => if filled < |msg| then Fill(s) else Commit(s))
    case Receive(words) =>
      if s.rx.Waiting? && MessagePending(s) then s.(rx := Seen(words)) else s
    case RxStep => (
      match s.rx
      case Waiting => s
      case Seen(words) =>
        s.(rx := if MessagePending(s) then Loaded(words, s.buf[s.rxPos].ack) else Waiting)
      case Loaded(_, _) => Take(s)
      case Copying(words, copy, _, _, _) => if |copy| < words then CopyWord(s) else Finish(s))
  }

  function Run(s: State, events: seq<Event>): (s': State)
    requires WellFormed(s)
    ensures WellFormed(s') && |s'.buf| == |s.buf|
    decreases |events|
  {
    if events == [] then s else Next(Run(s, events[..|events| - 1]), events[|events| - 1])
  }

  // ----- The invariant -----

  /** How many messages the receiver has taken out of the ring. */
  function Taken(s: State): nat {
    |s.got| + if s.rx.Copying? then 1 else 0
  }

  /** How many messages the published acknowledgement covers. */
  function Acked(s: State): int {
    var lap := Taken(s) - s.rxPos;
    if s.rxPos <= |s.buf| / 2 then lap else lap + |s.buf| / 2 + 1
  }

  /** The number of the message that slot `x` was last used for, if not negative. */
  function Holder(s: State, x: nat): int {
    var lap := |s.sent| - s.txPos;
    if x < s.txPos then lap + x else lap - |s.buf| + x
  }

  /** A payload word of message number `j` has been stored. */
  predicate Begun(s: State, j: nat) {
    (|s.sent| == j && s.tx.Filling? && s.tx.filled > 0) || (|s.sent| > j && |s.sent[j]| > 0)
  }

  ghost predicate Counts(s: State, cached: nat) {
    var n := |s.buf|;
    var txLap, rxLap := |s.sent| - s.txPos, Taken(s) - s.rxPos;
    && (txLap == 0 || txLap >= n) && rxLap >= 0
    && (if s.txEpoch == s.rxEpoch then txLap == rxLap else txLap == rxLap + n)
    && Taken(s) <= |s.sent| <= cached + n
    && cached <= Acked(s)
    && (s.tx.Filling? ==> |s.sent| < cached + n)
    && s.seqId == Idx(|s.sent| + 1)
    && s.ack == Idx(Acked(s))
    && s.lastAck == Idx(cached)
  }

  ghost predicate SlotOk(s: State, x: nat)
    requires WellFormed(s) && x < |s.buf|
  {
    && s.buf[x].epoch == (if x < s.txPos then s.txEpoch else !s.txEpoch)
    && (0 <= Holder(s, x) < |s.sent| ==>
          && s.buf[x].ack == Idx(Holder(s, x) + 1)
          && (x != s.txPos || !s.tx.Filling? ==> Agree(s.buf[x].data, s.sent[Holder(s, x)])))
  }

  ghost predicate EndsOk(s: State)
    requires WellFormed(s)
  {
    && (s.tx.Filling? ==> s.buf[s.txPos].data[..s.tx.filled] == s.tx.msg[..s.tx.filled])
    && (s.rx.Seen? || s.rx.Loaded? ==> Taken(s) < |s.sent|)
    && (s.rx.Loaded? ==> s.rx.stamp == Idx(Taken(s) + 1))
    && (s.rx.Copying? ==>
          && Taken(s) <= |s.sent|
          && s.rx.slot == (if s.rxPos == 0 then |s.buf| - 1 else s.rxPos - 1)
          && (s.rx.acked <==> AckPosition(s.rx.slot, |s.buf|))
          && (s.rx.overtaken <==> Begun(s, |s.got| + |s.buf|)) && (s.rx.overtaken ==> s.rx.acked)
          && (!s.rx.overtaken ==> Agree(s.buf[s.rx.slot].data, s.sent[|s.got|]) && Agree(s.rx.copy, s.sent[|s.got|])))
  }

  /** Every message was delivered in its place, with as many words as were asked for;
      its payload is intact unless the sender overtook the copy, and then the receiver
      had acknowledged it. */
  ghost predicate Delivered(s: State) {
    && |s.got| <= |s.sent|
    && (forall i :: 0 <= i < |s.got| ==>
          && |s.got[i].copy| == s.got[i].words
          && (!s.got[i].overtaken ==> Agree(s.got[i].copy, s.sent[i]))
          && (s.got[i].overtaken ==> s.got[i].acked && Begun(s, i + |s.buf|)))
  }

  ghost predicate Inv(s: State, cached: nat) {
    && WellFormed(s)
    && Counts(s, cached)
    && (forall x {:trigger SlotOk(s, x)} :: 0 <= x < |s.buf| ==> SlotOk(s, x))
    && EndsOk(s)
    && Delivered(s)
  }

  /** The 16-bit test decides what it would decide on unbounded numbers. */
  lemma WrapIsHarmless(sent: nat, acked: nat, numMsg: nat)
    requires acked <= sent <= acked + numMsg && numMsg < IDX_RANGE - 1
    ensures RoomBy(Idx(sent + 1), Idx(acked), numMsg) <==> sent < acked + numMsg
  {
    assert Idx(Idx(sent + 1) - Idx(acked)) == Idx(sent + 1 - acked);
  }

  lemma NextIdx(x: nat)
    ensures Idx(Idx(x) + 1) == Idx(x + 1)
  {
  }

  /** A step that leaves the ring and the sender's place alone keeps every slot in order. */
  lemma SlotsUntouched(s: State, s': State)
    requires WellFormed(s) && WellFormed(s') && s'.buf == s.buf && s'.sent == s.sent
    requires s'.txPos == s.txPos && s'.txEpoch == s.txEpoch && (s.tx.Filling? ==> s'.tx.Filling?)
    requires forall x {:trigger SlotOk(s, x)} :: 0 <= x < |s.buf| ==> SlotOk(s, x)
    ensures forall x {:trigger SlotOk(s', x)} :: 0 <= x < |s.buf| ==> SlotOk(s', x)
  {
    forall x | 0 <= x < |s.buf| ensures SlotOk(s', x) { assert SlotOk(s, x); }
  }

  /** A step that sends, stores and delivers nothing keeps what was delivered. */
  lemma DeliveredKept(s: State, s': State)
    requires Delivered(s) && s'.sent == s.sent && s'.got == s.got && |s'.buf| == |s.buf|
    requires s.tx.Filling? && s.tx.filled > 0 <==> s'.tx.Filling? && s'.tx.filled > 0
    ensures Delivered(s') && forall j: nat {:trigger Begun(s', j)} :: Begun(s', j) <==> Begun(s, j)
  {
  }

  lemma SendKeepsInv(s: State, cached: nat, msg: Message)
    requires Inv(s, cached)
    ensures Inv(Next(s, Send(msg)), cached)
  {
    hide Idx, RoomBy, Agree, SlotOk, Delivered, Begun;
    var s' := Next(s, Send(msg));
    DeliveredKept(s, s');
    WrapIsHarmless(|s.sent|, cached, |s.buf|);
    SlotsUntouched(s, s');
  }

  lemma RefreshKeepsInv(s: State, cached: nat) returns (cached': nat)
    requires Inv(s, cached) && s.tx.Refreshing?
    ensures Inv(Next(s, TxStep), cached')
  {
    hide Idx, RoomBy, Agree, SlotOk, Delivered, Begun;
    var s' := Next(s, TxStep);
    DeliveredKept(s, s');
    cached' := Acked(s);
    WrapIsHarmless(|s.sent|, cached', |s.buf|);
    SlotsUntouched(s, s');
  }

  /** Reading the shared acknowledgement keeps the invariant. */
  lemma Refreshed(s: State, cached: nat)
    requires Inv(s, cached)
    ensures Acked(s) >= 0 && Inv(s.(lastAck := s.ack), Acked(s))
  {
    hide Idx, SlotOk, Delivered, Begun;
    var s' := s.(lastAck := s.ack);
    DeliveredKept(s, s');
    SlotsUntouched(s, s');
  }

  /** A message may be admitted when there is room. */
  lemma Admitted(s: State, cached: nat, msg: Message)
    requires Inv(s, cached) && s.tx.Resting? && |s.sent| < cached + |s.buf|
    ensures Inv(s.(tx := Filling(msg, 0)), cached)
  {
    hide Idx, SlotOk, Delivered, Begun;
    var s' := s.(tx := Filling(msg, 0));
    DeliveredKept(s, s');
    SlotsUntouched(s, s');
  }

  lemma FillEnds(s: State, cached: nat)
    requires Inv(s, cached) && s.tx.Filling? && s.tx.filled < |s.tx.msg|
    ensures WellFormed(Fill(s)) && EndsOk(Fill(s)) && Delivered(Fill(s))
  {
    hide Idx, RoomBy, SlotOk;
  }

  lemma FillSlot(s: State, cached: nat, x: nat)
    requires Inv(s, cached) && s.tx.Filling? && s.tx.filled < |s.tx.msg| && x < |s.buf|
    ensures SlotOk(Fill(s), x)
  {
    hide Idx, Delivered, EndsOk, Agree;
    assert SlotOk(s, x);
  }

  lemma FillKeepsInv(s: State, cached: nat)
    requires Inv(s, cached) && s.tx.Filling? && s.tx.filled < |s.tx.msg|
    ensures Inv(Fill(s), cached)
  {
    FillEnds(s, cached);
    hide Idx, EndsOk, Delivered, SlotOk;
    forall x | 0 <= x < |s.buf| ensures SlotOk(Fill(s), x) { FillSlot(s, cached, x); }
  }

  lemma CommitCounts(s: State, cached: nat)
    requires Inv(s, cached) && s.tx.Filling? && s.tx.filled >= |s.tx.msg|
    ensures Counts(Commit(s), cached)
  {
    hide Idx, SlotOk, Delivered;
    NextIdx(|s.sent| + 1);
  }

  lemma CommitSlot(s: State, cached: nat, x: nat)
    requires Inv(s, cached) && s.tx.Filling? && s.tx.filled >= |s.tx.msg| && x < |s.buf|
    ensures WellFormed(Commit(s)) && SlotOk(Commit(s), x)
  {
    hide Idx, Delivered;
    assert SlotOk(s, x);
  }

  lemma CommitKeepsInv(s: State, cached: nat)
    requires Inv(s, cached) && s.tx.Filling? && s.tx.filled >= |s.tx.msg|
    ensures Inv(Commit(s), cached)
  {
    hide Idx, SlotOk, Counts;
    CommitCounts(s, cached);
    forall x | 0 <= x < |s.buf| ensures SlotOk(Commit(s), x) { CommitSlot(s, cached, x); }
    CommitEnds(s, cached);
  }

  lemma CommitEnds(s: State, cached: nat)
    requires Inv(s, cached) && s.tx.Filling? && s.tx.filled >= |s.tx.msg|
    ensures WellFormed(Commit(s)) && EndsOk(Commit(s))
  {
    hide Idx, SlotOk, Delivered, Agree;
  }

  lemma PendingIsExact(s: State, cached: nat)
    requires Inv(s, cached)
    ensures MessagePending(s) <==> Taken(s) < |s.sent|
  {
    assert SlotOk(s, s.rxPos);
  }

  /** The control word of the oldest message carries its sequence number. */
  lemma StampIsNumber(s: State, cached: nat)
    requires Inv(s, cached) && Taken(s) < |s.sent|
    ensures s.buf[s.rxPos].ack == Idx(Taken(s) + 1)
  {
    hide Idx;
    assert SlotOk(s, s.rxPos);
  }

  lemma LookKeepsInv(s: State, cached: nat, e: Event)
    requires Inv(s, cached) && (e.Receive? || (e == RxStep && s.rx.Seen?))
    ensures Inv(Next(s, e), cached)
  {
    hide Idx, RoomBy, Agree, SlotOk, Delivered, Begun;
    var s' := Next(s, e);
    DeliveredKept(s, s');
    PendingIsExact(s, cached);
    if Taken(s) < |s.sent| { StampIsNumber(s, cached); }
    SlotsUntouched(s, s');
  }

  lemma TakeCounts(s: State, cached: nat)
    requires Inv(s, cached) && s.rx.Loaded?
    ensures Counts(Take(s), cached)
  {
    hide Idx, Delivered, SlotOk;
  }

  lemma TakeEnds(s: State, cached: nat)
    requires Inv(s, cached) && s.rx.Loaded?
    ensures EndsOk(Take(s))
  {
    hide Idx, Delivered;
    assert SlotOk(s, s.rxPos);
  }

  lemma TakeKeepsInv(s: State, cached: nat)
    requires Inv(s, cached) && s.rx.Loaded?
    ensures Inv(Take(s), cached)
  {
    TakeCounts(s, cached);
    TakeEnds(s, cached);
    DeliveredKept(s, Take(s));
    SlotsUntouched(s, Take(s));
    hide Counts, EndsOk, Delivered, SlotOk;
  }

  lemma CopyWordKeepsInv(s: State, cached: nat)
    requires Inv(s, cached) && s.rx.Copying? && |s.rx.copy| < s.rx.words
    ensures Inv(CopyWord(s), cached)
  {
    hide Idx, SlotOk, Delivered, Begun;
    var s' := CopyWord(s);
    DeliveredKept(s, s');
    SlotsUntouched(s, s');
  }

  lemma FinishKeepsInv(s: State, cached: nat)
    requires Inv(s, cached) && s.rx.Copying? && |s.rx.copy| >= s.rx.words
    ensures Inv(Finish(s), cached)
  {
    hide Idx, SlotOk;
    var s' := Finish(s);
    assert Counts(s', cached);
    SlotsUntouched(s, s');
  }

  lemma StepKeepsInv(s: State, cached: nat, e: Event) returns (cached': nat)
    requires Inv(s, cached)
    ensures Inv(Next(s, e), cached')
  {
    hide Idx, RoomBy, Inv;
    cached' := cached;
    if e.Send? {
      SendKeepsInv(s, cached, e.msg);
    } else if e.Receive? || (e.RxStep? && s.rx.Seen?) {
      LookKeepsInv(s, cached, e);
    } else if e.TxStep? && s.tx.Refreshing? {
      cached' := RefreshKeepsInv(s, cached);
    } else if e.TxStep? && s.tx.Filling? {
      if s.tx.filled < |s.tx.msg| { FillKeepsInv(s, cached); } else { CommitKeepsInv(s, cached); }
    } else if e.RxStep? && s.rx.Loaded? {
      TakeKeepsInv(s, cached);
    } else if e.RxStep? && s.rx.Copying? {
      if |s.rx.copy| < s.rx.words { CopyWordKeepsInv(s, cached); } else { FinishKeepsInv(s, cached); }
    }
  }

  lemma {:induction false} Reachable(slots: nat, events: seq<Event>) returns (cached: nat)
    requires 2 <= slots < IDX_RANGE
    ensures Inv(Run(Init(slots), events), cached)
    decreases |events|
  {
    if events == [] {
      cached := 0;
    } else {
      var before := events[..|events| - 1];
      cached := Reachable(slots, before);
      cached := StepKeepsInv(Run(Init(slots), before), cached, events[|events| - 1]);
    }
  }

  // ----- The guarantees -----

  /** A delivery that was not overtaken is the whole message if enough words were
      asked for, and else as many of its first words as were. */
  ghost predicate PayloadsArrive(s: State) {
    && |s.got| <= |s.sent|
    && forall i :: 0 <= i < |s.got| && !s.got[i].overtaken ==>
         && (s.got[i].words >= |s.sent[i]| ==> s.sent[i] <= s.got[i].copy)
         && (s.got[i].words <= |s.sent[i]| ==> s.got[i].copy == s.sent[i][..s.got[i].words])
  }

  lemma DeliveredArrives(s: State)
    requires Delivered(s)
    ensures PayloadsArrive(s)
  {
    forall i | 0 <= i < |s.got| && !s.got[i].overtaken
      ensures s.got[i].words >= |s.sent[i]| ==> s.sent[i] <= s.got[i].copy
      ensures s.got[i].words <= |s.sent[i]| ==> s.got[i].copy == s.sent[i][..s.got[i].words]
    {
      CarriesWhole(s.got[i].copy, s.got[i].words, s.sent[i]);
    }
  }

  /** From the poll to the delivery the receiver keeps to the number of words it was
      asked for, unless there turns out to be no message. */
  lemma RequestIsKept(s: State, cached: nat, e: Event)
    requires Inv(s, cached)
    ensures s.rx.Waiting? && e.Receive? && MessagePending(s) ==> Next(s, e).rx == Seen(e.words)
    ensures !s.rx.Waiting? && !Next(s, e).rx.Waiting? ==> Next(s, e).rx.words == s.rx.words && Next(s, e).got == s.got
    ensures !s.rx.Waiting? && Next(s, e).rx.Waiting? ==>
              |Next(s, e).got| == |s.got| + 1 && Next(s, e).got[|s.got|].words == s.rx.words
  {
    hide Idx, RoomBy;
    PendingIsExact(s, cached);
  }

  /** From the call to the commit the sender keeps the message it was given. The call is
      admitted at once when the cached acknowledgement leaves room, after one look at the
      published one when that does, and refused otherwise; what is committed is the
      message of the call. */
  lemma SendIsKept(s: State, e: Event)
    requires WellFormed(s)
    ensures s.tx.Resting? && e.Send? ==>
              Next(s, e).tx == if RoomBy(s.seqId, s.lastAck, |s.buf|) then Filling(e.msg, 0) else Refreshing(e.msg)
    ensures s.tx.Resting? && !e.Send? ==> Next(s, e).tx.Resting?
    ensures !s.tx.Resting? && !Next(s, e).tx.Resting? ==> Next(s, e).tx.msg == s.tx.msg
    ensures s.tx.Refreshing? && e.TxStep? ==>
              (Next(s, e).tx.Filling? <==> RoomBy(s.seqId, s.ack, |s.buf|)) && !Next(s, e).tx.Refreshing?
    ensures Next(s, e).sent ==
            if s.tx.Filling? && Next(s, e).tx.Resting? then s.sent + [s.tx.msg] else s.sent
  {
    hide Idx, RoomBy;
  }

  /** The messages that the calls of send in a run were given, in order. */
  function Offered(events: seq<Event>): seq<Message>
    decreases |events|
  {
    if events == [] then []
    else
      var e := events[|events| - 1];
      Offered(events[..|events| - 1]) + if e.Send? then [e.msg] else []
  }

  /** What was sent, and the message under way, were offered in that order. */
  predicate WasOffered(s: State, offered: seq<Message>) {
    && IsSubsequence(s.sent, offered)
    && (!s.tx.Resting? ==> IsSubsequence(s.sent + [s.tx.msg], offered))
  }

  lemma StepWasOffered(s: State, e: Event, offered: seq<Message>)
    requires WellFormed(s) && WasOffered(s, offered)
    ensures WasOffered(Next(s, e), offered + if e.Send? then [e.msg] else [])
  {
    SendIsKept(s, e);
    hide Next, IsSubsequence;
    if e.Send? {
      SubsequenceGrows(s.sent, offered, e.msg);
      if !s.tx.Resting? { SubsequenceGrows(s.sent + [s.tx.msg], offered, e.msg); }
    } else {
      assert offered + [] == offered;
    }
  }

  /** What was sent are the messages of the calls, in the order of the calls; only
      calls that were refused leave no trace. */
  lemma {:induction false} SentAsOffered(slots: nat, events: seq<Event>)
    requires 2 <= slots < IDX_RANGE
    ensures WasOffered(Run(Init(slots), events), Offered(events))
    decreases |events|
  {
    if events != [] {
      var before := events[..|events| - 1];
      SentAsOffered(slots, before);
      StepWasOffered(Run(Init(slots), before), events[|events| - 1], Offered(before));
    }
  }

  /** In every run, for every ring size: what was sent are messages that the calls of
      send were given, in the order of the calls; deliveries are the messages sent, in
      order, without loss or duplicate; a copy is intact unless the sender
      overtook it, which takes an acknowledgement written by that very receive and
      the first word of the message that is a whole ring later. The epoch test is true exactly
      when a sent message has not been taken. */
  lemma DeliversInOrder(slots: nat, events: seq<Event>)
    requires 2 <= slots < IDX_RANGE
    ensures IsSubsequence(Run(Init(slots), events).sent, Offered(events))
    ensures Delivered(Run(Init(slots), events))
    ensures PayloadsArrive(Run(Init(slots), events))
    ensures MessagePending(Run(Init(slots), events)) <==>
        Taken(Run(Init(slots), events)) < |Run(Init(slots), events).sent|
  {
    var cached := Reachable(slots, events);
    SentAsOffered(slots, events);
    PendingIsExact(Run(Init(slots), events), cached);
    DeliveredArrives(Run(Init(slots), events));
  }

  /** What the flow control relies on: the sender's copy never runs ahead of the
      published acknowledgement, nor that of the receiver, and never lags so far
      that 16 bits could not tell. */
  ghost predicate FlowControl(s: State, cached: nat)
    requires WellFormed(s)
  {
    && s.lastAck == Idx(cached) && s.ack == Idx(Acked(s)) && s.seqId == Idx(|s.sent| + 1)
    && cached <= Acked(s) <= Taken(s) <= |s.sent|
    && 1 <= |s.sent| + 1 - cached <= |s.buf| + 1 < IDX_RANGE
    && (RoomBy(s.seqId, s.lastAck, |s.buf|) <==> |s.sent| < cached + |s.buf|)
    && (RoomBy(s.seqId, s.ack, |s.buf|) <==> |s.sent| < Acked(s) + |s.buf|)
  }

  /** The published acknowledgement lags by at most half the ring, so an empty
      ring always has room and lazy acknowledgements cannot block a sender for good. */
  ghost predicate LagsByHalf(s: State)
    requires WellFormed(s)
  {
    && Taken(s) - Acked(s) <= |s.buf| / 2
    && (Taken(s) == |s.sent| ==> RoomBy(s.seqId, s.ack, |s.buf|))
  }

  lemma FlowControlFromInv(s: State, cached: nat)
    requires Inv(s, cached)
    ensures FlowControl(s, cached) && LagsByHalf(s)
  {
    WrapIsHarmless(|s.sent|, cached, |s.buf|);
    WrapIsHarmless(|s.sent|, Acked(s), |s.buf|);
  }

  lemma FlowControlIsExact(slots: nat, events: seq<Event>) returns (cached: nat)
    requires 2 <= slots < IDX_RANGE
    ensures FlowControl(Run(Init(slots), events), cached)
    ensures LagsByHalf(Run(Init(slots), events))
  {
    cached := Reachable(slots, events);
    FlowControlFromInv(Run(Init(slots), events), cached);
  }

  /** The messages in the ring: sent and not yet taken. */
  function Contents(s: State): seq<Message>
    requires Taken(s) <= |s.sent|
  {
    s.sent[Taken(s)..]
  }

  lemma FullUnlessRoom(s: State, cached: nat)
    requires Inv(s, cached)
    ensures WellFormed(s) && Taken(s) <= |s.sent| <= Taken(s) + |s.buf|
    ensures s.tx.Filling? ==> |s.sent| < Taken(s) + |s.buf|
    ensures s.rx.Loaded? ==> Taken(s) < |s.sent|
  {
  }

  /** Which steps change the history of the run. */
  lemma Effects(s: State, e: Event)
    requires WellFormed(s)
    ensures Next(s, e).sent ==
      if e.TxStep? && s.tx.Filling? && s.tx.filled >= |s.tx.msg| then s.sent + [s.tx.msg] else s.sent
    ensures Taken(Next(s, e)) == Taken(s) + if e.RxStep? && s.rx.Loaded? then 1 else 0
  {
    hide Idx, RoomBy;
  }

  /** Every step is a step of a FIFO of bounded capacity: it appends the message
      of the sender, removes the oldest one, or changes nothing. */
  lemma RefinesFifo(s: State, cached: nat, e: Event)
    requires Inv(s, cached)
    ensures Taken(Next(s, e)) <= |Next(s, e).sent|
    ensures var q, q' := Contents(s), Contents(Next(s, e));
      && |q'| <= |s.buf|
      && (q' == q
          || (e == TxStep && s.tx.Filling? && |q| < |s.buf| && q' == q + [s.tx.msg])
          || (e == RxStep && s.rx.Loaded? && |q| > 0 && q' == q[1..]))
  {
    hide Inv, WellFormed, Next, Taken;
    FullUnlessRoom(s, cached);
    Effects(s, e);
  }

  /** As long as no word of the message that is a whole ring later has been stored,
      the copy is the message, word for word, as far as was asked for. */
  lemma CopyIsIntact(s: State, cached: nat)
    requires Inv(s, cached) && s.rx.Copying? && !Begun(s, |s.got| + |s.buf|)
    ensures |s.got| < |s.sent| && Agree(s.rx.copy, s.sent[|s.got|]) && !Finish(s).got[|s.got|].overtaken
    ensures |s.rx.copy| == s.rx.words >= |s.sent[|s.got|]| ==> s.sent[|s.got|] <= s.rx.copy
    ensures |s.rx.copy| == s.rx.words <= |s.sent[|s.got|]| ==> s.rx.copy == s.sent[|s.got|][..s.rx.words]
  {
    assert EndsOk(s);
    if |s.rx.copy| == s.rx.words { CarriesWhole(s.rx.copy, s.rx.words, s.sent[|s.got|]); }
  }

  // ----- How long a slot stays as it was when it was returned -----

  /** The slot from which message number `i` was taken, for the latest messages. */
  function SlotOf(s: State, i: nat): int {
    var x := s.rxPos - (Taken(s) - i);
    if x < 0 then x + |s.buf| else x
  }

  /** The messages taken but not acknowledged are still in their slots. */
  ghost predicate UnacknowledgedIntact(s: State) {
    forall i: nat :: Acked(s) <= i < Taken(s) ==>
      && 0 <= SlotOf(s, i) < |s.buf| && i < |s.sent|
      && Holder(s, SlotOf(s, i)) == i && Agree(s.buf[SlotOf(s, i)].data, s.sent[i])
  }

  lemma SlotIntact(s: State, cached: nat, i: nat)
    requires Inv(s, cached) && Acked(s) <= i < Taken(s)
    ensures 0 <= SlotOf(s, i) < |s.buf| && i < |s.sent|
    ensures Holder(s, SlotOf(s, i)) == i && Agree(s.buf[SlotOf(s, i)].data, s.sent[i])
  {
    assert SlotOk(s, SlotOf(s, i));
  }

  /** In every run, a returned slot keeps its message until an acknowledgement covers
      it, through all receives that write none: whoever holds a pointer to it may read. */
  lemma ReturnedSlotsStay(slots: nat, events: seq<Event>)
    requires 2 <= slots < IDX_RANGE
    ensures UnacknowledgedIntact(Run(Init(slots), events))
  {
    var cached := Reachable(slots, events);
    var s := Run(Init(slots), events);
    forall i: nat | Acked(s) <= i < Taken(s)
      ensures 0 <= SlotOf(s, i) < |s.buf| && i < |s.sent|
      ensures Holder(s, SlotOf(s, i)) == i && Agree(s.buf[SlotOf(s, i)].data, s.sent[i])
    {
      SlotIntact(s, cached, i);
    }
  }
}
