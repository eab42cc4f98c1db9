/** The FastForward queue on buffers updated in place, and the cross-wired pair. */
module FfqMemory {
  import opened Messages
  import opened Options
  import opened Ffq

  /** One direction: the shared slots and the positions of its two ends. */
  class Queue {
    const slots: array<seq<Word>>
    var txPos: nat
    var rxPos: nat
    ghost var sent: seq<Message>
    ghost var got: seq<Delivery>

    ghost function Abs(): State
      reads this, slots
    {
      State(slots[..], txPos, Resting, rxPos, Waiting, sent, got)
    }

    ghost predicate Good()
      reads this, slots
    {
      Inv(Abs())
    }

    /** `smlt_ffq_queue_init_tx` and `smlt_ffq_queue_init_rx` on a buffer with any contents. */
    constructor (buffer: array<seq<Word>>)
      requires buffer.Length >= 1 && forall x :: 0 <= x < buffer.Length ==> |buffer[x]| == MSG_WORDS
      modifies buffer
      ensures slots == buffer && Good() && sent == [] && got == []
    {
      slots := buffer;
      txPos, rxPos := 0, 0;
      sent, got := [], [];
      new;
      for i := 0 to buffer.Length
        invariant forall x :: 0 <= x < buffer.Length ==> |buffer[x]| == MSG_WORDS
        invariant forall x :: 0 <= x < i ==> buffer[x][0] == EMPTY
        invariant txPos == 0 && rxPos == 0 && sent == [] && got == []
      {
        buffer[i] := buffer[i][0 := EMPTY];
      }
      assert IsInit(Abs());
      Reachable(Abs(), []);
    }

    /** `smlt_ffq_queue_send_raw`: refused exactly when all slots are in use. */
    method SendRaw(values: Values) returns (ok: bool)
      requires Good() && values[0] != EMPTY
      modifies this`txPos, this`sent, slots
      ensures Good() && got == old(got)
      ensures ok <==> |old(sent)| - |got| < slots.Length
      ensures !ok ==> sent == old(sent)
      ensures ok && |values| <= MSG_WORDS ==> sent == old(sent) + [values]
      ensures ok && |values| > MSG_WORDS ==> sent == old(sent) + [values[..MSG_WORDS]]
    {
      hide Counts, SlotOk, EndsOk, Delivered;
      TestsAreExact(Abs());
      ok := slots[txPos][0] == EMPTY;
      if !ok {
        return;
      }
      var msg := Truncated(values);
      TxKeepsInv(Abs(), Send(values));
      for i := 1 to |msg|
        invariant sent == old(sent) && txPos == old(txPos)
        invariant Inv(Abs().(tx := Filling(msg, i)))
      {
        TxKeepsInv(Abs().(tx := Filling(msg, i)), TxStep);
        slots[txPos] := slots[txPos][i := msg[i]];
      }
      PublishKeepsInv(Abs().(tx := Filling(msg, |msg|)));
      slots[txPos] := slots[txPos][0 := msg[0]];
      txPos := txPos + 1;
      if txPos == slots.Length { txPos := 0; }
      sent := sent + [msg];
    }

    /** `smlt_ffq_queue_notify`. */
    method Notify() returns (ok: bool)
      requires Good()
      modifies this`txPos, this`sent, slots
      ensures Good() && got == old(got)
      ensures ok <==> |old(sent)| - |got| < slots.Length
      ensures sent == if ok then old(sent) + [[0]] else old(sent)
    {
      ok := SendRaw([NOTIFY]);
    }

    /** `smlt_ffq_queue_recv_raw`: the oldest message, or nothing exactly when there is none. */
    method RecvRaw(words: nat) returns (r: Option<seq<Word>>)
      requires Good()
      modifies this`rxPos, this`got, slots
      ensures Good() && sent == old(sent)
      ensures r.Some? <==> |old(got)| < |sent|
      ensures r.Some? ==> Agree(r.value, sent[|old(got)|])
      ensures r.Some? ==> |r.value| == if words <= MSG_WORDS then words else MSG_WORDS
      ensures got == if r.Some? then old(got) + [Delivery(words, r.value)] else old(got)
    {
      hide Counts, SlotOk, Delivered;
      TestsAreExact(Abs());
      if slots[rxPos][0] == EMPTY {
        return None;
      }
      RxKeepsInv(Abs(), Receive(words));
      var num := if words > MSG_WORDS then MSG_WORDS else words;
      var copy: seq<Word> := [];
      for i := 0 to num
        invariant |copy| == i && got == old(got) && rxPos == old(rxPos)
        invariant Inv(Abs().(rx := Copying(words, copy)))
      {
        RxKeepsInv(Abs().(rx := Copying(words, copy)), RxStep);
        copy := copy + [slots[rxPos][i]];
      }
      ReleaseKeepsInv(Abs().(rx := Copying(words, copy)));
      slots[rxPos] := slots[rxPos][0 := EMPTY];
      rxPos := rxPos + 1;
      if rxPos == slots.Length { rxPos := 0; }
      got := got + [Delivery(words, copy)];
      return Some(copy);
    }
  }

  /** What one node holds of a bidirectional queue pair. */
  class Pair {
    const tx: Queue
    const rx: Queue

    constructor (tx: Queue, rx: Queue)
      ensures this.tx == tx && this.rx == rx
    {
      this.tx, this.rx := tx, rx;
    }
  }

  /** `smlt_ffq_queuepair_init`: each node receives from the buffer the other sends
      on, and the two directions share nothing. */
  method CreatePair(numSlots: nat) returns (src: Pair, dst: Pair)
    requires numSlots >= 1
    ensures src.rx == dst.tx && dst.rx == src.tx && src.tx != src.rx && src.tx.slots != src.rx.slots
    ensures src.tx.Good() && src.rx.Good() && src.tx.slots.Length == numSlots && src.rx.slots.Length == numSlots
    ensures src.tx.sent == [] && src.tx.got == [] && src.rx.sent == [] && src.rx.got == []
  {
    var shmSrc := new seq<Word>[numSlots](_ => seq(MSG_WORDS, _ => 0));
    var shmDst := new seq<Word>[numSlots](_ => seq(MSG_WORDS, _ => 0));
    var toSrc := new Queue(shmSrc);
    var toDst := new Queue(shmDst);
    src := new Pair(toDst, toSrc);
    dst := new Pair(toSrc, toDst);
  }
}
