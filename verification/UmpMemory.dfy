/**
 The UMP queue with its ring and its two ends updated in place, as
 `smlt_ump_queue.h` and `smlt_ump_queuepair.h` do it.
 */
module UmpMemory {
  import opened Messages
  import opened Options
  import opened Ump

  class Channel {
    // shared between the two ends
    const buf: array<Slot>
    var ack: nat
    // the sending end
    var txPos: nat
    var txEpoch: bool
    var seqId: nat
    var lastAck: nat
    var tx: Tx
    // the receiving end
    var rxPos: nat
    var rxEpoch: bool
    var rx: Rx
    // what happened so far
    ghost var sent: seq<Message>
    ghost var got: seq<Delivery>
    ghost var cached: nat          // how many messages the sender knows to be acknowledged

    ghost function Abs(): State
      reads this, buf
    {
      State(buf[..], ack, txPos, txEpoch, seqId, lastAck, tx, rxPos, rxEpoch, rx, sent, got)
    }

    ghost predicate Valid()
      reads this, buf
    {
      WellFormed(Abs())
    }

    /** The invariant of every run holds here. */
    ghost predicate Good()
      reads this, buf
    {
      Inv(Abs(), cached)
    }

    /** A zeroed buffer of which one line holds the acknowledgement. */
    constructor (slots: nat)
      requires 2 <= slots < IDX_RANGE
      ensures Valid() && Good() && Abs() == Init(slots) && fresh(buf)
    {
      buf := new Slot[slots - 1](_ => Slot(false, 0, seq(PAYLOAD_WORDS, _ => 0)));
      ack, txPos, txEpoch, seqId, lastAck, tx := 0, 0, true, 1, 0, Resting;
      rxPos, rxEpoch, rx := 0, true, Waiting;
      sent, got, cached := [], [], 0;
      new;
      assert buf[..] == seq(slots - 1, _ => Slot(false, 0, seq(PAYLOAD_WORDS, _ => 0)));
    }

    /** `smlt_ump_queuepair_can_send_raw`: first with the cached acknowledgement,
        then with a fresh one. */
    method CanSendRaw() returns (room: bool)
      requires Good() && tx.Resting?
      modifies this`lastAck, this`cached
      ensures Good()
      ensures room <==> |sent| < Acked(Abs()) + buf.Length
      ensures room <==> |sent| < cached + buf.Length
    {
      FlowControlFromInv(Abs(), cached);
      if RoomBy(seqId, lastAck, buf.Length) {
        return true;
      }
      Refreshed(Abs(), cached);
      cached := Acked(Abs());
      lastAck := ack;
      FlowControlFromInv(Abs(), cached);
      return RoomBy(seqId, lastAck, buf.Length);
    }

    /** `smlt_ump_queuepair_send_raw` and `smlt_ump_queue_send`: stamp the control
        word, which makes the message visible, and move on. */
    method SendRaw()
      requires Valid() && tx.Filling? && tx.filled == |tx.msg|
      modifies this`sent, this`seqId, this`txPos, this`txEpoch, this`tx, buf
      ensures Valid() && Abs() == Commit(old(Abs()))
    {
      sent := sent + [tx.msg];
      buf[txPos] := buf[txPos].(epoch := txEpoch, ack := seqId);
      seqId := Idx(seqId + 1);
      txPos := txPos + 1;
      if txPos == buf.Length {
        txPos := 0;
        txEpoch := !txEpoch;
      }
      tx := Resting;
    }

    /** `smlt_ump_queue_can_recv`. */
    method CanRecv() returns (pending: bool)
      requires Valid()
      ensures pending <==> MessagePending(Abs())
    {
      pending := buf[rxPos].epoch == rxEpoch;
    }

    /** `smlt_ump_queue_recv_raw` after the control word was loaded. */
    method RecvRaw()
      requires Valid() && rx.Loaded?
      modifies this`ack, this`rxPos, this`rxEpoch, this`rx
      ensures Valid() && Abs() == Take(old(Abs()))
    {
      var stamp, words, slot := rx.stamp, rx.words, rxPos;
      var acked := false;
      if rxPos == buf.Length / 2 {
        ack := stamp;
        acked := true;
      }
      rxPos := rxPos + 1;
      if rxPos == buf.Length {
        rxPos := 0;
        rxEpoch := !rxEpoch;
        ack := stamp;
        acked := true;
      }
      rx := Copying(words, [], slot, acked, false);
    }

    /** One payload word of `smlt_ump_queuepair_try_send`. */
    method StoreWord()
      requires Valid() && tx.Filling? && tx.filled < |tx.msg|
      modifies this`tx, this`rx, buf
      ensures Valid() && Abs() == Fill(old(Abs()))
    {
      var slot := buf[txPos];
      buf[txPos] := slot.(data := slot.data[tx.filled := tx.msg[tx.filled]]);
      if rx.Copying? && rx.slot == txPos { rx := rx.(overtaken := true); }
      tx := tx.(filled := tx.filled + 1);
    }

    /** `smlt_ump_queuepair_try_send`, with no step of the receiver in between: it
        sends exactly when the published acknowledgement leaves room. */
    method TrySend(msg: Message) returns (ok: bool)
      requires Good() && tx.Resting?
      modifies this, buf
      ensures Good() && tx.Resting? && rxPos == old(rxPos) && got == old(got)
      ensures rx.Copying? == old(rx.Copying?)
      ensures ok <==> |old(sent)| < Acked(old(Abs())) + buf.Length
      ensures sent == if ok then old(sent) + [msg] else old(sent)
    {
      hide Counts, SlotOk, EndsOk, Delivered, Idx, RoomBy;
      ok := CanSendRaw();
      if !ok {
        return;
      }
      Admitted(Abs(), cached, msg);
      tx := Filling(msg, 0);
      while tx.filled < |msg|
        invariant Good() && tx.Filling? && tx.msg == msg
        invariant sent == old(sent) && got == old(got) && rxPos == old(rxPos) && rx.Copying? == old(rx.Copying?)
        decreases |msg| - tx.filled
      {
        FillKeepsInv(Abs(), cached);
        StoreWord();
      }
      CommitKeepsInv(Abs(), cached);
      SendRaw();
    }

    /** `smlt_ump_queuepair_try_recv`, with no step of the sender in between: it
        returns the oldest message in the ring, or nothing exactly when there is none. */
    method TryRecv(words: nat) returns (r: Option<seq<Word>>)
      requires Good() && rx.Waiting?
      modifies this
      ensures Good() && rx.Waiting? && sent == old(sent) && tx == old(tx)
      ensures r.Some? <==> Taken(old(Abs())) < |sent|
      ensures r.Some? ==> |r.value| == words && Agree(r.value, sent[old(Taken(Abs()))])
      ensures Taken(Abs()) == old(Taken(Abs())) + if r.Some? then 1 else 0
    {
      hide Counts, SlotOk, Delivered, Idx, RoomBy;
      PendingIsExact(Abs(), cached);
      var pending := CanRecv();
      if !pending {
        return None;
      }
      LookKeepsInv(Abs(), cached, Receive(words));
      rx := Seen(words);
      LookKeepsInv(Abs(), cached, RxStep);
      rx := Loaded(words, buf[rxPos].ack);
      TakeKeepsInv(Abs(), cached);
      RecvRaw();
      var copy: seq<Word> := [];
      while |copy| < words
        invariant Good() && rx.Copying? && rx.copy == copy && rx.words == words && !rx.overtaken && |copy| <= words
        invariant sent == old(sent) && got == old(got) && tx == old(tx)
        decreases words - |copy|
      {
        CopyWordKeepsInv(Abs(), cached);
        copy := copy + [Load(buf[..], rx.slot, |copy|)];
        rx := rx.(copy := copy);
      }
      FinishKeepsInv(Abs(), cached);
      got := got + [Delivery(words, copy, rx.acked, false)];
      rx := Waiting;
      return Some(copy);
    }
  }

  /** What one node holds of a bidirectional queue pair. */
  class Pair {
    const tx: Channel
    const rx: Channel

    constructor (tx: Channel, rx: Channel)
      ensures this.tx == tx && this.rx == rx
    {
      this.tx, this.rx := tx, rx;
    }
  }

  /** `smlt_ump_queuepair_init` refuses fewer than two slots; sixteen bits hold the
      count. Each node receives from the ring the other sends on, and the two
      directions share nothing. */
  method CreatePair(slots: nat) returns (nodes: Option<(Pair, Pair)>)
    requires slots < IDX_RANGE
    ensures nodes.Some? <==> slots >= 2
    ensures nodes.Some? ==>
      var (src, dst) := nodes.value;
      && src.tx == dst.rx && src.rx == dst.tx && src.tx != src.rx && src.tx.buf != src.rx.buf
      && src.tx.Good() && src.tx.Abs() == Init(slots) && src.rx.Good() && src.rx.Abs() == Init(slots)
  {
    if slots < 2 {
      return None;
    }
    var toDst := new Channel(slots);
    var toSrc := new Channel(slots);
    var src := new Pair(toDst, toSrc);
    var dst := new Pair(toSrc, toDst);
    return Some((src, dst));
  }
}
