/** 1:1 channels and the notifications on them. */
module Channels {
  /** A queue of notifications: how many were sent and how many received. */
  datatype Queue = Queue(sent: nat, received: nat)

  function Sent(q: Queue): Queue {
    q.(sent := q.sent + 1)
  }

  function Received(q: Queue): Queue {
    q.(received := q.received + 1)
  }

  predicate Pending(q: Queue) {
    q.sent > q.received
  }

  /** A 1:1 channel. Its owner sends on the queue that its target receives from,
      and the other way round. */
  class Channel {
    const owner: nat
    const target: nat
    var toTarget: Queue
    var toOwner: Queue

    constructor (src: nat, dst: nat)
      ensures owner == src && target == dst && toTarget == Queue(0, 0) && toOwner == Queue(0, 0)
    {
      owner, target := src, dst;
      toTarget, toOwner := Queue(0, 0), Queue(0, 0);
    }

    predicate Empty()
      reads this
    {
      toTarget == Queue(0, 0) && toOwner == Queue(0, 0)
    }

    /** The queue that thread `self` sends on. */
    function SendQueue(self: nat): Queue
      reads this
    {
      if owner == self then toTarget else toOwner
    }

    /** The queue that thread `self` receives from. */
    function RecvQueue(self: nat): Queue
      reads this
    {
      if owner == self then toOwner else toTarget
    }

    /** `smlt_channel_notify`. */
    method Notify(self: nat)
      modifies this
      ensures SendQueue(self) == Sent(old(SendQueue(self)))
      ensures RecvQueue(self) == old(RecvQueue(self))
    {
      if owner == self { toTarget := Sent(toTarget); } else { toOwner := Sent(toOwner); }
    }

    /** `smlt_channel_recv_notification`, one poll: it takes a notification if there is one. */
    method PollNotification(self: nat) returns (taken: bool)
      modifies this
      ensures taken <==> Pending(old(RecvQueue(self)))
      ensures RecvQueue(self) == if taken then Received(old(RecvQueue(self))) else old(RecvQueue(self))
      ensures SendQueue(self) == old(SendQueue(self))
    {
      if owner == self {
        taken := Pending(toOwner);
        if taken { toOwner := Received(toOwner); }
      } else {
        taken := Pending(toTarget);
        if taken { toTarget := Received(toTarget); }
      }
    }
  }
}
