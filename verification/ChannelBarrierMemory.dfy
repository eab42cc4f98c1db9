/**
 The channel barrier on objects: one channel for each pair of threads, entered in
 the table under both orders, with the owner test picking a channel's ends.
 */
module ChannelBarrierMemory {
  import opened Dissemination
  import opened Rounds
  import opened Channels
  import opened ChannelBarrier

  /** The position of the calling node among the cores, by the scan that
      `smlt_dissem_barrier_wait` starts with. */
  method MyId(cores: seq<nat>, self: nat) returns (id: nat)
    ensures self in cores ==> id < |cores| && cores[id] == self
    ensures (forall i, j :: 0 <= i < j < |cores| ==> cores[i] != cores[j]) ==>
      forall i :: 0 <= i < |cores| && cores[i] == self ==> i == id
  {
    id := 0;
    for i := 0 to |cores|
      invariant self in cores[..i] ==> id < i && cores[id] == self
    {
      if cores[i] == self { id := i; }
    }
    assert cores[..|cores|] == cores;
  }

  class Barrier {
    const n: nat
    const rounds: nat
    const channels: array2<Channel?>
    const at: array<Progress>

    /** One channel for each unordered pair, owned by the thread with the lower number. */
    ghost predicate Wired()
      reads this, channels
    {
      && channels.Length0 == n && channels.Length1 == n && at.Length == n
      && (forall i: nat, j: nat :: i < n && j < n ==> channels[i, j] != null && channels[i, j] == channels[j, i])
      && (forall i: nat, j: nat :: i <= j < n ==> channels[i, j].owner == i && channels[i, j].target == j)
    }

    ghost function Footprint(): set<Channel>
      reads this, channels
      requires Wired()
    {
      set i: nat, j: nat | 0 <= i < n && 0 <= j < n :: channels[i, j]
    }

    ghost function Queues(): (m: map<Ends, Queue>)
      requires Wired()
      reads this, channels, Footprint()
    {
      map i: nat, j: nat | 0 <= i < n && 0 <= j < n :: Ends(i, j) := channels[i, j].SendQueue(i)
    }

    ghost function Abs(): State
      requires Wired()
      reads this, channels, Footprint(), at
    {
      State(at[..], Queues())
    }

    ghost predicate Valid()
      reads this, channels, at, if Wired() then Footprint() else {}
    {
      Wired() && WellFormed(Abs(), rounds)
    }

    lemma InFootprint(i: nat, j: nat)
      requires Wired() && i < n && j < n
      ensures channels.Length0 == n && channels.Length1 == n && channels[i, j] in Footprint()
    {
    }

    /** A channel is reached under two entries and no others. */
    lemma DistinctChannels(i: nat, j: nat, k: nat, l: nat)
      requires Wired() && i < n && j < n && k < n && l < n && channels[i, j] == channels[k, l]
      ensures (i == k && j == l) || (i == l && j == k)
    {
      var a, b := if i <= j then (i, j) else (j, i), if k <= l then (k, l) else (l, k);
      assert channels[a.0, a.1].owner == a.0 && channels[a.0, a.1].target == a.1;
      assert channels[b.0, b.1].owner == b.0 && channels[b.0, b.1].target == b.1;
    }

    /** The two ends see the same two queues, the other way round. */
    lemma OppositeEnds(i: nat, j: nat)
      requires Wired() && i < n && j < n && i != j
      ensures channels[i, j].SendQueue(i) == channels[j, i].RecvQueue(j)
    {
      if i <= j {
        assert channels[i, j].owner == i;
      } else {
        assert channels[j, i].owner == j;
      }
    }

    lemma AllEmpty()
      requires Wired()
      requires forall i: nat, j: nat :: i < n && j < n ==>
          channels[i, j].toTarget == Queue(0, 0) && channels[i, j].toOwner == Queue(0, 0)
      ensures Queues() == Init(n, rounds).queues
    {
    }

    /** `smlt_dissem_barrier_init`; the logarithm is computed in whole numbers. */
    constructor (cores: nat)
      requires cores > 0
      ensures Wired() && IsCeilLog2(cores, rounds) && n == cores && fresh(at) && fresh(channels)
      ensures fresh(Footprint()) && Abs() == Init(cores, rounds)
    {
      hide IsCeilLog2, Power, Queues;
      var r := LogP(cores);
      n, rounds := cores, r;
      channels := new Channel?[cores, cores]((_, _) => null);
      at := new Progress[cores](_ => Progress(0, 0, Outside));
      new;
      WireAll(channels);
      assert Wired();
      assert at[..] == seq(cores, _ => Progress(0, 0, Outside));
      AllEmpty();
    }

    /** What an operation on one channel does to the queues, when it leaves alone what
        the other end sends on it. */
    twostate lemma OneChannel(e: Ends)
      requires old(Wired()) && Wired() && e.from < n && e.to < n && e.from != e.to
      requires forall k: nat, l: nat :: k < n && l < n ==> channels[k, l] == old(channels[k, l])
      requires forall c: Channel {:trigger c in Footprint()} :: c in Footprint() && c != channels[e.from, e.to] ==>
                 c.toTarget == old(c.toTarget) && c.toOwner == old(c.toOwner)
      requires channels[e.from, e.to].RecvQueue(e.from) == old(channels[e.from, e.to].RecvQueue(e.from))
      ensures Queues() == old(Queues())[e := channels[e.from, e.to].SendQueue(e.from)]
    {
      forall k: nat, l: nat | k < n && l < n && Ends(k, l) != e
        ensures channels[k, l].SendQueue(k) == old(channels[k, l].SendQueue(k))
      {
        assert channels[k, l] in Footprint();
        if channels[k, l] == channels[e.from, e.to] { DistinctChannels(k, l, e.from, e.to); }
      }
    }

    /** The same, as the receiving end sees it. */
    twostate lemma OneReceived(e: Ends)
      requires old(Wired()) && Wired() && e.from < n && e.to < n && e.from != e.to
      requires forall k: nat, l: nat :: k < n && l < n ==> channels[k, l] == old(channels[k, l])
      requires forall c: Channel {:trigger c in Footprint()} :: c in Footprint() && c != channels[e.to, e.from] ==>
                 c.toTarget == old(c.toTarget) && c.toOwner == old(c.toOwner)
      requires channels[e.to, e.from].SendQueue(e.to) == old(channels[e.to, e.from].SendQueue(e.to))
      ensures e in old(Queues()) && old(Queues())[e] == old(channels[e.to, e.from].RecvQueue(e.to))
      ensures Queues() == old(Queues())[e := channels[e.to, e.from].RecvQueue(e.to)]
    {
      assert channels[e.from, e.to] == channels[e.to, e.from];
      assert channels[e.from, e.to].owner == if e.from < e.to then e.from else e.to;
      OneChannel(e);
    }

    /** A notification leaves thread `t` for thread `peer`. */
    method SendTo(t: nat, peer: nat)
      requires Wired() && t < n && peer < n && t != peer
      modifies Footprint()
      ensures Wired()
      ensures Queues() == old(Queues())[Ends(t, peer) := Sent(old(Queues())[Ends(t, peer)])]
    {
      InFootprint(t, peer);
      hide Wired, Queues, Footprint;
      channels[t, peer].Notify(t);
      OneChannel(Ends(t, peer));
    }

    /** Thread `t` polls its channel with `peer`. */
    method PollFrom(t: nat, peer: nat) returns (taken: bool)
      requires Wired() && t < n && peer < n && t != peer
      modifies Footprint()
      ensures Wired()
      ensures taken <==> Pending(old(Queues())[Ends(peer, t)])
      ensures Queues() ==
        if taken then old(Queues())[Ends(peer, t) := Received(old(Queues())[Ends(peer, t)])] else old(Queues())
    {
      InFootprint(t, peer);
      hide Wired, Queues, Footprint;
      taken := channels[t, peer].PollNotification(t);
      OneReceived(Ends(peer, t));
      assert !taken ==> Queues() == old(Queues());
    }

    /** A thread sends its notification of the round. */
    method Announce(t: nat)
      requires Valid() && IsCeilLog2(n, rounds) && t < n && at[t].phase.Announcing? && at[t].round < rounds
      modifies at, Footprint()
      ensures Valid() && Abs() == Next(old(Abs()), rounds, t)
    {
      hide IsCeilLog2, Power, Back, Ahead, Queues;
      PeersDiffer(n, rounds, t, at[t].round);
      var peer := Ahead(n, t, Power(2, at[t].round));
      assert channels[t, peer] in Footprint();
      SendTo(t, peer);
      ghost var queues := Queues();
      at[t] := at[t].(phase := Listening(0));
      assert Queues() == queues;
    }

    /** A thread polls for the notification of the round. */
    method Listen(t: nat)
      requires Valid() && IsCeilLog2(n, rounds) && t < n && at[t].phase.Listening?
      modifies at, Footprint()
      ensures Valid() && Abs() == Next(old(Abs()), rounds, t)
    {
      hide IsCeilLog2, Power, Back;
      var peer := WalkBack(n, t, Power(2, at[t].round));
      ListenTo(t, peer);
    }

    method ListenTo(t: nat, peer: nat)
      requires Valid() && IsCeilLog2(n, rounds) && t < n && at[t].phase.Listening?
      requires peer == Back(n, t, Power(2, at[t].round))
      modifies at, Footprint()
      ensures Valid() && Abs() == Next(old(Abs()), rounds, t)
    {
      hide IsCeilLog2, Power, Back, Ahead, Queues, Footprint;
      ListeningStep(Abs(), rounds, t);
      PeersDiffer(n, rounds, t, at[t].round);
      InFootprint(t, peer);
      var taken := PollFrom(t, peer);
      ghost var queues := Queues();
      if taken { at[t] := Progress(at[t].episode, at[t].round + 1, Announcing); }
      assert Queues() == queues;
    }

    /** A thread enters the barrier, or returns after the last round. */
    method EnterOrReturn(t: nat)
      requires Valid() && t < n && (at[t].phase.Outside? || (at[t].phase.Announcing? && at[t].round == rounds))
      modifies at
      ensures Valid() && Abs() == Next(old(Abs()), rounds, t)
    {
      var p := at[t];
      at[t] := if p.phase.Outside? then p.(phase := Announcing) else Progress(p.episode + 1, 0, Outside);
    }
  }

  /** The loops that create the channels: one for each pair, entered under both orders. */
  method WireAll(channels: array2<Channel?>)
    requires channels.Length0 == channels.Length1
    modifies channels
    ensures forall i: nat, j: nat :: i < channels.Length0 && j < channels.Length0 ==>
      channels[i, j] != null && fresh(channels[i, j]) && channels[i, j] == channels[j, i]
      && channels[i, j].toTarget == Queue(0, 0) && channels[i, j].toOwner == Queue(0, 0)
    ensures forall i: nat, j: nat :: i <= j < channels.Length0 ==>
        channels[i, j].owner == i && channels[i, j].target == j
  {
    var n := channels.Length0;
    for i := 0 to n
      invariant forall a: nat, b: nat :: a <= b < n && a < i ==>
          channels[a, b] != null && channels[b, a] == channels[a, b]
      invariant forall a: nat, b: nat :: a <= b < n && a < i ==>
        fresh(channels[a, b]) && channels[a, b].owner == a && channels[a, b].target == b
        && channels[a, b].toTarget == Queue(0, 0) && channels[a, b].toOwner == Queue(0, 0)
    {
      for j := i to n
        invariant forall a: nat, b: nat :: a <= b < n && (a < i || (a == i && b < j)) ==>
          channels[a, b] != null && channels[b, a] == channels[a, b]
        invariant forall a: nat, b: nat :: a <= b < n && (a < i || (a == i && b < j)) ==>
          fresh(channels[a, b]) && channels[a, b].owner == a && channels[a, b].target == b
          && channels[a, b].toTarget == Queue(0, 0) && channels[a, b].toOwner == Queue(0, 0)
      {
        var c := new Channel(i, j);
        channels[i, j] := c;
        channels[j, i] := c;
      }
    }
  }

  /** The waiting step, spelled out. */
  lemma ListeningStep(s: State, rounds: nat, t: nat)
    requires WellFormed(s, rounds) && t < |s.ps| && s.ps[t].phase.Listening?
    ensures Ends(Back(|s.ps|, t, Power(2, s.ps[t].round)), t) in s.queues
    ensures Next(s, rounds, t) == Listened(s, t, Ends(Back(|s.ps|, t, Power(2, s.ps[t].round)), t))
  {
  }

  function Listened(s: State, t: nat, q: Ends): State
    requires t < |s.ps| && q in s.queues
  {
    if Pending(s.queues[q]) then
      State(s.ps[t := Progress(s.ps[t].episode, s.ps[t].round + 1, Announcing)],
            s.queues[q := Received(s.queues[q])])
    else s
  }

  /** Nobody is its own peer. */
  lemma PeersDiffer(n: nat, rounds: nat, t: nat, r: nat)
    requires n > 0 && IsCeilLog2(n, rounds) && r < rounds && t < n
    ensures Ahead(n, t, Power(2, r)) != t && Back(n, t, Power(2, r)) != t
  {
    StepsAreShort(n, rounds, r);
    ShortWrap(n, t, Power(2, r));
    AheadOfBack(n, t, Power(2, r));
  }
}
