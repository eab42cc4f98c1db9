/** The parity barrier with its flags updated in place, as `mcs.c` keeps them. */
module ParityBarrierMemory {
  import opened Dissemination
  import opened Rounds
  import opened ParityBarrier

  /** Every thread's partner in a round `k` below `logp` is the one `2^k` places ahead. */
  method WirePartners(partner: array2<nat>, logp: nat)
    requires logp <= partner.Length1
    modifies partner
    ensures forall i: nat, k: nat :: i < partner.Length0 && k < logp ==>
      partner[i, k] == Ahead(partner.Length0, i, Power(2, k))
  {
    hide Ahead, Power;
    for i := 0 to partner.Length0
      invariant forall j: nat, k: nat :: j < i && k < logp ==> partner[j, k] == Ahead(partner.Length0, j, Power(2, k))
    {
      for k := 0 to logp
        invariant forall j: nat, r: nat :: j < i && r < logp ==> partner[j, r] == Ahead(partner.Length0, j, Power(2, r))
        invariant forall r: nat :: r < k ==> partner[i, r] == Ahead(partner.Length0, i, Power(2, r))
      {
        partner[i, k] := Ahead(partner.Length0, i, Power(2, k));
      }
    }
  }

  class Barrier {
    const nprocs: nat
    const logp: nat
    const myflags: array3<int>    // thread, parity, round: eight flags for each parity
    const partner: array2<nat>    // whose flag a thread writes in a round: eight for each thread
    const parity: array<nat>
    const sense: array<nat>
    const at: array<Progress>     // where each thread is in the code

    ghost predicate Shaped()
      reads this
    {
      && myflags.Length0 == nprocs && myflags.Length1 == 2 && myflags.Length2 == MAX_ROUNDS
      && partner.Length0 == nprocs && partner.Length1 == MAX_ROUNDS && logp <= MAX_ROUNDS
      && parity != sense && parity.Length == nprocs && sense.Length == nprocs && at.Length == nprocs
    }

    ghost predicate Valid()
      reads this, myflags, partner, parity, sense, at
    {
      && Shaped()
      && WellFormed(Abs(), logp)
      && (forall i: nat, k: nat :: i < nprocs && k < logp ==> partner[i, k] == Ahead(nprocs, i, Power(2, k)))
    }

    ghost function Abs(): State
      requires Shaped()
      reads this, myflags, parity, sense, at
    {
      State(at[..], FlagMap(), parity[..], sense[..])
    }

    ghost function FlagMap(): (m: map<Flag, int>)
      requires Shaped()
      reads this, myflags
      ensures m.Keys == Flags(nprocs, logp)
    {
      map f | f in Flags(nprocs, logp) :: myflags[f.owner, f.parity, f.round]
    }

    /** `mcs_barrier_init`. With more than 256 threads it would write behind the
        arrays of a thread's node, over its parity and sense. */
    constructor (np: nat)
      requires 0 < np <= 256
      ensures Valid() && Abs() == Init(np, logp) && IsCeilLog2(np, logp)
      ensures nprocs == np && fresh(myflags) && fresh(partner) && fresh(parity) && fresh(sense) && fresh(at)
    {
      var l := LogP(np);
      RoundsFitIff(np, l);
      nprocs := np;
      logp := l;
      myflags := new int[np, 2, MAX_ROUNDS]((_, _, _) => 0);
      partner := new nat[np, MAX_ROUNDS];
      parity := new nat[np](_ => 0);
      sense := new nat[np](_ => 1);
      at := new Progress[np](_ => Progress(0, 0, Outside));
      new;
      WirePartners(partner, l);
      assert FlagMap() == Init(np, l).flags;
      assert at[..] == seq(np, _ => Progress(0, 0, Outside));
      assert parity[..] == seq(np, _ => 0);
      assert sense[..] == seq(np, _ => 1);
      assert Abs() == Init(np, l);
    }

    /** A thread enters the call, or finds its flag set or not set. */
    method EnterOrListen(t: nat)
      requires Valid() && t < nprocs && !at[t].phase.Announcing?
      modifies at
      ensures Valid() && Abs() == Next(old(Abs()), logp, t)
    {
      var p := at[t];
      if p.phase.Outside? {
        at[t] := p.(phase := Announcing);
      } else if myflags[t, parity[t], p.round] == sense[t] {
        at[t] := Progress(p.episode, p.round + 1, Announcing);
      }
    }

    /** A thread stores its sense into its partner's flag. */
    method Announce(t: nat)
      requires Valid() && t < nprocs && at[t].phase.Announcing? && at[t].round < logp
      modifies myflags, at
      ensures Valid() && Abs() == Next(old(Abs()), logp, t)
    {
      var p := at[t];
      var j := partner[t, p.round];
      myflags[j, parity[t], p.round] := sense[t];
      assert FlagMap() == old(FlagMap())[Flag(j, parity[t], p.round) := sense[t]];
      at[t] := p.(phase := Listening(0));
    }

    /** A thread switches parity, and every second time its sense, and returns. */
    method Return(t: nat)
      requires Valid() && t < nprocs && at[t].phase.Announcing? && at[t].round == logp
      modifies parity, sense, at
      ensures Valid() && Abs() == Next(old(Abs()), logp, t)
    {
      if parity[t] == 1 { sense[t] := 1 - sense[t]; }
      parity[t] := 1 - parity[t];
      at[t] := Progress(at[t].episode + 1, 0, Outside);
    }
  }

  /** The next step of `mcs_barrier_wait` by thread `t`. */
  method Step(b: Barrier, t: nat)
    requires b.Valid() && t < b.nprocs
    modifies b.myflags, b.parity, b.sense, b.at
    ensures b.Valid() && b.Abs() == Next(old(b.Abs()), b.logp, t)
  {
    if !b.at[t].phase.Announcing? { b.EnterOrListen(t); }
    else if b.at[t].round < b.logp { b.Announce(t); }
    else { b.Return(t); }
  }

  /** Threads pass the barrier under any schedule; when a thread has returned
      from a call, all threads have made it. */
  method Synchronise(np: nat, schedule: seq<nat>) returns (b: Barrier)
    requires 0 < np <= 256 && forall k :: 0 <= k < |schedule| ==> schedule[k] < np
    ensures b.Valid() && b.Abs() == Run(Init(np, b.logp), b.logp, schedule)
    ensures BarrierHolds(b.at[..])
  {
    hide Ahead, Power;
    b := new Barrier(np);
    var k := 0;
    while k < |schedule|
      invariant 0 <= k <= |schedule|
      invariant b.nprocs == np && fresh(b.myflags) && fresh(b.parity) && fresh(b.sense) && fresh(b.at)
      invariant b.Valid() && IsCeilLog2(np, b.logp) && b.Abs() == Run(Init(np, b.logp), b.logp, schedule[..k])
    {
      assert schedule[..k + 1][..k] == schedule[..k];
      Step(b, schedule[k]);
      k := k + 1;
    }
    assert schedule[..k] == schedule;
    BarrierIsSafe(np, b.logp, schedule);
  }
}
