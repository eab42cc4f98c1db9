/** The tagged barrier with its tags and its banks of lines updated in place. */
module TaggedBarrierMemory {
  import opened Dissemination
  import opened TaggedBarrier

  class Barrier {
    const c: Config
    const flags: array3<nat>       // bank, thread, line
    const tag: array<nat>
    const opTag: array<nat>
    const at: array<Progress>
    ghost var state: State         // the state of the run so far

    ghost predicate Shaped()
      reads this
    {
      && flags.Length0 == MAXOPS && flags.Length1 == at.Length && flags.Length2 == c.rounds
      && tag != opTag && tag.Length == at.Length && opTag.Length == at.Length
    }

    /** The fields hold the state; a line that the run never wrote holds 0. */
    ghost predicate Valid()
      reads this, flags, tag, opTag, at
    {
      && Shaped() && WellFormed(state, c)
      && at[..] == state.ps && tag[..] == state.tag && opTag[..] == state.opTag
      && forall b: nat, j: nat, k: nat :: b < MAXOPS && j < at.Length && k < c.rounds ==>
           flags[b, j, k] == Value(state, Line(b, j, k))
    }

    /** `initnotification`: every line of every bank is zero. */
    constructor (n: nat, config: Config)
      requires config.m >= 1
      ensures Valid() && c == config && state == Init(n, config)
      ensures fresh(flags) && fresh(tag) && fresh(opTag) && fresh(at)
    {
      c := config;
      flags := new nat[MAXOPS, n, config.rounds]((_, _, _) => 0);
      tag := new nat[n](_ => config.firstTag);
      opTag := new nat[n](_ => config.firstTag);
      at := new Progress[n](_ => Progress(0, 0, Outside));
      state := Init(n, config);
      new;
      assert tag[..] == state.tag && opTag[..] == state.opTag && at[..] == state.ps;
    }

    /** The start of a call: the tag is copied and advanced. */
    method Enter(t: nat)
      requires Valid() && t < at.Length && at[t].phase.Outside?
      modifies this`state, tag, opTag, at
      ensures Valid() && state == Next(old(state), c, t)
    {
      state := Next(state, c, t);
      opTag[t] := tag[t];
      if tag[t] < INT_MAX { tag[t] := tag[t] + c.rounds; } else { tag[t] := 2; }
      at[t] := at[t].(phase := Announcing);
    }

    /** The announcement: a store into the thread's own line of the bank that the tag
        selects, the same for all rounds in the naive variant. */
    method Announce(t: nat)
      requires Valid() && t < at.Length && at[t].phase.Announcing? && at[t].round < c.rounds
      modifies this`state, flags, at
      ensures Valid() && state == Next(old(state), c, t)
    {
      var line := if c.variant == LinePerRound then at[t].round else 0;
      state := Next(state, c, t);
      flags[opTag[t] % MAXOPS, t, line] := opTag[t] + at[t].round;
      at[t] := at[t].(phase := Listening(0));
    }

    /** One test of the spin loop on the line of the next peer. */
    method Listen(t: nat)
      requires Valid() && t < at.Length && at[t].phase.Listening?
      modifies this`state, at
      ensures Valid() && state == Next(old(state), c, t)
    {
      hide Power, Wrap;
      var p := at[t];
      var peer := WalkBack(at.Length, t, (p.phase.heard + 1) * Power(c.m + 1, p.round));
      var line := if c.variant == LinePerRound then p.round else 0;
      assert flags[opTag[t] % MAXOPS, peer, line] == Value(state, LineFor(c, opTag[t], peer, p.round));
      state := Next(state, c, t);
      if flags[opTag[t] % MAXOPS, peer, line] >= opTag[t] + p.round {
        at[t] := if p.phase.heard + 1 < c.m then p.(phase := Listening(p.phase.heard + 1))
                 else Progress(p.episode, p.round + 1, Announcing);
      }
    }

    /** The return after the last round. */
    method Return(t: nat)
      requires Valid() && t < at.Length && at[t].phase.Announcing? && at[t].round == c.rounds
      modifies this`state, at
      ensures Valid() && state == Next(old(state), c, t)
    {
      state := Next(state, c, t);
      at[t] := Progress(at[t].episode + 1, 0, Outside);
    }
  }
}
