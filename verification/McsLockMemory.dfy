/**
 The MCS lock as the C code runs it: a lock word and queue nodes that are
 updated in place, one shared access at a time. Each access is proved to be the
 step of module McsLock, so its guarantees hold of the memory after every access.
 */
module McsLockMemory {
  import opened Options
  import opened McsLock

  class Memory {
    var lock: Option<Tid>
    const next: array<Option<Tid>>
    const locked: array<bool>
    const pc: array<Pc>

    ghost predicate Valid()
      reads this, next, locked, pc
    {
      next.Length == pc.Length && locked.Length == pc.Length && WellFormed(Abs())
    }

    ghost function Abs(): State
      reads this, next, locked, pc
    {
      State(lock, pc[..], next[..], locked[..])
    }

    /** A zeroed lock word and `n` zeroed queue nodes. */
    constructor (n: nat)
      ensures Valid() && Abs() == Init(n)
      ensures fresh(next) && fresh(locked) && fresh(pc)
    {
      lock := None;
      next := new Option<Tid>[n](_ => None);
      locked := new bool[n](_ => false);
      pc := new Pc[n](_ => Idle);
      new;
      assert pc[..] == seq(n, _ => Idle);
      assert next[..] == seq(n, _ => None);
      assert locked[..] == seq(n, _ => false);
    }

    /** The atomic exchange on the lock word. */
    method Exchange(v: Option<Tid>) returns (previous: Option<Tid>)
      modifies this`lock
      ensures lock == v && previous == old(lock)
    {
      previous := lock;
      lock := v;
    }

    /** The next access of `mcs_lock_lock` by thread `t`. */
    method LockStep(t: Tid)
      requires Valid() && t < pc.Length
      requires pc[t].Idle? || pc[t].Swapping? || pc[t].Marking? || pc[t].Linking? || pc[t].Spinning?
      modifies this`lock, next, locked, pc
      ensures Valid() && Abs() == Next(old(Abs()), t)
    {
      match pc[t]
      case Idle =>
        next[t] := None;
        pc[t] := Swapping;
      case Swapping =>
        var predecessor := Exchange(Some(t));
        if predecessor.Some? { pc[t] := Marking(predecessor.value); } else { pc[t] := Critical; }
      case Marking(pred) =>
        locked[t] := true;
        pc[t] := Linking(pred);
      case Linking(pred) =>
        next[pred] := Some(t);
        pc[t] := Spinning;
      case Spinning =>
        if !locked[t] { pc[t] := Critical; }
    }

    /** The next access of `mcs_lock_unlock` by thread `t`. */
    method UnlockStep(t: Tid)
      requires Valid() && t < pc.Length
      requires pc[t].Critical? || pc[t].Emptying? || pc[t].Restoring? || Releasing(pc[t])
      modifies this`lock, next, locked, pc
      ensures Valid() && Abs() == Next(old(Abs()), t)
    {
      match pc[t]
      case Critical =>
        if next[t].None? { pc[t] := Emptying; } else { pc[t] := Rereading(None); }
      case Emptying =>
        var oldTail := Exchange(None);
        if oldTail == Some(t) { pc[t] := Idle; } else { pc[t] := Restoring(oldTail); }
      case Restoring(oldTail) =>
        var usurper := Exchange(oldTail);
        pc[t] := Awaiting(usurper);
      case Awaiting(usurper) =>
        if next[t].Some? { pc[t] := Rereading(usurper); }
      case Rereading(usurper) =>
        if next[t].None? { pc[t] := Faulted; } else { pc[t] := Delivering(usurper, next[t].value); }
      case Delivering(usurper, succ) =>
        if usurper.Some? { next[usurper.value] := Some(succ); } else { locked[succ] := false; }
        pc[t] := Idle;
    }
  }

  /** Any number of threads use the lock under any schedule. After every access
      there is one right to enter, at most one holder and no null pointer was followed. */
  method Contend(n: nat, schedule: seq<Tid>) returns (m: Memory)
    requires forall k :: 0 <= k < |schedule| ==> schedule[k] < n
    ensures m.Valid() && m.Abs() == Run(Init(n), schedule)
    ensures OneToken(m.Abs()) && MutualExclusion(m.Abs()) && NoNullAccess(m.Abs())
  {
    m := new Memory(n);
    var k := 0;
    assert schedule[..0] == [];
    while k < |schedule|
      invariant 0 <= k <= |schedule|
      invariant fresh(m) && fresh(m.next) && fresh(m.locked) && fresh(m.pc)
      invariant m.Valid() && m.Abs() == Run(Init(n), schedule[..k])
    {
      LockIsSafe(n, schedule[..k]);
      var t := schedule[k];
      ghost var before := schedule[..k];
      assert schedule[..k + 1][..k] == before;
      if m.pc[t].Idle? || m.pc[t].Swapping? || m.pc[t].Marking? || m.pc[t].Linking? || m.pc[t].Spinning? {
        m.LockStep(t);
      } else {
        m.UnlockStep(t);
      }
      k := k + 1;
    }
    assert schedule[..k] == schedule;
    LockIsSafe(n, schedule);
  }
}
