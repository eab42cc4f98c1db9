/**
 The dissemination barrier with tags in shared memory of `bench/diss_bar/barrier.h`.

 Each call works with a tag that grows by the number of rounds from call to call.
 A thread announces a round by writing tag plus round into a line of its own, in
 the bank that the tag selects modulo MAXOPS, and waits until the lines of its `m`
 peers reach that value. The lines are never reset. One variant has a line for
 each round, the naive one a single line for all rounds.
 */
module TaggedBarrier {
  import opened Dissemination

  const MAXOPS: nat := 10
  const INT_MAX: nat := 0x7fff_ffff

  datatype Variant = LinePerRound | SingleLine
  datatype Config = Config(m: nat, rounds: nat, firstTag: nat, variant: Variant)
  datatype Line = Line(bank: nat, thread: nat, line: nat)

  /** `tag`: the thread's variable between calls; `opTag`: its copy during a call.
      A line that was never written holds 0. */
  datatype State = State(ps: seq<Progress>, lines: map<Line, nat>, tag: seq<nat>, opTag: seq<nat>)

  predicate WellFormed(s: State, c: Config) {
    && c.m >= 1 && |s.tag| == |s.ps| && |s.opTag| == |s.ps|
    && forall t :: 0 <= t < |s.ps| ==> ValidProgress(s.ps[t], c.m, c.rounds)
  }

  function Init(n: nat, c: Config): (s: State)
    requires c.m >= 1
    ensures WellFormed(s, c) && |s.ps| == n
  {
    State(seq(n, _ => Progress(0, 0, Outside)), map[], seq(n, _ => c.firstTag), seq(n, _ => c.firstTag))
  }

  function Value(s: State, l: Line): nat {
    if l in s.lines then s.lines[l] else 0
  }

  /** The line that thread `j` writes and others read in round `r` of a call with tag `tag`. */
  function LineFor(c: Config, tag: nat, j: nat, r: nat): Line {
    Line(tag % MAXOPS, j, if c.variant == LinePerRound then r else 0)
  }

  function NextTag(tag: nat, rounds: nat): nat {
    if tag < INT_MAX then tag + rounds else 2
  }

  /** Thread `t` takes its next step in `barrier`. */
  function Next(s: State, c: Config, t: nat): (s': State)
    requires WellFormed(s, c) && t < |s.ps|
    ensures WellFormed(s', c) && |s'.ps| == |s.ps|
  {
    var p := s.ps[t];
    var moved := s.(ps := s.ps[t := Advance(p, c.m, c.rounds)]);
    match p.phase
    case Outside => moved.(opTag := s.opTag[t := s.tag[t]], tag := s.tag[t := NextTag(s.tag[t], c.rounds)])
    case Announcing =>
      if p.round == c.rounds then moved
      else moved.(lines := s.lines[LineFor(c, s.opTag[t], t, p.round) := s.opTag[t] + p.round])
    case Listening(h) =>
      var peer := Peer(|s.ps|, c.m, t, p.round, h + 1);
      if Value(s, LineFor(c, s.opTag[t], peer, p.round)) < s.opTag[t] + p.round then s else moved
  }

  function Run(s: State, c: Config, schedule: seq<nat>): (s': State)
    requires WellFormed(s, c) && forall k :: 0 <= k < |schedule| ==> schedule[k] < |s.ps|
    ensures WellFormed(s', c) && |s'.ps| == |s.ps|
    decreases |schedule|
  {
    if schedule == [] then s
    else Next(Run(s, c, schedule[..|schedule| - 1]), c, schedule[|schedule| - 1])
  }

  /** No thread starts a call with its tag at the limit, where the code starts over. */
  predicate BeforeReset(s: State, c: Config, schedule: seq<nat>)
    requires WellFormed(s, c) && forall k :: 0 <= k < |schedule| ==> schedule[k] < |s.ps|
    decreases |schedule|
  {
    schedule == [] ||
    (var before, t := schedule[..|schedule| - 1], schedule[|schedule| - 1];
     BeforeReset(s, c, before) && (Run(s, c, before).ps[t].phase.Outside? ==> Run(s, c, before).tag[t] < INT_MAX))
  }

  // ----- The invariant -----

  /** The tag of call number `e`. */
  function TagOf(c: Config, e: nat): nat {
    if e == 0 then c.firstTag else TagOf(c, e - 1) + c.rounds
  }

  lemma {:induction false} TagsGrow(c: Config, d: nat, e: nat)
    requires d < e
    ensures TagOf(c, d) + c.rounds <= TagOf(c, e)
    decreases e
  {
    if d < e - 1 { TagsGrow(c, d, e - 1); }
  }

  ghost predicate TagsOk(s: State, c: Config)
    requires WellFormed(s, c)
  {
    forall t :: 0 <= t < |s.ps| ==>
      if s.ps[t].phase.Outside? then s.tag[t] == TagOf(c, s.ps[t].episode)
      else s.opTag[t] == TagOf(c, s.ps[t].episode) && s.tag[t] == TagOf(c, s.ps[t].episode + 1)
  }

  /** A line that was written holds the value of an announcement of its owner, one that
      belongs into this bank and, with a line for each round, of the round of the line. */
  ghost predicate WrittenOk(s: State, c: Config, l: Line)
    requires l in s.lines
  {
    l.thread < |s.ps| && exists e: nat, r: nat :: Wrote(s, c, l, e, r)
  }

  ghost predicate Wrote(s: State, c: Config, l: Line, e: nat, r: nat)
    requires l in s.lines && l.thread < |s.ps|
  {
    && r < c.rounds && s.lines[l] == TagOf(c, e) + r && Announced(s.ps[l.thread], e, r)
    && l.bank == TagOf(c, e) % 10 && l.line == match c.variant { case LinePerRound => r case SingleLine => 0 }
  }

  /** An announcement shows in its line, or a later one does. */
  ghost predicate Shows(s: State, c: Config, j: nat, e: nat, r: nat)
    requires j < |s.ps|
  {
    Announced(s.ps[j], e, r) ==> Value(s, LineFor(c, TagOf(c, e), j, r)) >= TagOf(c, e) + r
  }

  /** With first tag 0 the waits in round 0 of the first call are not waits at all. */
  ghost predicate Inv(s: State, c: Config) {
    && WellFormed(s, c)
    && HeardSome(s.ps, c.m, c.rounds, c.firstTag == 0)
    && TagsOk(s, c)
    && (forall l {:trigger WrittenOk(s, c, l)} :: l in s.lines ==> WrittenOk(s, c, l))
    && (forall j: nat, e: nat, r: nat {:trigger Shows(s, c, j, e, r)} :: j < |s.ps| && r < c.rounds ==>
        Shows(s, c, j, e, r))
  }

  /** The spin test is exact, in both variants and although banks are reused: it
      succeeds if and only if the peer has announced this round of this call. The only
      exception is round 0 of the first call when the first tag is 0. */
  lemma SpinTestIsExact(s: State, c: Config, t: nat)
    requires Inv(s, c) && t < |s.ps| && s.ps[t].phase.Listening?
    requires c.firstTag == 0 ==> s.ps[t].episode > 0 || s.ps[t].round > 0
    ensures var p := s.ps[t];
      var j := Peer(|s.ps|, c.m, t, p.round, p.phase.heard + 1);
      Value(s, LineFor(c, s.opTag[t], j, p.round)) >= s.opTag[t] + p.round
      <==> PeerAnnounced(s.ps, c.m, t)
  {
    hide HeardSome, Peer;
    var e, r := s.ps[t].episode, s.ps[t].round;
    var j := Peer(|s.ps|, c.m, t, r, s.ps[t].phase.heard + 1);
    var l := LineFor(c, s.opTag[t], j, r);
    assert Shows(s, c, j, e, r);
    if Value(s, l) >= s.opTag[t] + r {
      if e > 0 { TagsGrow(c, 0, e); }
      assert WrittenOk(s, c, l);
      var d: nat, k: nat :| Wrote(s, c, l, d, k);
      if d < e { TagsGrow(c, d, e); }
    }
  }

  /** Entering, passing a wait and returning leave the lines alone. */
  lemma EnterOrPassShape(s: State, c: Config, t: nat)
    requires Inv(s, c) && t < |s.ps| && !(s.ps[t].phase.Announcing? && s.ps[t].round < c.rounds)
    ensures Next(s, c, t).lines == s.lines
    ensures Next(s, c, t) != s ==> Next(s, c, t).ps == s.ps[t := Advance(s.ps[t], c.m, c.rounds)]
  {
    hide Peer, HeardSome, TagsOk;
  }

  lemma TagsStep(s: State, c: Config, t: nat)
    requires Inv(s, c) && t < |s.ps| && !(s.ps[t].phase.Announcing? && s.ps[t].round < c.rounds)
    requires s.ps[t].phase.Outside? ==> s.tag[t] < INT_MAX
    ensures TagsOk(Next(s, c, t), c)
  {
    hide Peer, HeardSome;
  }

  lemma EnterOrPassKeepsInv(s: State, c: Config, t: nat)
    requires Inv(s, c) && t < |s.ps|
    requires !(s.ps[t].phase.Announcing? && s.ps[t].round < c.rounds)
    requires s.ps[t].phase.Outside? ==> s.tag[t] < INT_MAX
    ensures Inv(Next(s, c, t), c)
  {
    var s' := Next(s, c, t);
    if s' == s { return; }
    TagsStep(s, c, t);
    EnterOrPassShape(s, c, t);
    if s.ps[t].phase.Listening? && (c.firstTag == 0 ==> s.ps[t].episode > 0 || s.ps[t].round > 0) { Passed(s, c, t); }
    hide Peer, TagsOk, Next, HeardSome;
    AdvanceKeepsSome(s.ps, c.m, c.rounds, c.firstTag == 0, t);
    forall l | l in s'.lines ensures WrittenOk(s', c, l) {
      assert WrittenOk(s, c, l);
      var e: nat, r: nat :| Wrote(s, c, l, e, r);
      assert Wrote(s', c, l, e, r);
    }
    forall j: nat, e: nat, r: nat | j < |s.ps| && r < c.rounds ensures Shows(s', c, j, e, r) {
      assert Shows(s, c, j, e, r);
    }
  }

  /** Who passes a wait has its peer's announcement. */
  lemma Passed(s: State, c: Config, t: nat)
    requires Inv(s, c) && t < |s.ps| && s.ps[t].phase.Listening? && Next(s, c, t) != s
    requires c.firstTag == 0 ==> s.ps[t].episode > 0 || s.ps[t].round > 0
    ensures PeerAnnounced(s.ps, c.m, t)
  {
    hide Peer;
    SpinTestIsExact(s, c, t);
  }

  lemma AnnounceKeepsInv(s: State, c: Config, t: nat)
    requires Inv(s, c) && t < |s.ps| && s.ps[t].phase.Announcing? && s.ps[t].round < c.rounds
    ensures Inv(Next(s, c, t), c)
  {
    var s' := Next(s, c, t);
    var p := s.ps[t];
    AdvanceKeepsSome(s.ps, c.m, c.rounds, c.firstTag == 0, t);
    forall l | l in s'.lines ensures WrittenOk(s', c, l) {
      if l == LineFor(c, s.opTag[t], t, p.round) {
        assert Wrote(s', c, l, p.episode, p.round);
      } else {
        assert WrittenOk(s, c, l);
        var e: nat, r: nat :| Wrote(s, c, l, e, r);
        assert Wrote(s', c, l, e, r);
      }
    }
    forall j: nat, e: nat, r: nat | j < |s.ps| && r < c.rounds ensures Shows(s', c, j, e, r) {
      assert Shows(s, c, j, e, r);
      if j == t && e < p.episode { TagsGrow(c, e, p.episode); }
    }
  }

  lemma StepKeepsInv(s: State, c: Config, t: nat)
    requires Inv(s, c) && t < |s.ps| && (s.ps[t].phase.Outside? ==> s.tag[t] < INT_MAX)
    ensures Inv(Next(s, c, t), c)
  {
    hide Peer, HeardSome, TagsOk;
    if s.ps[t].phase.Announcing? && s.ps[t].round < c.rounds { AnnounceKeepsInv(s, c, t); }
    else { EnterOrPassKeepsInv(s, c, t); }
  }

  lemma {:induction false} Reachable(n: nat, c: Config, schedule: seq<nat>)
    requires n > 0 && c.m >= 1 && forall k :: 0 <= k < |schedule| ==> schedule[k] < n
    requires BeforeReset(Init(n, c), c, schedule)
    ensures Inv(Run(Init(n, c), c, schedule), c)
    decreases |schedule|
  {
    if schedule != [] {
      var before := schedule[..|schedule| - 1];
      Reachable(n, c, before);
      StepKeepsInv(Run(Init(n, c), c, before), c, schedule[|schedule| - 1]);
    }
  }

  // ----- The guarantees -----

  predicate CanMove(s: State, c: Config, u: nat)
    requires WellFormed(s, c)
  {
    u < |s.ps| && Next(s, c, u) != s
  }

  ghost predicate NotStuck(s: State, c: Config, t: nat)
    requires WellFormed(s, c) && t < |s.ps|
  {
    exists u: nat :: CanMove(s, c, u) && s.ps[u].episode <= s.ps[t].episode
  }

  lemma Mover(s: State, c: Config, u: nat)
    requires Inv(s, c) && c.firstTag >= 1 && u < |s.ps|
    requires s.ps[u].phase.Listening? ==> PeerAnnounced(s.ps, c.m, u)
    ensures CanMove(s, c, u) && Next(s, c, u).ps == s.ps[u := Advance(s.ps[u], c.m, c.rounds)]
  {
    if s.ps[u].phase.Listening? { SpinTestIsExact(s, c, u); }
    assert Next(s, c, u).ps[u] == Advance(s.ps[u], c.m, c.rounds);
  }

  lemma NoneIsStuck(s: State, c: Config, t: nat)
    requires Inv(s, c) && c.firstTag >= 1 && t < |s.ps|
    ensures NotStuck(s, c, t)
  {
    var u := Unblocked(s.ps, c.m, c.rounds, t);
    Mover(s, c, u);
  }

  /** For every number of threads, of peers per round and of rounds that cover the
      threads, in both variants, every interleaving before the tag reset and every
      first tag above 0: the barrier property holds and nobody waits for good. */
  lemma BarrierIsSafe(n: nat, c: Config, schedule: seq<nat>)
    requires n > 0 && c.m >= 1 && Power(c.m + 1, c.rounds) >= n && forall k :: 0 <= k < |schedule| ==> schedule[k] < n
    requires c.firstTag >= 1 && BeforeReset(Init(n, c), c, schedule)
    ensures BarrierHolds(Run(Init(n, c), c, schedule).ps)
    ensures forall t: nat :: t < n ==> NotStuck(Run(Init(n, c), c, schedule), c, t)
  {
    var s := Run(Init(n, c), c, schedule);
    Reachable(n, c, schedule);
    HeardGivesBarrier(s.ps, c.m, c.rounds);
    forall t: nat | t < n ensures NotStuck(s, c, t) { NoneIsStuck(s, c, t); }
  }

  // ----- Every call ends -----

  lemma {:induction false} RunAppend(s: State, c: Config, t: nat, rest: seq<nat>)
    requires WellFormed(s, c) && t < |s.ps| && forall k :: 0 <= k < |rest| ==> rest[k] < |s.ps|
    ensures Run(s, c, [t] + rest) == Run(Next(s, c, t), c, rest)
    decreases |rest|
  {
    var all := [t] + rest;
    if rest == [] {
      assert all[..|all| - 1] == [];
      assert Run(s, c, []) == s;
    } else {
      assert all[..|all| - 1] == [t] + rest[..|rest| - 1];
      RunAppend(s, c, t, rest[..|rest| - 1]);
    }
  }

  lemma HasHeard(s: State, c: Config)
    requires Inv(s, c) && c.firstTag >= 1
    ensures WellFormed(s, c) && Heard(s.ps, c.m, c.rounds) && AllValid(s.ps, c.m, c.rounds)
  {
  }

  /** A thread that makes a call up to number `e` has a tag up to that call's. */
  lemma TagBelow(s: State, c: Config, t: nat, e: nat)
    requires Inv(s, c) && t < |s.ps| && s.ps[t].episode <= e
    ensures s.ps[t].phase.Outside? ==> s.tag[t] <= TagOf(c, e)
  {
    if s.ps[t].episode < e { TagsGrow(c, s.ps[t].episode, e); }
  }

  lemma {:induction false} Complete(s: State, c: Config, e: nat) returns (more: seq<nat>)
    requires Inv(s, c) && c.firstTag >= 1 && TagOf(c, e) < INT_MAX && AllValid(s.ps, c.m, c.rounds)
    ensures |more| == Work(s.ps, c.m, c.rounds, e) && forall k :: 0 <= k < |more| ==> more[k] < |s.ps|
    ensures CallEnded(s.ps, Run(s, c, more).ps, e)
    decreases Work(s.ps, c.m, c.rounds, e)
  {
    hide Inv, Next, Work, Heard, StepsLeft, Advance, TagOf;
    more := [];
    if forall i :: 0 <= i < |s.ps| ==> Finished(s.ps[i], e) {
      NoWorkLeft(s.ps, c.m, c.rounds, e);
    } else {
      HasHeard(s, c);
      var t := SomebodyGoesOn(s.ps, c.m, c.rounds, e);
      Mover(s, c, t);
      TagBelow(s, c, t, e);
      StepKeepsInv(s, c, t);
      WorkDrops(s.ps, c.m, c.rounds, e, t);
      var rest := Complete(Next(s, c, t), c, e);
      RunAppend(s, c, t, rest);
      more := [t] + rest;
      CallGoesOn(s.ps, c.m, c.rounds, e, t, Run(s, c, more).ps);
    }
  }

  /** From every state that is reached before the tag reset every call whose tag is below
      the limit can be completed by all threads, with exactly the steps that the rounds
      ask for: one announcement and `m` waits each, besides entering and returning. */
  lemma EveryCallEnds(n: nat, c: Config, schedule: seq<nat>, e: nat) returns (more: seq<nat>)
    requires n > 0 && c.m >= 1 && forall k :: 0 <= k < |schedule| ==> schedule[k] < n
    requires c.firstTag >= 1 && BeforeReset(Init(n, c), c, schedule) && TagOf(c, e) < INT_MAX
    ensures AllValid(Run(Init(n, c), c, schedule).ps, c.m, c.rounds)
    ensures |more| == Work(Run(Init(n, c), c, schedule).ps, c.m, c.rounds, e)
    ensures forall k :: 0 <= k < |more| ==> more[k] < n
    ensures CallEnded(Run(Init(n, c), c, schedule).ps, Run(Run(Init(n, c), c, schedule), c, more).ps, e)
  {
    var s := Run(Init(n, c), c, schedule);
    Reachable(n, c, schedule);
    HasHeard(s, c);
    hide Inv, Next;
    more := Complete(s, c, e);
  }
}
