/**
 The first tag of the tagged barrier matters. With 0, a line that nobody wrote
 passes the test of round 0, so nobody waits for the peers of that round: a thread
 hears only from threads at distances that are multiples of `m + 1`, and with no
 more rounds than needed those are not all.
 */
module TagZero {
  import opened Dissemination
  import opened TaggedBarrier

  /** A schedule of threads that exist, in which no call starts at the tag limit. */
  ghost predicate Legal(n: nat, c: Config, schedule: seq<nat>) {
    && c.m >= 1
    && (forall k :: 0 <= k < |schedule| ==> schedule[k] < n)
    && BeforeReset(Init(n, c), c, schedule)
  }

  lemma OneMore(n: nat, c: Config, schedule: seq<nat>, t: nat)
    requires Legal(n, c, schedule) && t < n
    requires var s := Run(Init(n, c), c, schedule); s.ps[t].phase.Outside? ==> s.tag[t] < INT_MAX
    ensures Legal(n, c, schedule + [t])
    ensures Run(Init(n, c), c, schedule + [t]) == Next(Run(Init(n, c), c, schedule), c, t)
  {
    hide Next;
    assert (schedule + [t])[..|schedule|] == schedule;
  }

  // ----- Whom a thread hears from when round 0 is not waited for -----

  /** The thread `k` times `m + 1` places behind. */
  function Behind(n: nat, m: nat, i: nat, k: nat): (j: nat)
    requires n > 0
    ensures j < n
  {
    Back(n, i, k * (m + 1))
  }

  function Span(m: nat, r: nat): nat {
    if r == 0 then 1 else Power(m + 1, r - 1)
  }

  /** Thread `i` cannot complete `r` rounds without thread `w`. */
  ghost predicate Needs(n: nat, m: nat, i: nat, r: nat, w: nat)
    requires n > 0
  {
    exists k: nat :: k < Span(m, r) && w == Behind(n, m, i, k)
  }

  lemma SpanGrows(m: nat, r: nat)
    ensures 1 <= Span(m, r) <= Span(m, r + 1)
  {
    if r > 0 { ProductBound(m + 1, Power(m + 1, r - 1)); }
  }

  lemma NeedsMore(n: nat, m: nat, i: nat, r: nat, w: nat)
    requires n > 0 && Needs(n, m, i, r, w)
    ensures Needs(n, m, i, r + 1, w)
  {
    SpanGrows(m, r);
    var k: nat :| k < Span(m, r) && w == Behind(n, m, i, k);
    assert k < Span(m, r + 1);
  }

  lemma NeedsItself(n: nat, m: nat, i: nat, r: nat)
    requires i < n
    ensures Needs(n, m, i, r, i)
  {
    if r > 0 { SpanGrows(m, r - 1); }
    assert Behind(n, m, i, 0) == i;
    assert 0 < Span(m, r);
  }

  lemma Regroup(a: nat, q: nat, p: nat, k: nat)
    ensures q * (a * p) + k * a == (q * p + k) * a
  {
    assert q * (a * p) == (q * p) * a;
  }

  lemma Bounded(a: nat, q: nat, p: nat, k: nat)
    requires q < a && k < p
    ensures q * p + k < a * p
  {
    assert a * p == q * p + (a - q) * p;
    ProductBound(a - q, p);
  }

  /** What lies behind a peer lies behind its listener. */
  lemma BehindPeer(n: nat, m: nat, i: nat, r: nat, q: nat, k: nat)
    requires n > 0 && r > 0
    ensures Behind(n, m, Peer(n, m, i, r, q), k) == Behind(n, m, i, q * Power(m + 1, r - 1) + k)
  {
    var p := Power(m + 1, r - 1);
    assert Power(m + 1, r) == (m + 1) * p;
    hide Power, Back;
    BackAdds(n, i, q * Power(m + 1, r), k * (m + 1));
    Regroup(m + 1, q, p, k);
  }

  /** What a peer needs for `r` rounds its listener needs for one more. */
  lemma NeedsOfPeer(n: nat, m: nat, i: nat, r: nat, q: nat, w: nat)
    requires n > 0 && r > 0 && 1 <= q <= m && Needs(n, m, Peer(n, m, i, r, q), r, w)
    ensures Needs(n, m, i, r + 1, w)
  {
    var p := Power(m + 1, r - 1);
    var k: nat :| k < p && w == Behind(n, m, Peer(n, m, i, r, q), k);
    BehindPeer(n, m, i, r, q, k);
    Bounded(m + 1, q, p, k);
    assert q * p + k < Span(m, r + 1);
  }

  /** The first `count` of the threads behind. */
  ghost function FirstBehind(n: nat, m: nat, i: nat, count: nat): (s: set<nat>)
    requires n > 0
    ensures |s| <= count
    ensures forall k: nat :: k < count ==> Behind(n, m, i, k) in s
  {
    if count == 0 then {} else FirstBehind(n, m, i, count - 1) + {Behind(n, m, i, count - 1)}
  }

  lemma {:induction false} Threads(n: nat) returns (all: set<nat>)
    ensures |all| == n && forall t: nat :: t in all <==> t < n
    decreases n
  {
    if n == 0 {
      all := {};
    } else {
      var rest := Threads(n - 1);
      all := rest + {n - 1};
    }
  }

  /** With no more rounds than cover the threads, some thread is not needed. */
  lemma SomebodyIsNotNeeded(n: nat, m: nat, i: nat, r: nat) returns (w: nat)
    requires r > 0 && Power(m + 1, r - 1) < n
    ensures w < n && !Needs(n, m, i, r, w)
  {
    var all := Threads(n);
    var needed := FirstBehind(n, m, i, Span(m, r));
    assert needed == all * needed + (needed - all) && all == all * needed + (all - needed);
    assert |all - needed| > 0;
    w :| w in all - needed;
  }

  // ----- The unsafe run -----

  /** All threads are in their first call, with tag 0, or have not made it; what was
      announced shows. */
  ghost predicate FirstCall(s: State, c: Config) {
    && WellFormed(s, c)
    && (forall t :: 0 <= t < |s.ps| ==>
          s.ps[t].episode == 0 && if s.ps[t].phase.Outside? then s.tag[t] == 0 else s.opTag[t] == 0)
    && (forall j: nat, r: nat {:trigger Announced(s.ps[j], 0, r)} ::
          j < |s.ps| && r < c.rounds && Announced(s.ps[j], 0, r) ==> Value(s, LineFor(c, 0, j, r)) >= r)
  }

  /** A state at the end of a run in which only first calls were made. */
  ghost predicate At(n: nat, c: Config, schedule: seq<nat>, s: State) {
    Legal(n, c, schedule) && s == Run(Init(n, c), c, schedule) && FirstCall(s, c) && |s.ps| == n
  }

  /** Within one call, `p'` is as far as `p` or farther. */
  predicate NotBefore(p: Progress, p': Progress) {
    || p.phase.Outside?
    || (!p'.phase.Outside? && p'.round > p.round)
    || (p'.round == p.round && p.phase.Announcing? && !p'.phase.Outside?)
    || (p'.round == p.round && p.phase.Listening? && p'.phase.Listening? && p.phase.heard <= p'.phase.heard)
  }

  /** The run may go on from `s` to `s'` without moving `w`. */
  ghost predicate Onward(s: State, s': State, w: nat) {
    && |s.ps| == |s'.ps| && w < |s.ps| && s'.ps[w] == s.ps[w]
    && forall t :: 0 <= t < |s.ps| ==> NotBefore(s.ps[t], s'.ps[t])
  }

  lemma Further(s: State, s': State, s'': State, w: nat)
    requires Onward(s, s', w) && Onward(s', s'', w)
    ensures Onward(s, s'', w)
  {
    forall t | 0 <= t < |s.ps| ensures NotBefore(s.ps[t], s''.ps[t]) {
      assert NotBefore(s.ps[t], s'.ps[t]) && NotBefore(s'.ps[t], s''.ps[t]);
    }
  }

  lemma StaysFirst(s: State, c: Config, t: nat)
    requires FirstCall(s, c) && t < |s.ps| && (s.ps[t].phase.Announcing? ==> s.ps[t].round < c.rounds)
    ensures FirstCall(Next(s, c, t), c)
    ensures forall u :: 0 <= u < |s.ps| && u != t ==> Next(s, c, t).ps[u] == s.ps[u]
    ensures NotBefore(s.ps[t], Next(s, c, t).ps[t])
  {
    hide Peer;
    var s' := Next(s, c, t);
    forall j: nat, r: nat | j < |s.ps| && r < c.rounds && Announced(s'.ps[j], 0, r)
      ensures Value(s', LineFor(c, 0, j, r)) >= r
    {
      assert Announced(s.ps[j], 0, r) || (j == t && s.ps[t].phase.Announcing? && r == s.ps[t].round);
    }
  }

  /** One step of a thread that neither is `w` nor returns. */
  lemma Go(n: nat, c: Config, schedule: seq<nat>, s: State, w: nat, t: nat) returns (schedule': seq<nat>, s': State)
    requires At(n, c, schedule, s) && w < n && t < n && t != w
    requires s.ps[t].phase.Announcing? ==> s.ps[t].round < c.rounds
    ensures At(n, c, schedule', s') && s' == Next(s, c, t) && Onward(s, s', w)
  {
    hide Next;
    OneMore(n, c, schedule, t);
    StaysFirst(s, c, t);
    schedule', s' := schedule + [t], Next(s, c, t);
  }

  lemma FirstEpisode(s: State, c: Config)
    requires FirstCall(s, c)
    ensures WellFormed(s, c) && forall t :: 0 <= t < |s.ps| ==> s.ps[t].episode == 0
  {
  }

  /** A listener goes on when its peer has announced the round. */
  lemma Hears(s: State, c: Config, t: nat)
    requires FirstCall(s, c) && t < |s.ps| && s.ps[t].phase.Listening?
    requires s.ps[t].round == 0 || PeerAnnounced(s.ps, c.m, t)
    ensures Next(s, c, t).ps[t] == Advance(s.ps[t], c.m, c.rounds)
  {
    hide Peer;
    var p := s.ps[t];
    var j := Peer(|s.ps|, c.m, t, p.round, p.phase.heard + 1);
    assert p.round == 0 || Value(s, LineFor(c, 0, j, p.round)) >= p.round by {
      if p.round > 0 { assert Announced(s.ps[j], 0, p.round); }
    }
  }

  /** Thread `i` completes `r` rounds of its first call while `w`, which it does not
      need, stays outside. */
  lemma {:induction false} Bring(n: nat, c: Config, schedule: seq<nat>, s: State, w: nat, i: nat, r: nat)
    returns (schedule': seq<nat>, s': State)
    requires At(n, c, schedule, s) && i < n && w < n && r <= c.rounds && !Needs(n, c.m, i, r, w)
    ensures At(n, c, schedule', s') && Onward(s, s', w) && Reached(s'.ps[i], 0, r)
    decreases 2 * r, 0, 0
  {
    schedule', s' := schedule, s;
    hide FirstCall, Needs;
    NeedsItself(n, c.m, i, r);
    if Reached(s.ps[i], 0, r) {
    } else if r == 0 {
      schedule', s' := Outset(n, c, schedule, s, w, i);
    } else {
      if Needs(n, c.m, i, r - 1, w) { NeedsMore(n, c.m, i, r - 1, w); }
      schedule', s' := Bring(n, c, schedule, s, w, i, r - 1);
      var s1 := s';
      schedule', s' := PassRound(n, c, schedule', s1, w, i, r - 1);
      Further(s, s1, s', w);
    }
  }

  lemma Outset(n: nat, c: Config, schedule: seq<nat>, s: State, w: nat, i: nat) returns (schedule': seq<nat>, s': State)
    requires At(n, c, schedule, s) && i < n && w < n && i != w && !Reached(s.ps[i], 0, 0)
    ensures At(n, c, schedule', s') && Onward(s, s', w) && Reached(s'.ps[i], 0, 0)
  {
    schedule', s' := Go(n, c, schedule, s, w, i);
  }

  /** How many waits of its round a thread still has before it. */
  function Waits(p: Progress, m: nat): int {
    if p.phase.Listening? then m - p.phase.heard else m + 1
  }

  lemma {:induction false} PassRound(n: nat, c: Config, schedule: seq<nat>, s: State, w: nat, i: nat, r: nat)
    returns (schedule': seq<nat>, s': State)
    requires At(n, c, schedule, s) && i < n && w < n && r < c.rounds && !Needs(n, c.m, i, r + 1, w)
    requires Reached(s.ps[i], 0, r)
    ensures At(n, c, schedule', s') && Onward(s, s', w) && Reached(s'.ps[i], 0, r + 1)
    decreases 2 * r + 1, Waits(s.ps[i], c.m), 1
  {
    schedule', s' := schedule, s;
    hide Needs, Peer, Next;
    NeedsItself(n, c.m, i, r + 1);
    if !Reached(s.ps[i], 0, r + 1) {
      var p := s.ps[i];
      if p.phase.Announcing? {
        schedule', s' := Go(n, c, schedule, s, w, i);
        AnnounceStep(s, c, i);
      } else {
        schedule', s' := AwaitPeer(n, c, schedule, s, w, i, r);
      }
      if !Reached(s'.ps[i], 0, r + 1) {
        var s1 := s';
        schedule', s' := PassRound(n, c, schedule', s1, w, i, r);
        Further(s, s1, s', w);
      }
    }
  }

  lemma AnnounceStep(s: State, c: Config, i: nat)
    requires FirstCall(s, c) && i < |s.ps| && s.ps[i].phase.Announcing? && s.ps[i].round < c.rounds
    ensures Next(s, c, i).ps[i] == s.ps[i].(phase := Listening(0))
  {
  }

  /** A listener gets past its next wait: first its peer is brought to announce the
      round, unless the round is 0, whose waits are over from the start. */
  lemma {:induction false} AwaitPeer(n: nat, c: Config, schedule: seq<nat>, s: State, w: nat, i: nat, r: nat)
    returns (schedule': seq<nat>, s': State)
    requires At(n, c, schedule, s) && i < n && w < n && r < c.rounds && !Needs(n, c.m, i, r + 1, w)
    requires s.ps[i].phase.Listening? && s.ps[i].round == r
    ensures At(n, c, schedule', s') && Onward(s, s', w) && Reached(s'.ps[i], 0, r)
    ensures Reached(s'.ps[i], 0, r + 1) || Waits(s'.ps[i], c.m) < Waits(s.ps[i], c.m)
    decreases 2 * r + 1, Waits(s.ps[i], c.m), 0
  {
    hide Needs, Peer, Next, FirstCall;
    schedule', s' := schedule, s;
    NeedsItself(n, c.m, i, r + 1);
    FirstEpisode(s, c);
    var j := Peer(n, c.m, i, r, s.ps[i].phase.heard + 1);
    if r > 0 {
      if Needs(n, c.m, j, r, w) { NeedsOfPeer(n, c.m, i, r, s.ps[i].phase.heard + 1, w); }
      NeedsItself(n, c.m, j, r);
      schedule', s' := Bring(n, c, schedule, s, w, j, r);
      FirstEpisode(s', c);
      if s'.ps[j].phase.Announcing? && s'.ps[j].round == r {
        var s1 := s';
        schedule', s' := Go(n, c, schedule', s1, w, j);
        AnnounceStep(s1, c, j);
        FirstEpisode(s', c);
        Further(s, s1, s', w);
      }
      assert Announced(s'.ps[j], 0, r);
    }
    assert NotBefore(s.ps[i], s'.ps[i]);
    if s'.ps[i] == s.ps[i] {
      var s1 := s';
      Hears(s1, c, i);
      schedule', s' := Go(n, c, schedule', s1, w, i);
      Further(s, s1, s', w);
    }
  }

  /** With first tag 0, a thread `i` that does not need `w` can leave its first call
      before `w` has started it. */
  lemma LeavesTooEarly(n: nat, c: Config, i: nat, w: nat) returns (schedule: seq<nat>)
    requires i < n && w < n && c.m >= 1 && c.firstTag == 0 && !Needs(n, c.m, i, c.rounds, w)
    ensures Legal(n, c, schedule) && !BarrierHolds(Run(Init(n, c), c, schedule).ps)
  {
    hide Next, Needs;
    NeedsItself(n, c.m, i, c.rounds);
    var s := Init(n, c);
    assert At(n, c, [], s);
    schedule, s := Bring(n, c, [], s, w, i, c.rounds);
    OneMore(n, c, schedule, i);
    Returns(s, c, i);
    var last := Next(s, c, i);
    assert Finished(last.ps[i], 0) && !Entered(last.ps[w], 0);
    schedule := schedule + [i];
  }

  lemma Returns(s: State, c: Config, t: nat)
    requires FirstCall(s, c) && t < |s.ps| && Reached(s.ps[t], 0, c.rounds)
    ensures Finished(Next(s, c, t).ps[t], 0)
    ensures forall u :: 0 <= u < |s.ps| && u != t ==> Next(s, c, t).ps[u] == s.ps[u]
  {
  }

  /** With first tag 0 and no more rounds than cover the threads, there is a run in
      which a thread leaves its first call before another has started it. */
  lemma TagZeroIsUnsafe(n: nat, c: Config) returns (schedule: seq<nat>)
    requires n >= 2 && c.m >= 1 && c.firstTag == 0 && c.rounds > 0 && Power(c.m + 1, c.rounds - 1) < n
    ensures Legal(n, c, schedule) && !BarrierHolds(Run(Init(n, c), c, schedule).ps)
  {
    var w := SomebodyIsNotNeeded(n, c.m, 0, c.rounds);
    schedule := LeavesTooEarly(n, c, 0, w);
  }

  // ----- When first tag 0 does no harm -----

  lemma FirstDigit(m: nat, r: nat, k: nat) returns (q: nat, rest: nat)
    requires r > 1 && k < Power(m + 1, r - 1)
    ensures q <= m && rest < Power(m + 1, r - 2) && k == q * Power(m + 1, r - 2) + rest
  {
    var p := Power(m + 1, r - 2);
    Digits(k, p, m);
    q, rest := k / p, k % p;
  }

  /** After `r` rounds of its first call a thread has heard from all that it needs. */
  lemma {:induction false} SpreadLate(ps: seq<Progress>, m: nat, rounds: nat, i: nat, r: nat, k: nat)
    requires m >= 1 && i < |ps| && HeardSome(ps, m, rounds, true)
    requires 0 < r <= rounds && Reached(ps[i], 0, r) && k < Power(m + 1, r - 1)
    ensures Entered(ps[Behind(|ps|, m, i, k)], 0)
    decreases r
  {
    var n := |ps|;
    if r == 1 {
      assert Behind(n, m, i, 0) == i;
    } else {
      var q, rest := FirstDigit(m, r, k);
      hide Power, Peer, Back;
      if q == 0 {
        SpreadLate(ps, m, rounds, i, r - 1, k);
      } else {
        assert HeardFrom(ps[i], 0, r - 1, q);
        SpreadLate(ps, m, rounds, Peer(n, m, i, r - 1, q), r - 1, rest);
        BehindPeer(n, m, i, r - 1, q, rest);
      }
    }
  }

  /** Every thread needs every other. */
  ghost predicate NeedsAll(n: nat, m: nat, rounds: nat)
    requires n > 0
  {
    forall i: nat, w: nat :: i < n && w < n ==> Needs(n, m, i, rounds, w)
  }

  lemma SafeWhenAllNeeded(n: nat, c: Config, schedule: seq<nat>)
    requires n > 0 && Legal(n, c, schedule) && c.firstTag == 0
    requires Power(c.m + 1, c.rounds) >= n && NeedsAll(n, c.m, c.rounds)
    ensures BarrierHolds(Run(Init(n, c), c, schedule).ps)
  {
    var ps := Run(Init(n, c), c, schedule).ps;
    Reachable(n, c, schedule);
    hide Needs, NeedsAll, Power;
    forall i: nat, w: nat, e: nat | i < n && w < n && Finished(ps[i], e) ensures Entered(ps[w], e) {
      if e > 0 { AllHaveEntered(ps, c.m, c.rounds, true, i, w, e); } else { FirstCallWaits(ps, c.m, c.rounds, i, w); }
    }
  }

  lemma FirstCallWaits(ps: seq<Progress>, m: nat, rounds: nat, i: nat, w: nat)
    requires m >= 1 && i < |ps| && w < |ps| && HeardSome(ps, m, rounds, true) && NeedsAll(|ps|, m, rounds)
    requires Finished(ps[i], 0)
    ensures Entered(ps[w], 0)
  {
    assert Needs(|ps|, m, i, rounds, w);
    var k: nat :| k < Span(m, rounds) && w == Behind(|ps|, m, i, k);
    if rounds > 0 { SpreadLate(ps, m, rounds, i, rounds, k); } else { assert Behind(|ps|, m, i, 0) == i; }
  }

  ghost predicate Divides(d: int, x: int) {
    exists q: int :: x == Times(d, q)
  }

  function Times(d: int, q: int): int {
    d * q
  }

  ghost predicate Coprime(a: nat, n: nat) {
    forall d: nat {:trigger Divides(d, a)} :: Divides(d, a) && Divides(d, n) ==> d == 1
  }

  lemma DividesSum(d: int, x: int, y: int, p: int, q: int)
    requires Divides(d, x) && Divides(d, y)
    ensures Divides(d, p * x + q * y)
  {
    var a, b :| x == Times(d, a) && y == Times(d, b);
    assert p * x + q * y == Times(d, p * a + q * b);
  }

  lemma Exchange(u: int, v: int, a: int, n: int, q: int)
    ensures v * a + (u - q * v) * n == u * n + v * (a - q * n)
  {
    assert q * v * n == v * (q * n);
  }

  /** The extended algorithm of Euclid. */
  lemma {:induction false} Bezout(a: nat, n: nat) returns (x: int, y: int, g: nat)
    requires a > 0 || n > 0
    ensures x * a + y * n == g > 0 && Divides(g, a) && Divides(g, n)
    decreases n
  {
    if n == 0 {
      x, y, g := 1, 0, a;
      assert a == Times(a, 1) && 0 == Times(a, 0);
    } else {
      var u, v;
      u, v, g := Bezout(n, a % n);
      x, y := v, u - a / n * v;
      Exchange(u, v, a, n, a / n);
      DividesSum(g, n, a % n, a / n, 1);
    }
  }

  /** If the multiples of `m + 1` cover all places, the number 1 is among them. */
  lemma CoveringIsCoprime(n: nat, m: nat, rounds: nat)
    requires n >= 2 && NeedsAll(n, m, rounds)
    ensures Coprime(m + 1, n)
  {
    forall d: nat | Divides(d, m + 1) && Divides(d, n) ensures d == 1 {
      assert Needs(n, m, 1, rounds, 0);
      var k: nat :| k < Span(m, rounds) && 0 == Behind(n, m, 1, k);
      var t := Turns(n, 1 - k * (m + 1));
      assert 1 == k * (m + 1) + t * n;
      DividesSum(d, m + 1, n, k, t);
      var z :| 1 == Times(d, z);
      ProductBound(z, d);
    }
  }

  lemma CoprimeCovers(n: nat, m: nat, rounds: nat)
    requires n > 0 && Coprime(m + 1, n) && Span(m, rounds) >= n
    ensures NeedsAll(n, m, rounds)
  {
    var x, y, g := Bezout(m + 1, n);
    assert g == 1;
    forall i: nat, w: nat | i < n && w < n ensures Needs(n, m, i, rounds, w) {
      var d := Distance(n, i, w);
      var k := Wrap(n, d * x);
      var t := Turns(n, d * x);
      assert k * (m + 1) == d + (0 - d * y - t * (m + 1)) * n by {
        Regrouped(d, x, m + 1, y, n, t, k);
      }
      WrapPeriodic(n, i - d, d * y + t * (m + 1));
      assert i - k * (m + 1) == (i - d) + (d * y + t * (m + 1)) * n;
      assert w == Behind(n, m, i, k);
    }
  }

  lemma Regrouped(d: int, x: int, a: int, y: int, n: int, t: int, k: int)
    requires x * a + y * n == 1 && d * x == k + t * n
    ensures k * a == d + (0 - d * y - t * a) * n
  {
    assert k * a == d * x * a - t * n * a;
    assert d * (x * a) == d * (1 - y * n);
    assert d * x * a == d - d * y * n;
  }

  /** All threads need each other if and only if there is one thread, or `m + 1` has no
      divisor in common with the number of threads and one round less covers them. */
  lemma NeedsAllIff(n: nat, m: nat, rounds: nat)
    requires n > 0 && Power(m + 1, rounds) >= n
    ensures NeedsAll(n, m, rounds) <==> n == 1 || (Coprime(m + 1, n) && Power(m + 1, rounds - 1) >= n)
  {
    if n == 1 {
      forall i: nat, w: nat | i < n && w < n ensures Needs(n, m, i, rounds, w) { NeedsItself(n, m, i, rounds); }
    } else if NeedsAll(n, m, rounds) {
      CoveringIsCoprime(n, m, rounds);
      if Power(m + 1, rounds - 1) < n { var w := SomebodyIsNotNeeded(n, m, 0, rounds); }
    } else if Coprime(m + 1, n) && Power(m + 1, rounds - 1) >= n {
      CoprimeCovers(n, m, rounds);
    }
  }

  /** For any number of threads and of peers per round and any number of rounds that
      covers the threads, in both variants: every run before the reset has the barrier
      property if and only if the first tag is above 0, or there is one thread, or one
      round less covers the threads and `m + 1` and their number are coprime. */
  lemma SafeIff(n: nat, c: Config)
    requires n > 0 && c.m >= 1 && Power(c.m + 1, c.rounds) >= n
    ensures (forall schedule :: Legal(n, c, schedule) ==> BarrierHolds(Run(Init(n, c), c, schedule).ps)) <==>
      (c.firstTag >= 1 || n == 1 || (Coprime(c.m + 1, n) && Power(c.m + 1, c.rounds - 1) >= n))
  {
    NeedsAllIff(n, c.m, c.rounds);
    if c.firstTag >= 1 {
      forall schedule | Legal(n, c, schedule) ensures BarrierHolds(Run(Init(n, c), c, schedule).ps) {
        BarrierIsSafe(n, c, schedule);
      }
    } else if NeedsAll(n, c.m, c.rounds) {
      forall schedule | Legal(n, c, schedule) ensures BarrierHolds(Run(Init(n, c), c, schedule).ps) {
        SafeWhenAllNeeded(n, c, schedule);
      }
    } else {
      var i: nat, w: nat :| i < n && w < n && !Needs(n, c.m, i, c.rounds, w);
      var schedule := LeavesTooEarly(n, c, i, w);
    }
  }

  /** With the least number of rounds that covers two or more threads, as the benchmark
      computes it, only the first tag decides. */
  lemma SafeIffTagPositive(n: nat, c: Config)
    requires n >= 2 && c.m >= 1 && c.rounds > 0 && Power(c.m + 1, c.rounds - 1) < n <= Power(c.m + 1, c.rounds)
    ensures (forall schedule :: Legal(n, c, schedule) ==> BarrierHolds(Run(Init(n, c), c, schedule).ps)) <==>
      c.firstTag >= 1
  {
    SafeIff(n, c);
  }
}
