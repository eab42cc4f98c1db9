/**
 What the repository's three dissemination barriers share.

 In round `r` a thread announces itself and then waits for `m` peers, the ones
 `q * (m+1)^r` places behind it for `q` in `1..m`. The barriers differ in how an
 announcement travels; here it only matters that a thread that passed such a
 wait did so after the peer's announcement.
 */
module Dissemination {

  datatype Phase =
    | Outside                // between two calls of the barrier
    | Announcing             // about to announce the round, or to return after the last one
    | Listening(heard: nat)  // announced the round, heard from that many peers

  /** How far a thread is: the call it is in or will make next, and its round. */
  datatype Progress = Progress(episode: nat, round: nat, phase: Phase)

  /** The thread has started its call number `e`. */
  predicate Entered(p: Progress, e: nat) {
    p.episode > e || (p.episode == e && !p.phase.Outside?)
  }

  /** The thread has returned from its call number `e`. */
  predicate Finished(p: Progress, e: nat) {
    p.episode > e
  }

  /** The thread has completed the first `r` rounds of call `e`. */
  predicate Reached(p: Progress, e: nat, r: nat) {
    p.episode > e || (p.episode == e && !p.phase.Outside? && p.round >= r)
  }

  /** The thread has announced round `r` of call `e`. */
  predicate Announced(p: Progress, e: nat, r: nat) {
    p.episode > e
    || (p.episode == e && !p.phase.Outside? && (p.round > r || (p.round == r && p.phase.Listening?)))
  }

  /** In round `r` of call `e` the thread has waited for its peer number `q`. */
  predicate HeardFrom(p: Progress, e: nat, r: nat, q: nat) {
    Reached(p, e, r + 1) || (p.episode == e && p.round == r && p.phase.Listening? && q <= p.phase.heard)
  }

  function Power(b: nat, k: nat): (v: nat)
    ensures b > 0 ==> v > 0
  {
    if k == 0 then 1 else b * Power(b, k - 1)
  }

  /** The place on a ring of `n` threads that `x` denotes. */
  function Wrap(n: nat, x: int): (j: nat)
    requires n > 0
    ensures j < n
    decreases x < 0, if x < 0 then -x else x
  {
    if x < 0 then Wrap(n, x + n) else if x >= n then Wrap(n, x - n) else x
  }

  /** The thread `d` places behind thread `i`. */
  function Back(n: nat, i: nat, d: nat): (j: nat)
    requires n > 0
    ensures j < n
  {
    Wrap(n, i - d)
  }

  /** The thread `d` places ahead of thread `i`. */
  function Ahead(n: nat, i: nat, d: nat): (j: nat)
    requires n > 0
    ensures j < n
  {
    Wrap(n, i + d)
  }

  /** The peer number `q` that a thread waits for in round `r`. */
  function Peer(n: nat, m: nat, i: nat, r: nat, q: nat): (j: nat)
    requires n > 0
    ensures j < n
  {
    Back(n, i, q * Power(m + 1, r))
  }

  lemma ProductBound(d: int, n: nat)
    ensures d >= 1 ==> d * n >= n
    ensures d <= -1 ==> d * n <= 0 - n
  {
    if d >= 1 { assert d * n == n + (d - 1) * n; }
    if d <= -1 { assert d * n == (0 - n) + (d + 1) * n; }
  }

  /** Two numbers that differ by a multiple of `n` denote the same place. */
  lemma {:induction false} WrapPeriodic(n: nat, x: int, k: int)
    requires n > 0
    ensures Wrap(n, x + k * n) == Wrap(n, x)
    decreases if k < 0 then -k else k
  {
    if k > 0 {
      assert x + k * n == x + (k - 1) * n + n;
      WrapPeriodic(n, x, k - 1);
      WrapOnce(n, x + (k - 1) * n);
    } else if k < 0 {
      assert x + (k + 1) * n == x + k * n + n;
      WrapPeriodic(n, x, k + 1);
      WrapOnce(n, x + k * n);
    }
  }

  lemma {:induction false} WrapOnce(n: nat, x: int)
    requires n > 0
    ensures Wrap(n, x + n) == Wrap(n, x)
  {
  }

  /** The number of turns taken off or added. */
  lemma {:induction false} Turns(n: nat, x: int) returns (k: int)
    requires n > 0
    ensures x == Wrap(n, x) + k * n
    decreases x < 0, if x < 0 then -x else x
  {
    k := 0;
    if x < 0 {
      var l := Turns(n, x + n);
      k := l - 1;
      assert k * n == l * n - n;
    } else if x >= n {
      var l := Turns(n, x - n);
      k := l + 1;
      assert k * n == l * n + n;
    }
  }

  lemma BackAdds(n: nat, i: nat, a: nat, b: nat)
    requires n > 0
    ensures Back(n, Back(n, i, a), b) == Back(n, i, a + b)
  {
    var k := Turns(n, i - a);
    WrapPeriodic(n, Back(n, i, a) - b, k);
  }

  lemma BackOfAhead(n: nat, i: nat, d: nat)
    requires n > 0 && i < n
    ensures Back(n, Ahead(n, i, d), d) == i
  {
    var k := Turns(n, i + d);
    WrapPeriodic(n, Ahead(n, i, d) - d, k);
  }

  lemma AheadOfBack(n: nat, i: nat, d: nat)
    requires n > 0 && i < n
    ensures Ahead(n, Back(n, i, d), d) == i
  {
    var k := Turns(n, i - d);
    WrapPeriodic(n, Back(n, i, d) + d, k);
  }

  /** Every thread lies less than `n` places behind every other. */
  lemma Distance(n: nat, i: nat, j: nat) returns (d: nat)
    requires n > 0 && i < n && j < n
    ensures d < n && Back(n, i, d) == j
  {
    d := if i >= j then i - j else i - j + n;
    WrapOnce(n, i - d);
  }

  /** The loop with which the barriers find the thread `d` places behind. */
  method WalkBack(n: nat, i: nat, d: nat) returns (peer: nat)
    requires n > 0 && i < n
    ensures peer == Back(n, i, d)
  {
    var x: int := i - d;
    while x < 0
      invariant x < n && Wrap(n, x) == Back(n, i, d)
    {
      x := x + n;
    }
    peer := x;
  }

  /** With one peer per round, the peer in round `r` is `2^r` places behind. */
  lemma OnlyPeer(n: nat, i: nat, r: nat)
    requires n > 0
    ensures Peer(n, 1, i, r, 1) == Back(n, i, Power(2, r))
  {
  }

  // ----- Progress and the invariant -----

  predicate ValidProgress(p: Progress, m: nat, rounds: nat) {
    && p.round <= rounds
    && (p.phase.Outside? ==> p.round == 0)
    && (p.phase.Listening? ==> p.round < rounds && p.phase.heard < m)
  }

  /** In how many calls the thread has announced round `r`. */
  function Announcements(p: Progress, r: nat): nat {
    p.episode + (if Announced(p, p.episode, r) then 1 else 0)
  }

  /** In how many calls the thread has completed round `r`. */
  function Completions(p: Progress, r: nat): nat {
    p.episode + (if Reached(p, p.episode, r + 1) then 1 else 0)
  }

  /** One step of a thread through the barrier code. */
  function Advance(p: Progress, m: nat, rounds: nat): (p': Progress)
    requires ValidProgress(p, m, rounds) && m >= 1
    ensures ValidProgress(p', m, rounds)
  {
    match p.phase
    case Outside => p.(phase := Announcing)
    case Announcing =>
      if p.round < rounds then p.(phase := Listening(0)) else Progress(p.episode + 1, 0, Outside)
    case Listening(h) =>
      if h + 1 < m then p.(phase := Listening(h + 1)) else Progress(p.episode, p.round + 1, Announcing)
  }

  /** The announcement that thread `i` waits for next has been made. */
  predicate PeerAnnounced(ps: seq<Progress>, m: nat, i: nat)
    requires i < |ps| && ps[i].phase.Listening?
  {
    Announced(ps[Peer(|ps|, m, i, ps[i].round, ps[i].phase.heard + 1)], ps[i].episode, ps[i].round)
  }

  /** Nobody got past a wait before the announcement it waited for. With `lenient`
      the waits in round 0 of the first call do not count. */
  ghost predicate HeardSome(ps: seq<Progress>, m: nat, rounds: nat, lenient: bool) {
    && (forall i :: 0 <= i < |ps| ==> ValidProgress(ps[i], m, rounds))
    && (forall i: nat, e: nat, r: nat, q: nat {:trigger HeardFrom(ps[i], e, r, q)} ::
          (i < |ps| && r < rounds && 1 <= q <= m && HeardFrom(ps[i], e, r, q) && (lenient ==> e > 0 || r > 0)) ==>
            Announced(ps[Peer(|ps|, m, i, r, q)], e, r))
  }

  ghost predicate Heard(ps: seq<Progress>, m: nat, rounds: nat) {
    HeardSome(ps, m, rounds, false)
  }

  lemma AdvanceKeepsSome(ps: seq<Progress>, m: nat, rounds: nat, lenient: bool, t: nat)
    requires m >= 1 && t < |ps| && HeardSome(ps, m, rounds, lenient)
    requires ps[t].phase.Listening? && (lenient ==> ps[t].episode > 0 || ps[t].round > 0) ==> PeerAnnounced(ps, m, t)
    ensures HeardSome(ps[t := Advance(ps[t], m, rounds)], m, rounds, lenient)
  {
    var ps' := ps[t := Advance(ps[t], m, rounds)];
    forall i: nat, e: nat, r: nat, q: nat |
      i < |ps| && r < rounds && 1 <= q <= m && HeardFrom(ps'[i], e, r, q) && (lenient ==> e > 0 || r > 0)
      ensures Announced(ps'[Peer(|ps|, m, i, r, q)], e, r)
    {
      assert HeardFrom(ps[i], e, r, q) || i == t;
      assert Announced(ps[Peer(|ps|, m, i, r, q)], e, r);
    }
  }

  lemma AdvanceKeepsHeard(ps: seq<Progress>, m: nat, rounds: nat, t: nat)
    requires m >= 1 && t < |ps| && Heard(ps, m, rounds)
    requires ps[t].phase.Listening? ==> PeerAnnounced(ps, m, t)
    ensures Heard(ps[t := Advance(ps[t], m, rounds)], m, rounds)
  {
    AdvanceKeepsSome(ps, m, rounds, false, t);
  }

  // ----- The dissemination argument -----

  lemma Digits(d: nat, w: nat, m: nat)
    requires w > 0 && d < (m + 1) * w
    ensures d / w <= m && d == (d / w) * w + d % w
  {
    assert d == (d / w) * w + d % w;
    assert (m + 1 - d / w) * w == (m + 1) * w - (d / w) * w;
    ProductBound(m + 1 - d / w, w);
  }

  /** After `r` rounds a thread has, directly or through others, heard from the
      `(m+1)^r - 1` threads behind it. */
  lemma {:induction false} Spread(ps: seq<Progress>, m: nat, rounds: nat, lenient: bool, i: nat, e: nat, r: nat, d: nat)
    requires m >= 1 && i < |ps| && HeardSome(ps, m, rounds, lenient) && (lenient ==> e > 0)
    requires r <= rounds && Reached(ps[i], e, r) && d < Power(m + 1, r)
    ensures Entered(ps[Back(|ps|, i, d)], e)
    decreases r
  {
    var n := |ps|;
    if r == 0 {
      assert Back(n, i, 0) == i;
    } else {
      var w := Power(m + 1, r - 1);
      var q := d / w;
      Digits(d, w, m);
      if q == 0 {
        Spread(ps, m, rounds, lenient, i, e, r - 1, d);
      } else {
        assert HeardFrom(ps[i], e, r - 1, q);
        var j := Peer(n, m, i, r - 1, q);
        Spread(ps, m, rounds, lenient, j, e, r - 1, d % w);
        BackAdds(n, i, q * w, d % w);
      }
    }
  }

  /** The barrier property: a thread returns from call `e` only after every
      thread has started call `e`. */
  ghost predicate BarrierHolds(ps: seq<Progress>) {
    forall i: nat, j: nat, e: nat :: i < |ps| && j < |ps| && Finished(ps[i], e) ==> Entered(ps[j], e)
  }

  lemma AllHaveEntered(ps: seq<Progress>, m: nat, rounds: nat, lenient: bool, i: nat, j: nat, e: nat)
    requires m >= 1 && i < |ps| && j < |ps| && HeardSome(ps, m, rounds, lenient) && (lenient ==> e > 0)
    requires Power(m + 1, rounds) >= |ps| && Reached(ps[i], e, rounds)
    ensures Entered(ps[j], e)
  {
    var d := Distance(|ps|, i, j);
    Spread(ps, m, rounds, lenient, i, e, rounds, d);
  }

  lemma HeardGivesBarrier(ps: seq<Progress>, m: nat, rounds: nat)
    requires m >= 1 && Heard(ps, m, rounds) && Power(m + 1, rounds) >= |ps|
    ensures BarrierHolds(ps)
  {
    forall i: nat, j: nat, e: nat | i < |ps| && j < |ps| && Finished(ps[i], e) ensures Entered(ps[j], e) {
      AllHaveEntered(ps, m, rounds, false, i, j, e);
    }
  }

  /** No two threads are ever more than one call apart. */
  lemma WithinOneCall(ps: seq<Progress>, i: nat, j: nat)
    requires BarrierHolds(ps) && i < |ps| && j < |ps|
    ensures ps[i].episode <= ps[j].episode + 1
  {
    if ps[i].episode > 0 { assert Finished(ps[i], ps[i].episode - 1); }
  }

  /** Whoever waits inside the barrier waits for a chain of peers that ends in a
      thread that can take a step, or has yet to make the call. */
  lemma {:induction false} Unblocked(ps: seq<Progress>, m: nat, rounds: nat, i: nat) returns (j: nat)
    requires i < |ps| && Heard(ps, m, rounds) && m >= 1
    ensures j < |ps| && ps[j].episode <= ps[i].episode
    ensures ps[j].phase.Listening? ==> PeerAnnounced(ps, m, j)
    decreases ps[i].episode, !ps[i].phase.Outside?, ps[i].round, ps[i].phase.Listening?
  {
    j := i;
    if ps[i].phase.Listening? && !PeerAnnounced(ps, m, i) {
      j := Unblocked(ps, m, rounds, Peer(|ps|, m, i, ps[i].round, ps[i].phase.heard + 1));
    }
  }

  // ----- How far it is to the end of a call -----

  /** The steps that `r` rounds take: an announcement and `m` waits each. */
  function RoundSteps(r: nat, m: nat): nat {
    if r == 0 then 0 else RoundSteps(r - 1, m) + m + 1
  }

  /** The steps that `k` whole calls take: besides the rounds, to enter and to return. */
  function CallSteps(k: nat, m: nat, rounds: nat): nat {
    if k == 0 then 0 else CallSteps(k - 1, m, rounds) + RoundSteps(rounds, m) + 2
  }

  /** The steps that a thread has left until it returns from call `e`. */
  function StepsLeft(p: Progress, m: nat, rounds: nat, e: nat): nat
    requires ValidProgress(p, m, rounds) && m >= 1
  {
    if Finished(p, e) then 0
    else
      CallSteps(e - p.episode, m, rounds) +
      match p.phase
      case Outside => RoundSteps(rounds, m) + 2
      case Announcing => RoundSteps(rounds - p.round, m) + 1
      case Listening(h) => RoundSteps(rounds - p.round, m) - h
  }

  ghost predicate AllValid(ps: seq<Progress>, m: nat, rounds: nat) {
    m >= 1 && forall i :: 0 <= i < |ps| ==> ValidProgress(ps[i], m, rounds)
  }

  /** The steps that all threads together have left until they return from call `e`. */
  ghost function Work(ps: seq<Progress>, m: nat, rounds: nat, e: nat): nat
    requires AllValid(ps, m, rounds)
    decreases |ps|
  {
    if ps == [] then 0 else Work(ps[..|ps| - 1], m, rounds, e) + StepsLeft(ps[|ps| - 1], m, rounds, e)
  }

  /** Every step that is taken is one step less. */
  lemma OneStepLess(p: Progress, m: nat, rounds: nat, e: nat)
    requires ValidProgress(p, m, rounds) && m >= 1 && !Finished(p, e)
    ensures ValidProgress(Advance(p, m, rounds), m, rounds)
    ensures StepsLeft(Advance(p, m, rounds), m, rounds, e) == StepsLeft(p, m, rounds, e) - 1
  {
  }

  lemma {:induction false} WorkDrops(ps: seq<Progress>, m: nat, rounds: nat, e: nat, t: nat)
    requires AllValid(ps, m, rounds) && t < |ps| && !Finished(ps[t], e)
    ensures AllValid(ps[t := Advance(ps[t], m, rounds)], m, rounds)
    ensures Work(ps[t := Advance(ps[t], m, rounds)], m, rounds, e) == Work(ps, m, rounds, e) - 1
    decreases |ps|
  {
    var ps' := ps[t := Advance(ps[t], m, rounds)];
    OneStepLess(ps[t], m, rounds, e);
    hide Advance, StepsLeft;
    if t == |ps| - 1 {
      assert ps'[..t] == ps[..t];
    } else {
      assert ps'[..|ps| - 1] == ps[..|ps| - 1][t := Advance(ps[t], m, rounds)];
      WorkDrops(ps[..|ps| - 1], m, rounds, e, t);
    }
  }

  lemma {:induction false} NoWorkLeft(ps: seq<Progress>, m: nat, rounds: nat, e: nat)
    requires AllValid(ps, m, rounds) && forall i :: 0 <= i < |ps| ==> Finished(ps[i], e)
    ensures Work(ps, m, rounds, e) == 0
    decreases |ps|
  {
    if ps != [] { NoWorkLeft(ps[..|ps| - 1], m, rounds, e); }
  }

  /** Everybody that had not returned from call `e` has, and has made no further call;
      the others are where they were. */
  ghost predicate CallEnded(ps: seq<Progress>, ps': seq<Progress>, e: nat) {
    && |ps'| == |ps|
    && forall i :: 0 <= i < |ps| ==> ps'[i] == if Finished(ps[i], e) then ps[i] else Progress(e + 1, 0, Outside)
  }

  /** A step of a thread that has not returned from call `e`, and then the others. */
  lemma CallGoesOn(ps: seq<Progress>, m: nat, rounds: nat, e: nat, t: nat, ps': seq<Progress>)
    requires AllValid(ps, m, rounds) && t < |ps| && !Finished(ps[t], e)
    requires CallEnded(ps[t := Advance(ps[t], m, rounds)], ps', e)
    ensures CallEnded(ps, ps', e)
  {
    var next := ps[t := Advance(ps[t], m, rounds)];
    forall i | 0 <= i < |ps|
      ensures ps'[i] == if Finished(ps[i], e) then ps[i] else Progress(e + 1, 0, Outside)
    {
      assert i != t ==> next[i] == ps[i];
    }
  }

  /** Some thread that has not returned from call `e` can take its next step. */
  lemma SomebodyGoesOn(ps: seq<Progress>, m: nat, rounds: nat, e: nat) returns (j: nat)
    requires m >= 1 && Heard(ps, m, rounds) && exists i :: 0 <= i < |ps| && !Finished(ps[i], e)
    ensures j < |ps| && !Finished(ps[j], e) && (ps[j].phase.Listening? ==> PeerAnnounced(ps, m, j))
  {
    var i :| 0 <= i < |ps| && !Finished(ps[i], e);
    j := Unblocked(ps, m, rounds, i);
  }
}
