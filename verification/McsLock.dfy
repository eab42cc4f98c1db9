/**
 The swap-only MCS queue lock of `bench/diss_bar/mcs.c`.

 A thread `t` owns queue node `t`. One step of a thread is one access to shared
 memory; `Next(s, t)` lets thread `t` take its next step, and a run is the
 fold of `Next` over any schedule of thread numbers, so every interleaving of
 any number of threads is covered.
 */
module McsLock {
  import opened Options

  type Tid = nat

  /** The program points of `mcs_lock_lock` and `mcs_lock_unlock`, each with the
      local variables that are live there. */
  datatype Pc =
    | Idle                                        // outside both functions
    | Swapping                                    // `next` cleared, before the exchange
    | Marking(pred: Tid)                          // before `qnode->locked = 1`
    | Linking(pred: Tid)                          // before `predecessor->next = qnode`
    | Spinning                                    // in `while (qnode->locked)`
    | Critical                                    // holds the lock
    | Emptying                                    // read `next == 0`, before the first exchange
    | Restoring(oldTail: Option<Tid>)             // inside the release window
    | Awaiting(usurper: Option<Tid>)              // in `while (qnode->next == 0)`
    | Rereading(usurper: Option<Tid>)             // before loading `qnode->next` again
    | Delivering(usurper: Option<Tid>, succ: Tid) // before the final store of the release
    | Faulted                                     // dereferenced a null pointer

  datatype State = State(lock: Option<Tid>, pc: seq<Pc>, next: seq<Option<Tid>>, locked: seq<bool>)

  /** Every pointer in the state names one of the `|pc|` queue nodes. */
  predicate InRange(o: Option<Tid>, n: nat) {
    o.Some? ==> o.value < n
  }

  predicate PcInRange(p: Pc, n: nat) {
    match p
    case Marking(q) => q < n
    case Linking(q) => q < n
    case Restoring(o) => InRange(o, n)
    case Awaiting(u) => InRange(u, n)
    case Rereading(u) => InRange(u, n)
    case Delivering(u, q) => InRange(u, n) && q < n
    case _ => true
  }

  predicate WellFormed(s: State) {
    && |s.next| == |s.pc| && |s.locked| == |s.pc|
    && InRange(s.lock, |s.pc|)
    && (forall t :: 0 <= t < |s.pc| ==> PcInRange(s.pc[t], |s.pc|))
    && (forall t :: 0 <= t < |s.pc| ==> InRange(s.next[t], |s.pc|))
  }

  function Init(n: nat): (s: State)
    ensures WellFormed(s) && |s.pc| == n
  {
    State(None, seq(n, _ => Idle), seq(n, _ => None), seq(n, _ => false))
  }

  /** Thread `t` performs its next access to shared memory. A test that keeps a
      spin loop going leaves the state as it is. */
  function Next(s: State, t: Tid): (s': State)
    requires WellFormed(s) && t < |s.pc|
    ensures WellFormed(s') && |s'.pc| == |s.pc|
  {
    match s.pc[t]
    case Idle => s.(pc := s.pc[t := Swapping], next := s.next[t := None])
    case Swapping =>
      s.(lock := Some(t), pc := s.pc[t := if s.lock.None? then Critical else Marking(s.lock.value)])
    case Marking(pred) => s.(pc := s.pc[t := Linking(pred)], locked := s.locked[t := true])
    case Linking(pred) => s.(pc := s.pc[t := Spinning], next := s.next[pred := Some(t)])
    case Spinning => if s.locked[t] then s else s.(pc := s.pc[t := Critical])
    case Critical => s.(pc := s.pc[t := if s.next[t].None? then Emptying else Rereading(None)])
    case Emptying =>
      s.(lock := None, pc := s.pc[t := if s.lock == Some(t) then Idle else Restoring(s.lock)])
    case Restoring(oldTail) => s.(lock := oldTail, pc := s.pc[t := Awaiting(s.lock)])
    case Awaiting(u) => if s.next[t].None? then s else s.(pc := s.pc[t := Rereading(u)])
    case Rereading(u) =>
      s.(pc := s.pc[t := if s.next[t].None? then Faulted else Delivering(u, s.next[t].value)])
    case Delivering(u, succ) =>
      if u.Some? then s.(pc := s.pc[t := Idle], next := s.next[u.value := Some(succ)])
      else s.(pc := s.pc[t := Idle], locked := s.locked[succ := false])
    case Faulted => s
  }

  /** The state after the threads of `schedule` have taken their steps in turn. */
  function Run(s: State, schedule: seq<Tid>): (s': State)
    requires WellFormed(s) && forall k :: 0 <= k < |schedule| ==> schedule[k] < |s.pc|
    ensures WellFormed(s') && |s'.pc| == |s.pc|
    decreases |schedule|
  {
    if schedule == [] then s
    else Next(Run(s, schedule[..|schedule| - 1]), schedule[|schedule| - 1])
  }

  // ----- The queue as the proof sees it -----

  /** Where a queued thread stands: its neighbours, the first thread of its
      chain, the chain's end (kept at the first thread), and a number that grows
      towards the end. A chain may hold releasing threads that still owe their
      predecessor a link. */
  datatype Place = Place(prev: Option<Tid>, succ: Option<Tid>, head: Tid, tail: Tid, rank: nat)

  type Queue = seq<Place>

  predicate Queued(p: Pc) {
    !p.Idle? && !p.Swapping?
  }

  predicate In(s: State, t: Tid) {
    t < |s.pc| && Queued(s.pc[t])
  }

  predicate Releasing(p: Pc) {
    p.Awaiting? || p.Rereading? || p.Delivering?
  }

  /** A thread at `p` is going to store a link into the node of `y`. */
  predicate Owes(p: Pc, y: Tid) {
    ((p.Marking? || p.Linking?) && p.pred == y) || (Releasing(p) && p.usurper == Some(y))
  }

  /** Thread `x` stands directly behind `y`: either `y.next` already names `x`
      and `x` is blocked, or `y.next` is null and `x` is the one that will set it. */
  ghost predicate LinkOk(s: State, y: Tid, x: Tid)
    requires WellFormed(s) && y < |s.pc| && x < |s.pc|
  {
    if s.pc[x].Spinning? then s.locked[x] && s.next[y] == Some(x)
    else Owes(s.pc[x], y) && s.next[y].None? && (s.pc[x].Linking? ==> s.locked[x])
  }

  /** What a releasing thread knows about its own `next` pointer. */
  ghost predicate OwnOk(s: State, x: Tid)
    requires WellFormed(s) && x < |s.pc|
  {
    && (s.pc[x].Rereading? ==> s.next[x].Some?)
    && (s.pc[x].Delivering? ==> s.next[x] == Some(s.pc[x].succ))
  }

  /** The right to enter is with thread `t`. */
  predicate HasToken(s: State, t: Tid)
    requires WellFormed(s) && t < |s.pc|
  {
    || (s.pc[t].Spinning? && !s.locked[t])
    || s.pc[t].Critical?
    || s.pc[t].Emptying?
    || (Releasing(s.pc[t]) && s.pc[t].usurper.None?)
  }

  /** The first thread of a chain either holds the right to enter, and then the
      lock word names the chain's end, or it is inside its release window and
      remembers the chain's end. */
  ghost predicate HeadOk(s: State, h: Tid, tail: Tid)
    requires WellFormed(s) && h < |s.pc|
  {
    if s.pc[h].Restoring? then
      s.pc[h].oldTail == Some(tail) && tail != h && s.lock != Some(tail)
    else
      HasToken(s, h) && s.lock == Some(tail) && (s.pc[h].Awaiting? ==> tail != h)
  }

  /** The chain of `x` has a first thread, and `x` keeps its own promises. */
  ghost predicate HomeOk(s: State, q: Queue, x: Tid)
    requires WellFormed(s) && |q| == |s.pc| && x < |q|
  {
    In(s, q[x].head) && q[q[x].head].head == q[x].head && q[q[x].head].prev.None? && OwnOk(s, x)
  }

  /** What lies in front of `x`: nothing, or the thread that `x` is linked to. */
  ghost predicate FrontOk(s: State, q: Queue, x: Tid)
    requires WellFormed(s) && |q| == |s.pc| && x < |q|
  {
    var p := q[x];
    match p.prev
    case None =>
      p.head == x && HeadOk(s, x, p.tail) && In(s, p.tail) && q[p.tail].head == x && q[p.tail].succ.None?
    case Some(y) =>
      In(s, y) && q[y].succ == Some(x) && q[y].head == p.head && q[y].rank < p.rank && LinkOk(s, y, x)
  }

  /** What lies behind `x`: nothing, and then `x` ends its chain, or its successor. */
  ghost predicate BackOk(s: State, q: Queue, x: Tid)
    requires WellFormed(s) && |q| == |s.pc| && x < |q| && q[x].head < |q|
  {
    match q[x].succ
    case None => q[q[x].head].tail == x && s.next[x].None? && !s.pc[x].Awaiting?
    case Some(z) => In(s, z) && q[z].prev == Some(x)
  }

  ghost predicate PlaceOk(s: State, q: Queue, x: Tid)
    requires WellFormed(s) && |q| == |s.pc| && x < |q|
  {
    HomeOk(s, q, x) && FrontOk(s, q, x) && BackOk(s, q, x)
  }

  ghost predicate Inv(s: State, q: Queue) {
    && WellFormed(s)
    && |q| == |s.pc|
    && (forall x: Tid {:trigger PlaceOk(s, q, x)} :: In(s, x) ==> PlaceOk(s, q, x))
    && (forall x :: 0 <= x < |s.pc| && s.pc[x].Swapping? ==> s.next[x].None?)
    && (s.lock.Some? ==> In(s, s.lock.value) && q[s.lock.value].succ.None?)
  }

  // ----- Every step keeps the invariant -----

  /** The facts about a thread together with those about its neighbours. */
  lemma Around(s: State, q: Queue, x: Tid)
    requires Inv(s, q) && In(s, x)
    ensures PlaceOk(s, q, x) && PlaceOk(s, q, q[x].head) && PlaceOk(s, q, q[q[x].head].tail)
    ensures q[x].prev.Some? ==> PlaceOk(s, q, q[x].prev.value)
    ensures q[x].succ.Some? ==> PlaceOk(s, q, q[x].succ.value)
  {
    assert PlaceOk(s, q, x);
    assert PlaceOk(s, q, q[x].head);
  }

  /** Nobody stands in the chain of a thread that has no successor. */
  lemma {:induction false} Alone(s: State, q: Queue, x: Tid)
    requires Inv(s, q) && In(s, x)
    requires PlaceOk(s, q, x) && q[q[x].head].succ.None?
    ensures x == q[x].head
    decreases q[x].rank
  {
    Around(s, q, x);
    if q[x].prev.Some? { Alone(s, q, q[x].prev.value); }
  }

  lemma NoFault(s: State, q: Queue, t: Tid)
    requires Inv(s, q) && t < |s.pc|
    ensures !s.pc[t].Faulted?
  {
    if In(s, t) { Around(s, q, t); }
  }

  /** A thread `t` joins the chain that ends in `y`. */
  ghost function Append(q: Queue, y: Tid, t: Tid): Queue
    requires y < |q| && t < |q| && q[y].head < |q|
  {
    seq(|q|, x requires 0 <= x < |q| =>
      if x == t then Place(Some(y), None, q[y].head, t, q[y].rank + 1)
      else var p := if x == y then q[x].(succ := Some(t)) else q[x];
           if x == q[y].head then p.(tail := t) else p)
  }

  /** The chain of the releaser `t` joins the chain that ends in `y`. */
  ghost function Rejoin(q: Queue, y: Tid, t: Tid, bound: nat): Queue
    requires y < |q| && t < |q|
  {
    seq(|q|, x requires 0 <= x < |q| =>
      if q[x].head == t then q[x].(head := q[y].head, rank := q[x].rank + bound,
                                   prev := if x == t then Some(y) else q[x].prev)
      else var p := if x == y then q[x].(succ := Some(t)) else q[x];
           if x == q[y].head then p.(tail := q[t].tail) else p)
  }

  /** The releaser `t`, which stands between `y` and `z`, leaves its chain. */
  ghost function Unlink(q: Queue, y: Tid, z: Tid): Queue
    requires y < |q| && z < |q|
  {
    seq(|q|, x requires 0 <= x < |q| =>
      if x == y then q[x].(succ := Some(z)) else if x == z then q[x].(prev := Some(y)) else q[x])
  }

  /** The first thread `t` of a chain leaves it to its successor `z`. */
  ghost function Advance(q: Queue, t: Tid, z: Tid): Queue
    requires t < |q| && z < |q|
  {
    seq(|q|, x requires 0 <= x < |q| =>
      var p := if x == z then q[x].(prev := None, tail := q[t].tail) else q[x];
      if p.head == t then p.(head := z) else p)
  }

  lemma RejoinAt(q: Queue, y: Tid, t: Tid, bound: nat, x: Tid)
    requires y < |q| && t < |q| && x < |q|
    ensures |Rejoin(q, y, t, bound)| == |q|
    ensures q[x].head == t ==>
      Rejoin(q, y, t, bound)[x] == q[x].(head := q[y].head, rank := q[x].rank + bound,
                                         prev := if x == t then Some(y) else q[x].prev)
    ensures q[x].head != t ==>
      Rejoin(q, y, t, bound)[x] == q[x].(succ := if x == y then Some(t) else q[x].succ,
                                         tail := if x == q[y].head then q[t].tail else q[x].tail)
  {
  }

  lemma AdvanceAt(q: Queue, t: Tid, z: Tid, x: Tid)
    requires t < |q| && z < |q| && x < |q|
    ensures |Advance(q, t, z)| == |q|
    ensures Advance(q, t, z)[x] == q[x].(head := if q[x].head == t then z else q[x].head,
                                         prev := if x == z then None else q[x].prev,
                                         tail := if x == z then q[t].tail else q[x].tail)
  {
  }

  lemma ArrivalFront(s: State, q: Queue, t: Tid, x: Tid)
    requires Inv(s, q) && t < |s.pc| && s.pc[t].Swapping? && s.lock.Some? && In(Next(s, t), x)
    requires q[s.lock.value].head < |q|
    ensures HomeOk(Next(s, t), Append(q, s.lock.value, t), x) && FrontOk(Next(s, t), Append(q, s.lock.value, t), x)
  {
    Around(s, q, s.lock.value);
    if x != t { Around(s, q, x); }
  }

  lemma ArrivalBack(s: State, q: Queue, t: Tid, x: Tid)
    requires Inv(s, q) && t < |s.pc| && s.pc[t].Swapping? && s.lock.Some? && In(Next(s, t), x)
    requires q[s.lock.value].head < |q|
    requires HomeOk(Next(s, t), Append(q, s.lock.value, t), x)
    ensures BackOk(Next(s, t), Append(q, s.lock.value, t), x)
  {
    Around(s, q, s.lock.value);
    if x != t { Around(s, q, x); }
    hide Inv, LinkOk, HeadOk, OwnOk;
  }

  lemma ArrivalStep(s: State, q: Queue, t: Tid) returns (q': Queue)
    requires Inv(s, q) && t < |s.pc| && s.pc[t].Swapping?
    ensures Inv(Next(s, t), q')
  {
    var s' := Next(s, t);
    if s.lock.None? {
      q' := q[t := Place(None, None, t, t, 0)];
      forall x: Tid | In(s', x) ensures PlaceOk(s', q', x) {
        if x != t { Around(s, q, x); }
      }
    } else {
      Around(s, q, s.lock.value);
      q' := Append(q, s.lock.value, t);
      forall x: Tid | In(s', x) ensures PlaceOk(s', q', x) { ArrivalFront(s, q, t, x); ArrivalBack(s, q, t, x); }
    }
  }

  // The steps that leave every thread where it stands. Only the thread itself, the
  // one behind it and the one it links itself to need a look.

  /** Two states agree on what thread `x` and its node hold. */
  predicate SameAt(s: State, s': State, x: Tid)
    requires WellFormed(s) && WellFormed(s') && x < |s.pc| && |s'.pc| == |s.pc|
  {
    s'.pc[x] == s.pc[x] && s'.next[x] == s.next[x] && s'.locked[x] == s.locked[x]
  }

  /** What is true of `x` stays true when nothing changed at `x` and next to it. */
  lemma Undisturbed(s: State, s': State, q: Queue, q': Queue, x: Tid)
    requires WellFormed(s) && WellFormed(s') && |s'.pc| == |s.pc| == |q| == |q'| && s'.lock == s.lock
    requires x < |q| && PlaceOk(s, q, x) && SameAt(s, s', x) && Unmoved(s, s', q, q', x)
    ensures PlaceOk(s', q', x)
  {
  }

  /** The places of `x`, of its neighbours and of the ends of its chain are the same. */
  ghost predicate Unmoved(s: State, s': State, q: Queue, q': Queue, x: Tid)
    requires WellFormed(s) && WellFormed(s') && |s'.pc| == |s.pc| == |q| == |q'|
    requires x < |q| && PlaceOk(s, q, x)
  {
    var h := q[x].head;
    && q'[x] == q[x]
    && In(s', h) && q'[h].head == q[h].head && q'[h].prev == q[h].prev && q'[h].tail == q[h].tail
    && (match q[x].prev
        case None =>
          In(s', q[x].tail) && q'[q[x].tail].head == q[q[x].tail].head && q'[q[x].tail].succ == q[q[x].tail].succ
        case Some(w) =>
          In(s', w) && SameAt(s, s', w) && q'[w].succ == q[w].succ && q'[w].head == q[w].head
          && q'[w].rank == q[w].rank)
    && (q[x].succ.Some? ==> In(s', q[x].succ.value) && q'[q[x].succ.value].prev == q[q[x].succ.value].prev)
  }

  /** The program points at which a step leaves the queue as it is. */
  predicate Standing(p: Pc) {
    p.Idle? || p.Marking? || p.Linking? || p.Spinning? || p.Critical? || p.Awaiting? || p.Rereading?
  }

  lemma StandingSelf(s: State, q: Queue, t: Tid)
    requires Inv(s, q) && In(s, t) && Standing(s.pc[t])
    ensures PlaceOk(Next(s, t), q, t)
  {
    Around(s, q, t);
  }

  lemma StandingBehind(s: State, q: Queue, t: Tid, z: Tid)
    requires Inv(s, q) && In(s, t) && Standing(s.pc[t]) && q[t].succ == Some(z)
    ensures z < |q| && PlaceOk(Next(s, t), q, z)
  {
    Around(s, q, t);
    Around(s, q, z);
  }

  lemma StandingFront(s: State, q: Queue, t: Tid, y: Tid)
    requires Inv(s, q) && In(s, t) && s.pc[t].Linking? && s.pc[t].pred == y
    ensures q[t].prev == Some(y) && q[y].succ == Some(t) && PlaceOk(Next(s, t), q, y)
  {
    Around(s, q, t);
    Around(s, q, y);
  }

  lemma StandingOther(s: State, q: Queue, t: Tid, x: Tid)
    requires Inv(s, q) && t < |s.pc| && Standing(s.pc[t]) && In(s, x) && x != t
    requires In(s, t) ==> q[t].succ != Some(x)
    requires s.pc[t].Linking? ==> x != s.pc[t].pred && q[s.pc[t].pred].succ == Some(t)
    ensures PlaceOk(Next(s, t), q, x)
  {
    Around(s, q, x);
    StandingShape(s, t, x);
    if q[x].prev.Some? { StandingShape(s, t, q[x].prev.value); }
    if q[x].succ.Some? { StandingShape(s, t, q[x].succ.value); }
    StandingShape(s, t, q[x].head);
    StandingShape(s, t, q[q[x].head].tail);
    hide Next;
    Undisturbed(s, Next(s, t), q, q, x);
  }

  /** What a standing step touches. */
  lemma StandingShape(s: State, t: Tid, u: Tid)
    requires WellFormed(s) && t < |s.pc| && Standing(s.pc[t]) && In(s, u)
    ensures Next(s, t).lock == s.lock && In(Next(s, t), u)
    ensures u != t && (s.pc[t].Linking? ==> u != s.pc[t].pred) ==> SameAt(s, Next(s, t), u)
  {
  }

  lemma StandingStep(s: State, q: Queue, t: Tid)
    requires Inv(s, q) && t < |s.pc| && Standing(s.pc[t])
    ensures Inv(Next(s, t), q)
  {
    if s.pc[t].Linking? { StandingFront(s, q, t, s.pc[t].pred); }
    forall x: Tid | In(Next(s, t), x) ensures PlaceOk(Next(s, t), q, x) {
      if x == t { StandingSelf(s, q, t); }
      else if In(s, t) && q[t].succ == Some(x) { StandingBehind(s, q, t, x); }
      else if s.pc[t].Linking? && s.pc[t].pred == x { StandingFront(s, q, t, x); }
      else { StandingOther(s, q, t, x); }
    }
  }

  lemma EmptyingStep(s: State, q: Queue, t: Tid)
    requires Inv(s, q) && t < |s.pc| && s.pc[t].Emptying?
    ensures Inv(Next(s, t), q)
  {
    var s' := Next(s, t);
    Around(s, q, t);
    forall x: Tid | In(s', x) ensures PlaceOk(s', q, x) {
      Around(s, q, x);
      if s.lock == Some(t) && q[x].head == t { Alone(s, q, x); }
    }
  }

  lemma ReopeningStep(s: State, q: Queue, t: Tid)
    requires Inv(s, q) && t < |s.pc| && s.pc[t].Restoring? && s.lock.None?
    ensures Inv(Next(s, t), q)
  {
    var s' := Next(s, t);
    Around(s, q, t);
    forall x: Tid | In(s', x) ensures PlaceOk(s', q, x) {
      Around(s, q, x);
    }
  }

  lemma RejoiningFrontJoined(s: State, q: Queue, t: Tid, bound: nat, x: Tid)
    requires Inv(s, q) && t < |s.pc| && s.pc[t].Restoring? && s.lock.Some? && In(Next(s, t), x)
    requires q[s.lock.value].rank < bound
    requires q[x].head == t
    ensures HomeOk(Next(s, t), Rejoin(q, s.lock.value, t, bound), x)
      && FrontOk(Next(s, t), Rejoin(q, s.lock.value, t, bound), x)
  {
    Around(s, q, t);
    Around(s, q, s.lock.value);
    Around(s, q, x);
  }

  lemma RejoiningFrontHead(s: State, q: Queue, t: Tid, bound: nat, x: Tid)
    requires Inv(s, q) && t < |s.pc| && s.pc[t].Restoring? && s.lock.Some? && In(Next(s, t), x)
    requires q[s.lock.value].rank < bound
    requires q[x].head != t && q[x].prev.None?
    ensures HomeOk(Next(s, t), Rejoin(q, s.lock.value, t, bound), x)
      && FrontOk(Next(s, t), Rejoin(q, s.lock.value, t, bound), x)
  {
    Around(s, q, t);
    Around(s, q, s.lock.value);
    Around(s, q, x);
  }

  lemma RejoiningFrontOther(s: State, q: Queue, t: Tid, bound: nat, x: Tid)
    requires Inv(s, q) && t < |s.pc| && s.pc[t].Restoring? && s.lock.Some? && In(Next(s, t), x)
    requires q[s.lock.value].rank < bound
    requires q[x].head != t && q[x].prev.Some?
    ensures HomeOk(Next(s, t), Rejoin(q, s.lock.value, t, bound), x)
      && FrontOk(Next(s, t), Rejoin(q, s.lock.value, t, bound), x)
  {
    hide Rejoin;
    Around(s, q, t);
    Around(s, q, s.lock.value);
    Around(s, q, x);
    RejoinAt(q, s.lock.value, t, bound, x);
    RejoinAt(q, s.lock.value, t, bound, q[x].head);
    RejoinAt(q, s.lock.value, t, bound, q[x].prev.value);
  }

  lemma RejoiningBackJoined(s: State, q: Queue, t: Tid, bound: nat, x: Tid)
    requires Inv(s, q) && t < |s.pc| && s.pc[t].Restoring? && s.lock.Some? && In(Next(s, t), x)
    requires q[s.lock.value].rank < bound
    requires q[x].head == t
    requires HomeOk(Next(s, t), Rejoin(q, s.lock.value, t, bound), x)
    ensures BackOk(Next(s, t), Rejoin(q, s.lock.value, t, bound), x)
  {
    Around(s, q, t);
    Around(s, q, s.lock.value);
    Around(s, q, x);
    hide Inv, LinkOk, HeadOk, OwnOk;
  }

  lemma RejoiningBackOther(s: State, q: Queue, t: Tid, bound: nat, x: Tid)
    requires Inv(s, q) && t < |s.pc| && s.pc[t].Restoring? && s.lock.Some? && In(Next(s, t), x)
    requires q[s.lock.value].rank < bound
    requires q[x].head != t
    requires HomeOk(Next(s, t), Rejoin(q, s.lock.value, t, bound), x)
    ensures BackOk(Next(s, t), Rejoin(q, s.lock.value, t, bound), x)
  {
    hide Rejoin;
    Around(s, q, t);
    Around(s, q, s.lock.value);
    Around(s, q, x);
    RejoinAt(q, s.lock.value, t, bound, x);
    RejoinAt(q, s.lock.value, t, bound, q[x].head);
    RejoinAt(q, s.lock.value, t, bound, t);
    if q[x].succ.Some? { RejoinAt(q, s.lock.value, t, bound, q[x].succ.value); }
  }

  lemma RejoiningStep(s: State, q: Queue, t: Tid) returns (q': Queue)
    requires Inv(s, q) && t < |s.pc| && s.pc[t].Restoring? && s.lock.Some?
    ensures Inv(Next(s, t), q')
  {
    var bound := q[s.lock.value].rank + 1;
    q' := Rejoin(q, s.lock.value, t, bound);
    forall x: Tid | In(Next(s, t), x) ensures PlaceOk(Next(s, t), q', x) {
      if q[x].head == t { RejoiningFrontJoined(s, q, t, bound, x); }
      else if q[x].prev.None? { RejoiningFrontHead(s, q, t, bound, x); }
      else { RejoiningFrontOther(s, q, t, bound, x); }
      if q[x].head == t { RejoiningBackJoined(s, q, t, bound, x); } else { RejoiningBackOther(s, q, t, bound, x); }
    }
    Around(s, q, t);
    Around(s, q, s.lock.value);
  }

  /** Where the releaser `t` stands that pays its debt. */
  lemma ReattachingNeighbours(s: State, q: Queue, t: Tid)
    requires Inv(s, q) && t < |s.pc| && s.pc[t].Delivering? && s.pc[t].usurper.Some?
    ensures In(s, t) && q[t].prev == s.pc[t].usurper && q[t].succ == Some(s.pc[t].succ)
    ensures In(s, s.pc[t].succ) && q[s.pc[t].succ].prev == Some(t) && s.pc[s.pc[t].succ].Spinning?
    ensures In(s, s.pc[t].usurper.value) && q[s.pc[t].usurper.value].succ == Some(t)
  {
    Around(s, q, t);
    Around(s, q, s.pc[t].succ);
  }

  lemma ReattachingSucc(s: State, q: Queue, t: Tid)
    requires Inv(s, q) && t < |s.pc| && s.pc[t].Delivering? && s.pc[t].usurper.Some?
    ensures PlaceOk(Next(s, t), Unlink(q, s.pc[t].usurper.value, s.pc[t].succ), s.pc[t].succ)
  {
    ReattachingNeighbours(s, q, t);
    assert PlaceOk(s, q, t);
    Around(s, q, s.pc[t].succ);
  }

  lemma ReattachingPred(s: State, q: Queue, t: Tid)
    requires Inv(s, q) && t < |s.pc| && s.pc[t].Delivering? && s.pc[t].usurper.Some?
    ensures PlaceOk(Next(s, t), Unlink(q, s.pc[t].usurper.value, s.pc[t].succ), s.pc[t].usurper.value)
  {
    ReattachingNeighbours(s, q, t);
    assert PlaceOk(s, q, t);
    Around(s, q, s.pc[t].usurper.value);
  }

  lemma ReattachingOther(s: State, q: Queue, t: Tid, x: Tid)
    requires Inv(s, q) && t < |s.pc| && s.pc[t].Delivering? && s.pc[t].usurper.Some? && In(Next(s, t), x)
    requires x != s.pc[t].succ && x != s.pc[t].usurper.value
    ensures PlaceOk(Next(s, t), Unlink(q, s.pc[t].usurper.value, s.pc[t].succ), x)
  {
    ReattachingNeighbours(s, q, t);
    Around(s, q, x);
    hide Inv, LinkOk, HeadOk, OwnOk;
    Undisturbed(s, Next(s, t), q, Unlink(q, s.pc[t].usurper.value, s.pc[t].succ), x);
  }

  /** A releaser pays its debt to its predecessor and leaves the chain. */
  lemma ReattachingStep(s: State, q: Queue, t: Tid) returns (q': Queue)
    requires Inv(s, q) && t < |s.pc| && s.pc[t].Delivering? && s.pc[t].usurper.Some?
    ensures Inv(Next(s, t), q')
  {
    q' := Unlink(q, s.pc[t].usurper.value, s.pc[t].succ);
    forall x: Tid | In(Next(s, t), x) ensures PlaceOk(Next(s, t), q', x) {
      if x == s.pc[t].succ { ReattachingSucc(s, q, t); }
      else if x == s.pc[t].usurper.value { ReattachingPred(s, q, t); }
      else { ReattachingOther(s, q, t, x); }
    }
    Around(s, q, t);
  }

  lemma HandoverFrontHead(s: State, q: Queue, t: Tid, x: Tid)
    requires Inv(s, q) && t < |s.pc| && s.pc[t].Delivering? && s.pc[t].usurper.None? && In(Next(s, t), x)
    requires q[x].prev.None?
    ensures HomeOk(Next(s, t), Advance(q, t, s.pc[t].succ), x) && FrontOk(Next(s, t), Advance(q, t, s.pc[t].succ), x)
  {
    Around(s, q, t);
    Around(s, q, s.pc[t].succ);
    Around(s, q, x);
  }

  lemma HandoverFrontNext(s: State, q: Queue, t: Tid)
    requires Inv(s, q) && t < |s.pc| && s.pc[t].Delivering? && s.pc[t].usurper.None?
    ensures var z := s.pc[t].succ;
      z < |q| && HomeOk(Next(s, t), Advance(q, t, z), z) && FrontOk(Next(s, t), Advance(q, t, z), z)
  {
    Around(s, q, t);
    Around(s, q, s.pc[t].succ);
  }

  lemma HandoverFrontLink(s: State, q: Queue, t: Tid, x: Tid)
    requires Inv(s, q) && t < |s.pc| && s.pc[t].Delivering? && s.pc[t].usurper.None? && In(Next(s, t), x)
    requires q[x].prev.Some? && x != s.pc[t].succ
    ensures HomeOk(Next(s, t), Advance(q, t, s.pc[t].succ), x) && FrontOk(Next(s, t), Advance(q, t, s.pc[t].succ), x)
  {
    hide Advance;
    Around(s, q, t);
    Around(s, q, s.pc[t].succ);
    Around(s, q, x);
    AdvanceAt(q, t, s.pc[t].succ, x);
    AdvanceAt(q, t, s.pc[t].succ, q[x].head);
    AdvanceAt(q, t, s.pc[t].succ, q[x].prev.value);
    AdvanceAt(q, t, s.pc[t].succ, s.pc[t].succ);
  }

  lemma HandoverBack(s: State, q: Queue, t: Tid, x: Tid)
    requires Inv(s, q) && t < |s.pc| && s.pc[t].Delivering? && s.pc[t].usurper.None? && In(Next(s, t), x)
    requires HomeOk(Next(s, t), Advance(q, t, s.pc[t].succ), x)
    ensures BackOk(Next(s, t), Advance(q, t, s.pc[t].succ), x)
  {
    Around(s, q, t);
    Around(s, q, s.pc[t].succ);
    Around(s, q, x);
    hide Inv, LinkOk, HeadOk, OwnOk;
  }

  /** The right to enter moves to the next thread of the chain. */
  lemma HandoverStep(s: State, q: Queue, t: Tid) returns (q': Queue)
    requires Inv(s, q) && t < |s.pc| && s.pc[t].Delivering? && s.pc[t].usurper.None?
    ensures Inv(Next(s, t), q')
  {
    q' := Advance(q, t, s.pc[t].succ);
    forall x: Tid | In(Next(s, t), x) ensures PlaceOk(Next(s, t), q', x) {
      if q[x].prev.None? { HandoverFrontHead(s, q, t, x); }
      else if x == s.pc[t].succ { HandoverFrontNext(s, q, t); }
      else { HandoverFrontLink(s, q, t, x); }
      HandoverBack(s, q, t, x);
    }
    Around(s, q, t);
  }

  /** Every step of every thread keeps the queue in order. */
  lemma StepKeepsInv(s: State, q: Queue, t: Tid) returns (q': Queue)
    requires Inv(s, q) && t < |s.pc|
    ensures Inv(Next(s, t), q')
  {
    q' := q;
    NoFault(s, q, t);
    match s.pc[t]
    case Swapping => q' := ArrivalStep(s, q, t);
    case Emptying => EmptyingStep(s, q, t);
    case Restoring(_) =>
      if s.lock.None? { ReopeningStep(s, q, t); } else { q' := RejoiningStep(s, q, t); }
    case Delivering(u, _) =>
      if u.None? { q' := HandoverStep(s, q, t); } else { q' := ReattachingStep(s, q, t); }
    case _ => StandingStep(s, q, t);
  }

  /** Every state that any schedule reaches satisfies the invariant. */
  lemma {:induction false} Reachable(n: nat, schedule: seq<Tid>) returns (q: Queue)
    requires forall k :: 0 <= k < |schedule| ==> schedule[k] < n
    ensures Inv(Run(Init(n), schedule), q)
    decreases |schedule|
  {
    if schedule == [] {
      q := seq(n, _ => Place(None, None, 0, 0, 0));
    } else {
      var before := schedule[..|schedule| - 1];
      q := Reachable(n, before);
      q := StepKeepsInv(Run(Init(n), before), q, schedule[|schedule| - 1]);
    }
  }

  // ----- Safety -----

  /** At most one thread is in its critical section. */
  ghost predicate MutualExclusion(s: State) {
    forall t, u :: 0 <= t < |s.pc| && 0 <= u < |s.pc| && s.pc[t].Critical? && s.pc[u].Critical? ==> t == u
  }

  /** The right to enter is in exactly one place: the lock word when that is
      null, and otherwise with exactly one thread. */
  ghost predicate OneToken(s: State)
    requires WellFormed(s)
  {
    && (s.lock.None? ==> forall t :: 0 <= t < |s.pc| ==> !HasToken(s, t))
    && (s.lock.Some? ==> exists t :: 0 <= t < |s.pc| && HasToken(s, t))
    && (forall t, u :: 0 <= t < |s.pc| && 0 <= u < |s.pc| && HasToken(s, t) && HasToken(s, u) ==> t == u)
  }

  ghost predicate NoNullAccess(s: State) {
    forall t :: 0 <= t < |s.pc| ==> !s.pc[t].Faulted?
  }

  lemma SafetyFromInv(s: State, q: Queue)
    requires Inv(s, q)
    ensures OneToken(s) && MutualExclusion(s) && NoNullAccess(s)
  {
    forall t | 0 <= t < |s.pc|
      ensures !s.pc[t].Faulted? && (HasToken(s, t) ==> s.lock.Some? && q[s.lock.value].head == t)
    {
      if In(s, t) { Around(s, q, t); }
    }
    if s.lock.Some? {
      Around(s, q, s.lock.value);
      assert HasToken(s, q[s.lock.value].head);
    }
  }

  /** In every interleaving of any number of threads, usurpers in nested release
      windows included, there is one right to enter and at most one holder. */
  lemma LockIsSafe(n: nat, schedule: seq<Tid>)
    requires forall k :: 0 <= k < |schedule| ==> schedule[k] < n
    ensures OneToken(Run(Init(n), schedule))
    ensures MutualExclusion(Run(Init(n), schedule))
    ensures NoNullAccess(Run(Init(n), schedule))
  {
    var q := Reachable(n, schedule);
    SafetyFromInv(Run(Init(n), schedule), q);
  }

  // ----- No waiter is dropped -----

  /** Thread `t` is inside the lock's code or holds the lock, and its next step
      does something other than go round a spin loop. */
  predicate CanMove(s: State, t: Tid)
    requires WellFormed(s)
  {
    t < |s.pc| && !s.pc[t].Idle? && Next(s, t) != s
  }

  ghost function RankBound(q: Queue): (b: nat)
    ensures forall x :: 0 <= x < |q| ==> q[x].rank < b
  {
    if q == [] then 0
    else var b := RankBound(q[1..]);
      assert forall x :: 1 <= x < |q| ==> q[x] == q[1..][x - 1];
      if q[0].rank < b then b else q[0].rank + 1
  }

  /** A releaser that waits for its link, or some thread behind it, can move. */
  lemma {:induction false} MoverBehind(s: State, q: Queue, x: Tid) returns (t: Tid)
    requires Inv(s, q) && In(s, x) && s.pc[x].Awaiting?
    ensures CanMove(s, t)
    decreases RankBound(q) - q[x].rank
  {
    t := x;
    if s.next[x].None? {
      Around(s, q, x);
      t := q[x].succ.value;
      Around(s, q, t);
      if s.pc[t].Awaiting? { t := MoverBehind(s, q, t); }
    }
  }

  lemma MoverInChain(s: State, q: Queue, x: Tid) returns (t: Tid)
    requires Inv(s, q) && In(s, x)
    ensures CanMove(s, t)
  {
    Around(s, q, x);
    t := q[x].head;
    if s.pc[t].Awaiting? { t := MoverBehind(s, q, t); }
  }

  /** The steps a thread has left until it is idle again, at most. */
  function StepsLeft(p: Pc): nat {
    match p
    case Idle => 0
    case Swapping => 10
    case Marking(_) => 9
    case Linking(_) => 8
    case Spinning => 7
    case Critical => 6
    case Emptying => 5
    case Restoring(_) => 4
    case Awaiting(_) => 3
    case Rereading(_) => 2
    case Delivering(_, _) => 1
    case Faulted => 0
  }

  function Work(pcs: seq<Pc>): nat {
    if pcs == [] then 0 else StepsLeft(pcs[0]) + Work(pcs[1..])
  }

  lemma {:induction false} WorkUpdate(pcs: seq<Pc>, t: Tid, p: Pc)
    requires t < |pcs|
    ensures Work(pcs[t := p]) == Work(pcs) - StepsLeft(pcs[t]) + StepsLeft(p)
    decreases t
  {
    if t == 0 {
      assert pcs[0 := p][1..] == pcs[1..];
    } else {
      assert pcs[t := p][1..] == pcs[1..][t - 1 := p];
      WorkUpdate(pcs[1..], t - 1, p);
    }
  }

  /** A move that is not a new request brings its thread closer to idle. */
  lemma MoveReducesWork(s: State, q: Queue, t: Tid)
    requires Inv(s, q) && CanMove(s, t)
    ensures Work(Next(s, t).pc) < Work(s.pc)
  {
    NoFault(s, q, t);
    WorkUpdate(s.pc, t, Next(s, t).pc[t]);
  }

  predicate AllIdle(s: State) {
    forall t :: 0 <= t < |s.pc| ==> s.pc[t].Idle?
  }

  /** There is no deadlock: while any thread is inside, some thread can move. */
  lemma NoDeadlock(s: State, q: Queue) returns (t: Tid)
    requires Inv(s, q) && !AllIdle(s)
    ensures CanMove(s, t)
  {
    var x :| 0 <= x < |s.pc| && !s.pc[x].Idle?;
    if s.pc[x].Swapping? { t := x; } else { t := MoverInChain(s, q, x); }
  }

  lemma {:induction false} Drain(s: State, q: Queue) returns (more: seq<Tid>)
    requires Inv(s, q)
    ensures |more| <= Work(s.pc)
    ensures forall k :: 0 <= k < |more| ==> more[k] < |s.pc|
    ensures AllIdle(Run(s, more))
    decreases Work(s.pc)
  {
    more := [];
    if !AllIdle(s) {
      var t := NoDeadlock(s, q);
      MoveReducesWork(s, q, t);
      var q' := StepKeepsInv(s, q, t);
      var rest := Drain(Next(s, t), q');
      more := [t] + rest;
      RunAppend(s, t, rest);
    }
  }

  lemma {:induction false} RunAppend(s: State, t: Tid, rest: seq<Tid>)
    requires WellFormed(s) && t < |s.pc| && forall k :: 0 <= k < |rest| ==> rest[k] < |s.pc|
    ensures Run(s, [t] + rest) == Run(Next(s, t), rest)
    decreases |rest|
  {
    var all := [t] + rest;
    if rest == [] {
      assert all[..|all| - 1] == [];
    } else {
      assert all[..|all| - 1] == [t] + rest[..|rest| - 1];
      RunAppend(s, t, rest[..|rest| - 1]);
    }
  }

  // ----- Whoever asks gets the lock -----

  /** The thread has called `mcs_lock_lock` and the call has not returned. */
  predicate Asking(p: Pc) {
    p.Swapping? || p.Marking? || p.Linking? || p.Spinning?
  }

  /** The thread has got the lock and not finished releasing it. */
  predicate Holding(p: Pc) {
    p.Critical? || p.Emptying? || p.Restoring? || Releasing(p)
  }

  function Once(b: bool): nat {
    if b then 1 else 0
  }

  /** How often thread `t` has asked for the lock, got it, and finished releasing it. */
  function Requests(s: State, schedule: seq<Tid>, t: Tid): nat
    requires WellFormed(s) && t < |s.pc| && forall k :: 0 <= k < |schedule| ==> schedule[k] < |s.pc|
    decreases |schedule|
  {
    if schedule == [] then 0
    else
      var before := schedule[..|schedule| - 1];
      Requests(s, before, t) + Once(Run(s, before).pc[t].Idle? && !Run(s, schedule).pc[t].Idle?)
  }

  function Entries(s: State, schedule: seq<Tid>, t: Tid): nat
    requires WellFormed(s) && t < |s.pc| && forall k :: 0 <= k < |schedule| ==> schedule[k] < |s.pc|
    decreases |schedule|
  {
    if schedule == [] then 0
    else
      var before := schedule[..|schedule| - 1];
      Entries(s, before, t) + Once(!Run(s, before).pc[t].Critical? && Run(s, schedule).pc[t].Critical?)
  }

  function Returns(s: State, schedule: seq<Tid>, t: Tid): nat
    requires WellFormed(s) && t < |s.pc| && forall k :: 0 <= k < |schedule| ==> schedule[k] < |s.pc|
    decreases |schedule|
  {
    if schedule == [] then 0
    else
      var before := schedule[..|schedule| - 1];
      Returns(s, before, t) + Once(!Run(s, before).pc[t].Idle? && Run(s, schedule).pc[t].Idle?)
  }

  /** The way of a thread: it asks, and asks until it gets the lock; it leaves the
      critical section to release, and releases until it is idle. */
  lemma OneStep(s: State, q: Queue, t: Tid)
    requires Inv(s, q) && t < |s.pc|
    ensures s.pc[t].Idle? ==> Asking(Next(s, t).pc[t])
    ensures Asking(s.pc[t]) ==> Asking(Next(s, t).pc[t]) || Next(s, t).pc[t].Critical?
    ensures Holding(s.pc[t]) ==>
              && !Next(s, t).pc[t].Critical?
              && (Holding(Next(s, t).pc[t]) || (!s.pc[t].Critical? && Next(s, t).pc[t].Idle?))
    ensures forall u :: 0 <= u < |s.pc| && u != t ==> Next(s, t).pc[u] == s.pc[u]
  {
    NoFault(s, q, t);
    if s.pc[t].Rereading? { Around(s, q, t); }
  }

  /** What one step of any thread `u` does to thread `t`: a request that comes is under
      way or gets the lock, and a lock that is got is held or given back. */
  lemma OneStepOfAny(s: State, q: Queue, u: Tid, t: Tid)
    requires Inv(s, q) && u < |s.pc| && t < |s.pc|
    ensures
      var p, p' := s.pc[t], Next(s, u).pc[t];
      && Once(p.Idle? && !p'.Idle?) + Once(Asking(p)) == Once(!p.Critical? && p'.Critical?) + Once(Asking(p'))
      && Once(!p.Critical? && p'.Critical?) + Once(Holding(p)) == Once(!p.Idle? && p'.Idle?) + Once(Holding(p'))
  {
    OneStep(s, q, u);
    NoFault(s, q, t);
    hide Next, Inv;
  }

  /** In every run each request becomes exactly one stay in the critical section, and
      each stay exactly one return: nobody gets back to idle on any other way. */
  lemma {:induction false} RequestsAreHonoured(n: nat, schedule: seq<Tid>, t: Tid)
    requires t < n && forall k :: 0 <= k < |schedule| ==> schedule[k] < n
    ensures Requests(Init(n), schedule, t)
         == Entries(Init(n), schedule, t) + Once(Asking(Run(Init(n), schedule).pc[t]))
    ensures Entries(Init(n), schedule, t)
         == Returns(Init(n), schedule, t) + Once(Holding(Run(Init(n), schedule).pc[t]))
    decreases |schedule|
  {
    if schedule != [] {
      var before, u := schedule[..|schedule| - 1], schedule[|schedule| - 1];
      RequestsAreHonoured(n, before, t);
      var q := Reachable(n, before);
      OneStepOfAny(Run(Init(n), before), q, u, t);
      hide Next, Inv, Asking, Holding;
    }
  }

  /** A thread that asked and asks no longer has been in its critical section. */
  lemma {:induction false} GetsTheLock(s: State, q: Queue, more: seq<Tid>, t: Tid) returns (k: nat)
    requires Inv(s, q) && t < |s.pc| && forall k :: 0 <= k < |more| ==> more[k] < |s.pc|
    requires Asking(s.pc[t]) && !Asking(Run(s, more).pc[t])
    ensures k <= |more| && Run(s, more[..k]).pc[t].Critical?
    decreases |more|
  {
    var before := more[..|more| - 1];
    if Asking(Run(s, before).pc[t]) {
      k := |more|;
      assert more[..k] == more;
      var q' := RunKeepsInv(s, q, before);
      OneStep(Run(s, before), q', more[|more| - 1]);
    } else {
      k := GetsTheLock(s, q, before, t);
      assert before[..k] == more[..k];
    }
  }

  lemma {:induction false} RunKeepsInv(s: State, q: Queue, more: seq<Tid>) returns (q': Queue)
    requires Inv(s, q) && forall k :: 0 <= k < |more| ==> more[k] < |s.pc|
    ensures Inv(Run(s, more), q')
    decreases |more|
  {
    q' := q;
    if more != [] {
      q' := RunKeepsInv(s, q, more[..|more| - 1]);
      q' := StepKeepsInv(Run(s, more[..|more| - 1]), q', more[|more| - 1]);
    }
  }

  /** No waiter is ever dropped: from every reachable state the requests that are under
      way can all be served, whatever windows are open. Each thread that asks gets into
      its critical section on the way, and in the end everybody is idle. Every schedule
      that lets such requests move gets there, for each move uses up work. */
  lemma EveryRequestIsServed(n: nat, schedule: seq<Tid>) returns (more: seq<Tid>)
    requires forall k :: 0 <= k < |schedule| ==> schedule[k] < n
    ensures forall k :: 0 <= k < |more| ==> more[k] < n
    ensures |more| <= Work(Run(Init(n), schedule).pc)
    ensures AllIdle(Run(Run(Init(n), schedule), more))
    ensures forall t :: 0 <= t < n && Asking(Run(Init(n), schedule).pc[t]) ==>
      exists k :: 0 <= k <= |more| && Run(Run(Init(n), schedule), more[..k]).pc[t].Critical?
    ensures forall t :: CanMove(Run(Init(n), schedule), t) ==>
      Work(Next(Run(Init(n), schedule), t).pc) < Work(Run(Init(n), schedule).pc)
  {
    var s := Run(Init(n), schedule);
    var q := Reachable(n, schedule);
    more := Drain(s, q);
    hide Next, Inv;
    forall t: nat | t < n && Asking(s.pc[t])
      ensures exists k :: 0 <= k <= |more| && Run(s, more[..k]).pc[t].Critical?
    {
      var k := GetsTheLock(s, q, more, t);
    }
    forall t | CanMove(s, t) ensures Work(Next(s, t).pc) < Work(s.pc) { MoveReducesWork(s, q, t); }
  }

  lemma {:induction false} RunConcat(s: State, a: seq<Tid>, b: seq<Tid>)
    requires WellFormed(s)
    requires forall k :: 0 <= k < |a| ==> a[k] < |s.pc|
    requires forall k :: 0 <= k < |b| ==> b[k] < |s.pc|
    ensures forall k :: 0 <= k < |a + b| ==> (a + b)[k] < |s.pc|
    ensures Run(s, a + b) == Run(Run(s, a), b)
    decreases |b|
  {
    if b == [] {
      assert a + b == a;
    } else {
      assert (a + b)[..|a + b| - 1] == a + b[..|b| - 1];
      RunConcat(s, a, b[..|b| - 1]);
    }
  }

  /** From every reachable state every thread can still get into its critical section. */
  lemma EverybodyCanEnter(n: nat, schedule: seq<Tid>, t: Tid) returns (more: seq<Tid>)
    requires t < n && forall k :: 0 <= k < |schedule| ==> schedule[k] < n
    ensures forall k :: 0 <= k < |more| ==> more[k] < n
    ensures Run(Run(Init(n), schedule), more).pc[t].Critical?
  {
    var s := Run(Init(n), schedule);
    var q := Reachable(n, schedule);
    var first := Drain(s, q);
    var q1 := RunKeepsInv(s, q, first);
    var s1 := Run(s, first);
    OneStep(s1, q1, t);
    var q2 := StepKeepsInv(s1, q1, t);
    var rest := Drain(Next(s1, t), q2);
    hide Next, Inv;
    var k := GetsTheLock(Next(s1, t), q2, rest, t);
    RunAppend(s1, t, rest[..k]);
    RunConcat(s, first, [t] + rest[..k]);
    more := first + ([t] + rest[..k]);
  }
}
