/**
 The tree barrier `smlt_barrier_wait`: a reduction of notifications up the tree,
 then a broadcast of notifications down.

 A node gathers one notification from each child by polling the children round
 robin with a flag for each, notifies its parent, waits for the parent's
 notification and passes it on to the children. The root does not wait.
 */
module TreeBarrier {
  import opened Trees
  import opened Channels
  import opened Options

  datatype Phase =
    | Outside                                                   // between two calls
    | Gathering(flags: seq<bool>, received: nat, scan: nat)     // the polling loop
    | Reporting                                                 // before the notification to the parent
    | Awaiting                                                  // for the parent's notification
    | Releasing(released: nat)                                  // that many children notified

  datatype Node = Node(episode: nat, phase: Phase)

  /** `up[c]` and `down[c]`: the two directions of the channel between `c` and its parent. */
  datatype State = State(nodes: seq<Node>, up: seq<Queue>, down: seq<Queue>)

  function CountTrue(flags: seq<bool>): (k: nat)
    ensures k <= |flags|
    ensures k == |flags| <==> forall i :: 0 <= i < |flags| ==> flags[i]
  {
    if flags == [] then 0
    else
      var k := CountTrue(flags[1..]);
      assert forall i :: 1 <= i < |flags| ==> flags[i] == flags[1..][i - 1];
      assert flags[0] && (forall i :: 0 <= i < |flags[1..]| ==> flags[1..][i]) ==>
        forall i :: 0 <= i < |flags| ==> flags[i];
      k + if flags[0] then 1 else 0
  }

  lemma {:induction false} CountSet(flags: seq<bool>, i: nat)
    requires i < |flags| && !flags[i]
    ensures CountTrue(flags[i := true]) == CountTrue(flags) + 1
    decreases i
  {
    if i == 0 {
      assert flags[0 := true][1..] == flags[1..];
    } else {
      assert flags[i := true][1..] == flags[1..][i - 1 := true];
      CountSet(flags[1..], i - 1);
    }
  }

  predicate PhaseOk(p: Phase, children: nat) {
    && (p.Gathering? ==>
        |p.flags| == children && p.received == CountTrue(p.flags) && (children > 0 ==> p.scan < children))
    && (p.Releasing? ==> p.released <= children)
  }

  predicate Valid(s: State, t: Tree) {
    && Linked(t)
    && |s.nodes| == |t.parent| && |s.up| == |t.parent| && |s.down| == |t.parent|
    && forall i :: 0 <= i < |s.nodes| ==> PhaseOk(s.nodes[i].phase, |t.children[i]|)
  }

  function Init(t: Tree): State {
    var n := |t.parent|;
    State(seq(n, _ => Node(0, Outside)), seq(n, _ => Queue(0, 0)), seq(n, _ => Queue(0, 0)))
  }

  /** One round of the polling loop of `smlt_reduce_notify` by node `v`. */
  function Poll(s: State, t: Tree, v: nat): (s': State)
    requires Valid(s, t) && v < |s.nodes| && s.nodes[v].phase.Gathering?
    requires s.nodes[v].phase.received < |t.children[v]|
    ensures |s'.nodes| == |s.nodes| && |s'.up| == |s.up| && |s'.down| == |s.down|
  {
    var p := s.nodes[v].phase;
    assert LinkedDown(t, v);
    var c := t.children[v][p.scan];
    var scan := if p.scan + 1 == |t.children[v]| then 0 else p.scan + 1;
    if !p.flags[p.scan] && Pending(s.up[c]) then
      s.(up := s.up[c := Received(s.up[c])],
         nodes := s.nodes[v := s.nodes[v].(phase := Gathering(p.flags[p.scan := true], p.received + 1, scan))])
    else
      s.(nodes := s.nodes[v := s.nodes[v].(phase := p.(scan := scan))])
  }

  /** Node `v` takes its next step in `smlt_barrier_wait`. */
  function Next(s: State, t: Tree, v: nat): (s': State)
    requires Valid(s, t) && v < |s.nodes|
    ensures |s'.nodes| == |s.nodes| && |s'.up| == |s.up| && |s'.down| == |s.down|
  {
    assert LinkedDown(t, v);
    var children := t.children[v];
    match s.nodes[v].phase
    case Outside =>
      s.(nodes := s.nodes[v := s.nodes[v].(phase := Gathering(seq(|children|, _ => false), 0, 0))])
    case Gathering(flags, received, scan) =>
      if received < |children| then Poll(s, t, v)
      else s.(nodes := s.nodes[v := s.nodes[v].(phase := Reporting)])
    case Reporting =>
      if v == t.root then s.(nodes := s.nodes[v := s.nodes[v].(phase := Releasing(0))])
      else s.(up := s.up[v := Sent(s.up[v])], nodes := s.nodes[v := s.nodes[v].(phase := Awaiting)])
    case Awaiting =>
      if Pending(s.down[v]) then
        s.(down := s.down[v := Received(s.down[v])], nodes := s.nodes[v := s.nodes[v].(phase := Releasing(0))])
      else s
    case Releasing(k) =>
      if k < |children| then
        s.(down := s.down[children[k] := Sent(s.down[children[k]])],
           nodes := s.nodes[v := s.nodes[v].(phase := Releasing(k + 1))])
      else s.(nodes := s.nodes[v := Node(s.nodes[v].episode + 1, Outside)])
  }

  lemma {:induction false} NoneSet(n: nat)
    ensures CountTrue(seq(n, _ => false)) == 0
    decreases n
  {
    if n > 0 {
      assert seq(n, _ => false)[1..] == seq(n - 1, _ => false);
      NoneSet(n - 1);
    }
  }

  lemma NextIsValid(s: State, t: Tree, v: nat)
    requires Valid(s, t) && v < |s.nodes|
    ensures Valid(Next(s, t, v), t)
  {
    NoneSet(|t.children[v]|);
    var p := s.nodes[v].phase;
    if p.Gathering? && p.scan < |p.flags| && !p.flags[p.scan] { CountSet(p.flags, p.scan); }
  }

  // ----- The invariant -----

  predicate Entered(x: Node, e: nat) {
    x.episode > e || (x.episode == e && !x.phase.Outside?)
  }

  predicate Finished(x: Node, e: nat) {
    x.episode > e
  }

  /** The node has heard from all its children in call `e`. */
  predicate Gathered(x: Node, e: nat) {
    x.episode > e || (x.episode == e && (x.phase.Reporting? || x.phase.Awaiting? || x.phase.Releasing?))
  }

  /** The node has reported to its parent in call `e`. */
  predicate Reported(x: Node, e: nat) {
    x.episode > e || (x.episode == e && (x.phase.Awaiting? || x.phase.Releasing?))
  }

  /** The node has been released in call `e`. */
  predicate Released(x: Node, e: nat) {
    x.episode > e || (x.episode == e && x.phase.Releasing?)
  }

  /** How many notifications a node sent up or took from above. */
  function Reports(x: Node): nat {
    x.episode + if x.phase.Awaiting? || x.phase.Releasing? then 1 else 0
  }

  function Releases(x: Node): nat {
    x.episode + if x.phase.Releasing? then 1 else 0
  }

  /** How many notifications a node took from its child number `k`, or sent to it. */
  function Gathers(x: Node, k: nat): nat {
    x.episode +
    match x.phase
    case Outside => 0
    case Gathering(flags, _, _) => if k < |flags| && flags[k] then 1 else 0
    case _ => 1
  }

  function Passes(x: Node, k: nat): nat {
    x.episode + if x.phase.Releasing? && x.phase.released > k then 1 else 0
  }

  /** The two queues between `c` and its parent hold what the nodes put there. */
  ghost predicate EdgeOk(s: State, t: Tree, c: nat)
    requires Shaped(t) && |s.nodes| == |t.parent| && |s.up| == |t.parent| && |s.down| == |t.parent|
    requires c < |t.parent| && t.parent[c] < |t.parent|
  {
    var p := s.nodes[t.parent[c]];
    && s.up[c] == Queue(Reports(s.nodes[c]), Gathers(p, t.index[c]))
    && s.down[c] == Queue(Passes(p, t.index[c]), Releases(s.nodes[c]))
    && s.up[c].received <= s.up[c].sent
    && s.down[c].received <= s.down[c].sent
  }

  ghost predicate Inv(s: State, t: Tree) {
    && Valid(s, t)
    && (forall c: nat {:trigger EdgeOk(s, t, c)} :: IsChild(t, c) && t.parent[c] < |t.parent| ==> EdgeOk(s, t, c))
    && !s.nodes[t.root].phase.Awaiting?
  }

  lemma EdgePoll(s: State, t: Tree, v: nat, c: nat)
    requires Inv(s, t) && v < |s.nodes| && IsChild(t, c) && t.parent[c] < |t.parent| && s.nodes[v].phase.Gathering?
    ensures EdgeOk(Next(s, t, v), t, c)
  {
    assert LinkedUp(t, c);
    assert LinkedDown(t, v);
    assert EdgeOk(s, t, c);
  }

  lemma EdgeMove(s: State, t: Tree, v: nat, c: nat)
    requires Inv(s, t) && v < |s.nodes| && IsChild(t, c) && t.parent[c] < |t.parent| && !s.nodes[v].phase.Gathering?
    ensures EdgeOk(Next(s, t, v), t, c)
  {
    assert LinkedUp(t, c);
    assert LinkedDown(t, v);
    assert EdgeOk(s, t, c);
  }

  lemma StepKeepsInv(s: State, t: Tree, v: nat)
    requires Inv(s, t) && v < |s.nodes|
    ensures Inv(Next(s, t, v), t)
  {
    NextIsValid(s, t, v);
    forall c: nat | IsChild(t, c) && t.parent[c] < |t.parent| ensures EdgeOk(Next(s, t, v), t, c) {
      if s.nodes[v].phase.Gathering? { EdgePoll(s, t, v, c); } else { EdgeMove(s, t, v, c); }
    }
  }

  // ----- The guarantees -----

  /** A node hears from a child only after the child heard from its own children. */
  lemma GatheredBelow(s: State, t: Tree, c: nat, e: nat)
    requires Inv(s, t) && IsChild(t, c)
    ensures t.parent[c] < |s.nodes| && (Gathered(s.nodes[t.parent[c]], e) ==> Reported(s.nodes[c], e))
  {
    assert LinkedUp(t, c);
    assert EdgeOk(s, t, c);
  }

  /** A node is released only after its parent was. */
  lemma ReleasedAbove(s: State, t: Tree, c: nat, e: nat)
    requires Inv(s, t) && IsChild(t, c)
    ensures t.parent[c] < |s.nodes| && (Released(s.nodes[c], e) ==> Released(s.nodes[t.parent[c]], e))
  {
    assert LinkedUp(t, c);
    assert EdgeOk(s, t, c);
  }

  lemma {:induction false} AllGathered(s: State, t: Tree, depth: seq<nat>, v: nat, e: nat)
    requires Inv(s, t) && Layered(t, depth) && v < |s.nodes| && Gathered(s.nodes[t.root], e)
    ensures Gathered(s.nodes[v], e)
    decreases depth[v]
  {
    if v != t.root {
      GatheredBelow(s, t, v, e);
      AllGathered(s, t, depth, t.parent[v], e);
    }
  }

  lemma {:induction false} RootReleased(s: State, t: Tree, depth: seq<nat>, v: nat, e: nat)
    requires Inv(s, t) && Layered(t, depth) && v < |s.nodes| && Released(s.nodes[v], e)
    ensures Released(s.nodes[t.root], e)
    decreases depth[v]
  {
    if v != t.root {
      ReleasedAbove(s, t, v, e);
      RootReleased(s, t, depth, t.parent[v], e);
    }
  }

  /** A node returns from call `e` only after every node has started call `e`. */
  ghost predicate BarrierHolds(s: State) {
    forall v: nat, w: nat, e: nat :: v < |s.nodes| && w < |s.nodes| && Finished(s.nodes[v], e) ==>
      Entered(s.nodes[w], e)
  }

  /** No direction of a channel ever holds more than one notification. */
  ghost predicate AtMostOneInFlight(s: State, t: Tree)
    requires |s.up| == |t.parent| && |s.down| == |t.parent|
  {
    forall c: nat :: IsChild(t, c) ==>
      s.up[c].received <= s.up[c].sent <= s.up[c].received + 1
      && s.down[c].received <= s.down[c].sent <= s.down[c].received + 1
  }

  lemma FewInFlight(s: State, t: Tree, c: nat)
    requires Inv(s, t) && IsChild(t, c)
    ensures s.up[c].received <= s.up[c].sent <= s.up[c].received + 1
    ensures s.down[c].received <= s.down[c].sent <= s.down[c].received + 1
  {
    assert LinkedUp(t, c);
    assert EdgeOk(s, t, c);
    var p := s.nodes[t.parent[c]];
    if s.nodes[c].episode > 0 { ReleasedAbove(s, t, c, s.nodes[c].episode - 1); }
    GatheredBelow(s, t, c, p.episode);
    if p.episode > 0 { GatheredBelow(s, t, c, p.episode - 1); }
  }

  lemma SafetyFromInv(s: State, t: Tree, depth: seq<nat>)
    requires Inv(s, t) && Layered(t, depth)
    ensures BarrierHolds(s) && AtMostOneInFlight(s, t)
  {
    forall v: nat, w: nat, e: nat | v < |s.nodes| && w < |s.nodes| && Finished(s.nodes[v], e)
      ensures Entered(s.nodes[w], e)
    {
      RootReleased(s, t, depth, v, e);
      AllGathered(s, t, depth, w, e);
    }
    forall c: nat | IsChild(t, c)
      ensures s.up[c].received <= s.up[c].sent <= s.up[c].received + 1
        && s.down[c].received <= s.down[c].sent <= s.down[c].received + 1
    {
      FewInFlight(s, t, c);
    }
  }

  function Run(s: State, t: Tree, schedule: seq<nat>): (s': State)
    requires Valid(s, t) && forall k :: 0 <= k < |schedule| ==> schedule[k] < |s.nodes|
    ensures Valid(s', t) && |s'.nodes| == |s.nodes|
    decreases |schedule|
  {
    if schedule == [] then s
    else
      var before := Run(s, t, schedule[..|schedule| - 1]);
      NextIsValid(before, t, schedule[|schedule| - 1]);
      Next(before, t, schedule[|schedule| - 1])
  }

  lemma {:induction false} Reachable(t: Tree, schedule: seq<nat>)
    requires Linked(t) && forall k :: 0 <= k < |schedule| ==> schedule[k] < |t.parent|
    ensures Inv(Run(Init(t), t, schedule), t)
    decreases |schedule|
  {
    if schedule == [] {
      forall c: nat | IsChild(t, c) && t.parent[c] < |t.parent| ensures EdgeOk(Init(t), t, c) {}
    } else {
      var before := schedule[..|schedule| - 1];
      Reachable(t, before);
      StepKeepsInv(Run(Init(t), t, before), t, schedule[|schedule| - 1]);
    }
  }

  // ----- Nobody waits for good -----

  /** Node `v` does something other than poll in vain, or has yet to make its call. */
  predicate Ready(s: State, t: Tree, v: nat)
    requires Valid(s, t)
  {
    && v < |s.nodes|
    && match s.nodes[v].phase
       case Gathering(flags, received, _) =>
         received == |t.children[v]| || exists k :: 0 <= k < |t.children[v]| && HasNews(s, t, v, k)
       case Awaiting => Pending(s.down[v])
       case _ => true
  }

  /** The polling loop has not heard from its child number `k`, which has reported. */
  predicate HasNews(s: State, t: Tree, v: nat, k: nat)
    requires Valid(s, t) && v < |s.nodes| && s.nodes[v].phase.Gathering? && k < |t.children[v]|
  {
    assert LinkedDown(t, v);
    !s.nodes[v].phase.flags[k] && Pending(s.up[t.children[v][k]])
  }

  ghost function Deepest(depth: seq<nat>): (d: nat)
    ensures forall i :: 0 <= i < |depth| ==> depth[i] <= d
  {
    if depth == [] then 0
    else
      var d := Deepest(depth[1..]);
      assert forall i :: 1 <= i < |depth| ==> depth[i] == depth[1..][i - 1];
      if depth[0] > d then depth[0] else d
  }

  /** A node that gathers is ready, or one below it is. */
  lemma {:induction false} ReadyBelow(s: State, t: Tree, depth: seq<nat>, v: nat) returns (u: nat)
    requires Inv(s, t) && Layered(t, depth) && v < |s.nodes| && !s.nodes[v].phase.Awaiting?
    ensures Ready(s, t, u) && s.nodes[u].episode <= s.nodes[v].episode
    decreases Deepest(depth) - depth[v]
  {
    u := v;
    if !Ready(s, t, v) {
      var k :| 0 <= k < |t.children[v]| && !s.nodes[v].phase.flags[k];
      assert LinkedDown(t, v);
      var c := t.children[v][k];
      assert !HasNews(s, t, v, k);
      assert EdgeOk(s, t, c);
      assert depth[t.parent[c]] < depth[c];
      u := c;
      if !s.nodes[c].phase.Awaiting? { u := ReadyBelow(s, t, depth, c); }
    }
  }

  /** Whoever waits in the barrier waits for a node that can go on in the same call,
      or has not made that call yet. */
  lemma {:induction false} SomebodyIsReady(s: State, t: Tree, depth: seq<nat>, v: nat) returns (u: nat)
    requires Inv(s, t) && Layered(t, depth) && v < |s.nodes|
    ensures Ready(s, t, u) && s.nodes[u].episode <= s.nodes[v].episode
    decreases depth[v]
  {
    if s.nodes[v].phase.Awaiting? && !Pending(s.down[v]) {
      assert LinkedUp(t, v);
      assert EdgeOk(s, t, v);
      u := SomebodyIsReady(s, t, depth, t.parent[v]);
    } else if s.nodes[v].phase.Awaiting? {
      u := v;
    } else {
      u := ReadyBelow(s, t, depth, v);
    }
  }

  /** Node `v`, if it waits, waits for a node that can go on in the same or an earlier
      call, or has not made that call yet. */
  ghost predicate NotStuck(s: State, t: Tree, v: nat)
    requires Valid(s, t) && v < |s.nodes|
  {
    exists u: nat :: Ready(s, t, u) && s.nodes[u].episode <= s.nodes[v].episode
  }

  ghost predicate NobodyIsStuck(s: State, t: Tree)
    requires Valid(s, t)
  {
    forall v: nat :: v < |s.nodes| ==> NotStuck(s, t, v)
  }

  // ----- Every call ends -----

  /** Which children of a gathering node have no news for it. */
  ghost function Quiet(s: State, t: Tree, v: nat): (q: seq<bool>)
    requires Valid(s, t) && v < |s.nodes| && s.nodes[v].phase.Gathering?
    ensures |q| == |t.children[v]|
  {
    seq(|t.children[v]|, k requires 0 <= k < |t.children[v]| => !HasNews(s, t, v, k))
  }

  /** The rounds of polling until one takes a notification; with no news, a full turn. */
  ghost function Away(quiet: seq<bool>, scan: nat): (d: nat)
    requires scan < |quiet| || quiet == []
    ensures d <= |quiet|
  {
    if CountTrue(quiet) == |quiet| then |quiet| else ToNextUnset(quiet, scan)
  }

  /** Enough rounds of polling for `missing` of `c` children. */
  function Rounds(missing: nat, c: nat): nat {
    if missing == 0 then 0 else Rounds(missing - 1, c) + c + 1
  }

  /** The steps that node `v` has left in its call, at most. */
  ghost function StepsLeft(s: State, t: Tree, v: nat): nat
    requires Valid(s, t) && v < |s.nodes|
  {
    var c := |t.children[v]|;
    assert PhaseOk(s.nodes[v].phase, c);
    match s.nodes[v].phase
    case Outside => 0
    case Gathering(_, received, scan) => c + 4 + Rounds(c - received, c) + Away(Quiet(s, t, v), scan)
    case Reporting => c + 3
    case Awaiting => c + 2
    case Releasing(k) => c - k + 1
  }

  ghost function Work(s: State, t: Tree, n: nat): nat
    requires Valid(s, t) && n <= |s.nodes|
  {
    if n == 0 then 0 else Work(s, t, n - 1) + StepsLeft(s, t, n - 1)
  }

  lemma {:induction false} WorkDrops(s: State, s': State, t: Tree, u: nat, n: nat)
    requires Valid(s, t) && Valid(s', t) && u < |s.nodes| && n <= |s.nodes|
    requires StepsLeft(s', t, u) < StepsLeft(s, t, u)
    requires forall v :: 0 <= v < |s.nodes| && v != u ==> StepsLeft(s', t, v) <= StepsLeft(s, t, v)
    ensures Work(s', t, n) <= Work(s, t, n) && (u < n ==> Work(s', t, n) < Work(s, t, n))
    decreases n
  {
    hide StepsLeft;
    if n > 0 { WorkDrops(s, s', t, u, n - 1); }
  }

  /** With more news the next of them is no farther away. */
  lemma MoreNewsIsCloser(quiet: seq<bool>, quiet': seq<bool>, i: nat)
    requires |quiet'| == |quiet| && (i < |quiet| || quiet == [])
    requires forall k :: 0 <= k < |quiet| && quiet'[k] ==> quiet[k]
    ensures Away(quiet', i) <= Away(quiet, i)
  {
    if exists k :: i <= k < |quiet| && !quiet[k] {
      var f := FirstUnset(quiet, i);
      assert !quiet'[f];
    } else if exists k :: 0 <= k < |quiet| && !quiet[k] {
      var f := FirstUnset(quiet, 0);
      assert !quiet'[f];
    }
  }

  /** A step of one node leaves the others where they are, and takes none of their news. */
  lemma NewsIsKept(s: State, t: Tree, u: nat, v: nat, k: nat)
    requires Valid(s, t) && u < |s.nodes| && v < |s.nodes| && u != v
    requires s.nodes[v].phase.Gathering? && k < |t.children[v]| && HasNews(s, t, v, k)
    ensures Valid(Next(s, t, u), t) && Next(s, t, u).nodes[v] == s.nodes[v] && HasNews(Next(s, t, u), t, v, k)
  {
    NextIsValid(s, t, u);
    assert LinkedDown(t, u) && LinkedDown(t, v);
    hide Valid, CountTrue;
  }

  lemma StandsStill(s: State, t: Tree, u: nat, v: nat)
    requires Valid(s, t) && u < |s.nodes| && v < |s.nodes| && u != v
    ensures Next(s, t, u).nodes[v] == s.nodes[v]
  {
    hide CountTrue;
  }

  /** A step of one node puts no other node back. */
  lemma OthersAreNoFarther(s: State, t: Tree, u: nat, v: nat)
    requires Valid(s, t) && u < |s.nodes| && v < |s.nodes| && u != v
    ensures Valid(Next(s, t, u), t) && Next(s, t, u).nodes[v] == s.nodes[v]
    ensures StepsLeft(Next(s, t, u), t, v) <= StepsLeft(s, t, v)
  {
    NextIsValid(s, t, u);
    StandsStill(s, t, u, v);
    var s' := Next(s, t, u);
    hide Next, HasNews, Away, CountTrue, Rounds;
    if s.nodes[v].phase.Gathering? {
      forall k | 0 <= k < |t.children[v]| && HasNews(s, t, v, k) ensures HasNews(s', t, v, k) {
        NewsIsKept(s, t, u, v, k);
      }
      assert PhaseOk(s.nodes[v].phase, |t.children[v]|);
      MoreNewsIsCloser(Quiet(s, t, v), Quiet(s', t, v), s.nodes[v].phase.scan);
    }
  }

  lemma NewsComesCloser(quiet: seq<bool>, scan: nat)
    requires scan < |quiet| && quiet[scan] && exists k :: 0 <= k < |quiet| && !quiet[k]
    ensures Away(quiet, if scan + 1 == |quiet| then 0 else scan + 1) < Away(quiet, scan)
  {
    ScanComesCloser(quiet, scan);
  }

  /** A round of polling in vain comes closer to a notification that is there. */
  lemma PollMisses(s: State, t: Tree, v: nat, k: nat)
    requires Valid(s, t) && v < |s.nodes| && s.nodes[v].phase.Gathering?
    requires k < |t.children[v]| && HasNews(s, t, v, k) && !HasNews(s, t, v, s.nodes[v].phase.scan)
    requires s.nodes[v].phase.received < |t.children[v]|
    ensures Valid(Next(s, t, v), t) && StepsLeft(Next(s, t, v), t, v) < StepsLeft(s, t, v)
  {
    NextIsValid(s, t, v);
    assert LinkedDown(t, v);
    var quiet := Quiet(s, t, v);
    assert Quiet(Next(s, t, v), t, v) == quiet;
    assert !quiet[k];
    NewsComesCloser(quiet, s.nodes[v].phase.scan);
    hide Quiet, Away, CountTrue, Rounds;
  }

  /** A round of polling that takes a notification has one child less to hear from. */
  lemma PollTakes(s: State, t: Tree, v: nat)
    requires Valid(s, t) && v < |s.nodes| && s.nodes[v].phase.Gathering?
    requires s.nodes[v].phase.received < |t.children[v]| && HasNews(s, t, v, s.nodes[v].phase.scan)
    ensures Valid(Next(s, t, v), t) && StepsLeft(Next(s, t, v), t, v) < StepsLeft(s, t, v)
  {
    NextIsValid(s, t, v);
    hide Quiet, Away, CountTrue;
  }

  lemma PollLowers(s: State, t: Tree, v: nat)
    requires Valid(s, t) && v < |s.nodes| && s.nodes[v].phase.Gathering? && Ready(s, t, v)
    requires s.nodes[v].phase.received < |t.children[v]|
    ensures Valid(Next(s, t, v), t) && StepsLeft(Next(s, t, v), t, v) < StepsLeft(s, t, v)
  {
    var k :| 0 <= k < |t.children[v]| && HasNews(s, t, v, k);
    hide StepsLeft, Next;
    if HasNews(s, t, v, s.nodes[v].phase.scan) { PollTakes(s, t, v); } else { PollMisses(s, t, v, k); }
  }

  /** Every step of a ready node that has made its call lowers the work that is left. */
  lemma StepLowersWork(s: State, t: Tree, v: nat)
    requires Valid(s, t) && Ready(s, t, v) && !s.nodes[v].phase.Outside?
    ensures Valid(Next(s, t, v), t) && Work(Next(s, t, v), t, |s.nodes|) < Work(s, t, |s.nodes|)
  {
    NextIsValid(s, t, v);
    if s.nodes[v].phase.Gathering? && s.nodes[v].phase.received < |t.children[v]| { PollLowers(s, t, v); }
    forall u | 0 <= u < |s.nodes| && u != v ensures StepsLeft(Next(s, t, v), t, u) <= StepsLeft(s, t, u) {
      OthersAreNoFarther(s, t, v, u);
    }
    WorkDrops(s, Next(s, t, v), t, v, |s.nodes|);
  }

  predicate InRange(schedule: seq<nat>, n: nat) {
    forall k :: 0 <= k < |schedule| ==> schedule[k] < n
  }

  lemma {:induction false} RunAppend(s: State, t: Tree, v: nat, rest: seq<nat>)
    requires Valid(s, t) && v < |s.nodes| && InRange(rest, |s.nodes|)
    ensures InRange([v] + rest, |s.nodes|) && Valid(Next(s, t, v), t)
    ensures Run(s, t, [v] + rest) == Run(Next(s, t, v), t, rest)
    decreases |rest|
  {
    NextIsValid(s, t, v);
    var all := [v] + rest;
    if rest == [] {
      assert all[..|all| - 1] == [];
      assert Run(s, t, []) == s;
    } else {
      assert all[..|all| - 1] == [v] + rest[..|rest| - 1];
      RunAppend(s, t, v, rest[..|rest| - 1]);
    }
  }

  lemma {:induction false} RunConcat(s: State, t: Tree, a: seq<nat>, b: seq<nat>)
    requires Valid(s, t) && InRange(a, |s.nodes|) && InRange(b, |s.nodes|)
    ensures InRange(a + b, |s.nodes|) && Run(s, t, a + b) == Run(Run(s, t, a), t, b)
    decreases |b|
  {
    if b == [] {
      assert a + b == a;
    } else {
      assert (a + b)[..|a + b| - 1] == a + b[..|b| - 1];
      RunConcat(s, t, a, b[..|b| - 1]);
    }
  }

  ghost predicate AllEntered(s: State, e: nat) {
    forall v :: 0 <= v < |s.nodes| ==> Entered(s.nodes[v], e)
  }

  ghost predicate AllFinished(s: State, e: nat) {
    forall v :: 0 <= v < |s.nodes| ==> Finished(s.nodes[v], e)
  }

  lemma EnteredIsKept(s: State, t: Tree, v: nat, e: nat)
    requires Valid(s, t) && v < |s.nodes| && AllEntered(s, e)
    ensures AllEntered(Next(s, t, v), e)
  {
  }

  /** While somebody has not finished a call that everybody has started, a node that is in
      its call is ready. */
  lemma SomebodyGoesOn(s: State, t: Tree, depth: seq<nat>, e: nat) returns (u: nat)
    requires Inv(s, t) && Layered(t, depth) && AllEntered(s, e) && !AllFinished(s, e)
    ensures Ready(s, t, u) && !s.nodes[u].phase.Outside?
  {
    var v :| 0 <= v < |s.nodes| && !Finished(s.nodes[v], e);
    u := SomebodyIsReady(s, t, depth, v);
    assert Entered(s.nodes[u], e);
  }

  /** The node is in call `e`, or has just returned from it. */
  predicate InOrAfter(x: Node, e: nat) {
    x.episode == e || x == Node(e + 1, Outside)
  }

  lemma ReturnIsKept(s: State, t: Tree, u: nat, e: nat)
    requires Valid(s, t) && u < |s.nodes| && !s.nodes[u].phase.Outside?
    ensures forall v :: 0 <= v < |s.nodes| && InOrAfter(s.nodes[v], e) ==> InOrAfter(Next(s, t, u).nodes[v], e)
  {
  }

  /** A call that everybody has started ends for everybody within the work that is left,
      whatever else is under way, and leaves those that were in it between two calls. */
  lemma {:induction false} CallEnds(s: State, t: Tree, depth: seq<nat>, e: nat) returns (more: seq<nat>)
    requires Inv(s, t) && Valid(s, t) && Layered(t, depth) && AllEntered(s, e)
    ensures |more| <= Work(s, t, |s.nodes|) && InRange(more, |s.nodes|)
    ensures AllFinished(Run(s, t, more), e) && Inv(Run(s, t, more), t)
    ensures forall v :: 0 <= v < |s.nodes| && InOrAfter(s.nodes[v], e) ==>
              Run(s, t, more).nodes[v] == Node(e + 1, Outside)
    decreases Work(s, t, |s.nodes|)
  {
    hide Inv, Next, Ready, Work, Layered, StepsLeft;
    more := [];
    if !AllFinished(s, e) {
      var u := SomebodyGoesOn(s, t, depth, e);
      StepLowersWork(s, t, u);
      StepKeepsInv(s, t, u);
      EnteredIsKept(s, t, u, e);
      ReturnIsKept(s, t, u, e);
      var rest := CallEnds(Next(s, t, u), t, depth, e);
      RunAppend(s, t, u, rest);
      more := [u] + rest;
    }
  }

  /** All nodes have returned from the calls before `e`, and those below `n` have
      started call `e`. */
  ghost predicate EnteredUpTo(s: State, n: nat, e: nat) {
    forall v :: 0 <= v < |s.nodes| ==> s.nodes[v].episode >= e && (v < n ==> Entered(s.nodes[v], e))
  }

  /** A node that is between two calls makes its next one. */
  lemma OneMoreEnters(s: State, t: Tree, n: nat, e: nat)
    requires Valid(s, t) && n < |s.nodes| && EnteredUpTo(s, n, e)
    ensures EnteredUpTo(if s.nodes[n].phase.Outside? then Next(s, t, n) else s, n + 1, e)
  {
  }

  lemma RunExtends(s: State, t: Tree, schedule: seq<nat>, v: nat)
    requires Valid(s, t) && InRange(schedule, |s.nodes|) && v < |s.nodes|
    ensures InRange(schedule + [v], |s.nodes|)
    ensures Run(s, t, schedule + [v]) == Next(Run(s, t, schedule), t, v)
  {
    assert (schedule + [v])[..|schedule|] == schedule;
  }

  /** The nodes below `n` that are between two calls make their next one. */
  lemma {:induction false} LetEnter(s: State, t: Tree, n: nat, e: nat) returns (more: seq<nat>)
    requires Inv(s, t) && Valid(s, t) && n <= |s.nodes| && EnteredUpTo(s, 0, e)
    ensures InRange(more, |s.nodes|) && Inv(Run(s, t, more), t) && EnteredUpTo(Run(s, t, more), n, e)
    decreases n
  {
    hide Inv, Next, Valid, EnteredUpTo;
    more := [];
    if n > 0 {
      more := LetEnter(s, t, n - 1, e);
      hide Run, InRange;
      var s1 := Run(s, t, more);
      OneMoreEnters(s1, t, n - 1, e);
      if s1.nodes[n - 1].phase.Outside? {
        StepKeepsInv(s1, t, n - 1);
        RunExtends(s, t, more, n - 1);
        more := more + [n - 1];
      }
    }
  }

  /** From every state all nodes can complete call `e`, and all calls before it. */
  lemma {:induction false} CallCanBeCompleted(s: State, t: Tree, depth: seq<nat>, e: nat) returns (more: seq<nat>)
    requires Inv(s, t) && Valid(s, t) && Layered(t, depth)
    ensures InRange(more, |s.nodes|) && AllFinished(Run(s, t, more), e) && Inv(Run(s, t, more), t)
    decreases e
  {
    var before: seq<nat> := [];
    if e > 0 { before := CallCanBeCompleted(s, t, depth, e - 1); }
    var s1 := Run(s, t, before);
    assert EnteredUpTo(s1, 0, e) by {
      assert forall v :: 0 <= v < |s1.nodes| && e > 0 ==> Finished(s1.nodes[v], e - 1);
    }
    hide Inv, Next, Run, Layered;
    var enter := LetEnter(s1, t, |s1.nodes|, e);
    var rest := CallEnds(Run(s1, t, enter), t, depth, e);
    RunConcat(s1, t, enter, rest);
    RunConcat(s, t, before, enter + rest);
    more := before + (enter + rest);
  }

  /** Everybody returns from call `e` after the threads of `more` have taken their steps. */
  ghost predicate Ends(s: State, t: Tree, e: nat, more: seq<nat>)
    requires Valid(s, t)
  {
    InRange(more, |s.nodes|) && AllFinished(Run(s, t, more), e)
  }

  ghost predicate CanEnd(s: State, t: Tree, e: nat)
    requires Valid(s, t)
  {
    exists more :: Ends(s, t, e, more)
  }

  ghost predicate EndsInTime(s: State, t: Tree, e: nat)
    requires Valid(s, t)
  {
    exists more ::
      && |more| <= Work(s, t, |s.nodes|) && Ends(s, t, e, more)
      && forall v :: 0 <= v < |s.nodes| && s.nodes[v].episode == e ==> Run(s, t, more).nodes[v] == Node(e + 1, Outside)
  }

  /** A call that everybody has started ends for everybody within a bounded number of
      steps, and whoever was in it is between two calls then; and every call, started or
      not, can be completed. */
  ghost predicate CallsEnd(s: State, t: Tree)
    requires Valid(s, t)
  {
    && (forall e: nat :: AllEntered(s, e) ==> EndsInTime(s, t, e))
    && (forall e: nat :: CanEnd(s, t, e))
  }

  lemma CallsEndFromInv(s: State, t: Tree, depth: seq<nat>)
    requires Inv(s, t) && Valid(s, t) && Layered(t, depth)
    ensures CallsEnd(s, t)
  {
    hide Inv, Next, Run, Layered, Work, Valid;
    forall e: nat | AllEntered(s, e) ensures EndsInTime(s, t, e) {
      var more := CallEnds(s, t, depth, e);
      assert Ends(s, t, e, more);
    }
    forall e: nat ensures CanEnd(s, t, e) {
      var more := CallCanBeCompleted(s, t, depth, e);
      assert Ends(s, t, e, more);
    }
  }

  /** For every tree, any number of calls and every interleaving: the barrier property
      holds, each direction of a channel holds at most one notification, nobody waits for
      good, and every call that all nodes have started ends for all of them. */
  lemma BarrierIsSafe(t: Tree, depth: seq<nat>, schedule: seq<nat>)
    requires Linked(t) && Layered(t, depth) && forall k :: 0 <= k < |schedule| ==> schedule[k] < |t.parent|
    ensures BarrierHolds(Run(Init(t), t, schedule))
    ensures AtMostOneInFlight(Run(Init(t), t, schedule), t)
    ensures NobodyIsStuck(Run(Init(t), t, schedule), t)
    ensures CallsEnd(Run(Init(t), t, schedule), t)
  {
    Reachable(t, schedule);
    var s := Run(Init(t), t, schedule);
    SafetyFromInv(s, t, depth);
    hide Next, Run, CallsEnd;
    forall v: nat | v < |s.nodes| ensures NotStuck(s, t, v) { var u := SomebodyIsReady(s, t, depth, v); }
    CallsEndFromInv(s, t, depth);
  }

  // ----- The polling loop in place -----

  function Count(arrivals: seq<Option<nat>>, i: nat): nat {
    if arrivals == [] then 0
    else Count(arrivals[..|arrivals| - 1], i) + if arrivals[|arrivals| - 1] == Some(i) then 1 else 0
  }

  /** What is pending after the first `rounds` arrivals: what was there and what came
      in, less what was taken from the children with a flag. */
  ghost predicate Balanced(was: seq<nat>, pending: seq<nat>, arrivals: seq<Option<nat>>, rounds: nat,
                           flags: seq<bool>) {
    && rounds <= |arrivals| && |was| == |pending| == |flags|
    && forall k :: 0 <= k < |was| ==>
         pending[k] == was[k] + Count(arrivals[..rounds], k) - if flags[k] then 1 else 0
  }

  lemma ArrivalBalances(was: seq<nat>, pending: seq<nat>, arrivals: seq<Option<nat>>, rounds: nat, flags: seq<bool>)
    requires Balanced(was, pending, arrivals, rounds, flags) && rounds < |arrivals|
    requires arrivals[rounds].Some? ==> arrivals[rounds].value < |was|
    ensures var c := arrivals[rounds];
      Balanced(was, if c.Some? then pending[c.value := pending[c.value] + 1] else pending, arrivals, rounds + 1, flags)
  {
    assert arrivals[..rounds + 1][..rounds] == arrivals[..rounds];
  }

  lemma TakingBalances(was: seq<nat>, pending: seq<nat>, arrivals: seq<Option<nat>>, rounds: nat,
                       flags: seq<bool>, i: nat)
    requires Balanced(was, pending, arrivals, rounds, flags) && i < |was| && !flags[i] && pending[i] > 0
    ensures Balanced(was, pending[i := pending[i] - 1], arrivals, rounds, flags[i := true])
  {
  }

  /** From every child a notification is pending or will come in. */
  ghost predicate AllReport(pending: seq<nat>, arrivals: seq<Option<nat>>) {
    && (forall k :: 0 <= k < |arrivals| && arrivals[k].Some? ==> arrivals[k].value < |pending|)
    && (forall i :: 0 <= i < |pending| ==> pending[i] + Count(arrivals, i) >= 1)
  }

  /** Exactly one notification is gone from each child, besides those that came in. */
  ghost predicate TookOneEach(was: seq<nat>, pending: seq<nat>, arrivals: seq<Option<nat>>) {
    |pending| == |was| && forall i :: 0 <= i < |was| ==> pending[i] == was[i] + Count(arrivals, i) - 1
  }

  /** A notification comes in before the next round, or nothing does. */
  method Arrive(pending: array<nat>, ghost was: seq<nat>, arrivals: seq<Option<nat>>, rounds: nat,
                ghost recv: seq<bool>)
    requires Balanced(was, pending[..], arrivals, rounds, recv) && rounds < |arrivals|
    requires arrivals[rounds].Some? ==> arrivals[rounds].value < |was|
    modifies pending
    ensures Balanced(was, pending[..], arrivals, rounds + 1, recv)
  {
    ArrivalBalances(was, pending[..], arrivals, rounds, recv);
    if arrivals[rounds].Some? {
      var c := arrivals[rounds].value;
      pending[c] := pending[c] + 1;
    }
  }

  /** A notification is taken from child number `i`, and its flag set. */
  method TakeFrom(pending: array<nat>, ghost was: seq<nat>, ghost arrivals: seq<Option<nat>>, ghost rounds: nat,
                  recv: seq<bool>, i: nat) returns (recv': seq<bool>)
    requires Balanced(was, pending[..], arrivals, rounds, recv) && i < |recv| && |recv| == pending.Length
    requires !recv[i] && pending[i] > 0
    modifies pending
    ensures Balanced(was, pending[..], arrivals, rounds, recv')
    ensures recv' == recv[i := true] && CountTrue(recv') == CountTrue(recv) + 1
  {
    TakingBalances(was, pending[..], arrivals, rounds, recv, i);
    CountSet(recv, i);
    pending[i] := pending[i] - 1;
    recv' := recv[i := true];
  }

  /** The loop of `smlt_reduce_notify` over the children's queues. Before each of its
      rounds the next of `arrivals` happens: a notification from a child, or nothing. If
      every child's notification is there or comes sooner or later, the loop
      terminates and takes exactly one from each child, though it skips children it
      has already heard from. */
  method GatherAll(pending: array<nat>, arrivals: seq<Option<nat>>) returns (rounds: nat)
    requires AllReport(pending[..], arrivals)
    modifies pending
    ensures rounds <= |arrivals| && TookOneEach(old(pending[..]), pending[..], arrivals[..rounds])
  {
    var count := pending.Length;
    var recv := seq(count, _ => false);
    var numRecv, i := 0, 0;
    rounds := 0;
    NoneSet(count);
    ghost var was := pending[..];
    assert Balanced(was, pending[..], arrivals, 0, recv);
    hide Balanced, AllReport, TookOneEach, CountTrue, ToNextUnset, Count;
    while numRecv < count
      invariant |recv| == count && (count > 0 ==> i < count) && rounds <= |arrivals|
      invariant numRecv == CountTrue(recv) && Balanced(was, pending[..], arrivals, rounds, recv)
      decreases |arrivals| - rounds, count - numRecv, ToNextUnset(recv, i)
    {
      if rounds < |arrivals| {
        ArrivalInRange(was, arrivals, rounds);
        Arrive(pending, was, arrivals, rounds, recv);
        rounds := rounds + 1;
      } else if !recv[i] {
        AllHaveArrived(was, pending[..], arrivals, recv, i);
      } else {
        ScanComesCloser(recv, i);
      }
      if !recv[i] && pending[i] > 0 {
        recv := TakeFrom(pending, was, arrivals, rounds, recv, i);
        numRecv := numRecv + 1;
      }
      i := i + 1;
      if i == count { i := 0; }
    }
    AllTaken(was, pending[..], arrivals, rounds, recv);
  }

  lemma ArrivalInRange(was: seq<nat>, arrivals: seq<Option<nat>>, k: nat)
    requires AllReport(was, arrivals) && k < |arrivals|
    ensures arrivals[k].Some? ==> arrivals[k].value < |was|
  {
  }

  lemma AllHaveArrived(was: seq<nat>, pending: seq<nat>, arrivals: seq<Option<nat>>, flags: seq<bool>, i: nat)
    requires Balanced(was, pending, arrivals, |arrivals|, flags) && i < |was| && !flags[i] && AllReport(was, arrivals)
    ensures |pending| == |was| && pending[i] > 0
  {
    assert arrivals[..|arrivals|] == arrivals;
  }

  lemma AllTaken(was: seq<nat>, pending: seq<nat>, arrivals: seq<Option<nat>>, rounds: nat, flags: seq<bool>)
    requires Balanced(was, pending, arrivals, rounds, flags) && CountTrue(flags) == |flags|
    ensures rounds <= |arrivals| && TookOneEach(was, pending, arrivals[..rounds])
  {
  }

  /** How far the scan has to go, round the end if need be, to an unset flag. */
  ghost function ToNextUnset(flags: seq<bool>, i: nat): (d: nat)
    requires i < |flags| || flags == []
    ensures d <= |flags|
  {
    if CountTrue(flags) == |flags| then 0
    else if exists k :: i <= k < |flags| && !flags[k] then FirstUnset(flags, i) - i
    else |flags| - i + FirstUnset(flags, 0)
  }

  ghost function FirstUnset(flags: seq<bool>, i: nat): (k: nat)
    requires exists k :: i <= k < |flags| && !flags[k]
    ensures i <= k < |flags| && !flags[k] && forall j :: i <= j < k ==> flags[j]
    decreases |flags| - i
  {
    if !flags[i] then i else FirstUnset(flags, i + 1)
  }

  lemma ScanComesCloser(flags: seq<bool>, i: nat)
    requires i < |flags| && CountTrue(flags) < |flags| && flags[i]
    ensures ToNextUnset(flags, if i + 1 == |flags| then 0 else i + 1) < ToNextUnset(flags, i)
  {
    var u :| 0 <= u < |flags| && !flags[u];
    if exists k :: i <= k < |flags| && !flags[k] {
      var f := FirstUnset(flags, i);
      assert i + 1 <= f;
      assert FirstUnset(flags, i + 1) == f;
    } else if i + 1 == |flags| {
      assert exists k :: 0 <= k < |flags| && !flags[k];
    }
  }
}
