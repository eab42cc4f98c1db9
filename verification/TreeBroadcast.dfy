/**
 `smlt_broadcast` down a tree: the root sends each message to its children in
 turn; every other node receives it from its parent and does the same. Channels
 are FIFO queues.
 */
module TreeBroadcast {
  import opened Messages
  import opened Trees

  type Message = seq<Word>

  datatype Phase = Idle | Forwarding(next: nat)

  /** `log[v]`: the messages node `v` has broadcast or received; `sentTo[c]`: all
      messages ever put on the channel from its parent to `c`. */
  datatype State = State(phase: seq<Phase>, log: seq<seq<Message>>, sentTo: seq<seq<Message>>)

  datatype Event =
    | Start(msg: Message)   // the root broadcasts a message
    | Step(node: nat)       // a node takes its next step

  predicate Valid(s: State, t: Tree) {
    && Linked(t)
    && |s.phase| == |t.parent| && |s.log| == |t.parent| && |s.sentTo| == |t.parent|
    && forall v :: 0 <= v < |s.phase| && s.phase[v].Forwarding? ==> s.phase[v].next <= |t.children[v]| && |s.log[v]| > 0
  }

  function Init(t: Tree): (s: State)
    requires Linked(t)
    ensures Valid(s, t)
  {
    var n := |t.parent|;
    State(seq(n, _ => Idle), seq(n, _ => []), seq(n, _ => []))
  }

  function Next(s: State, t: Tree, e: Event): (s': State)
    requires Valid(s, t)
    ensures Valid(s', t)
  {
    match e
    case Start(msg) =>
      if s.phase[t.root].Forwarding? then s
      else s.(log := s.log[t.root := s.log[t.root] + [msg]], phase := s.phase[t.root := Forwarding(0)])
    case Step(v) =>
      if v >= |s.phase| then s
      else
        assert LinkedDown(t, v);
        match s.phase[v]
        case Idle =>
          if v != t.root && |s.log[v]| < |s.sentTo[v]| then
            s.(log := s.log[v := s.log[v] + [s.sentTo[v][|s.log[v]|]]], phase := s.phase[v := Forwarding(0)])
          else s
        case Forwarding(k) =>
          if k < |t.children[v]| then
            var c := t.children[v][k];
            s.(sentTo := s.sentTo[c := s.sentTo[c] + [s.log[v][|s.log[v]| - 1]]],
               phase := s.phase[v := Forwarding(k + 1)])
          else s.(phase := s.phase[v := Idle])
  }

  function Run(s: State, t: Tree, events: seq<Event>): (s': State)
    requires Valid(s, t)
    ensures Valid(s', t)
    decreases |events|
  {
    if events == [] then s else Next(Run(s, t, events[..|events| - 1]), t, events[|events| - 1])
  }

  // ----- The invariant -----

  /** What node `v` has passed on to its child number `k`. */
  function Forwarded(s: State, v: nat, k: nat): seq<Message>
    requires v < |s.phase| && |s.log| == |s.phase|
  {
    if s.phase[v].Forwarding? && s.phase[v].next <= k && |s.log[v]| > 0 then s.log[v][..|s.log[v]| - 1] else s.log[v]
  }

  ghost predicate EdgeOk(s: State, t: Tree, c: nat)
    requires Valid(s, t) && c < |t.parent| && t.parent[c] < |t.parent|
  {
    s.sentTo[c] == Forwarded(s, t.parent[c], t.index[c]) && s.log[c] <= s.sentTo[c]
  }

  ghost predicate Inv(s: State, t: Tree) {
    && Valid(s, t)
    && (forall c: nat {:trigger EdgeOk(s, t, c)} :: IsChild(t, c) && t.parent[c] < |t.parent| ==> EdgeOk(s, t, c))
  }

  lemma EdgeStep(s: State, t: Tree, e: Event, c: nat)
    requires Inv(s, t) && IsChild(t, c) && t.parent[c] < |t.parent|
    ensures EdgeOk(Next(s, t, e), t, c)
  {
    assert LinkedUp(t, c);
    assert EdgeOk(s, t, c);
    if e.Step? && e.node < |s.phase| { assert LinkedDown(t, e.node); }
  }

  lemma StepKeepsInv(s: State, t: Tree, e: Event)
    requires Inv(s, t)
    ensures Inv(Next(s, t, e), t)
  {
    forall c: nat | IsChild(t, c) && t.parent[c] < |t.parent|
      ensures EdgeOk(Next(s, t, e), t, c)
    {
      EdgeStep(s, t, e, c);
    }
  }

  lemma {:induction false} Reachable(t: Tree, events: seq<Event>)
    requires Linked(t)
    ensures Inv(Run(Init(t), t, events), t)
    decreases |events|
  {
    if events == [] {
      forall c: nat | IsChild(t, c) && t.parent[c] < |t.parent| ensures EdgeOk(Init(t), t, c) {}
    } else {
      var before := events[..|events| - 1];
      Reachable(t, before);
      StepKeepsInv(Run(Init(t), t, before), t, events[|events| - 1]);
    }
  }

  // ----- The guarantees -----

  /** The messages that the root was given in a run, in order: those of its calls, where
      it can only call when it has returned from its last call. */
  function Given(t: Tree, events: seq<Event>): seq<Message>
    requires Linked(t)
    decreases |events|
  {
    if events == [] then []
    else
      var before, e := events[..|events| - 1], events[|events| - 1];
      Given(t, before) + if e.Start? && Run(Init(t), t, before).phase[t.root].Idle? then [e.msg] else []
  }

  /** What the root broadcasts are the messages it was given. */
  lemma {:induction false} RootHasGiven(t: Tree, events: seq<Event>)
    requires Linked(t)
    ensures Run(Init(t), t, events).log[t.root] == Given(t, events)
    decreases |events|
  {
    if events != [] {
      var before := events[..|events| - 1];
      RootHasGiven(t, before);
      var s := Run(Init(t), t, before);
      if events[|events| - 1].Step? && events[|events| - 1].node < |s.phase| {
        assert LinkedDown(t, events[|events| - 1].node);
      }
    }
  }

  /** Every node has received a prefix of what the root was given, and the root has it all. */
  ghost predicate InOrder(s: State, t: Tree, given: seq<Message>)
    requires Valid(s, t)
  {
    s.log[t.root] == given && forall v: nat :: v < |s.log| ==> s.log[v] <= given
  }

  /** Any two nodes agree on the order of the messages both have received. */
  ghost predicate Agreement(s: State) {
    forall v: nat, w: nat :: v < |s.log| && w < |s.log| ==> s.log[v] <= s.log[w] || s.log[w] <= s.log[v]
  }

  /** When nobody forwards and no channel holds a message, everybody has everything. */
  ghost predicate NothingLost(s: State, t: Tree, given: seq<Message>)
    requires Valid(s, t)
  {
    (forall v :: 0 <= v < |s.phase| ==> s.phase[v].Idle? && (v != t.root ==> |s.log[v]| == |s.sentTo[v]|))
    ==> forall v :: 0 <= v < |s.log| ==> s.log[v] == given
  }

  lemma {:induction false} PrefixOfRoot(s: State, t: Tree, depth: seq<nat>, v: nat)
    requires Inv(s, t) && Layered(t, depth) && v < |s.log|
    ensures s.log[v] <= s.log[t.root]
    decreases depth[v]
  {
    if v != t.root {
      assert LinkedUp(t, v);
      assert EdgeOk(s, t, v);
      PrefixOfRoot(s, t, depth, t.parent[v]);
    }
  }

  lemma {:induction false} SameAsRoot(s: State, t: Tree, depth: seq<nat>, v: nat)
    requires Inv(s, t) && Layered(t, depth) && v < |s.log|
    requires forall v :: 0 <= v < |s.phase| ==> s.phase[v].Idle? && (v != t.root ==> |s.log[v]| == |s.sentTo[v]|)
    ensures s.log[v] == s.log[t.root]
    decreases depth[v]
  {
    if v != t.root {
      assert LinkedUp(t, v);
      assert EdgeOk(s, t, v);
      SameAsRoot(s, t, depth, t.parent[v]);
    }
  }

  /** In every run on every tree: each node receives the messages that the root was given
      once each and in order, any two nodes agree, and nothing is lost. */
  lemma BroadcastIsOrdered(t: Tree, depth: seq<nat>, events: seq<Event>)
    requires Linked(t) && Layered(t, depth)
    ensures InOrder(Run(Init(t), t, events), t, Given(t, events))
    ensures Agreement(Run(Init(t), t, events))
    ensures NothingLost(Run(Init(t), t, events), t, Given(t, events))
  {
    var s := Run(Init(t), t, events);
    Reachable(t, events);
    RootHasGiven(t, events);
    forall v: nat | v < |s.log| ensures s.log[v] <= s.log[t.root] { PrefixOfRoot(s, t, depth, v); }
    if forall v :: 0 <= v < |s.phase| ==> s.phase[v].Idle? && (v != t.root ==> |s.log[v]| == |s.sentTo[v]|) {
      forall v | 0 <= v < |s.log| ensures s.log[v] == s.log[t.root] { SameAsRoot(s, t, depth, v); }
    }
  }

  // ----- Every message arrives -----

  predicate CanStep(s: State, t: Tree, v: nat)
    requires Valid(s, t)
  {
    v < |s.phase| && (s.phase[v].Forwarding? || (v != t.root && |s.log[v]| < |s.sentTo[v]|))
  }

  /** Everybody has every message that the root has broadcast, and is done with it. */
  ghost predicate AllDelivered(s: State, t: Tree)
    requires Valid(s, t)
  {
    forall v :: 0 <= v < |s.phase| ==> s.phase[v].Idle? && s.log[v] == s.log[t.root]
  }

  /** Where nobody can take a step, everything has been delivered. */
  lemma QuietIsDelivered(s: State, t: Tree, depth: seq<nat>)
    requires Inv(s, t) && Layered(t, depth) && forall u: nat :: u < |s.phase| ==> !CanStep(s, t, u)
    ensures AllDelivered(s, t)
  {
    forall u: nat | u < |s.phase| ensures s.phase[u].Idle? && (u != t.root ==> |s.log[u]| == |s.sentTo[u]|) {
      assert !CanStep(s, t, u);
      if u != t.root {
        assert LinkedUp(t, u);
        assert EdgeOk(s, t, u);
      }
    }
    forall u | 0 <= u < |s.phase| ensures s.log[u] == s.log[t.root] { SameAsRoot(s, t, depth, u); }
  }

  /** As long as a message is under way, some node can take a step. */
  lemma SomebodyCanStep(s: State, t: Tree, depth: seq<nat>) returns (v: nat)
    requires Inv(s, t) && Layered(t, depth) && !AllDelivered(s, t)
    ensures CanStep(s, t, v)
  {
    if forall u: nat :: u < |s.phase| ==> !CanStep(s, t, u) { QuietIsDelivered(s, t, depth); }
    v :| v < |s.phase| && CanStep(s, t, v);
  }

  function Missing(s: State, t: Tree, v: nat): nat
    requires Valid(s, t) && v < |s.log|
  {
    if |s.log[v]| < |s.log[t.root]| then |s.log[t.root]| - |s.log[v]| else 0
  }

  /** The steps that node `v` has left: for each message it misses one to receive it,
      one for each child and one to be done. */
  function StepsLeft(s: State, t: Tree, v: nat): nat
    requires Valid(s, t) && v < |s.log|
  {
    var k := |t.children[v]|;
    Missing(s, t, v) * (k + 2) + if s.phase[v].Forwarding? then k + 1 - s.phase[v].next else 0
  }

  /** The steps that the first `k` nodes have left. */
  function Work(s: State, t: Tree, k: nat): nat
    requires Valid(s, t) && k <= |s.log|
  {
    if k == 0 then 0 else Work(s, t, k - 1) + StepsLeft(s, t, k - 1)
  }

  lemma {:induction false} WorkDrops(s: State, s': State, t: Tree, v: nat, k: nat)
    requires Valid(s, t) && Valid(s', t) && k <= |s.log| && v < |s.log| && StepsLeft(s', t, v) < StepsLeft(s, t, v)
    requires forall u :: 0 <= u < |s.log| && u != v ==> StepsLeft(s', t, u) == StepsLeft(s, t, u)
    ensures Work(s', t, k) <= Work(s, t, k)
    ensures v < k ==> Work(s', t, k) < Work(s, t, k)
    decreases k
  {
    if k > 0 { WorkDrops(s, s', t, v, k - 1); }
  }

  lemma OneLess(m: nat, k: nat)
    requires m > 0
    ensures (m - 1) * k == m * k - k
  {
  }

  /** A step of a node leaves it fewer steps, and the others as many as before. */
  lemma StepReducesWork(s: State, t: Tree, depth: seq<nat>, v: nat)
    requires Inv(s, t) && Layered(t, depth) && CanStep(s, t, v)
    ensures Work(Next(s, t, Step(v)), t, |s.log|) < Work(s, t, |s.log|)
    ensures Next(s, t, Step(v)).log[t.root] == s.log[t.root]
  {
    var s' := Next(s, t, Step(v));
    assert LinkedDown(t, v);
    if s.phase[v].Idle? {
      assert LinkedUp(t, v);
      assert EdgeOk(s, t, v);
      PrefixOfRoot(s, t, depth, t.parent[v]);
      OneLess(Missing(s, t, v), |t.children[v]| + 2);
    }
    assert s'.log[t.root] == s.log[t.root];
    forall u | 0 <= u < |s.log| && u != v ensures StepsLeft(s', t, u) == StepsLeft(s, t, u) {
      assert s'.log[u] == s.log[u] && s'.phase[u] == s.phase[u];
    }
    WorkDrops(s, s', t, v, |s.log|);
  }

  /** From every reachable state, without a further broadcast, a bounded number of
      steps delivers every message to every node. */
  lemma {:induction false} Drain(s: State, t: Tree, depth: seq<nat>) returns (more: seq<Event>)
    requires Inv(s, t) && Layered(t, depth)
    ensures |more| <= Work(s, t, |s.log|)
    ensures forall k :: 0 <= k < |more| ==> more[k].Step?
    ensures AllDelivered(Run(s, t, more), t) && Run(s, t, more).log[t.root] == s.log[t.root]
    decreases Work(s, t, |s.log|)
  {
    more := [];
    if !AllDelivered(s, t) {
      hide Next, Work;
      var v := SomebodyCanStep(s, t, depth);
      StepReducesWork(s, t, depth, v);
      StepKeepsInv(s, t, Step(v));
      var rest := Drain(Next(s, t, Step(v)), t, depth);
      more := [Step(v)] + rest;
      RunAppend(s, t, Step(v), rest);
    }
  }

  lemma {:induction false} RunAppend(s: State, t: Tree, e: Event, rest: seq<Event>)
    requires Valid(s, t)
    ensures Run(s, t, [e] + rest) == Run(Next(s, t, e), t, rest)
    decreases |rest|
  {
    var all := [e] + rest;
    if rest == [] {
      assert all[..0] == [];
      assert Run(s, t, []) == s;
    } else {
      assert all[..|all| - 1] == [e] + rest[..|rest| - 1];
      RunAppend(s, t, e, rest[..|rest| - 1]);
    }
  }

  /** Every run can be continued, within the work that is left, so that everybody has
      every message the root was given. */
  lemma EveryMessageArrives(t: Tree, depth: seq<nat>, events: seq<Event>) returns (more: seq<Event>)
    requires Linked(t) && Layered(t, depth)
    ensures forall k :: 0 <= k < |more| ==> more[k].Step?
    ensures |more| <= Work(Run(Init(t), t, events), t, |t.parent|)
    ensures var s := Run(Run(Init(t), t, events), t, more);
      forall v :: 0 <= v < |s.phase| ==> s.phase[v].Idle? && s.log[v] == Given(t, events)
  {
    Reachable(t, events);
    RootHasGiven(t, events);
    more := Drain(Run(Init(t), t, events), t, depth);
  }

  /** After every run a further message can be broadcast, and reaches everybody after all
      those before it. */
  lemma NextMessageArrives(t: Tree, depth: seq<nat>, events: seq<Event>, msg: Message) returns (more: seq<Event>)
    requires Linked(t) && Layered(t, depth)
    ensures var s := Run(Run(Init(t), t, events), t, more);
      forall v :: 0 <= v < |s.phase| ==> s.phase[v].Idle? && s.log[v] == Given(t, events) + [msg]
  {
    var s := Run(Init(t), t, events);
    Reachable(t, events);
    RootHasGiven(t, events);
    var first := Drain(s, t, depth);
    RunKeepsInv(s, t, first);
    var s1 := Run(s, t, first);
    StepKeepsInv(s1, t, Start(msg));
    var rest := Drain(Next(s1, t, Start(msg)), t, depth);
    RunAppend(s1, t, Start(msg), rest);
    RunConcat(s, t, first, [Start(msg)] + rest);
    more := first + ([Start(msg)] + rest);
  }

  lemma {:induction false} RunKeepsInv(s: State, t: Tree, events: seq<Event>)
    requires Inv(s, t)
    ensures Inv(Run(s, t, events), t)
    decreases |events|
  {
    if events != [] {
      RunKeepsInv(s, t, events[..|events| - 1]);
      StepKeepsInv(Run(s, t, events[..|events| - 1]), t, events[|events| - 1]);
    }
  }

  lemma {:induction false} RunConcat(s: State, t: Tree, a: seq<Event>, b: seq<Event>)
    requires Valid(s, t)
    ensures Run(s, t, a + b) == Run(Run(s, t, a), t, b)
    decreases |b|
  {
    if b == [] {
      assert a + b == a;
    } else {
      assert (a + b)[..|a + b| - 1] == a + b[..|b| - 1];
      RunConcat(s, t, a, b[..|b| - 1]);
    }
  }
}
