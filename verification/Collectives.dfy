/** The collective operations on the trees that Smelt builds. */
module Collectives {
  import opened Trees
  import opened Topology
  import TreeBarrier
  import TreeBroadcast

  /** The run of the broadcast can go on so that everybody has what the root was given. */
  ghost predicate BroadcastEnds(t: Tree, events: seq<TreeBroadcast.Event>)
    requires Linked(t)
  {
    var s := TreeBroadcast.Run(TreeBroadcast.Init(t), t, events);
    exists more :: EverybodyHas(TreeBroadcast.Run(s, t, more), TreeBroadcast.Given(t, events))
  }

  ghost predicate EverybodyHas(s: TreeBroadcast.State, given: seq<TreeBroadcast.Message>) {
    forall v :: 0 <= v < |s.log| ==> s.log[v] == given
  }

  /** What barrier and broadcast promise in one run of each. */
  ghost predicate Serves(t: Tree, schedule: seq<nat>, events: seq<TreeBroadcast.Event>)
    requires Linked(t) && forall k :: 0 <= k < |schedule| ==> schedule[k] < |t.parent|
  {
    var barrier := TreeBarrier.Run(TreeBarrier.Init(t), t, schedule);
    var broadcast := TreeBroadcast.Run(TreeBroadcast.Init(t), t, events);
    && TreeBarrier.BarrierHolds(barrier) && TreeBarrier.AtMostOneInFlight(barrier, t)
    && TreeBarrier.NobodyIsStuck(barrier, t) && TreeBarrier.CallsEnd(barrier, t)
    && TreeBroadcast.InOrder(broadcast, t, TreeBroadcast.Given(t, events)) && TreeBroadcast.Agreement(broadcast)
    && TreeBroadcast.NothingLost(broadcast, t, TreeBroadcast.Given(t, events))
    && BroadcastEnds(t, events)
  }

  lemma TreeServes(t: Tree, depth: seq<nat>, schedule: seq<nat>, events: seq<TreeBroadcast.Event>)
    requires Linked(t) && Layered(t, depth) && forall k :: 0 <= k < |schedule| ==> schedule[k] < |t.parent|
    ensures Serves(t, schedule, events)
  {
    TreeBarrier.BarrierIsSafe(t, depth, schedule);
    TreeBroadcast.BroadcastIsOrdered(t, depth, events);
    var more := TreeBroadcast.EveryMessageArrives(t, depth, events);
    assert EverybodyHas(TreeBroadcast.Run(TreeBroadcast.Run(TreeBroadcast.Init(t), t, events), t, more),
                        TreeBroadcast.Given(t, events));
  }

  /** On the default tree of any number of threads the barrier and the broadcast keep
      their promises in every run. */
  lemma DefaultTreeServes(n: nat, schedule: seq<nat>, events: seq<TreeBroadcast.Event>)
    requires n > 0 && forall k :: 0 <= k < |schedule| ==> schedule[k] < n
    ensures Linked(BinaryTree(n)) && Serves(BinaryTree(n), schedule, events)
  {
    BinaryTreeIsTree(n);
    hide Serves;
    TreeServes(BinaryTree(n), seq(n, i => i), schedule, events);
  }

  /** So they do on the tree parsed from any well-formed model matrix without cycles. */
  lemma ModelTreeServes(m: Matrix, root: nat, depth: seq<nat>, schedule: seq<nat>, events: seq<TreeBroadcast.Event>)
    requires WellFormed(m, root) && Acyclic(m, depth) && forall k :: 0 <= k < |schedule| ==> schedule[k] < |m|
    ensures Linked(TreeOf(Parsed(m), root)) && Serves(TreeOf(Parsed(m), root), schedule, events)
  {
    ParsedIsTree(m, root, depth);
    hide Serves;
    TreeServes(TreeOf(Parsed(m), root), depth, schedule, events);
  }
}
