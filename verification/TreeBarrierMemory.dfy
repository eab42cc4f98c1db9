/** The tree barrier on the channels of a context. */
module TreeBarrierMemory {
  import opened Trees
  import opened Channels
  import opened Contexts
  import opened TreeBarrier

  class Barrier {
    const context: Context
    const nodes: array<Node>

    ghost predicate Wired()
      reads this, context, context.children, context.parent
    {
      && context.Wired()
      && nodes.Length == context.parent.Length
      && forall v: nat :: IsChild(context.tree, v) ==> context.tree.parent[v] != v
    }

    ghost function Footprint(): set<Channel>
      requires Wired()
      reads this, context, context.children, context.parent
    {
      set v | 0 <= v < nodes.Length && context.parent[v] != null :: context.parent[v]
    }

    /** The queue that each node sends its reports on. */
    ghost function Up(): (q: seq<Queue>)
      requires Wired()
      reads this, context, context.children, context.parent, Footprint()
    {
      var channels := Footprint();
      seq(nodes.Length,
          v requires Wired() && channels == Footprint() && 0 <= v < nodes.Length
            reads this, context, context.children, context.parent, channels =>
            if context.parent[v] == null then Queue(0, 0) else context.parent[v].toOwner)
    }

    /** The queue that each node is released on. */
    ghost function Down(): (q: seq<Queue>)
      requires Wired()
      reads this, context, context.children, context.parent, Footprint()
    {
      var channels := Footprint();
      seq(nodes.Length,
          v requires Wired() && channels == Footprint() && 0 <= v < nodes.Length
            reads this, context, context.children, context.parent, channels =>
            if context.parent[v] == null then Queue(0, 0) else context.parent[v].toTarget)
    }

    ghost function Abs(): State
      requires Wired()
      reads this, context, context.children, context.parent, Footprint(), nodes
    {
      State(nodes[..], Up(), Down())
    }

    ghost predicate Ready()
      reads this, context, context.children, context.parent, nodes, if Wired() then Footprint() else {}
    {
      Wired() && Valid(Abs(), context.tree)
    }

    constructor (t: Tree, ghost depth: seq<nat>)
      requires Linked(t) && Layered(t, depth)
      ensures Ready() && context.tree == t && fresh(nodes) && fresh(Footprint()) && Abs() == Init(t)
    {
      var c := new Context(t);
      context := c;
      nodes := new Node[|t.parent|](_ => Node(0, Outside));
      new;
      forall v | 0 <= v < |t.parent|
        ensures context.parent[v] != null ==> fresh(context.parent[v]) && context.parent[v].Empty()
      {
        context.RootIsRoot(v);
      }
      assert nodes[..] == Init(t).nodes && Up() == Init(t).up && Down() == Init(t).down;
    }

    /** What an operation on the channel between `c` and its parent does to the queues. */
    twostate lemma OneChannel(c: nat)
      requires old(Wired()) && Wired() && IsChild(context.tree, c)
      requires forall v :: 0 <= v < nodes.Length ==> context.parent[v] == old(context.parent[v])
      requires forall v :: 0 <= v < nodes.Length && context.parent[v] !in {null, context.parent[c]} ==>
                 unchanged(context.parent[v])
      ensures context.parent[c] != null
      ensures Up() == old(Up())[c := context.parent[c].toOwner]
        && Down() == old(Down())[c := context.parent[c].toTarget]
    {
      context.TargetIsChild(c);
      forall v: nat | v < nodes.Length && v != c ensures Up()[v] == old(Up())[v] && Down()[v] == old(Down())[v] {
        if context.parent[v] == context.parent[c] { context.DistinctChannels(v, c); }
      }
    }

    /** `smlt_channel_notify` on the channel to the parent. */
    method NotifyParent(v: nat)
      requires Wired() && IsChild(context.tree, v)
      modifies Footprint()
      ensures Wired() && Up() == old(Up())[v := Sent(old(Up())[v])] && Down() == old(Down())
    {
      context.TargetIsChild(v);
      context.parent[v].Notify(v);
      OneChannel(v);
    }

    /** One poll of the channel to the parent. */
    method PollParent(v: nat) returns (taken: bool)
      requires Wired() && IsChild(context.tree, v)
      modifies Footprint()
      ensures Wired() && Up() == old(Up())
      ensures taken <==> Pending(old(Down())[v])
      ensures Down() == if taken then old(Down())[v := Received(old(Down())[v])] else old(Down())
    {
      context.TargetIsChild(v);
      taken := context.parent[v].PollNotification(v);
      OneChannel(v);
    }

    /** `smlt_channel_notify` on the channel to child number `k`. */
    method NotifyChild(v: nat, k: nat)
      requires Wired() && v < nodes.Length && k < |context.tree.children[v]|
      modifies Footprint()
      ensures Wired() && Up() == old(Up()) && context.tree.children[v][k] < nodes.Length
      ensures var c := context.tree.children[v][k]; Down() == old(Down())[c := Sent(old(Down())[c])]
    {
      ghost var c := context.tree.children[v][k];
      context.MutuallyInverse(v, k);
      assert LinkedDown(context.tree, v);
      context.TargetIsChild(c);
      context.children[v][k].Notify(v);
      OneChannel(c);
    }

    /** One poll of the channel to child number `k`. */
    method PollChild(v: nat, k: nat) returns (taken: bool)
      requires Wired() && v < nodes.Length && k < |context.tree.children[v]|
      modifies Footprint()
      ensures Wired() && Down() == old(Down()) && context.tree.children[v][k] < nodes.Length
      ensures var c := context.tree.children[v][k];
        (taken <==> Pending(old(Up())[c])) && Up() ==
          if taken then old(Up())[c := Received(old(Up())[c])] else old(Up())
    {
      ghost var c := context.tree.children[v][k];
      context.MutuallyInverse(v, k);
      assert LinkedDown(context.tree, v);
      context.TargetIsChild(c);
      taken := context.children[v][k].PollNotification(v);
      OneChannel(c);
    }

    /** One round of the polling loop of `smlt_reduce_notify`. */
    method Gather(v: nat)
      requires Ready() && v < nodes.Length && nodes[v].phase.Gathering?
      modifies nodes, Footprint()
      ensures Ready() && Abs() == Next(old(Abs()), context.tree, v)
    {
      NextIsValid(Abs(), context.tree, v);
      var p := nodes[v].phase;
      var count := |context.children[v]|;
      assert context.ChildrenWired(v);
      if p.received == count {
        MoveTo(v, Reporting);
      } else {
        var scan := if p.scan + 1 == count then 0 else p.scan + 1;
        var taken := false;
        if !p.flags[p.scan] { taken := PollChild(v, p.scan); }
        MoveTo(v, if taken then Gathering(p.flags[p.scan := true], p.received + 1, scan) else p.(scan := scan));
      }
    }

    method MoveTo(v: nat, phase: Phase)
      requires Wired() && v < nodes.Length
      modifies nodes
      ensures nodes[..] == old(nodes[..])[v := old(nodes[v]).(phase := phase)]
      ensures Wired() && Up() == old(Up()) && Down() == old(Down())
    {
      nodes[v] := nodes[v].(phase := phase);
    }

    /** The end of `smlt_reduce_notify`: everybody but the root notifies its parent. */
    method Report(v: nat)
      requires Ready() && v < nodes.Length && nodes[v].phase.Reporting?
      modifies nodes, Footprint()
      ensures Ready() && Abs() == Next(old(Abs()), context.tree, v)
    {
      NextIsValid(Abs(), context.tree, v);
      context.RootIsRoot(v);
      if context.IsRoot(v) {
        MoveTo(v, Releasing(0));
      } else {
        NotifyParent(v);
        MoveTo(v, Awaiting);
      }
    }

    /** `smlt_broadcast_notify`: everybody but the root waits for its parent. */
    method Await(v: nat)
      requires Ready() && v < nodes.Length && v != context.tree.root && nodes[v].phase.Awaiting?
      modifies nodes, Footprint()
      ensures Ready() && Abs() == Next(old(Abs()), context.tree, v)
    {
      NextIsValid(Abs(), context.tree, v);
      var taken := PollParent(v);
      if taken { MoveTo(v, Releasing(0)); }
    }

    /** `smlt_broadcast_notify_subtree`: one child after the other is notified. */
    method Release(v: nat)
      requires Ready() && v < nodes.Length && nodes[v].phase.Releasing?
      modifies nodes, Footprint()
      ensures Ready() && Abs() == Next(old(Abs()), context.tree, v)
    {
      NextIsValid(Abs(), context.tree, v);
      var k := nodes[v].phase.released;
      assert context.ChildrenWired(v);
      if k < |context.children[v]| {
        NotifyChild(v, k);
        MoveTo(v, Releasing(k + 1));
      } else {
        nodes[v] := Node(nodes[v].episode + 1, Outside);
      }
    }

    /** A node calls `smlt_barrier_wait`. */
    method Enter(v: nat)
      requires Ready() && v < nodes.Length && nodes[v].phase.Outside?
      modifies nodes
      ensures Ready() && Abs() == Next(old(Abs()), context.tree, v)
    {
      NextIsValid(Abs(), context.tree, v);
      assert context.ChildrenWired(v);
      MoveTo(v, Gathering(seq(|context.children[v]|, _ => false), 0, 0));
    }
  }
}
