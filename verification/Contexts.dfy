/** Smelt contexts: the channels between the nodes of a tree. */
module Contexts {
  import opened Trees
  import opened Channels

  /** `children[v]`: the channels that node `v` created for its children; `parent[v]`:
      its channel to its own parent, null for the root. */
  class Context {
    const tree: Tree
    const children: array<seq<Channel>>
    const parent: array<Channel?>

    /** The channel of node `v` to its parent is the very channel that its parent
        created for it, owned by the parent and with `v` as its target. */
    ghost predicate Wired()
      reads this, children, parent
    {
      && Linked(tree)
      && children.Length == |tree.parent| && parent.Length == |tree.parent|
      && (forall v :: 0 <= v < parent.Length ==> ChildrenWired(v) && ParentWired(v))
    }

    ghost predicate ChildrenWired(v: nat)
      reads this, children
      requires Shaped(tree) && v < children.Length == |tree.parent|
    {
      && |children[v]| == |tree.children[v]|
      && forall k :: 0 <= k < |children[v]| ==>
        children[v][k].owner == v && children[v][k].target == tree.children[v][k]
    }

    ghost predicate ParentWired(v: nat)
      reads this, children, parent
      requires Shaped(tree) && v < children.Length == parent.Length == |tree.parent|
    {
      if v == tree.root then parent[v] == null
      else
        && tree.parent[v] < children.Length && tree.index[v] < |children[tree.parent[v]]|
        && parent[v] != null
        && parent[v] == children[tree.parent[v]][tree.index[v]]
    }

    /** `smlt_context_create` without shared memory: first the channels to the
        children of every node, then the links to the parents. */
    constructor (t: Tree)
      requires Linked(t)
      ensures tree == t && Wired() && fresh(children) && fresh(parent)
      ensures forall v :: 0 <= v < parent.Length && v != t.root ==> fresh(parent[v]) && parent[v].Empty()
    {
      tree := t;
      children := new seq<Channel>[|t.parent|](_ => []);
      parent := new Channel?[|t.parent|](_ => null);
      new;
      CreateAll(t, children);
      LinkParents(t, children, parent);
      forall v | 0 <= v < parent.Length
        ensures ParentWired(v) && (v != t.root ==> fresh(parent[v]) && parent[v].Empty())
      {
        if v != t.root { assert LinkedUp(t, v); }
      }
    }

    /** A parent's channel to a child is that child's channel to its parent. */
    lemma MutuallyInverse(v: nat, k: nat)
      requires Wired() && v < children.Length && k < |tree.children[v]|
      ensures k < |children[v]| && tree.children[v][k] < parent.Length && parent[tree.children[v][k]] == children[v][k]
    {
      assert ChildrenWired(v) && LinkedDown(tree, v);
      assert ParentWired(tree.children[v][k]);
    }

    /** A channel belongs to one child only. */
    lemma DistinctChannels(v: nat, w: nat)
      requires Wired() && v < parent.Length && w < parent.Length && parent[v] != null && parent[v] == parent[w]
      ensures v == w
    {
      assert ParentWired(v) && ParentWired(w);
      TargetIsChild(v);
      TargetIsChild(w);
    }

    /** Parent and child see the two queues of their channel from opposite ends. */
    lemma TargetIsChild(v: nat)
      requires Wired() && v < parent.Length && v != tree.root
      ensures parent[v] != null && parent[v].owner == tree.parent[v] && parent[v].target == v
      ensures tree.parent[v] != v ==>
        && parent[v].SendQueue(v) == parent[v].RecvQueue(tree.parent[v]) == parent[v].toOwner
        && parent[v].RecvQueue(v) == parent[v].SendQueue(tree.parent[v]) == parent[v].toTarget
    {
      assert ParentWired(v) && LinkedUp(tree, v) && ChildrenWired(tree.parent[v]);
    }

    /** `smlt_context_node_is_root`. */
    predicate IsRoot(v: nat)
      reads parent
    {
      v < parent.Length && parent[v] == null
    }

    lemma RootIsRoot(v: nat)
      requires Wired() && v < parent.Length
      ensures IsRoot(v) <==> v == tree.root
    {
      assert ParentWired(v);
    }
  }

  /** The channels of one node to its children. */
  method CreateChannels(src: nat, targets: seq<nat>) returns (row: seq<Channel>)
    ensures |row| == |targets|
    ensures forall k :: 0 <= k < |row| ==>
        fresh(row[k]) && row[k].Empty() && row[k].owner == src && row[k].target == targets[k]
  {
    row := [];
    for k := 0 to |targets|
      invariant |row| == k
      invariant forall j :: 0 <= j < k ==>
          fresh(row[j]) && row[j].Empty() && row[j].owner == src && row[j].target == targets[j]
    {
      var c := new Channel(src, targets[k]);
      row := row + [c];
    }
  }

  method CreateAll(t: Tree, children: array<seq<Channel>>)
    requires Shaped(t) && children.Length == |t.parent|
    modifies children
    ensures forall v :: 0 <= v < children.Length ==> |children[v]| == |t.children[v]|
    ensures forall v, k :: 0 <= v < children.Length && 0 <= k < |children[v]| ==>
      var c := children[v][k]; fresh(c) && c.Empty() && c.owner == v && c.target == t.children[v][k]
  {
    for v := 0 to children.Length
      invariant forall u :: 0 <= u < v ==> |children[u]| == |t.children[u]|
      invariant forall u, k :: 0 <= u < v && 0 <= k < |children[u]| ==>
        var c := children[u][k]; fresh(c) && c.Empty() && c.owner == u && c.target == t.children[u][k]
    {
      var row := CreateChannels(v, t.children[v]);
      children[v] := row;
    }
  }

  method LinkParents(t: Tree, children: array<seq<Channel>>, parent: array<Channel?>)
    requires Linked(t) && children.Length == parent.Length == |t.parent|
    requires forall v :: 0 <= v < children.Length ==> |children[v]| == |t.children[v]|
    requires forall v :: 0 <= v < parent.Length ==> parent[v] == null
    modifies parent
    ensures parent[t.root] == null
    ensures forall v :: 0 <= v < parent.Length && v != t.root ==>
      t.parent[v] < children.Length && t.index[v] < |children[t.parent[v]]|
      && parent[v] == children[t.parent[v]][t.index[v]]
  {
    for v := 0 to |t.parent|
      invariant forall u :: 0 <= u < v && u != t.root ==>
        t.parent[u] < children.Length && t.index[u] < |children[t.parent[u]]|
        && parent[u] == children[t.parent[u]][t.index[u]]
      invariant forall u :: v <= u < parent.Length || u == t.root ==> parent[u] == null
    {
      if v != t.root {
        assert LinkedUp(t, v);
        parent[v] := children[t.parent[v]][t.index[v]];
      }
    }
  }
}
