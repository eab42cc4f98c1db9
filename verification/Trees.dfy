/** Rooted trees as a Smelt context holds them: parent, children and child index. */
module Trees {

  /** The entry of the root in `parent` and `index` has no meaning. */
  datatype Tree = Tree(root: nat, parent: seq<nat>, index: seq<nat>, children: seq<seq<nat>>)

  predicate Shaped(t: Tree) {
    |t.index| == |t.parent| && |t.children| == |t.parent| && t.root < |t.parent|
  }

  /** Node `i` has a parent: every node but the root. */
  predicate IsChild(t: Tree, i: nat) {
    i < |t.parent| && i != t.root
  }

  /** The parent of a node lists it as the child with its index. */
  predicate LinkedUp(t: Tree, i: nat)
    requires Shaped(t) && i < |t.parent|
  {
    var p := t.parent[i];
    p < |t.parent| && t.index[i] < |t.children[p]| && t.children[p][t.index[i]] == i
  }

  /** Every child that a node lists has it as its parent, with that index. */
  predicate LinkedDown(t: Tree, i: nat)
    requires Shaped(t) && i < |t.parent|
  {
    forall k :: 0 <= k < |t.children[i]| ==>
      var c := t.children[i][k];
      IsChild(t, c) && t.parent[c] == i && t.index[c] == k
  }

  /** Children and parent links are inverse to each other. */
  predicate Linked(t: Tree) {
    && Shaped(t)
    && (forall i {:trigger LinkedUp(t, i)} :: 0 <= i < |t.parent| && i != t.root ==> LinkedUp(t, i))
    && (forall i {:trigger LinkedDown(t, i)} :: 0 <= i < |t.parent| ==> LinkedDown(t, i))
  }

  /** Going up from a node always decreases `depth`, so every node is below the root. */
  ghost predicate Layered(t: Tree, depth: seq<nat>)
    requires Shaped(t)
  {
    && |depth| == |t.parent|
    && (forall i: nat {:trigger t.parent[i]} :: IsChild(t, i) ==>
        t.parent[i] < |depth| && depth[t.parent[i]] < depth[i])
  }

  // ----- Every node is reached from the root in exactly one way -----

  /** The node that a sequence of child positions leads to, from the root. */
  predicate Leads(t: Tree, path: seq<nat>, v: nat)
    requires Linked(t) && v < |t.parent|
    decreases |path|
  {
    if path == [] then v == t.root
    else
      v != t.root && t.index[v] == path[|path| - 1] && t.parent[v] < |t.parent|
      && Leads(t, path[..|path| - 1], t.parent[v])
  }

  lemma {:induction false} PathExists(t: Tree, depth: seq<nat>, v: nat) returns (path: seq<nat>)
    requires Linked(t) && Layered(t, depth) && v < |t.parent|
    ensures Leads(t, path, v)
    decreases depth[v]
  {
    path := [];
    if v != t.root {
      var up := PathExists(t, depth, t.parent[v]);
      path := up + [t.index[v]];
      assert path[..|path| - 1] == up;
    }
  }

  lemma {:induction false} PathIsUnique(t: Tree, v: nat, p: seq<nat>, q: seq<nat>)
    requires Linked(t) && v < |t.parent| && Leads(t, p, v) && Leads(t, q, v)
    ensures p == q
    decreases |p|
  {
    if p != [] {
      PathIsUnique(t, t.parent[v], p[..|p| - 1], q[..|q| - 1]);
      assert p == p[..|p| - 1] + [p[|p| - 1]];
      assert q == q[..|q| - 1] + [q[|q| - 1]];
    }
  }

  /** Two paths never lead to the same node, and following one more child position
      of a node leads to that child. */
  lemma PathExtends(t: Tree, path: seq<nat>, v: nat, k: nat)
    requires Linked(t) && v < |t.parent| && Leads(t, path, v) && k < |t.children[v]|
    ensures t.children[v][k] < |t.parent| && Leads(t, path + [k], t.children[v][k])
  {
    assert LinkedDown(t, v);
    assert (path + [k])[..|path|] == path;
  }
}
