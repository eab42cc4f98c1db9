/**
 How Smelt builds its trees: the default binary tree, and the tree that a model
 matrix describes.
 */
module Topology {
  import Dissemination
  import opened Options
  import opened Trees

  // ----- The default binary tree -----

  function BinaryParent(i: nat): nat {
    if i == 0 then 0 else (i - 1) / 2
  }

  function BinaryChildren(n: nat, i: nat): seq<nat> {
    if 2 * i + 2 < n then [2 * i + 1, 2 * i + 2] else if 2 * i + 1 < n then [2 * i + 1] else []
  }

  function BinaryTree(n: nat): Tree {
    Tree(0,
         seq(n, i requires 0 <= i < n => BinaryParent(i)),
         seq(n, i requires 0 <= i < n => if i > 0 && i % 2 == 0 then 1 else 0),
         seq(n, i requires 0 <= i < n => BinaryChildren(n, i)))
  }

  /** The children of node `i` are those of `2i + 1` and `2i + 2` that are below `n`, in
      that order, and every node but 0 is one of these two of its parent. */
  ghost predicate HeapShaped(t: Tree, n: nat) {
    && t.root == 0 && |t.parent| == n && |t.index| == n && |t.children| == n
    && (forall i, k :: 0 <= i < n && 0 <= k < |t.children[i]| ==> k < 2 && t.children[i][k] == 2 * i + 1 + k)
    && (forall i :: 0 <= i < n ==>
          (2 * i + 1 < n <==> |t.children[i]| >= 1) && (2 * i + 2 < n <==> |t.children[i]| == 2))
    && (forall i :: 0 < i < n ==> t.index[i] < 2 && i == 2 * t.parent[i] + 1 + t.index[i])
  }

  lemma BinaryTreeIsHeap(n: nat)
    ensures HeapShaped(BinaryTree(n), n)
  {
  }

  /** The default tree is as flat as a binary tree can be: node `v` is as many hops from
      the root as `v + 1` can be halved. */
  lemma {:induction false} BinaryTreeIsFlat(n: nat, v: nat, path: seq<nat>)
    requires v < n && Linked(BinaryTree(n)) && Leads(BinaryTree(n), path, v)
    ensures Dissemination.Power(2, |path|) <= v + 1 < 2 * Dissemination.Power(2, |path|)
    decreases |path|
  {
    if path != [] { BinaryTreeIsFlat(n, BinaryParent(v), path[..|path| - 1]); }
  }

  /** `smlt_topology_create_binary_tree`. */
  method CreateBinaryTree(n: nat) returns (t: Tree)
    requires n > 0
    ensures t == BinaryTree(n) && HeapShaped(t, n)
  {
    var parent := new nat[n](_ => 0);
    var index := new nat[n](_ => 0);
    var children := new seq<nat>[n](_ => []);
    for i := 0 to n
      invariant forall j :: 0 <= j < i ==> parent[j] == BinaryParent(j) && children[j] == BinaryChildren(n, j)
      invariant forall j :: 0 <= j < n ==> index[j] == if 0 < j < i && j % 2 == 0 then 1 else 0
      invariant parent != index && parent.Length == n && index.Length == n
    {
      if i == 0 {
        parent[i] := 0;
      } else if i % 2 == 0 {
        parent[i] := i / 2 - 1;
        index[i] := 1;
      } else {
        parent[i] := i / 2;
        index[i] := 0;
      }
      if i * 2 + 1 < n {
        children[i] := [i * 2 + 1];
        if i * 2 + 2 < n {
          children[i] := children[i] + [i * 2 + 2];
        }
      } else {
        children[i] := [];
      }
    }
    t := Tree(0, parent[..], index[..], children[..]);
    BinaryTreeIsHeap(n);
  }

  /** For every number of threads the default topology is a spanning tree rooted at
      node 0, in which parents have lower numbers than their children. */
  lemma BinaryTreeIsTree(n: nat)
    requires n > 0
    ensures Linked(BinaryTree(n))
    ensures Layered(BinaryTree(n), seq(n, i => i))
  {
    var t := BinaryTree(n);
    forall i | 0 <= i < n && i != 0 ensures LinkedUp(t, i) {}
    forall i | 0 <= i < n ensures LinkedDown(t, i) {}
  }

  // ----- Trees from a model matrix -----

  const PARENT: int := 99
  const MAX_MP: int := 98
  const SLAVE_START: int := 150
  const SLAVE_MAX: int := 169

  type Matrix = seq<seq<int>>

  predicate Square(m: Matrix) {
    forall x :: 0 <= x < |m| ==> |m[x]| == |m|
  }

  predicate IsChildEntry(val: int) {
    0 < val <= MAX_MP
  }

  predicate IsParentEntry(val: int) {
    val == PARENT || SLAVE_START <= val <= SLAVE_MAX
  }

  /** The code goes on past this entry: no panic and no failed assertion. The
      assertion on the opposite entry is written `val <+ 98`, less than 98. */
  predicate EntryAccepted(m: Matrix, x: nat, y: nat)
    requires Square(m) && x < |m| && y < |m|
  {
    var val := m[x][y];
    val == 0 || IsChildEntry(val) || (val == PARENT && 0 < m[y][x] < MAX_MP) || SLAVE_START <= val <= SLAVE_MAX
  }

  predicate RowAccepted(m: Matrix, x: nat)
    requires Square(m) && x < |m|
  {
    forall y: nat :: y < |m| ==> EntryAccepted(m, x, y)
  }

  predicate Accepted(m: Matrix)
    requires Square(m)
  {
    forall x: nat :: x < |m| ==> RowAccepted(m, x)
  }

  /** The largest child position in the first `y` entries of a row. */
  function MaxChild(row: seq<int>, y: nat): (k: nat)
    requires y <= |row|
    ensures k <= MAX_MP
    ensures forall z :: 0 <= z < y && IsChildEntry(row[z]) ==> row[z] <= k
    ensures k > 0 ==> exists z :: 0 <= z < y && row[z] == k
  {
    if y == 0 then 0
    else
      var k := MaxChild(row, y - 1);
      if k < row[y - 1] <= MAX_MP then row[y - 1] else k
  }

  /** The last of the first `y` columns that names a parent. */
  function ParentIn(row: seq<int>, y: nat): (p: Option<nat>)
    requires y <= |row|
    ensures p.Some? ==> p.value < y && IsParentEntry(row[p.value])
    ensures p.None? ==> forall z :: 0 <= z < y ==> !IsParentEntry(row[z])
  {
    if y == 0 then None else if IsParentEntry(row[y - 1]) then Some(y - 1) else ParentIn(row, y - 1)
  }

  /** The last of the first `y` columns that is the child in position `k`. */
  function ChildIn(row: seq<int>, k: nat, y: nat): (c: Option<nat>)
    requires y <= |row|
    ensures c.Some? ==> c.value < y && row[c.value] == k + 1
    ensures c.None? ==> forall z :: 0 <= z < y ==> row[z] != k + 1
  {
    if y == 0 then None else if row[y - 1] == k + 1 then Some(y - 1) else ChildIn(row, k, y - 1)
  }

  /** The position that the last of the first `x` rows gives to node `y`; 0 if none does. */
  function IndexIn(m: Matrix, y: nat, x: nat): (k: nat)
    requires Square(m) && y < |m| && x <= |m|
    ensures (exists z :: 0 <= z < x && IsChildEntry(m[z][y])) ==>
        exists z :: 0 <= z < x && IsChildEntry(m[z][y]) && k == m[z][y] - 1
  {
    if x == 0 then 0 else if IsChildEntry(m[x - 1][y]) then m[x - 1][y] - 1 else IndexIn(m, y, x - 1)
  }

  /** What `smlt_topology_parse_model` leaves in the node records. */
  datatype Records = Records(parent: seq<Option<nat>>, index: seq<nat>, children: seq<seq<Option<nat>>>)

  function ParsedRow(row: seq<int>): seq<Option<nat>> {
    seq(MaxChild(row, |row|), k requires 0 <= k => ChildIn(row, k, |row|))
  }

  function Parsed(m: Matrix): Records
    requires Square(m)
  {
    Records(seq(|m|, x requires 0 <= x < |m| => ParentIn(m[x], |m|)),
            seq(|m|, y requires 0 <= y < |m| => IndexIn(m, y, |m|)),
            seq(|m|, x requires 0 <= x < |m| => ParsedRow(m[x])))
  }

  method CountChildren(row: seq<int>) returns (maxChild: nat)
    ensures maxChild == MaxChild(row, |row|)
  {
    maxChild := 0;
    for y := 0 to |row|
      invariant maxChild == MaxChild(row, y)
    {
      if row[y] > maxChild && row[y] <= MAX_MP { maxChild := row[y]; }
    }
  }

  /** One entry of the matrix: it names the parent of node `x`, or a child and its
      position, or nothing, or it is not accepted. */
  method ParseEntry(m: Matrix, x: nat, y: nat, parent: array<Option<nat>>, index: array<nat>, before: seq<Option<nat>>)
    returns (ok: bool, children: seq<Option<nat>>)
    requires Square(m) && x < |m| && y < |m| && parent.Length == |m| && index.Length == |m|
    requires IsChildEntry(m[x][y]) ==> m[x][y] <= |before|
    modifies parent, index
    ensures ok <==> EntryAccepted(m, x, y)
    ensures ok ==> parent[..] == if IsParentEntry(m[x][y]) then old(parent[..])[x := Some(y)] else old(parent[..])
    ensures ok ==> index[..] == if IsChildEntry(m[x][y]) then old(index[..])[y := m[x][y] - 1] else old(index[..])
    ensures ok ==> children == if IsChildEntry(m[x][y]) then before[m[x][y] - 1 := Some(y)] else before
  {
    ok, children := true, before;
    var val := m[x][y];
    if val == PARENT {
      parent[x] := Some(y);
      ok := 0 < m[y][x] < MAX_MP;
    } else if 0 < val <= MAX_MP {
      children := children[val - 1 := Some(y)];
      index[y] := val - 1;
    } else if SLAVE_START <= val <= SLAVE_MAX {
      parent[x] := Some(y);
    } else {
      ok := val == 0;
    }
  }

  /** The first `y` entries of row `x` are in the records. */
  ghost predicate RowDone(m: Matrix, x: nat, y: nat, parent: Option<nat>, index: seq<nat>, children: seq<Option<nat>>)
    requires Square(m) && x < |m| && y <= |m|
  {
    && parent == ParentIn(m[x], y) && IndexDone(m, x, y, index) && ChildrenDone(m[x], y, children)
    && (forall j: nat :: j < y ==> EntryAccepted(m, x, j))
  }

  ghost predicate IndexDone(m: Matrix, x: nat, y: nat, index: seq<nat>)
    requires Square(m) && x < |m| && y <= |m|
  {
    |index| == |m| && forall j :: 0 <= j < |m| ==> index[j] == IndexIn(m, j, if j < y then x + 1 else x)
  }

  ghost predicate ChildrenDone(row: seq<int>, y: nat, children: seq<Option<nat>>)
    requires y <= |row|
  {
    |children| == MaxChild(row, |row|) && forall k :: 0 <= k < |children| ==> children[k] == ChildIn(row, k, y)
  }

  lemma IndexStep(m: Matrix, x: nat, y: nat, index: seq<nat>)
    requires Square(m) && x < |m| && y < |m| && IndexDone(m, x, y, index)
    ensures IndexDone(m, x, y + 1, if IsChildEntry(m[x][y]) then index[y := m[x][y] - 1] else index)
  {
  }

  lemma ChildrenStep(row: seq<int>, y: nat, children: seq<Option<nat>>)
    requires y < |row| && ChildrenDone(row, y, children)
    ensures IsChildEntry(row[y]) ==> row[y] <= |children|
    ensures ChildrenDone(row, y + 1, if IsChildEntry(row[y]) then children[row[y] - 1 := Some(y)] else children)
  {
    hide MaxChild;
  }

  lemma EntryDone(m: Matrix, x: nat, y: nat, parent: Option<nat>, index: seq<nat>, children: seq<Option<nat>>)
    requires Square(m) && x < |m| && y < |m| && RowDone(m, x, y, parent, index, children) && EntryAccepted(m, x, y)
    requires IsChildEntry(m[x][y]) ==> m[x][y] <= |children|
    ensures RowDone(m, x, y + 1,
                    if IsParentEntry(m[x][y]) then Some(y) else parent,
                    if IsChildEntry(m[x][y]) then index[y := m[x][y] - 1] else index,
                    if IsChildEntry(m[x][y]) then children[m[x][y] - 1 := Some(y)] else children)
  {
    hide IndexDone, ChildrenDone, MaxChild, IndexIn, ChildIn, IsChildEntry, IsParentEntry, EntryAccepted;
    IndexStep(m, x, y, index);
    ChildrenStep(m[x], y, children);
  }

  lemma PositionFits(m: Matrix, x: nat, y: nat, parent: Option<nat>, index: seq<nat>, children: seq<Option<nat>>)
    requires Square(m) && x < |m| && y < |m| && RowDone(m, x, y, parent, index, children)
    ensures IsChildEntry(m[x][y]) ==> m[x][y] <= |children|
  {
  }

  /** The loop over one row: it fills the records of node `x` and hands out the
      child positions, or stops at the first entry that is not accepted. */
  method ParseRow(m: Matrix, x: nat, parent: array<Option<nat>>, index: array<nat>)
    returns (ok: bool, children: seq<Option<nat>>)
    requires Square(m) && x < |m| && parent.Length == |m| && index.Length == |m| && parent[x].None?
    requires forall j :: 0 <= j < |m| ==> index[j] == IndexIn(m, j, x)
    modifies parent, index
    ensures ok <==> RowAccepted(m, x)
    ensures ok ==> children == ParsedRow(m[x])
    ensures ok ==> parent[..] == old(parent[..])[x := ParentIn(m[x], |m|)]
    ensures ok ==> forall j :: 0 <= j < |m| ==> index[j] == IndexIn(m, j, x + 1)
  {
    hide RowDone, RowAccepted, EntryAccepted, IsParentEntry, IsChildEntry, MaxChild, ParentIn, IndexIn, ParsedRow;
    var maxChild := CountChildren(m[x]);
    children := seq(maxChild, _ => None);
    RowStart(m, x, index[..], children);
    for y := 0 to |m|
      invariant RowDone(m, x, y, parent[x], index[..], children)
      invariant parent[..] == old(parent[..])[x := parent[x]]
    {
      ghost var was, column, row := parent[x], index[..], children;
      PositionFits(m, x, y, was, column, row);
      ok, children := ParseEntry(m, x, y, parent, index, children);
      if !ok {
        Refused(m, x, y);
        return;
      }
      assert parent[x] == parent[..][x];
      EntryDone(m, x, y, was, column, row);
    }
    RowIsDone(m, x, parent[x], index[..], children);
    ok := true;
  }

  lemma RowStart(m: Matrix, x: nat, index: seq<nat>, children: seq<Option<nat>>)
    requires Square(m) && x < |m| && |index| == |m| && forall j :: 0 <= j < |m| ==> index[j] == IndexIn(m, j, x)
    requires children == seq(MaxChild(m[x], |m|), _ => None)
    ensures RowDone(m, x, 0, None, index, children)
  {
  }

  lemma Refused(m: Matrix, x: nat, y: nat)
    requires Square(m) && x < |m| && y < |m| && !EntryAccepted(m, x, y)
    ensures !RowAccepted(m, x)
  {
  }

  lemma RowIsDone(m: Matrix, x: nat, parent: Option<nat>, index: seq<nat>, children: seq<Option<nat>>)
    requires Square(m) && x < |m| && RowDone(m, x, |m|, parent, index, children)
    ensures RowAccepted(m, x) && children == ParsedRow(m[x]) && parent == ParentIn(m[x], |m|)
    ensures |index| == |m| && forall j :: 0 <= j < |m| ==> index[j] == IndexIn(m, j, x + 1)
  {
  }

  /** `smlt_topology_parse_model` for every square matrix: it gives up exactly on a
      matrix with an entry it does not accept. */
  method ParseModel(m: Matrix) returns (r: Option<Records>)
    requires Square(m)
    ensures r.Some? <==> Accepted(m)
    ensures r.Some? ==> r.value == Parsed(m)
  {
    assert forall j: nat :: j < |m| ==> IndexIn(m, j, 0) == 0;
    hide RowAccepted, EntryAccepted, ParentIn, IndexIn, ParsedRow, MaxChild, ChildIn;
    var n := |m|;
    var parent := new Option<nat>[n](_ => None);
    var index := new nat[n](_ => 0);
    var children := new seq<Option<nat>>[n](_ => []);
    for x := 0 to n
      invariant forall i: nat :: i < x ==> RowAccepted(m, i)
      invariant forall i :: 0 <= i < n ==> parent[i] == if i < x then ParentIn(m[i], n) else None
      invariant forall j :: 0 <= j < n ==> index[j] == IndexIn(m, j, x)
      invariant forall i :: 0 <= i < x ==> children[i] == ParsedRow(m[i])
    {
      var ok, row := ParseRow(m, x, parent, index);
      if !ok {
        assert !Accepted(m);
        return None;
      }
      children[x] := row;
    }
    r := Some(Records(parent[..], index[..], children[..]));
  }

  // ----- Well-formed matrices give trees -----

  ghost predicate HasPosition(m: Matrix, x: nat, k: int)
    requires Square(m) && x < |m|
  {
    exists z: nat :: z < |m| && m[x][z] == k
  }

  ghost predicate OneParent(m: Matrix, x: nat)
    requires Square(m) && x < |m|
  {
    forall y: nat, z: nat :: y < |m| && z < |m| && m[x][y] == PARENT && m[x][z] == PARENT ==> y == z
  }

  /** The child positions of a node are 1, 2, ... without gap or repetition. */
  ghost predicate OrderedChildren(m: Matrix, x: nat)
    requires Square(m) && x < |m|
  {
    && (forall y: nat, z: nat :: y < |m| && z < |m| && IsChildEntry(m[x][y]) && m[x][y] == m[x][z] ==> y == z)
    && (forall y: nat :: y < |m| && IsChildEntry(m[x][y]) ==>
          forall k: int {:trigger HasPosition(m, x, k)} :: 0 < k <= m[x][y] ==> HasPosition(m, x, k))
  }

  /** The matrix describes a tree of message-passing links: a node names `y` as its
      parent exactly when `y` gives it a child position, every node but the root
      has one parent, and the child positions of each node are in order. */
  ghost predicate WellFormed(m: Matrix, root: nat) {
    && Square(m) && root < |m|
    && (forall x: nat, y: nat :: x < |m| && y < |m| ==>
          && (m[x][y] == 0 || IsChildEntry(m[x][y]) || m[x][y] == PARENT)
          && (m[x][y] == PARENT <==> IsChildEntry(m[y][x])))
    && (forall x: nat :: x < |m| ==> (x == root <==> !HasPosition(m, x, PARENT)))
    && (forall x: nat {:trigger OneParent(m, x)} :: x < |m| ==> OneParent(m, x))
    && (forall x: nat {:trigger OrderedChildren(m, x)} :: x < |m| ==> OrderedChildren(m, x))
  }

  function Value(o: Option<nat>): nat {
    if o.Some? then o.value else 0
  }

  /** The tree in the records, read the way the accessors do. */
  function TreeOf(r: Records, root: nat): Tree {
    Tree(root, seq(|r.parent|, x requires 0 <= x < |r.parent| => Value(r.parent[x])), r.index,
         seq(|r.children|, x requires 0 <= x < |r.children| =>
           seq(|r.children[x]|, k requires 0 <= k < |r.children[x]| => Value(r.children[x][k]))))
  }

  /** The parser takes the matrix of a tree if and only if no node has 98 children:
      its symmetry test leaves out the last child position. */
  lemma AcceptedIffFewChildren(m: Matrix, root: nat)
    requires WellFormed(m, root)
    ensures Accepted(m) <==> forall x: nat, y: nat :: x < |m| && y < |m| ==> m[x][y] != MAX_MP
  {
    forall x: nat, y: nat | x < |m| && y < |m|
      ensures m[x][y] == MAX_MP <==> !EntryAccepted(m, y, x)
    {
      assert m[y][x] == PARENT <==> IsChildEntry(m[x][y]);
      assert m[x][y] == PARENT <==> IsChildEntry(m[y][x]);
    }
    if forall x: nat, y: nat :: x < |m| && y < |m| ==> m[x][y] != MAX_MP {
      forall x: nat | x < |m| ensures RowAccepted(m, x) {
        forall y: nat | y < |m| ensures EntryAccepted(m, x, y) { assert m[y][x] != MAX_MP; }
      }
    } else {
      var x: nat, y: nat :| x < |m| && y < |m| && m[x][y] == MAX_MP;
      assert !EntryAccepted(m, y, x) && !RowAccepted(m, y);
    }
  }

  /** A root with `c` children. */
  function Star(c: nat): Matrix {
    seq(c + 1, x requires 0 <= x => seq(c + 1, y requires 0 <= y => if x == 0 then y else if y == 0 then PARENT else 0))
  }

  lemma StarAt(c: nat, x: nat, y: nat)
    requires x <= c && y <= c
    ensures |Star(c)| == c + 1 && |Star(c)[x]| == c + 1
    ensures Star(c)[x][y] == if x == 0 then y else if y == 0 then PARENT else 0
  {
  }

  lemma StarIsSquare(c: nat)
    ensures |Star(c)| == c + 1 && Square(Star(c))
  {
  }

  lemma StarRow(c: nat, x: nat)
    requires c <= MAX_MP && x <= c
    ensures |Star(c)| == c + 1 && Square(Star(c))
    ensures x == 0 <==> !HasPosition(Star(c), x, PARENT)
    ensures OneParent(Star(c), x) && OrderedChildren(Star(c), x)
  {
    var m := Star(c);
    StarIsSquare(c);
    forall y: nat | y <= c ensures m[x][y] == if x == 0 then y else if y == 0 then PARENT else 0 { StarAt(c, x, y); }
    hide Star;
    if x > 0 { assert m[x][0] == PARENT; }
    if x == 0 {
      forall k: int | 0 < k <= c ensures HasPosition(m, x, k) { assert m[x][k] == k; }
    }
  }

  lemma StarIsWellFormed(c: nat)
    requires c <= MAX_MP
    ensures WellFormed(Star(c), 0)
  {
    var m := Star(c);
    StarIsSquare(c);
    forall x: nat | x < |m|
      ensures x == 0 <==> !HasPosition(m, x, PARENT)
      ensures OneParent(m, x) && OrderedChildren(m, x)
    {
      StarRow(c, x);
    }
    forall x: nat, y: nat | x < |m| && y < |m|
      ensures m[x][y] == 0 || IsChildEntry(m[x][y]) || m[x][y] == PARENT
    {
      StarAt(c, x, y);
    }
    forall x: nat, y: nat | x < |m| && y < |m| ensures m[x][y] == PARENT <==> IsChildEntry(m[y][x]) {
      StarAt(c, x, y);
      StarAt(c, y, x);
    }
    hide Star, HasPosition, OneParent, OrderedChildren;
    assert WellFormed(m, 0);
  }

  /** The matrix of a root with 98 children is a tree within the documented positions
      1 to 98, and the parser refuses it. */
  lemma FullStarIsRefused()
    ensures WellFormed(Star(98), 0) && !Accepted(Star(98))
  {
    StarIsWellFormed(98);
    StarAt(98, 0, 98);
    hide Star;
    AcceptedIffFewChildren(Star(98), 0);
  }

  /** The records of a matrix that describes a tree say what the matrix says. */
  lemma RecordsAgree(m: Matrix, root: nat, x: nat)
    requires WellFormed(m, root) && x < |m|
    ensures x == root <==> Parsed(m).parent[x].None?
    ensures x != root ==>
        var p := Parsed(m).parent[x].value; p < |m| && m[x][p] == PARENT && m[p][x] == Parsed(m).index[x] + 1
    ensures forall k :: 0 <= k < |Parsed(m).children[x]| ==>
              var c := Parsed(m).children[x][k]; c.Some? && c.value < |m| && m[x][c.value] == k + 1
    ensures forall y: nat :: y < |m| && IsChildEntry(m[x][y]) ==> m[x][y] <= |Parsed(m).children[x]|
  {
    var r, n := Parsed(m), |m|;
    assert OneParent(m, x) && OrderedChildren(m, x);
    assert HasPosition(m, x, PARENT) <==> r.parent[x].Some? by {
      if r.parent[x].Some? {
        var p := r.parent[x].value;
        assert m[x][p] == PARENT <==> IsChildEntry(m[p][x]);
        assert m[x][p] == PARENT;
      }
    }
    if x != root {
      var p := r.parent[x].value;
      assert m[x][p] == PARENT <==> IsChildEntry(m[p][x]);
      assert IsChildEntry(m[p][x]);
      IndexAgrees(m, root, x, p);
    }
    forall k | 0 <= k < |r.children[x]| ensures r.children[x][k].Some? {
      var y: nat :| y < n && m[x][y] == MaxChild(m[x], n);
      assert HasPosition(m, x, k + 1);
    }
  }

  /** Only the parent of a node gives it a position. */
  lemma IndexAgrees(m: Matrix, root: nat, x: nat, p: nat)
    requires WellFormed(m, root) && x < |m| && p < |m| && IsChildEntry(m[p][x])
    ensures IndexIn(m, x, |m|) == m[p][x] - 1
  {
    var z: nat :| z < |m| && IsChildEntry(m[z][x]) && IndexIn(m, x, |m|) == m[z][x] - 1;
    assert OneParent(m, x) && m[x][z] == PARENT && m[x][p] == PARENT;
  }

  /** For every matrix that describes a tree, the records that the parser builds
      have parent and children links inverse to each other, and they are the links
      of the matrix. */
  lemma ParsedIsLinked(m: Matrix, root: nat)
    requires WellFormed(m, root)
    ensures Linked(TreeOf(Parsed(m), root))
    ensures forall x: nat, y: nat :: x < |m| && y < |m| && m[x][y] == PARENT ==> TreeOf(Parsed(m), root).parent[x] == y
    ensures forall x: nat, y: nat :: x < |m| && y < |m| && IsChildEntry(m[x][y]) ==>
              m[x][y] <= |TreeOf(Parsed(m), root).children[x]| && TreeOf(Parsed(m), root).children[x][m[x][y] - 1] == y
  {
    var t := TreeOf(Parsed(m), root);
    forall x: nat | x < |m|
      ensures x != root ==> LinkedUp(t, x)
      ensures LinkedDown(t, x)
    {
      NodeIsLinked(m, root, x);
    }
    forall x: nat, y: nat | x < |m| && y < |m| && (m[x][y] == PARENT || IsChildEntry(m[x][y]))
      ensures m[x][y] == PARENT ==> t.parent[x] == y
      ensures IsChildEntry(m[x][y]) ==> m[x][y] <= |t.children[x]| && t.children[x][m[x][y] - 1] == y
    {
      RecordsAgree(m, root, x);
      assert OneParent(m, x) && OrderedChildren(m, x);
    }
  }

  lemma NodeIsLinked(m: Matrix, root: nat, x: nat)
    requires WellFormed(m, root) && x < |m|
    ensures var t := TreeOf(Parsed(m), root); (x != root ==> LinkedUp(t, x)) && LinkedDown(t, x)
  {
    var t := TreeOf(Parsed(m), root);
    RecordsAgree(m, root, x);
    if x != root {
      var p := t.parent[x];
      RecordsAgree(m, root, p);
      assert OrderedChildren(m, p);
    }
    forall k | 0 <= k < |t.children[x]|
      ensures var c := t.children[x][k]; IsChild(t, c) && t.parent[c] == x && t.index[c] == k
    {
      ChildIsLinked(m, root, x, k);
    }
  }

  lemma ChildIsLinked(m: Matrix, root: nat, x: nat, k: nat)
    requires WellFormed(m, root) && x < |m| && k < |Parsed(m).children[x]|
    ensures var t := TreeOf(Parsed(m), root);
      var c := t.children[x][k];
      IsChild(t, c) && t.parent[c] == x && t.index[c] == k
  {
    RecordsAgree(m, root, x);
    var c := Parsed(m).children[x][k].value;
    assert m[c][x] == PARENT;
    RecordsAgree(m, root, c);
    assert HasPosition(m, c, PARENT);
    assert OneParent(m, c);
    IndexAgrees(m, root, c, x);
  }

  /** Parents are closer to the root than their children: the links have no cycle. */
  ghost predicate Acyclic(m: Matrix, depth: seq<nat>) {
    Square(m) && |depth| == |m| && forall x: nat, y: nat :: x < |m| && y < |m| && m[x][y] == PARENT ==>
      depth[y] < depth[x]
  }

  lemma ParsedIsTree(m: Matrix, root: nat, depth: seq<nat>)
    requires WellFormed(m, root) && Acyclic(m, depth)
    ensures Linked(TreeOf(Parsed(m), root)) && Layered(TreeOf(Parsed(m), root), depth)
  {
    var t := TreeOf(Parsed(m), root);
    ParsedIsLinked(m, root);
    forall x: nat | IsChild(t, x) ensures t.parent[x] < |depth| && depth[t.parent[x]] < depth[x] {
      RecordsAgree(m, root, x);
    }
  }
}
