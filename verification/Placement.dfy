/**
 The first step of `placement` in `bench/ab-bench-scale.c`: how many cores to take
 from each NUMA node, going round the nodes in batches.
 */
module Placement {

  function Min(a: nat, b: nat): nat {
    if a < b then a else b
  }

  function Sum(s: seq<nat>): nat {
    if s == [] then 0 else Sum(s[..|s| - 1]) + s[|s| - 1]
  }

  lemma {:induction false} SumOfUpdate(s: seq<nat>, i: nat, x: nat)
    requires i < |s|
    ensures Sum(s[i := x]) == Sum(s) - s[i] + x
    decreases |s|
  {
    var last := |s| - 1;
    if i < last {
      SumOfUpdate(s[..last], i, x);
      assert s[i := x][..last] == s[..last][i := x];
    } else {
      assert s[i := x][..last] == s[..last];
    }
  }

  lemma {:induction false} SumIsBounded(s: seq<nat>, bound: nat)
    requires forall i :: 0 <= i < |s| ==> s[i] <= bound
    ensures Sum(s) <= |s| * bound
    ensures (forall i :: 0 <= i < |s| ==> s[i] == bound) ==> Sum(s) == |s| * bound
    decreases |s|
  {
    if s != [] {
      SumIsBounded(s[..|s| - 1], bound);
      assert |s| * bound == (|s| - 1) * bound + bound;
    }
  }

  lemma {:induction false} SumOfZeros(n: nat)
    ensures Sum(seq(n, _ => 0)) == 0
    decreases n
  {
    if n > 0 {
      assert seq(n, _ => 0)[..n - 1] == seq(n - 1, _ => 0);
      SumOfZeros(n - 1);
    }
  }

  /** The request and the machine; a step of 0 counts as 1. */
  datatype Request = Request(cores: nat, step: nat, perNode: nat)

  function Batch(r: Request): nat {
    if r.step == 0 then 1 else r.step
  }

  /** The cores of the machine that the loop can choose. */
  function Capacity(nodes: nat, r: Request): nat {
    nodes * r.perNode
  }

  /** The variables of the loop. */
  datatype Loop = Loop(choose: seq<nat>, idx: nat, selected: nat)

  predicate Valid(l: Loop, r: Request) {
    && l.idx < |l.choose|
    && l.selected == Sum(l.choose) <= r.cores
    && forall i :: 0 <= i < |l.choose| ==> l.choose[i] <= r.perNode
  }

  /** The node after `idx`, round the end. */
  function Following(idx: nat, nodes: nat): (next: nat)
    requires idx < nodes
    ensures next == if idx + 1 == nodes then 0 else idx + 1
  {
    (idx + 1) % nodes
  }

  function Start(nodes: nat): Loop {
    Loop(seq(nodes, _ => 0), 0, 0)
  }

  /** The loop body. */
  function Body(l: Loop, r: Request): (l': Loop)
    requires Valid(l, r) && l.selected < r.cores
    ensures Valid(l', r) && |l'.choose| == |l.choose|
  {
    var take := Min(Min(Batch(r), r.cores - l.selected), r.perNode - l.choose[l.idx]);
    SumOfUpdate(l.choose, l.idx, l.choose[l.idx] + take);
    Loop(l.choose[l.idx := l.choose[l.idx] + take], Following(l.idx, |l.choose|), l.selected + take)
  }

  /** What a node has after `rounds` visits: `step` cores for each, up to its size. */
  function Quota(perNode: nat, step: nat, rounds: nat): nat {
    if rounds * step <= perNode then rounds * step else perNode
  }

  /** The loop is in round `rounds` and has visited the nodes below `idx` in it. */
  ghost predicate Even(l: Loop, r: Request, rounds: nat) {
    forall i :: 0 <= i < |l.choose| ==>
      l.choose[i] == Quota(r.perNode, Batch(r), if i < l.idx then rounds + 1 else rounds)
  }

  /** All nodes have what `rounds` or `rounds + 1` visits give them; only the node
      `last` may have stopped in between, when the request was met. */
  ghost predicate RoundRobin(choose: seq<nat>, perNode: nat, step: nat, rounds: nat, last: nat) {
    forall i :: 0 <= i < |choose| ==>
      && Quota(perNode, step, rounds) <= choose[i] <= Quota(perNode, step, rounds + 1)
      && (i < last ==> choose[i] == Quota(perNode, step, rounds + 1))
      && (i > last ==> choose[i] == Quota(perNode, step, rounds))
  }

  lemma QuotaGrows(perNode: nat, step: nat, rounds: nat)
    ensures Quota(perNode, step, rounds) <= Quota(perNode, step, rounds + 1)
    ensures Quota(perNode, step, rounds + 1) == Min(perNode, Quota(perNode, step, rounds) + step)
  {
    assert (rounds + 1) * step == rounds * step + step;
  }

  /** As long as the request is not met and fits the machine, the node that the loop
      looks at has a core left: every full node comes after all are full. */
  lemma CurrentNodeHasRoom(l: Loop, r: Request, rounds: nat)
    requires Valid(l, r) && Even(l, r, rounds) && l.selected < r.cores <= Capacity(|l.choose|, r)
    ensures l.choose[l.idx] < r.perNode
  {
    if l.choose[l.idx] == r.perNode {
      QuotaGrows(r.perNode, Batch(r), rounds);
      SumIsBounded(l.choose, r.perNode);
    }
  }

  /** The body goes on evenly, or meets the request. */
  lemma BodyIsEven(l: Loop, r: Request, rounds: nat) returns (next: nat)
    requires Valid(l, r) && Even(l, r, rounds) && l.selected < r.cores
    ensures Body(l, r).selected < r.cores ==> Even(Body(l, r), r, next)
    ensures RoundRobin(Body(l, r).choose, r.perNode, Batch(r), rounds, l.idx)
  {
    hide Quota, Sum, Following;
    QuotaGrows(r.perNode, Batch(r), rounds);
    next := if l.idx + 1 == |l.choose| then rounds + 1 else rounds;
  }

  // ----- All the way through the loop -----

  /** The variables after `k` rounds, or when the loop ended before. */
  function After(nodes: nat, r: Request, k: nat): (l: Loop)
    requires nodes > 0
    ensures Valid(l, r) && |l.choose| == nodes
    decreases k
  {
    if k == 0 then SumOfZeros(nodes); Start(nodes)
    else
      var l := After(nodes, r, k - 1);
      if l.selected < r.cores then Body(l, r) else l
  }

  lemma {:induction false} EvenAfter(nodes: nat, r: Request, k: nat) returns (rounds: nat, last: nat)
    requires nodes > 0
    ensures After(nodes, r, k).selected < r.cores ==> Even(After(nodes, r, k), r, rounds)
    ensures RoundRobin(After(nodes, r, k).choose, r.perNode, Batch(r), rounds, last)
    decreases k
  {
    var l := After(nodes, r, k);
    if k == 0 {
      rounds, last := 0, 0;
      NothingYet(nodes, r);
      EvenIsRoundRobin(l, r, 0);
    } else {
      hide Quota, Sum, Following, Even, RoundRobin;
      rounds, last := EvenAfter(nodes, r, k - 1);
      var before := After(nodes, r, k - 1);
      if before.selected < r.cores {
        var next := BodyIsEven(before, r, rounds);
        if l.selected < r.cores {
          rounds, last := next, l.idx;
          EvenIsRoundRobin(l, r, rounds);
        } else {
          last := before.idx;
        }
      }
    }
  }

  lemma NothingYet(nodes: nat, r: Request)
    ensures Even(Start(nodes), r, 0)
  {
    assert Quota(r.perNode, Batch(r), 0) == 0;
  }

  lemma EvenIsRoundRobin(l: Loop, r: Request, rounds: nat)
    requires Even(l, r, rounds)
    ensures RoundRobin(l.choose, r.perNode, Batch(r), rounds, l.idx)
  {
    hide Quota;
    QuotaGrows(r.perNode, Batch(r), rounds);
  }

  /** Every round of the loop takes a core. */
  lemma RoundTakes(nodes: nat, r: Request, k: nat)
    requires nodes > 0 && r.cores <= Capacity(nodes, r) && After(nodes, r, k).selected < r.cores
    ensures After(nodes, r, k).selected < After(nodes, r, k + 1).selected
  {
    hide Capacity, Quota, Sum, Following, Even, RoundRobin;
    var rounds, _ := EvenAfter(nodes, r, k);
    CurrentNodeHasRoom(After(nodes, r, k), r, rounds);
  }

  lemma {:induction false} Progress(nodes: nat, r: Request, k: nat)
    requires nodes > 0 && r.cores <= Capacity(nodes, r)
    ensures After(nodes, r, k).selected >= Min(k, r.cores)
    decreases k
  {
    hide Capacity, Body, Sum;
    if k > 0 {
      Progress(nodes, r, k - 1);
      if After(nodes, r, k - 1).selected < r.cores { RoundTakes(nodes, r, k - 1); }
    }
  }

  /** The loop ends if and only if the machine has the cores. */
  lemma EndsIffFits(nodes: nat, r: Request)
    requires nodes > 0
    ensures (exists k: nat :: After(nodes, r, k).selected == r.cores) <==> r.cores <= Capacity(nodes, r)
  {
    if r.cores <= Capacity(nodes, r) {
      Progress(nodes, r, r.cores);
      assert After(nodes, r, r.cores).selected == r.cores;
    } else {
      forall k: nat ensures After(nodes, r, k).selected < r.cores {
        SumIsBounded(After(nodes, r, k).choose, r.perNode);
      }
    }
  }

  /** Any two nodes differ by at most the batch. */
  predicate Fair(choose: seq<nat>, batch: nat) {
    forall i, j :: 0 <= i < |choose| && 0 <= j < |choose| ==> choose[i] <= choose[j] + batch
  }

  lemma RoundRobinIsFair(choose: seq<nat>, perNode: nat, step: nat, rounds: nat, last: nat)
    requires RoundRobin(choose, perNode, step, rounds, last)
    ensures Fair(choose, step)
  {
    hide Quota;
    QuotaGrows(perNode, step, rounds);
  }

  /** The loop body, on the array. */
  method PlaceRound(r: Request, choose: array<nat>, idx: nat, selected: nat) returns (idx': nat, selected': nat)
    requires Valid(Loop(choose[..], idx, selected), r) && selected < r.cores
    modifies choose
    ensures Loop(choose[..], idx', selected') == Body(old(Loop(choose[..], idx, selected)), r)
  {
    hide Sum;
    var step := if r.step == 0 then 1 else r.step;
    var take := Min(Min(step, r.cores - selected), r.perNode - choose[idx]);
    choose[idx] := choose[idx] + take;
    selected' := selected + take;
    idx' := (idx + 1) % choose.Length;
  }

  /** The loop itself, for requests that the machine can meet. */
  method Place(nodes: nat, r: Request) returns (choose: array<nat>)
    requires nodes > 0 && r.cores <= Capacity(nodes, r)
    ensures choose.Length == nodes && Sum(choose[..]) == r.cores
    ensures forall i :: 0 <= i < nodes ==> choose[i] <= r.perNode
    ensures Fair(choose[..], if r.step == 0 then 1 else r.step)
    ensures var step := if r.step == 0 then 1 else r.step;
      exists rounds: nat, last: nat :: RoundRobin(choose[..], r.perNode, step, rounds, last)
  {
    hide Capacity, Quota, Sum, Following, Even, RoundRobin, Fair, Body;
    choose := new nat[nodes](_ => 0);
    var idx: nat, selected: nat := 0, 0;
    ghost var k: nat := 0;
    assert choose[..] == Start(nodes).choose;
    while selected < r.cores
      invariant choose.Length == nodes
      invariant After(nodes, r, k) == Loop(choose[..], idx, selected)
      decreases r.cores - selected
    {
      RoundTakes(nodes, r, k);
      idx, selected := PlaceRound(r, choose, idx, selected);
      k := k + 1;
    }
    ghost var rounds, last := EvenAfter(nodes, r, k);
    RoundRobinIsFair(choose[..], r.perNode, Batch(r), rounds, last);
  }
}
