/**
 The sort of `src/bench.c` and the order statistics taken from it: Hoare's
 quicksort in place, whose two inner scans do not check the bounds.
 */
module BenchSort {

  predicate Sorted(s: seq<nat>) {
    forall i, j :: 0 <= i < j < |s| ==> s[i] <= s[j]
  }

  /** The elements from `lo` to `hi` were rearranged among themselves and the others kept. */
  ghost predicate Rearranged(s: seq<nat>, t: seq<nat>, lo: nat, hi: nat) {
    && lo <= hi <= |s| == |t|
    && s[..lo] == t[..lo] && s[hi..] == t[hi..]
    && multiset(s[lo..hi]) == multiset(t[lo..hi])
  }

  lemma Elsewhere(s: seq<nat>, t: seq<nat>, lo: nat, hi: nat, k: nat)
    requires Rearranged(s, t, lo, hi) && k < |s| && (k < lo || hi <= k)
    ensures s[k] == t[k]
  {
    if k < lo { assert s[k] == s[..lo][k] == t[..lo][k]; }
    else { assert s[k] == s[hi..][k - hi] == t[hi..][k - hi]; }
  }

  lemma Composed(s: seq<nat>, t: seq<nat>, u: seq<nat>, lo: nat, hi: nat)
    requires Rearranged(s, t, lo, hi) && Rearranged(t, u, lo, hi)
    ensures Rearranged(s, u, lo, hi)
  {
  }

  lemma SwapRearranges(s: seq<nat>, lo: nat, hi: nat, i: nat, j: nat)
    requires lo <= i < hi <= |s| && lo <= j < hi
    ensures Rearranged(s, s[i := s[j]][j := s[i]], lo, hi)
  {
    var part := s[lo..hi];
    assert s[i := s[j]][j := s[i]][lo..hi] == part[i - lo := part[j - lo]][j - lo := part[i - lo]];
  }

  /** Rearranging a part rearranges every part around it. */
  lemma Widened(s: seq<nat>, t: seq<nat>, lo: nat, hi: nat, from: nat, to: nat)
    requires Rearranged(s, t, lo, hi) && from <= lo && hi <= to <= |s|
    ensures Rearranged(s, t, from, to)
  {
    forall k: nat | k < |s| && (k < lo || hi <= k) ensures s[k] == t[k] { Elsewhere(s, t, lo, hi, k); }
    assert s[from..to] == s[from..lo] + s[lo..hi] + s[hi..to];
    assert t[from..to] == t[from..lo] + t[lo..hi] + t[hi..to];
    assert s[from..lo] == t[from..lo] && s[hi..to] == t[hi..to];
  }

  /** A rearranged element came from inside the part. */
  lemma CameFrom(s: seq<nat>, t: seq<nat>, lo: nat, hi: nat, k: nat) returns (l: nat)
    requires Rearranged(s, t, lo, hi) && lo <= k < hi
    ensures lo <= l < hi && t[k] == s[l]
  {
    assert t[k] == t[lo..hi][k - lo];
    assert t[k] in multiset(t[lo..hi]);
    assert t[k] in multiset(s[lo..hi]);
    var m :| 0 <= m < hi - lo && s[lo..hi][m] == t[k];
    l := m + lo;
  }

  /** The scan from below. It has no bounds check: an element that stops it lies ahead. */
  method ScanUp(data: array<nat>, lo: nat, hi: nat, pivot: nat, from: nat) returns (i: nat)
    requires lo <= from < hi <= data.Length
    requires exists k :: from <= k < hi && pivot <= data[k]
    ensures from <= i < hi && pivot <= data[i]
    ensures forall k :: from <= k < i ==> data[k] < pivot
  {
    i := from;
    ghost var stop :| from <= stop < hi && pivot <= data[stop];
    while data[i] < pivot
      invariant from <= i <= stop
      invariant forall k :: from <= k < i ==> data[k] < pivot
      decreases stop - i
    {
      i := i + 1;
    }
  }

  /** The scan from above, with an unsigned index that does not pass `lo`. */
  method ScanDown(data: array<nat>, lo: nat, hi: nat, pivot: nat, from: nat) returns (j: nat)
    requires lo <= from < hi <= data.Length
    requires exists k :: lo <= k <= from && data[k] <= pivot
    ensures lo <= j <= from && data[j] <= pivot
    ensures forall k :: j < k <= from ==> pivot < data[k]
  {
    j := from;
    ghost var stop :| lo <= stop <= from && data[stop] <= pivot;
    while pivot < data[j]
      invariant stop <= j <= from
      invariant forall k :: j < k <= from ==> pivot < data[k]
      decreases j - stop
    {
      j := j - 1;
    }
  }

  /** Where the outer loop stands before a round: the elements below `i` and above
      `j` are on their side, and both scans have an element ahead that stops them.
      As long as `i` is at the start nothing has moved. */
  ghost predicate Scanning(s: seq<nat>, lo: nat, hi: nat, i: nat, j: nat, pivot: nat) {
    && lo <= i < hi <= |s| && lo <= j < hi
    && (forall k :: lo <= k < i ==> s[k] <= pivot)
    && (forall k :: j < k < hi ==> pivot <= s[k])
    && (exists k :: i <= k < hi && pivot <= s[k])
    && (exists k :: lo <= k <= j && s[k] <= pivot)
    && (i == lo ==> j == hi - 1 && s[lo + (hi - lo) / 2] == pivot)
  }

  /** Where the scans stopped. */
  ghost predicate Stopped(s: seq<nat>, lo: nat, hi: nat, i: nat, j: nat, pivot: nat) {
    && lo <= i < hi <= |s| && lo <= j < hi && s[j] <= pivot <= s[i]
    && (forall k :: lo <= k < i ==> s[k] <= pivot)
    && (forall k :: j < k < hi ==> pivot <= s[k])
    && (i == lo ==> s[lo + (hi - lo) / 2] == pivot && forall k :: j < k < hi ==> pivot < s[k])
  }

  lemma Swapped(s: seq<nat>, lo: nat, hi: nat, i: nat, j: nat, pivot: nat)
    requires Stopped(s, lo, hi, i, j, pivot) && i < j
    ensures Scanning(s[i := s[j]][j := s[i]], lo, hi, i + 1, j - 1, pivot)
  {
    var t := s[i := s[j]][j := s[i]];
    assert i + 1 <= j < hi && pivot <= t[j];
    assert lo <= i <= j - 1 && t[i] <= pivot;
  }

  /** The two scans of one round. */
  method Scan(data: array<nat>, lo: nat, hi: nat, i0: nat, j0: nat, pivot: nat) returns (i: nat, j: nat)
    requires hi <= data.Length && Scanning(data[..], lo, hi, i0, j0, pivot)
    ensures i0 <= i && j <= j0 && Stopped(data[..], lo, hi, i, j, pivot)
  {
    i := ScanUp(data, lo, hi, pivot, i0);
    j := ScanDown(data, lo, hi, pivot, j0);
  }

  method Swap(data: array<nat>, i: nat, j: nat)
    requires i < data.Length && j < data.Length
    modifies data
    ensures data[..] == old(data[..][i := data[j]][j := data[i]])
  {
    var tmp := data[i];
    data[i] := data[j];
    data[j] := tmp;
  }

  /** The outer loop on the part of `data` from `lo` to `hi`. The split point lies
      strictly inside the part. */
  method Partition(data: array<nat>, lo: nat, hi: nat) returns (i: nat, pivot: nat)
    requires lo + 2 <= hi <= data.Length
    modifies data
    ensures lo < i < hi
    ensures Rearranged(old(data[..]), data[..], lo, hi)
    ensures forall k :: lo <= k < i ==> data[k] <= pivot
    ensures forall k :: i <= k < hi ==> pivot <= data[k]
  {
    pivot := data[lo + (hi - lo) / 2];
    i := lo;
    var j: nat := hi - 1;
    assert Scanning(data[..], lo, hi, i, j, pivot);
    assert Rearranged(old(data[..]), data[..], lo, hi);
    hide Rearranged, Scanning;
    while true
      invariant Rearranged(old(data[..]), data[..], lo, hi)
      invariant Scanning(data[..], lo, hi, i, j, pivot)
      decreases j - i
    {
      i, j := Scan(data, lo, hi, i, j, pivot);
      if i >= j {
        break;
      }
      ghost var before := data[..];
      SwapRearranges(before, lo, hi, i, j);
      Swapped(before, lo, hi, i, j, pivot);
      Swap(data, i, j);
      Composed(old(data[..]), before, data[..], lo, hi);
      i, j := i + 1, j - 1;
    }
    assert Stopped(data[..], lo, hi, i, j, pivot);
  }

  /** Two sorted parts, the first below the second. */
  lemma Joined(s: seq<nat>, lo: nat, mid: nat, hi: nat, pivot: nat)
    requires lo <= mid <= hi <= |s| && Sorted(s[lo..mid]) && Sorted(s[mid..hi])
    requires forall k :: lo <= k < mid ==> s[k] <= pivot
    requires forall k :: mid <= k < hi ==> pivot <= s[k]
    ensures Sorted(s[lo..hi])
  {
    forall i, j | 0 <= i < j < hi - lo ensures s[lo..hi][i] <= s[lo..hi][j] {
      if j < mid - lo { assert s[lo..mid][i] <= s[lo..mid][j]; }
      if mid - lo <= i { assert s[mid..hi][i - (mid - lo)] <= s[mid..hi][j - (mid - lo)]; }
    }
  }

  lemma AlreadySorted(s: seq<nat>, lo: nat, hi: nat)
    requires lo <= hi <= |s| && hi - lo < 2
    ensures Sorted(s[lo..hi]) && Rearranged(s, s, lo, hi)
  {
  }

  /** `smlt_bench_sort` on `len` elements from `lo`. */
  method Sort(data: array<nat>, lo: nat, len: nat)
    requires lo + len <= data.Length
    modifies data
    ensures Sorted(data[lo..lo + len])
    ensures Rearranged(old(data[..]), data[..], lo, lo + len)
    decreases len
  {
    hide Sorted, Rearranged;
    var hi := lo + len;
    if len < 2 {
      AlreadySorted(data[..], lo, hi);
      assert data[..][lo..hi] == data[lo..hi];
      return;
    }
    var i, pivot := Partition(data, lo, hi);
    ghost var split := data[..];
    Sort(data, lo, i - lo);
    ghost var half := data[..];
    Sort(data, i, hi - i);
    Recombine(old(data[..]), split, half, data[..], lo, i, hi, pivot);
    assert data[..][lo..hi] == data[lo..hi];
  }

  /** The two recursive calls on the parts of a partition sort the whole. */
  lemma Recombine(start: seq<nat>, split: seq<nat>, half: seq<nat>, end: seq<nat>, lo: nat, mid: nat,
                  hi: nat, pivot: nat)
    requires lo < mid < hi
    requires Rearranged(start, split, lo, hi) && Rearranged(split, half, lo, mid) && Rearranged(half, end, mid, hi)
    requires forall k :: lo <= k < mid ==> split[k] <= pivot
    requires forall k :: mid <= k < hi ==> pivot <= split[k]
    requires Sorted(half[lo..mid]) && Sorted(end[mid..hi])
    ensures Sorted(end[lo..hi]) && Rearranged(start, end, lo, hi)
  {
    forall k: nat | lo <= k < hi ensures k < mid ==> end[k] <= pivot ensures k >= mid ==> pivot <= end[k] {
      if k < mid {
        Elsewhere(half, end, mid, hi, k);
        var l := CameFrom(split, half, lo, mid, k);
      } else {
        var l := CameFrom(half, end, mid, hi, k);
        Elsewhere(split, half, lo, mid, l);
      }
    }
    assert end[lo..mid] == half[lo..mid] by {
      forall k: nat | lo <= k < mid ensures end[k] == half[k] { Elsewhere(half, end, mid, hi, k); }
    }
    Joined(end, lo, mid, hi, pivot);
    Widened(split, half, lo, mid, lo, hi);
    Widened(half, end, mid, hi, lo, hi);
    Composed(start, split, half, lo, hi);
    Composed(start, half, end, lo, hi);
  }

  // ----- Order statistics -----

  /** How many values are below `x`. */
  ghost function Below(values: multiset<nat>, x: nat): nat {
    if x == 0 then 0 else Below(values, x - 1) + values[x - 1]
  }

  /** `v` would stand at position `k` if the values were put in order. */
  ghost predicate OrderStatistic(values: multiset<nat>, k: nat, v: nat) {
    Below(values, v) <= k < Below(values, v + 1)
  }

  lemma {:induction false} BelowGrows(values: multiset<nat>, x: nat, y: nat)
    requires x <= y
    ensures Below(values, x) <= Below(values, y)
    decreases y
  {
    if x < y { BelowGrows(values, x, y - 1); }
  }

  /** There is one value for each position. */
  lemma OrderStatisticIsUnique(values: multiset<nat>, k: nat, v: nat, w: nat)
    requires OrderStatistic(values, k, v) && OrderStatistic(values, k, w)
    ensures v == w
  {
    if v < w { BelowGrows(values, v + 1, w); }
    if w < v { BelowGrows(values, w + 1, v); }
  }

  lemma {:induction false} BelowAdds(a: multiset<nat>, b: multiset<nat>, x: nat)
    ensures Below(a + b, x) == Below(a, x) + Below(b, x)
    decreases x
  {
    if x > 0 { BelowAdds(a, b, x - 1); }
  }

  lemma {:induction false} BelowOne(v: nat, x: nat)
    ensures Below(multiset{v}, x) == if v < x then 1 else 0
    decreases x
  {
    if x > 0 { BelowOne(v, x - 1); }
  }

  /** The first `c` elements are below `x` and the others are not. */
  lemma {:induction false} CountsBelow(s: seq<nat>, c: nat, x: nat)
    requires c <= |s|
    requires forall i :: 0 <= i < c ==> s[i] < x
    requires forall i :: c <= i < |s| ==> x <= s[i]
    ensures Below(multiset(s), x) == c
    decreases |s|
  {
    if s == [] {
      NoneBelow(x);
    } else {
      var last := |s| - 1;
      assert s == s[..last] + [s[last]];
      BelowAdds(multiset(s[..last]), multiset{s[last]}, x);
      BelowOne(s[last], x);
      CountsBelow(s[..last], if c == |s| then c - 1 else c, x);
    }
  }

  lemma {:induction false} NoneBelow(x: nat)
    ensures Below(multiset{}, x) == 0
    decreases x
  {
    if x > 0 { NoneBelow(x - 1); }
  }

  /** A sorted sequence holds the order statistics of its values. */
  lemma SortedIsRanked(s: seq<nat>, k: nat)
    requires Sorted(s) && k < |s|
    ensures OrderStatistic(multiset(s), k, s[k])
  {
    var c := FirstAtLeast(s, s[k], k);
    CountsBelow(s, c, s[k]);
    var d := FirstAtLeast(s, s[k] + 1, |s|);
    CountsBelow(s, d, s[k] + 1);
    assert k < d;
  }

  /** Where the elements that are at least `x` begin. */
  ghost function FirstAtLeast(s: seq<nat>, x: nat, k: nat): (c: nat)
    requires Sorted(s) && k <= |s| && forall i :: k <= i < |s| ==> x <= s[i]
    ensures c <= k
    ensures forall i :: 0 <= i < c ==> s[i] < x
    ensures forall i :: c <= i < |s| ==> x <= s[i]
  {
    if k > 0 && x <= s[k - 1] then FirstAtLeast(s, x, k - 1) else k
  }

  /** What the analysis reports, but for the averages. */
  datatype Analysis = Analysis(count: nat, ignored: nat, min: nat, median: nat, max: nat)

  /** `struct smlt_bench_ctl`: the samples and their analysis. */
  class Control {
    const data: array<nat>
    var count: nat
    var a: Analysis

    constructor (data: array<nat>)
      ensures this.data == data && count == 0
    {
      this.data := data;
      count := 0;
      a := Analysis(0, 0, 0, 0, 0);
    }

    /** How many samples the buffer holds: more may have been taken than fit. */
    function Held(): (k: nat)
      reads this
      ensures k <= data.Length && k <= count && (k == data.Length || k == count)
    {
      if count > data.Length then data.Length else count
    }

    /** `smlt_bench_ctl_prepare_analysis`, where `ignored` of the samples are to be
        ignored: the largest ones. If that leaves none, there is nothing to report: the
        code then reads outside the samples (`NothingLeft`) and divides by zero. */
    method PrepareAnalysis(ignored: nat) returns (ok: bool)
      requires ignored <= Held()
      modifies this`a, data
      ensures ok <==> ignored < Held()
      ensures multiset(data[..Held()]) == old(multiset(data[..Held()])) && data[Held()..] == old(data[Held()..])
      ensures Sorted(data[..Held()])
      ensures ok ==> a.count == Held() - ignored && a.ignored == ignored
      ensures ok ==> OrderStatistic(old(multiset(data[..Held()])), 0, a.min)
      ensures ok ==> OrderStatistic(old(multiset(data[..Held()])), (Held() - ignored) / 2, a.median)
      ensures ok ==> OrderStatistic(old(multiset(data[..Held()])), Held() - ignored - 1, a.max)
    {
      hide OrderStatistic, Sorted;
      var held := Held();
      ghost var before := data[..];
      Sort(data, 0, held);
      ghost var s := data[..held];
      assert before[0..held] == before[..held] && data[..][0..held] == data[..held] == data[0..held];
      assert before[held..] == old(data[held..]) && data[..][held..] == data[held..];
      ok := ignored < held;
      if ok {
        var kept := held - ignored;
        a := Analysis(kept, ignored, data[0], data[kept / 2], data[kept - 1]);
        SortedIsRanked(s, 0);
        SortedIsRanked(s, kept / 2);
        SortedIsRanked(s, kept - 1);
      }
    }
  }

  /** The 32-bit index of the maximum lies among the samples if and only if one is left. */
  lemma NothingLeft(count: nat, held: nat)
    requires count <= held < 0x1_0000_0000
    ensures (count - 1) % 0x1_0000_0000 < held <==> count > 0
  {
    if count == 0 { assert (0 - 1) % 0x1_0000_0000 == 0xffff_ffff; }
  }
}
