/** How many rounds a dissemination barrier needs: the logarithm to base 2, rounded up. */
module Rounds {
  import opened Dissemination

  /** `k` is the least number of rounds with `2^k >= n`. */
  predicate IsCeilLog2(n: nat, k: nat) {
    Power(2, k) >= n && (k > 0 ==> Power(2, k - 1) < n)
  }

  /** Bitwise conjunction. */
  function And(x: nat, y: nat): nat {
    if x == 0 || y == 0 then 0 else 2 * And(x / 2, y / 2) + (if x % 2 == 1 && y % 2 == 1 then 1 else 0)
  }

  lemma {:induction false} AndSelf(x: nat)
    ensures And(x, x) == x
  {
    if x > 0 { AndSelf(x / 2); }
  }

  /** With `k` the position of the highest bit of `x`, the bit trick
      `x & (x - 1)` is zero exactly for `x == 2^k`. */
  lemma {:induction false} PowerOfTwoTest(x: nat, k: nat)
    requires Power(2, k) <= x < Power(2, k + 1)
    ensures And(x, x - 1) == 0 <==> x == Power(2, k)
    decreases k
  {
    if k == 0 {
      assert Power(2, 1) == 2;
    } else {
      var h := x / 2;
      PowerOfTwoTest(h, k - 1);
      AndSelf(h);
      if x % 2 == 0 {
        assert (x - 1) / 2 == h - 1;
      } else {
        assert (x - 1) / 2 == h;
      }
    }
  }

  /** How often `x` can be halved before it is zero, less one. */
  function HighestBit(x: nat): (k: nat)
    requires x > 0
    ensures Power(2, k) <= x < Power(2, k + 1)
  {
    assert Power(2, 1) == 2;
    if x == 1 then 0 else 1 + HighestBit(x / 2)
  }

  /** The computation of `logp` in `mcs_barrier_init`: one for a bit below the
      highest, plus one for every shift until the number is zero. */
  method LogP(np: nat) returns (logp: nat)
    ensures np > 0 ==> IsCeilLog2(np, logp)
    ensures np == 0 ==> logp == 0
  {
    logp := if np > 0 && And(np, np - 1) != 0 then 1 else 0;
    if np == 0 { return; }
    ghost var rounding, k := logp, HighestBit(np);
    var rest: nat := np / 2;
    while rest != 0
      invariant logp + (if rest == 0 then 0 else 1 + HighestBit(rest)) == rounding + k
    {
      logp := logp + 1;
      rest := rest / 2;
    }
    PowerOfTwoTest(np, k);
  }

  lemma {:induction false} PowerStrictlyGrows(j: nat, k: nat)
    requires j < k
    ensures Power(2, j) < Power(2, k)
    decreases k
  {
    if j < k - 1 { PowerStrictlyGrows(j, k - 1); }
  }

  lemma {:induction false} PowerGrows(j: nat, k: nat)
    requires j <= k
    ensures Power(2, j) <= Power(2, k)
  {
    if j < k { PowerStrictlyGrows(j, k); }
  }

  /** `MCS_LOG2_MAX_CORES`: for how many rounds a thread has flags. */
  const MAX_ROUNDS: nat := 8

  /** The rounds fit the flags if and only if there are at most 256 threads. */
  lemma RoundsFitIff(n: nat, k: nat)
    requires IsCeilLog2(n, k)
    ensures k <= MAX_ROUNDS <==> n <= 256
  {
    assert Power(2, 8) == 256;
    if k <= 8 { PowerGrows(k, 8); } else { PowerGrows(8, k - 1); }
  }

  /** With 257 threads a thread needs one round more than it has flags for. */
  lemma TooManyThreads()
    ensures IsCeilLog2(257, 9) && 9 > MAX_ROUNDS
  {
    assert Power(2, 8) == 256 && Power(2, 9) == 512;
  }
}
