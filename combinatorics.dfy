/**
 * The subfactorial cache and the Martinez-Panholzer-Prodinger derangement
 * sampler of functions/combinatorics.go.
 *
 * Counts are exact naturals (the source stores them as float64, which is
 * exact for every value it is tested on). Randomness is a nondeterministic
 * choice: `rng.Intn(i)` with its rejection loop becomes "some open j < i",
 * and `rng.Float64()` becomes "some k / 2^63 with 0 <= k < 2^63", a set that
 * holds every value math/rand's Float64 can return. The threshold is an exact
 * rational, where the source computes it in float64.
 */
module Combinatorics {

  /**
   * D(k), the number of derangements of a k-element set, by the recurrence
   * the cache is filled with; every size except 1 has a derangement.
   */
  function Derangements(k: nat): (d: nat)
    ensures d == 0 <==> k == 1
  {
    if k == 0 then 1
    else if k == 1 then 0
    else
      var sum := Derangements(k - 1) + Derangements(k - 2);
      ProductPositive(k - 1, sum);
      (k - 1) * sum
  }

  /** The values the source's tests and documentation quote. */
  lemma KnownValues()
    ensures Derangements(0) == 1 && Derangements(1) == 0 && Derangements(2) == 1
    ensures Derangements(3) == 2 && Derangements(4) == 9
    ensures Derangements(6) == 265
    ensures Derangements(8) == 14833
    ensures Derangements(10) == 1334961
  {
  }

  lemma ProductPositive(x: int, y: int)
    requires x >= 1 && y >= 1
    ensures x * y >= 1
  {
    assert x * y >= 1 * y;
  }

  /** The recurrence agrees with the classical one, D(k) = k * D(k-1) + (-1)^k. */
  lemma {:induction false} SingleTermRecurrence(k: nat)
    requires k >= 1
    ensures Derangements(k) == k * Derangements(k - 1) + (if k % 2 == 0 then 1 else -1)
  {
    if k >= 2 {
      SingleTermRecurrence(k - 1);
      var d, a, b := Derangements(k), Derangements(k - 1), Derangements(k - 2);
      var sign := if k % 2 == 0 then 1 else -1;
      ParityFlip(k);
      assert a == (k - 1) * b - sign;
      assert d == (k - 1) * (a + b);
      RecurrenceStep(k, d, a, b, sign);
    }
  }

  lemma ParityFlip(k: int)
    ensures (if (k - 1) % 2 == 0 then 1 else -1) == -(if k % 2 == 0 then 1 else -1)
  {
  }

  /** One step of the classical recurrence, on plain integers. */
  lemma RecurrenceStep(k: int, d: int, a: int, b: int, sign: int)
    requires d == (k - 1) * (a + b) && a == (k - 1) * b - sign
    ensures d == k * a + sign
  {
    Distribute(k - 1, a, b);
  }

  lemma Distribute(x: int, y: int, z: int)
    ensures x * (y + z) == x * y + x * z
  {
  }

  /**
   * The closing threshold (u-1) * D(u-2) / D(u) of the sampler is a
   * probability; it is exactly 1 for u = 2 and exactly 0 for u = 3.
   */
  lemma ThresholdBounds(u: nat)
    requires u >= 2
    ensures Derangements(u) > 0
    ensures 0 <= (u - 1) * Derangements(u - 2) <= Derangements(u)
    ensures (u - 1) * Derangements(u - 2) == Derangements(u) <==> u == 2
    ensures (u - 1) * Derangements(u - 2) == 0 <==> u == 3
  {
    var a, b := Derangements(u - 1), Derangements(u - 2);
    Distribute(u - 1, a, b);
    assert Derangements(u) == (u - 1) * a + (u - 1) * b;
    assert (u - 1) * a == 0 <==> a == 0;
    assert (u - 1) * b == 0 <==> b == 0;
  }

  /**
   * The cache of subfactorials, the package-level `dp` slice of the source:
   * seeded with D(0) = 1 and D(1) = 0, only ever appended to.
   */
  class SubfactorialTable {
    var dp: seq<nat>

    ghost predicate Valid()
      reads this
    {
      |dp| >= 2 && forall k :: 0 <= k < |dp| ==> dp[k] == Derangements(k)
    }

    constructor ()
      ensures Valid() && dp == [1, 0]
    {
      dp := [1, 0];
    }

    /** D(n), growing the cache to cover n when it does not already. */
    method Subfactorial(n: nat) returns (r: nat)
      requires Valid()
      modifies this
      ensures Valid()
      ensures r == Derangements(n)
      ensures old(dp) <= dp
      ensures n < |old(dp)| ==> dp == old(dp)
      ensures |old(dp)| <= n ==> |dp| == n + 1
    {
      if n < |dp| {
        return dp[n];
      }
      var i := |dp|;
      while i <= n
        invariant 2 <= i <= n + 1 && |dp| == i
        invariant old(dp) <= dp
        invariant Valid()
      {
        dp := dp + [(i - 1) * (dp[i - 1] + dp[i - 2])];
        i := i + 1;
      }
      r := dp[n];
    }
  }

  /**
   * Asking for D(20) and then D(10) gives the same D(10) as asking for
   * D(10) on a fresh cache, and both are the tested value.
   */
  method CacheQueriesAgree() returns (afterTwenty: nat, alone: nat)
    ensures afterTwenty == alone == 1334961
  {
    var warm := new SubfactorialTable();
    var _ := warm.Subfactorial(20);
    afterTwenty := warm.Subfactorial(10);
    var cold := new SubfactorialTable();
    alone := cold.Subfactorial(10);
    KnownValues();
  }

  /** The identity permutation 0, 1, ..., n-1. */
  function Identity(n: nat): (s: seq<int>)
    ensures |s| == n && forall k :: 0 <= k < n ==> s[k] == k
  {
    seq(n, k => k)
  }

  /** p holds each of 0..n-1 exactly once. */
  ghost predicate IsPermutation(p: seq<int>, n: nat)
  {
    multiset(p) == multiset(Identity(n))
  }

  /** No position holds its own index. */
  ghost predicate IsDerangement(p: seq<int>)
  {
    forall k :: 0 <= k < |p| ==> p[k] != k
  }

  lemma {:induction false} IdentityCount(n: nat, v: int)
    ensures multiset(Identity(n))[v] == if 0 <= v < n then 1 else 0
  {
    if n > 0 {
      assert Identity(n) == Identity(n - 1) + [n - 1];
      IdentityCount(n - 1, v);
    }
  }

  /** A permutation in the multiset sense is a bijection onto 0..n-1. */
  lemma PermutationIsBijection(p: seq<int>, n: nat)
    requires IsPermutation(p, n)
    ensures |p| == n
    ensures forall k :: 0 <= k < |p| ==> 0 <= p[k] < n
    ensures forall a, b :: 0 <= a < b < |p| ==> p[a] != p[b]
  {
    assert |p| == |multiset(p)| == |multiset(Identity(n))| == n;
    forall k | 0 <= k < |p|
      ensures 0 <= p[k] < n
    {
      assert p[k] in multiset(p);
      IdentityCount(n, p[k]);
    }
    forall a, b | 0 <= a < b < |p|
      ensures p[a] != p[b]
    {
      if p[a] == p[b] {
        var v := p[a];
        assert p == p[..b] + p[b..];
        assert v in multiset(p[..b]) && v in multiset(p[b..]);
        assert multiset(p)[v] == multiset(p[..b])[v] + multiset(p[b..])[v] >= 2;
        IdentityCount(n, v);
        assert false;
      }
    }
  }

  /** Number of open (unmarked) positions among mark[0..hi). */
  function OpenCount(mark: seq<bool>, hi: nat): (c: nat)
    requires hi <= |mark|
    ensures c <= hi
  {
    if hi == 0 then 0 else OpenCount(mark, hi - 1) + (if mark[hi - 1] then 0 else 1)
  }

  lemma {:induction false} OpenCountAllOpen(mark: seq<bool>, hi: nat)
    requires hi <= |mark|
    requires forall k :: 0 <= k < hi ==> !mark[k]
    ensures OpenCount(mark, hi) == hi
  {
    if hi > 0 {
      OpenCountAllOpen(mark, hi - 1);
    }
  }

  /** OpenCount is zero exactly when every position below hi is marked. */
  lemma {:induction false} OpenCountZero(mark: seq<bool>, hi: nat)
    requires hi <= |mark|
    ensures OpenCount(mark, hi) == 0 <==> forall k :: 0 <= k < hi ==> mark[k]
  {
    if hi > 0 {
      OpenCountZero(mark, hi - 1);
    }
  }

  /** Closing an open position j below hi lowers the open count by one. */
  lemma {:induction false} OpenCountClose(mark: seq<bool>, j: nat, hi: nat)
    requires j < hi <= |mark| && !mark[j]
    ensures OpenCount(mark[j := true], hi) == OpenCount(mark, hi) - 1
  {
    if hi - 1 != j {
      OpenCountClose(mark, j, hi - 1);
    } else {
      OpenCountSame(mark, mark[j := true], j);
    }
  }

  lemma {:induction false} OpenCountSame(m1: seq<bool>, m2: seq<bool>, hi: nat)
    requires hi <= |m1| && hi <= |m2|
    requires forall k :: 0 <= k < hi ==> m1[k] == m2[k]
    ensures OpenCount(m1, hi) == OpenCount(m2, hi)
  {
    if hi > 0 {
      OpenCountSame(m1, m2, hi - 1);
    }
  }

  /**
   * What the sampler knows of its permutation a with cursor i: every position
   * above i and every closed position no longer holds its own index, and an
   * open position at or below i holds either its own index or a value above i.
   */
  ghost predicate SamplerShape(a: seq<int>, mark: seq<bool>, i: int)
    requires |a| == |mark|
  {
    && (forall k :: i < k < |a| && 0 <= k ==> a[k] != k)
    && (forall k :: 0 <= k <= i && k < |a| && mark[k] ==> a[k] != k)
    && (forall k :: 0 <= k <= i && k < |a| && !mark[k] ==> a[k] == k || a[k] > i)
  }

  /** A closed cursor position is passed over unchanged. */
  lemma SkipKeepsShape(a: seq<int>, mark: seq<bool>, i: nat)
    requires |a| == |mark| && i < |a| && mark[i]
    requires SamplerShape(a, mark, i)
    ensures SamplerShape(a, mark, i - 1)
    ensures OpenCount(mark, i + 1) == OpenCount(mark, i)
  {
  }

  /** Processing an open i: swap with an open j < i, possibly closing j. */
  lemma SwapKeepsShape(a: seq<int>, mark: seq<bool>, i: nat, j: nat, close: bool)
    requires |a| == |mark| && j < i < |a|
    requires !mark[i] && !mark[j]
    requires SamplerShape(a, mark, i)
    ensures SamplerShape(a[i := a[j]][j := a[i]], if close then mark[j := true] else mark, i - 1)
  {
  }

  /** Exchanges a[i] and a[j], the one change the sampler makes to its permutation. */
  method Swap(a: array<int>, i: nat, j: nat)
    requires i < a.Length && j < a.Length
    modifies a
    ensures a[..] == old(a[..])[i := old(a[j])][j := old(a[i])]
    ensures multiset(a[..]) == old(multiset(a[..]))
  {
    a[i], a[j] := a[j], a[i];
  }

  lemma GridDrawIsProbability(k: nat)
    requires k < FloatGrid
    ensures 0.0 <= k as real / FloatGrid as real < 1.0
  {
  }

  /**
   * rng.Intn(i) repeated until it hits an open position: some open j < i.
   * The resampling loop itself is not modelled, only the position it settles on.
   */
  method PickOpenBelow(mark: array<bool>, i: nat) returns (j: nat)
    requires i <= mark.Length && OpenCount(mark[..], i) >= 1
    ensures j < i && !mark[j]
  {
    OpenCountZero(mark[..], i);
    j :| j < i && !mark[j];
  }

  /**
   * Whether the pair just swapped is closed as a 2-cycle: a draw p of
   * rng.Float64() against the threshold (u-1) D(u-2) / D(u), read from the cache.
   * With u = 3 it never closes, with u = 2 it always does.
   */
  method DecideClose(u: nat, table: SubfactorialTable) returns (close: bool)
    requires u >= 2 && table.Valid()
    modifies table
    ensures table.Valid() && old(table.dp) <= table.dp
    ensures u == 3 ==> !close
    ensures u == 2 ==> close
  {
    var k :| 0 <= k < FloatGrid;
    var p := k as real / FloatGrid as real;
    GridDrawIsProbability(k);
    var below := table.Subfactorial(u - 2);
    var total := table.Subfactorial(u);
    ThresholdBounds(u);
    var threshold := ((u - 1) * below) as real / total as real;
    assert u == 3 ==> threshold == 0.0;
    assert u == 2 ==> threshold == 1.0;
    close := p < threshold;
  }

  /**
   * math/rand's Float64 is float64(Int63()) / 2^63, drawn again when it rounds
   * to 1: always k / 2^63 for some 0 <= k < 2^63. The model may draw any of
   * these; which ones are reachable, and how likely, is not modelled.
   */
  const FloatGrid: nat := 0x8000_0000_0000_0000

  /** The identity permutation of size n, with every position open. */
  method InitWorkingState(n: nat) returns (A: array<int>, mark: array<bool>)
    ensures fresh(A) && fresh(mark)
    ensures A[..] == Identity(n) && mark.Length == n
    ensures forall k :: 0 <= k < n ==> !mark[k]
  {
    A := new int[n];
    mark := new bool[n];
    for k := 0 to n
      invariant forall m :: 0 <= m < k ==> A[m] == m && !mark[m]
    {
      A[k] := k;
      mark[k] := false;
    }
  }

  /**
   * One step of the sampler at an open cursor i: swap A[i] with an open
   * A[j], j < i, and maybe close j; returns the new count of open positions
   * at or below i - 1, with the j and the decision taken.
   */
  method ProcessOpen(A: array<int>, mark: array<bool>, i: nat, u: nat, table: SubfactorialTable)
    returns (u': nat, j: nat, close: bool)
    requires A.Length == mark.Length && i < A.Length && !mark[i]
    requires u >= 2 && u == OpenCount(mark[..], i + 1)
    requires SamplerShape(A[..], mark[..], i)
    requires table.Valid()
    modifies A, mark, table
    ensures table.Valid() && old(table.dp) <= table.dp
    ensures j < i && !old(mark[j])
    ensures A[..] == old(A[..])[i := old(A[j])][j := old(A[i])]
    ensures mark[..] == if close then old(mark[..])[j := true] else old(mark[..])
    ensures u' == if close then u - 2 else u - 1
    ensures u' == OpenCount(mark[..], i)
    ensures u == 3 ==> u' == 2
    ensures u == 2 ==> u' == 0
    ensures multiset(A[..]) == old(multiset(A[..]))
    ensures SamplerShape(A[..], mark[..], i - 1)
  {
    ghost var before, marks := A[..], mark[..];
    // u counts i itself, so at least one open position lies below i.
    assert OpenCount(marks, i) == u - 1 >= 1;
    j := PickOpenBelow(mark, i);
    Swap(A, i, j);
    close := DecideClose(u, table);
    u' := u;
    if close {
      OpenCountClose(marks, j, i);
      mark[j] := true;
      u' := u' - 1;
    }
    u' := u' - 1;
    assert A[..] == before[i := before[j]][j := before[i]];
    assert mark[..] == if close then marks[j := true] else marks;
    SwapKeepsShape(before, marks, i, j, close);
  }

  /**
   * A uniformly random derangement of 0..n-1 (the caller rules out n = 1).
   * A starts as the identity and only ever has two entries swapped; u counts
   * the open positions in 0..i; an open i is swapped with an open j < i,
   * and j is closed into a 2-cycle with probability (u-1) D(u-2) / D(u).
   */
  method RandomDerangement(n: nat, table: SubfactorialTable) returns (perm: seq<int>)
    requires table.Valid()
    modifies table
    ensures table.Valid() && old(table.dp) <= table.dp
    ensures |perm| == n && IsPermutation(perm, n)
    ensures n != 1 ==> IsDerangement(perm)
    ensures n == 1 ==> perm == [0]
  {
    var A, mark := InitWorkingState(n);
    OpenCountAllOpen(mark[..], n);

    var i: int := n - 1;
    var u: nat := n;
    while u >= 2
      invariant -1 <= i < n
      invariant u == OpenCount(mark[..], i + 1)
      invariant n != 1 ==> u != 1
      invariant multiset(A[..]) == multiset(Identity(n))
      invariant SamplerShape(A[..], mark[..], i)
      invariant table.Valid() && old(table.dp) <= table.dp
      decreases i + 1
    {
      if !mark[i] {
        var j, close;
        u, j, close := ProcessOpen(A, mark, i, u, table);
      } else {
        SkipKeepsShape(A[..], mark[..], i);
      }
      i := i - 1;
    }
    if n != 1 {
      OpenCountZero(mark[..], i + 1);
    } else {
      assert A[0] in multiset(A[..]);
    }
    perm := A[..];
  }
}
