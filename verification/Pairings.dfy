/**
  One-to-one pairings between two lists, their totals, and the weak-duality bound that
  certifies an optimal one.  Rows and columns are numbered from 0 here.
 */
module Pairings {

  type Pair = (nat, nat)
  type Matrix = seq<seq<int>>

  function Min(x: int, y: int): int { if x <= y then x else y }

  ghost predicate Distinct<T>(s: seq<T>) {
    forall i, j :: 0 <= i < j < |s| ==> s[i] != s[j]
  }

  ghost predicate Below(s: seq<nat>, n: nat) {
    forall k :: 0 <= k < |s| ==> s[k] < n
  }

  function Lefts(pairs: seq<Pair>): (r: seq<nat>)
    ensures |r| == |pairs| && forall k :: 0 <= k < |pairs| ==> r[k] == pairs[k].0
  {
    seq(|pairs|, k requires 0 <= k < |pairs| => pairs[k].0)
  }

  function Rights(pairs: seq<Pair>): (r: seq<nat>)
    ensures |r| == |pairs| && forall k :: 0 <= k < |pairs| ==> r[k] == pairs[k].1
  {
    seq(|pairs|, k requires 0 <= k < |pairs| => pairs[k].1)
  }

  /** Every index is in range, and no index of either side is used twice. */
  ghost predicate IsPairing(pairs: seq<Pair>, n: nat, m: nat) {
    && (forall k :: 0 <= k < |pairs| ==> pairs[k].0 < n && pairs[k].1 < m)
    && (forall i, j :: 0 <= i < j < |pairs| ==> pairs[i].0 != pairs[j].0 && pairs[i].1 != pairs[j].1)
  }

  lemma SplitLast<T>(s: seq<T>)
    requires s != []
    ensures s == s[..|s| - 1] + [s[|s| - 1]]
  {
  }

  function Sum(s: seq<int>): int {
    if s == [] then 0 else Sum(s[..|s| - 1]) + s[|s| - 1]
  }

  /** The entries of s at the given positions, added up. */
  function PickSum(s: seq<int>, positions: seq<nat>): int
    requires forall k :: 0 <= k < |positions| ==> positions[k] < |s|
  {
    if positions == [] then 0
    else PickSum(s, positions[..|positions| - 1]) + s[positions[|positions| - 1]]
  }

  function Total(weight: (nat, nat) -> int, pairs: seq<Pair>): int {
    if pairs == [] then 0
    else Total(weight, pairs[..|pairs| - 1]) + weight(pairs[|pairs| - 1].0, pairs[|pairs| - 1].1)
  }

  lemma {:induction false} SumUpdate(s: seq<int>, i: nat, x: int)
    requires i < |s|
    ensures Sum(s[i := x]) == Sum(s) - s[i] + x
  {
    var last := |s| - 1;
    if i == last {
      assert s[i := x][..last] == s[..last];
    } else {
      SumUpdate(s[..last], i, x);
      assert s[i := x][..last] == s[..last][i := x];
    }
  }

  lemma {:induction false} SumMonotone(s: seq<int>, t: seq<int>)
    requires |s| == |t| && forall k :: 0 <= k < |s| ==> s[k] <= t[k]
    ensures Sum(s) <= Sum(t)
  {
    if s != [] { SumMonotone(s[..|s| - 1], t[..|t| - 1]); }
  }

  lemma {:induction false} SumOfZeros(s: seq<int>)
    requires forall k :: 0 <= k < |s| ==> s[k] == 0
    ensures Sum(s) == 0
  {
    if s != [] { SumOfZeros(s[..|s| - 1]); }
  }

  lemma {:induction false} PickSumAgrees(s: seq<int>, t: seq<int>, positions: seq<nat>)
    requires |s| == |t|
    requires forall k :: 0 <= k < |positions| ==> positions[k] < |s| && s[positions[k]] == t[positions[k]]
    ensures PickSum(s, positions) == PickSum(t, positions)
  {
    if positions != [] { PickSumAgrees(s, t, positions[..|positions| - 1]); }
  }

  /** Distinct positions outside of which s vanishes pick up the whole of s. */
  lemma {:induction false} PickSumAll(s: seq<int>, positions: seq<nat>)
    requires Distinct(positions) && Below(positions, |s|)
    requires forall j :: 0 <= j < |s| && j !in positions ==> s[j] == 0
    ensures PickSum(s, positions) == Sum(s)
    decreases |positions|
  {
    if positions == [] {
      SumOfZeros(s);
    } else {
      var last := |positions| - 1;
      var x, rest := positions[last], positions[..last];
      var t := s[x := 0];
      forall j | 0 <= j < |t| && j !in rest ensures t[j] == 0 {
        if j != x { assert j !in positions by { assert positions == rest + [x]; } }
      }
      PickSumAll(t, rest);
      PickSumAgrees(s, t, rest);
      SumUpdate(s, x, 0);
    }
  }

  /** A sum of non-positive entries is at most any part of it. */
  lemma {:induction false} PickSumNonPositive(s: seq<int>, positions: seq<nat>)
    requires Distinct(positions) && Below(positions, |s|)
    requires forall j :: 0 <= j < |s| ==> s[j] <= 0
    ensures Sum(s) <= PickSum(s, positions)
  {
    var t := seq(|s|, j requires 0 <= j < |s| => if j in positions then s[j] else 0);
    PickSumAgrees(s, t, positions);
    PickSumAll(t, positions);
    SumMonotone(s, t);
  }

  function Range(n: nat): (r: set<nat>)
    ensures |r| == n && forall j: nat :: j in r <==> j < n
  {
    if n == 0 then {}
    else Range(n - 1) + {n - 1}
  }

  /** Distinct numbers below n are at most n many; n of them are all of them. */
  lemma {:induction false} Pigeonhole(s: seq<nat>, n: nat)
    requires Distinct(s) && Below(s, n)
    ensures |s| <= n
    ensures |s| == n ==> forall j: nat :: j < n ==> j in s
  {
    DistinctCount(s);
    var elements := set k | 0 <= k < |s| :: s[k];
    var all := Range(n);
    assert elements <= all;
    SubsetCount(elements, all);
    if |s| == n {
      SubsetFull(elements, all);
      forall j: nat | j < n ensures j in s { assert j in elements; }
    }
  }

  lemma {:induction false} DistinctCount<T>(s: seq<T>)
    requires Distinct(s)
    ensures |set k | 0 <= k < |s| :: s[k]| == |s|
  {
    var elements := set k | 0 <= k < |s| :: s[k];
    if s != [] {
      var rest := s[..|s| - 1];
      DistinctCount(rest);
      assert elements == (set k | 0 <= k < |rest| :: rest[k]) + {s[|s| - 1]};
    }
  }

  lemma {:induction false} SubsetCount<T>(a: set<T>, b: set<T>)
    requires a <= b
    ensures |a| <= |b|
  {
    assert |a + (b - a)| == |a| + |b - a|;
    assert a + (b - a) == b;
  }

  lemma SubsetFull<T>(a: set<T>, b: set<T>)
    requires a <= b && |a| == |b|
    ensures a == b
  {
    assert a + (b - a) == b;
    assert |a + (b - a)| == |a| + |b - a|;
    assert b - a == {};
  }

  lemma CoveringCount(s: seq<nat>, n: nat)
    requires Distinct(s) && forall r: nat :: r < n ==> r in s
    ensures n <= |s|
  {
    DistinctCount(s);
    var covered := set i | 0 <= i < |s| :: s[i];
    forall r | r in Range(n) ensures r in covered {
      assert r in s;
    }
    SubsetCount(Range(n), covered);
  }

  lemma InSides(pairs: seq<Pair>, x: Pair)
    requires x in pairs
    ensures x.0 in Lefts(pairs) && x.1 in Rights(pairs)
  {
    var i :| 0 <= i < |pairs| && pairs[i] == x;
    assert Lefts(pairs)[i] == x.0 && Rights(pairs)[i] == x.1;
  }

  /** The cost of a pair is its entry in the matrix. */
  function CostOf(a: Matrix): (nat, nat) -> int {
    (r: nat, c: nat) => if r < |a| && c < |a[r]| then a[r][c] else 0
  }

  ghost predicate Rectangular(a: Matrix, n: nat, m: nat) {
    |a| == n && forall r :: 0 <= r < n ==> |a[r]| == m
  }

  /** Potentials below every entry of the matrix. */
  ghost predicate DualFeasible(a: Matrix, n: nat, m: nat, u: seq<int>, v: seq<int>) {
    && Rectangular(a, n, m) && |u| == n && |v| == m
    && (forall r, c :: 0 <= r < n && 0 <= c < m ==> u[r] + v[c] <= CostOf(a)(r, c))
    && forall c :: 0 <= c < m ==> v[c] <= 0
  }

  /** The certificate: feasible potentials, tight on the pairs, zero off the paired columns. */
  ghost predicate Certifies(a: Matrix, n: nat, m: nat, u: seq<int>, v: seq<int>, pairs: seq<Pair>) {
    && DualFeasible(a, n, m, u, v)
    && IsPairing(pairs, n, m) && |pairs| == n
    && (forall k :: 0 <= k < n ==> u[pairs[k].0] + v[pairs[k].1] == CostOf(a)(pairs[k].0, pairs[k].1))
    && forall c: nat :: c < m && c !in Rights(pairs) ==> v[c] == 0
  }

  lemma {:induction false} TotalAboveDual(a: Matrix, n: nat, m: nat, u: seq<int>, v: seq<int>, pairs: seq<Pair>)
    requires DualFeasible(a, n, m, u, v) && IsPairing(pairs, n, m)
    ensures PickSum(u, Lefts(pairs)) + PickSum(v, Rights(pairs)) <= Total(CostOf(a), pairs)
    ensures (forall k :: 0 <= k < |pairs| ==> u[pairs[k].0] + v[pairs[k].1] == CostOf(a)(pairs[k].0, pairs[k].1))
            ==> PickSum(u, Lefts(pairs)) + PickSum(v, Rights(pairs)) == Total(CostOf(a), pairs)
  {
    if pairs != [] {
      var last := |pairs| - 1;
      TotalAboveDual(a, n, m, u, v, pairs[..last]);
      assert Lefts(pairs)[..last] == Lefts(pairs[..last]);
      assert Rights(pairs)[..last] == Rights(pairs[..last]);
    }
  }

  /** Weak duality: every pairing of all rows costs at least what the potentials add up to. */
  lemma {:induction false} WeakDuality(a: Matrix, n: nat, m: nat, u: seq<int>, v: seq<int>, pairs: seq<Pair>)
    requires DualFeasible(a, n, m, u, v) && IsPairing(pairs, n, m) && |pairs| == n
    ensures Sum(u) + Sum(v) <= Total(CostOf(a), pairs)
  {
    Pigeonhole(Lefts(pairs), n);
    PickSumAll(u, Lefts(pairs));
    PickSumNonPositive(v, Rights(pairs));
    TotalAboveDual(a, n, m, u, v, pairs);
  }

  lemma {:induction false} CertifiedTotal(a: Matrix, n: nat, m: nat, u: seq<int>, v: seq<int>, pairs: seq<Pair>)
    requires Certifies(a, n, m, u, v, pairs)
    ensures Total(CostOf(a), pairs) == Sum(u) + Sum(v)
  {
    Pigeonhole(Lefts(pairs), n);
    PickSumAll(u, Lefts(pairs));
    PickSumAll(v, Rights(pairs));
    TotalAboveDual(a, n, m, u, v, pairs);
  }

  /** Linear-programming duality: a certified pairing costs no more than any other of its size. */
  lemma {:induction false} CertifiedIsOptimal(a: Matrix, n: nat, m: nat, u: seq<int>, v: seq<int>, pairs: seq<Pair>, other: seq<Pair>)
    requires Certifies(a, n, m, u, v, pairs)
    requires IsPairing(other, n, m) && |other| == n
    ensures Total(CostOf(a), pairs) <= Total(CostOf(a), other)
  {
    CertifiedTotal(a, n, m, u, v, pairs);
    WeakDuality(a, n, m, u, v, other);
  }

  // ----- numbers left unused -----

  lemma Unused(side: seq<nat>, n: nat) returns (i: nat)
    requires |side| < n
    ensures i < n && i !in side
  {
    if forall i: nat :: i < n ==> i in side {
      var used := set k | 0 <= k < |side| :: side[k];
      ElementsCount(side);
      forall r | r in Range(n) ensures r in used { assert r in side; }
      SubsetCount(Range(n), used);
      assert false;
    }
    i :| i < n && i !in side;
  }

  lemma {:induction false} ElementsCount(s: seq<nat>)
    ensures |set k | 0 <= k < |s| :: s[k]| <= |s|
  {
    if s != [] {
      var rest := s[..|s| - 1];
      ElementsCount(rest);
      assert (set k | 0 <= k < |s| :: s[k]) == (set k | 0 <= k < |rest| :: rest[k]) + {s[|s| - 1]};
    }
  }
}
