/**
  Maximum-score one-to-one matching of two lists, as the evaluator calls it: costs are negated
  scores, and the shorter list supplies the rows.
 */
module Matching {
  import opened Pairings
  import opened Hungarian
  import opened HungarianProof
  import opened HungarianInPlace

  function Flip(pairs: seq<Pair>): (r: seq<Pair>)
    ensures |r| == |pairs| && forall k :: 0 <= k < |pairs| ==> r[k] == (pairs[k].1, pairs[k].0)
  {
    seq(|pairs|, k requires 0 <= k < |pairs| => (pairs[k].1, pairs[k].0))
  }

  function Costs<T>(rows: seq<T>, columns: seq<T>, score: (T, T) -> int): (a: Matrix)
    ensures Rectangular(a, |rows|, |columns|)
  {
    seq(|rows|, r requires 0 <= r < |rows| =>
      seq(|columns|, c requires 0 <= c < |columns| => -score(rows[r], columns[c])))
  }

  function MatchPairs<T>(expected: seq<T>, actual: seq<T>, score: (T, T) -> int): seq<Pair> {
    if expected == [] || actual == [] then []
    else if |expected| > |actual| then
      Flip(Assign(Costs(actual, expected, score), |actual|, |expected|))
    else Assign(Costs(expected, actual, score), |expected|, |actual|)
  }

  function Unpaired(side: seq<nat>, n: nat): set<nat> {
    set i: nat | i < n && i !in side
  }

  method HungarianMatch<T>(expected: seq<T>, actual: seq<T>, score: (T, T) -> int)
    returns (pairs: seq<Pair>, missed: set<nat>, unexpected: set<nat>)
    ensures pairs == MatchPairs(expected, actual, score)
    ensures missed == Unpaired(Lefts(pairs), |expected|)
    ensures unexpected == Unpaired(Rights(pairs), |actual|)
    ensures forall i: nat :: i in missed <==> i < |expected| && forall k :: 0 <= k < |pairs| ==> pairs[k].0 != i
    ensures forall j: nat :: j in unexpected <==> j < |actual| && forall k :: 0 <= k < |pairs| ==> pairs[k].1 != j
  {
    if expected == [] || actual == [] {
      return [], Unpaired([], |expected|), Unpaired([], |actual|);
    }
    var swapped := |expected| > |actual|;
    var rows, columns := if swapped then actual else expected, if swapped then expected else actual;
    pairs := AssignInPlace(Costs(rows, columns, score), |rows|, |columns|);
    if swapped { pairs := Flip(pairs); }
    missed := Unpaired(Lefts(pairs), |expected|);
    unexpected := Unpaired(Rights(pairs), |actual|);
    UnpairedAre(pairs, |expected|, |actual|);
  }

  /** The positions that no pair has on its left, and those that none has on its right. */
  lemma UnpairedAre(pairs: seq<Pair>, n: nat, m: nat)
    ensures forall i: nat :: i in Unpaired(Lefts(pairs), n) <==> i < n && forall k :: 0 <= k < |pairs| ==> pairs[k].0 != i
    ensures forall j: nat :: j in Unpaired(Rights(pairs), m) <==> j < m && forall k :: 0 <= k < |pairs| ==> pairs[k].1 != j
  {
    var lefts, rights := Lefts(pairs), Rights(pairs);
    forall k | 0 <= k < |pairs| ensures pairs[k].0 in lefts && pairs[k].1 in rights {
      assert lefts[k] == pairs[k].0 && rights[k] == pairs[k].1;
    }
  }

  /** The score the algorithm maximises: arguments are exchanged when the lists are. */
  ghost function Oriented<T>(expected: seq<T>, actual: seq<T>, score: (T, T) -> int): (nat, nat) -> int {
    (i: nat, j: nat) =>
      if i < |expected| && j < |actual| then
        if |expected| > |actual| then score(actual[j], expected[i]) else score(expected[i], actual[j])
      else 0
  }

  ghost function ScoreOf<T>(expected: seq<T>, actual: seq<T>, score: (T, T) -> int): (nat, nat) -> int {
    (i: nat, j: nat) => if i < |expected| && j < |actual| then score(expected[i], actual[j]) else 0
  }

  lemma {:induction false} TotalNegated(f: (nat, nat) -> int, g: (nat, nat) -> int, pairs: seq<Pair>, other: seq<Pair>)
    requires |pairs| == |other|
    requires forall k :: 0 <= k < |pairs| ==> f(pairs[k].0, pairs[k].1) == -g(other[k].0, other[k].1)
    ensures Total(f, pairs) == -Total(g, other)
  {
    if pairs != [] { TotalNegated(f, g, pairs[..|pairs| - 1], other[..|other| - 1]); }
  }

  lemma {:induction false} TotalAgrees(f: (nat, nat) -> int, g: (nat, nat) -> int, pairs: seq<Pair>)
    requires forall k :: 0 <= k < |pairs| ==> f(pairs[k].0, pairs[k].1) == g(pairs[k].0, pairs[k].1)
    ensures Total(f, pairs) == Total(g, pairs)
  {
    if pairs != [] { TotalAgrees(f, g, pairs[..|pairs| - 1]); }
  }

  /** The oriented score is minus the cost of the pair, flipped when the lists are exchanged. */
  lemma {:induction false} OrientedIsCost<T>(expected: seq<T>, actual: seq<T>, score: (T, T) -> int, pairs: seq<Pair>)
    requires IsPairing(pairs, |expected|, |actual|)
    ensures Total(Oriented(expected, actual, score), pairs) ==
      if |expected| > |actual| then -Total(CostOf(Costs(actual, expected, score)), Flip(pairs))
      else -Total(CostOf(Costs(expected, actual, score)), pairs)
  {
    if |expected| > |actual| {
      TotalNegated(Oriented(expected, actual, score), CostOf(Costs(actual, expected, score)), pairs, Flip(pairs));
    } else {
      TotalNegated(Oriented(expected, actual, score), CostOf(Costs(expected, actual, score)), pairs, pairs);
    }
  }

  lemma MatchIsPairing<T>(expected: seq<T>, actual: seq<T>, score: (T, T) -> int)
    ensures var pairs := MatchPairs(expected, actual, score);
      IsPairing(pairs, |expected|, |actual|) && |pairs| == Min(|expected|, |actual|)
  {
    if expected != [] && actual != [] {
      if |expected| > |actual| {
        AssignCertified(Costs(actual, expected, score), |actual|, |expected|);
      } else {
        AssignCertified(Costs(expected, actual, score), |expected|, |actual|);
      }
    }
  }

  lemma {:induction false} StraightIsOptimal<T>(expected: seq<T>, actual: seq<T>, score: (T, T) -> int, other: seq<Pair>)
    requires 0 < |expected| <= |actual|
    requires IsPairing(other, |expected|, |actual|) && |other| == |expected|
    ensures Total(Oriented(expected, actual, score), other)
         <= Total(Oriented(expected, actual, score), MatchPairs(expected, actual, score))
  {
    MatchIsPairing(expected, actual, score);
    OrientedIsCost(expected, actual, score, MatchPairs(expected, actual, score));
    OrientedIsCost(expected, actual, score, other);
    AssignOptimal(Costs(expected, actual, score), |expected|, |actual|, other);
  }

  lemma {:induction false} SwappedIsOptimal<T>(expected: seq<T>, actual: seq<T>, score: (T, T) -> int, other: seq<Pair>)
    requires 0 < |actual| < |expected|
    requires IsPairing(other, |expected|, |actual|) && |other| == |actual|
    ensures Total(Oriented(expected, actual, score), other)
         <= Total(Oriented(expected, actual, score), MatchPairs(expected, actual, score))
  {
    var a, pairs := Costs(actual, expected, score), MatchPairs(expected, actual, score);
    MatchIsPairing(expected, actual, score);
    OrientedIsCost(expected, actual, score, pairs);
    OrientedIsCost(expected, actual, score, other);
    AssignOptimal(a, |actual|, |expected|, Flip(other));
    assert Flip(pairs) == Assign(a, |actual|, |expected|);
  }

  /** For every score, no pairing of min(n, m) pairs has a larger oriented total. */
  lemma {:induction false} MatchIsOptimal<T>(expected: seq<T>, actual: seq<T>, score: (T, T) -> int, other: seq<Pair>)
    requires IsPairing(other, |expected|, |actual|) && |other| == Min(|expected|, |actual|)
    ensures Total(Oriented(expected, actual, score), other)
         <= Total(Oriented(expected, actual, score), MatchPairs(expected, actual, score))
  {
    if expected != [] && actual != [] {
      if |expected| > |actual| {
        SwappedIsOptimal(expected, actual, score, other);
      } else {
        StraightIsOptimal(expected, actual, score, other);
      }
    }
  }

  ghost predicate Symmetric<T(!new)>(score: (T, T) -> int) {
    forall x, y :: score(x, y) == score(y, x)
  }

  /** The documented promise: maximum total score, for every symmetric score. */
  lemma {:induction false} MatchMaximisesScore<T(!new)>(expected: seq<T>, actual: seq<T>, score: (T, T) -> int, other: seq<Pair>)
    requires Symmetric(score)
    requires IsPairing(other, |expected|, |actual|) && |other| == Min(|expected|, |actual|)
    ensures Total(ScoreOf(expected, actual, score), other)
         <= Total(ScoreOf(expected, actual, score), MatchPairs(expected, actual, score))
  {
    var pairs := MatchPairs(expected, actual, score);
    MatchIsPairing(expected, actual, score);
    MatchIsOptimal(expected, actual, score, other);
    TotalAgrees(Oriented(expected, actual, score), ScoreOf(expected, actual, score), pairs);
    TotalAgrees(Oriented(expected, actual, score), ScoreOf(expected, actual, score), other);
  }

  /** And for every score, symmetric or not, as long as the expected list is not the longer one. */
  lemma {:induction false} ShorterMaximisesScore<T>(expected: seq<T>, actual: seq<T>, score: (T, T) -> int, other: seq<Pair>)
    requires |expected| <= |actual|
    requires IsPairing(other, |expected|, |actual|) && |other| == |expected|
    ensures Total(ScoreOf(expected, actual, score), other)
         <= Total(ScoreOf(expected, actual, score), MatchPairs(expected, actual, score))
  {
    var pairs := MatchPairs(expected, actual, score);
    MatchIsPairing(expected, actual, score);
    MatchIsOptimal(expected, actual, score, other);
    TotalAgrees(Oriented(expected, actual, score), ScoreOf(expected, actual, score), pairs);
    TotalAgrees(Oriented(expected, actual, score), ScoreOf(expected, actual, score), other);
  }

  /** A score that prefers the expected item 0, but the expected item 1 when its arguments are exchanged. */
  function OneSided(x: int, y: int): int {
    if x == 0 || y == 1 then 1 else 0
  }

  lemma {:induction false} OneSidedPairs(pairs: seq<Pair>)
    requires IsPairing(pairs, 2, 1) && |pairs| == 1
    ensures Total(Oriented([0, 1], [2], OneSided), pairs) == pairs[0].0
    ensures Total(ScoreOf([0, 1], [2], OneSided), pairs) == 1 - pairs[0].0
  {
    var x := pairs[0];
    assert pairs == [x] && pairs[..0] == [];
    assert x.1 == 0 && (x.0 == 0 || x.0 == 1);
    var oriented, plain := Oriented([0, 1], [2], OneSided), ScoreOf([0, 1], [2], OneSided);
    assert Total(oriented, pairs) == Total(oriented, []) + oriented(x.0, x.1);
    assert Total(plain, pairs) == Total(plain, []) + plain(x.0, x.1);
    assert Total(plain, []) == 0 && Total(oriented, []) == 0;
    assert plain(x.0, x.1) == OneSided([0, 1][x.0], [2][x.1]);
    assert oriented(x.0, x.1) == OneSided([2][x.1], [0, 1][x.0]);
  }

  /** Without symmetry the promise fails once the lists are exchanged: two expected items, one actual item. */
  lemma SymmetryIsNeeded()
    ensures IsPairing([(0, 0)], 2, 1)
    ensures Total(ScoreOf([0, 1], [2], OneSided), MatchPairs([0, 1], [2], OneSided))
          < Total(ScoreOf([0, 1], [2], OneSided), [(0, 0)])
  {
    var expected, actual := [0, 1], [2];
    MatchIsPairing(expected, actual, OneSided);
    OneSidedPairs(MatchPairs(expected, actual, OneSided));
    OneSidedPairs([(1, 0)]);
    OneSidedPairs([(0, 0)]);
    MatchIsOptimal(expected, actual, OneSided, [(1, 0)]);
  }
}
