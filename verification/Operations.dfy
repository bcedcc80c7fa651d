/**
  Operation-level evaluation: what the pairs chosen by the maximum-score matching amount to
  once the pairs that cross components have been rejected.
 */
module Operations {
  import opened Options
  import opened Pairings
  import opened Matching

  datatype Operation = Operation(algorithm: string, component: string, usage: string, keySize: Option<int>)

  /** Classifications of operations: the score respects the first two; the others count metadata matches. */
  datatype Kind = ByComponent | ByUsage | ByKeySize | ByMetadata

  predicate Respected(kind: Kind) { kind == ByComponent || kind == ByUsage }

  type Label = (string, string, Option<int>)

  function LabelOf(kind: Kind, x: Operation): Label {
    match kind
    case ByComponent => (x.component, "", None)
    case ByUsage => (x.component, x.usage, None)
    case ByKeySize => (x.component, "", x.keySize)
    case ByMetadata => (x.component, x.usage, x.keySize)
  }

  predicate Agree(kind: Kind, x: Operation, y: Operation) {
    LabelOf(kind, x) == LabelOf(kind, y)
  }

  function MatchScore(expected: Operation, actual: Operation): int {
    var usageMatch := expected.usage == actual.usage;
    var keySizeMatch := expected.keySize == actual.keySize;
    if expected.component != actual.component then -2
    else
      -1 + (if usageMatch || keySizeMatch then 1 else 0) + (if usageMatch then 100 else 0)
         + (if usageMatch && keySizeMatch then 1 else 0)
  }

  /** Within a component the score orders pairs by usage first and key size second; across components it is lower. */
  lemma MatchScoreMeaning(x: Operation, y: Operation)
    ensures Symmetric(MatchScore)
    ensures Agree(ByComponent, x, y) ==> MatchScore(x, y) == Merit(x, y) - 1
    ensures !Agree(ByComponent, x, y) ==> MatchScore(x, y) == -2
  {
  }

  /** What a pair adds to 101 * usage_correct + key_size_correct. */
  function Merit(x: Operation, y: Operation): nat {
    (if x.usage == y.usage then 101 else 0) + (if x.keySize == y.keySize then 1 else 0)
  }

  ghost predicate InRange(expected: seq<Operation>, actual: seq<Operation>, pairs: seq<Pair>) {
    forall k :: 0 <= k < |pairs| ==> pairs[k].0 < |expected| && pairs[k].1 < |actual|
  }

  /** The pairs that agree, in the order of the pairs. */
  function Kept(kind: Kind, expected: seq<Operation>, actual: seq<Operation>, pairs: seq<Pair>): (r: seq<Pair>)
    requires InRange(expected, actual, pairs)
    ensures forall x :: x in r ==> x in pairs && x.0 < |expected| && x.1 < |actual| && Agree(kind, expected[x.0], actual[x.1])
    ensures |r| <= |pairs|
  {
    if pairs == [] then []
    else
      var last := pairs[|pairs| - 1];
      var before := Kept(kind, expected, actual, pairs[..|pairs| - 1]);
      if Agree(kind, expected[last.0], actual[last.1]) then before + [last] else before
  }

  function TotalMerit(expected: seq<Operation>, actual: seq<Operation>, pairs: seq<Pair>): nat
    requires InRange(expected, actual, pairs)
  {
    if pairs == [] then 0
    else
      var last := pairs[|pairs| - 1];
      TotalMerit(expected, actual, pairs[..|pairs| - 1]) + Merit(expected[last.0], actual[last.1])
  }

  ghost predicate Within(kind: Kind, expected: seq<Operation>, actual: seq<Operation>, pairs: seq<Pair>)
  {
    && IsPairing(pairs, |expected|, |actual|)
    && forall k :: 0 <= k < |pairs| ==> Agree(kind, expected[pairs[k].0], actual[pairs[k].1])
  }

  // ----- totals under exchange -----

  lemma {:induction false} TotalUpdate(w: (nat, nat) -> int, pairs: seq<Pair>, i: nat, x: Pair)
    requires i < |pairs|
    ensures Total(w, pairs[i := x]) == Total(w, pairs) - w(pairs[i].0, pairs[i].1) + w(x.0, x.1)
  {
    var last := |pairs| - 1;
    if i == last {
      assert pairs[i := x][..last] == pairs[..last];
    } else {
      TotalUpdate(w, pairs[..last], i, x);
      assert pairs[i := x][..last] == pairs[..last][i := x];
    }
  }

  ghost function Weight(expected: seq<Operation>, actual: seq<Operation>): (nat, nat) -> int {
    ScoreOf(expected, actual, MatchScore)
  }

  lemma WeightAt(expected: seq<Operation>, actual: seq<Operation>, x: Pair)
    requires x.0 < |expected| && x.1 < |actual|
    ensures Weight(expected, actual)(x.0, x.1) == MatchScore(expected[x.0], actual[x.1])
  {
  }

  /** An agreeing pair scores enough to pay for one crossing pair beside it, whatever two crossing pairs it replaces. */
  lemma AgreeingOutweighs(kind: Kind, x: Operation, y: Operation)
    requires Respected(kind)
    ensures MatchScore(x, y) >= -2
    ensures var floor := if kind == ByComponent then -1 else 100; var ceiling := if kind == ByComponent then -2 else 0;
      if Agree(kind, x, y) then MatchScore(x, y) >= floor else MatchScore(x, y) <= ceiling
  {
  }

  lemma AgreeingScoresMore(kind: Kind, x: Operation, y: Operation, x': Operation, y': Operation)
    requires kind != ByKeySize && !Agree(kind, x, y) && Agree(kind, x', y')
    ensures MatchScore(x', y') > MatchScore(x, y)
  {
  }

  ghost predicate CrossAt(kind: Kind, expected: seq<Operation>, actual: seq<Operation>, pairs: seq<Pair>, i: nat)
    requires InRange(expected, actual, pairs)
  {
    i < |pairs| && !Agree(kind, expected[pairs[i].0], actual[pairs[i].1])
  }

  lemma RePair(kind: Kind, expected: seq<Operation>, actual: seq<Operation>, pairs: seq<Pair>, i: nat, x: Pair)
    requires kind != ByKeySize
    requires IsPairing(pairs, |expected|, |actual|) && CrossAt(kind, expected, actual, pairs, i)
    requires x.0 < |expected| && x.1 < |actual| && Agree(kind, expected[x.0], actual[x.1])
    requires pairs[i].0 == x.0 || x.0 !in Lefts(pairs)
    requires pairs[i].1 == x.1 || x.1 !in Rights(pairs)
    ensures IsPairing(pairs[i := x], |expected|, |actual|)
    ensures Total(Weight(expected, actual), pairs[i := x]) >= Total(Weight(expected, actual), pairs) + 1
  {
    TotalUpdate(Weight(expected, actual), pairs, i, x);
    WeightAt(expected, actual, pairs[i]);
    WeightAt(expected, actual, x);
    AgreeingScoresMore(kind, expected[pairs[i].0], actual[pairs[i].1], expected[x.0], actual[x.1]);
    assert forall k :: 0 <= k < |pairs| ==> pairs[k].0 == Lefts(pairs)[k] && pairs[k].1 == Rights(pairs)[k];
  }

  /** The pairs i and j with their partners exchanged. */
  function Exchange(pairs: seq<Pair>, i: nat, j: nat): (r: seq<Pair>)
    requires i < |pairs| && j < |pairs| && i != j
    ensures |r| == |pairs| && r[i] == (pairs[i].0, pairs[j].1) && r[j] == (pairs[j].0, pairs[i].1)
    ensures forall k :: 0 <= k < |pairs| && k != i && k != j ==> r[k] == pairs[k]
  {
    pairs[i := (pairs[i].0, pairs[j].1)][j := (pairs[j].0, pairs[i].1)]
  }

  ghost function ScoreAt(expected: seq<Operation>, actual: seq<Operation>, x: Pair): int
    requires x.0 < |expected| && x.1 < |actual|
  {
    MatchScore(expected[x.0], actual[x.1])
  }

  lemma {:induction false} ExchangeTotal(expected: seq<Operation>, actual: seq<Operation>, pairs: seq<Pair>, i: nat, j: nat)
    requires IsPairing(pairs, |expected|, |actual|) && i < |pairs| && j < |pairs| && i != j
    ensures IsPairing(Exchange(pairs, i, j), |expected|, |actual|)
    ensures Total(Weight(expected, actual), Exchange(pairs, i, j)) == Total(Weight(expected, actual), pairs)
              - ScoreAt(expected, actual, pairs[i]) - ScoreAt(expected, actual, pairs[j])
              + ScoreAt(expected, actual, (pairs[i].0, pairs[j].1)) + ScoreAt(expected, actual, (pairs[j].0, pairs[i].1))
  {
    var w := Weight(expected, actual);
    var x, y := (pairs[i].0, pairs[j].1), (pairs[j].0, pairs[i].1);
    TotalUpdate(w, pairs, i, x);
    TotalUpdate(w, pairs[i := x], j, y);
    WeightAt(expected, actual, pairs[i]);
    WeightAt(expected, actual, pairs[j]);
    WeightAt(expected, actual, x);
    WeightAt(expected, actual, y);
  }

  /** Exchanging the partners of two crossing pairs so that one of them no longer crosses. */
  lemma {:induction false} SwapPartners(kind: Kind, expected: seq<Operation>, actual: seq<Operation>, pairs: seq<Pair>, i: nat, j: nat)
    requires IsPairing(pairs, |expected|, |actual|) && i != j && Respected(kind)
    requires CrossAt(kind, expected, actual, pairs, i) && CrossAt(kind, expected, actual, pairs, j)
    requires Agree(kind, expected[pairs[i].0], actual[pairs[j].1])
    ensures IsPairing(Exchange(pairs, i, j), |expected|, |actual|)
    ensures Total(Weight(expected, actual), Exchange(pairs, i, j)) >= Total(Weight(expected, actual), pairs) + 1
  {
    ExchangeTotal(expected, actual, pairs, i, j);
    AgreeingOutweighs(kind, expected[pairs[i].0], actual[pairs[i].1]);
    AgreeingOutweighs(kind, expected[pairs[j].0], actual[pairs[j].1]);
    AgreeingOutweighs(kind, expected[pairs[i].0], actual[pairs[j].1]);
    AgreeingOutweighs(kind, expected[pairs[j].0], actual[pairs[i].1]);
  }

  /** Index e of the expected list has no partner with its label. */
  ghost predicate LeftOpen(kind: Kind, expected: seq<Operation>, actual: seq<Operation>, pairs: seq<Pair>, e: nat)
    requires InRange(expected, actual, pairs)
  {
    e < |expected| && forall k :: 0 <= k < |pairs| && pairs[k].0 == e ==> CrossAt(kind, expected, actual, pairs, k)
  }

  ghost predicate RightOpen(kind: Kind, expected: seq<Operation>, actual: seq<Operation>, pairs: seq<Pair>, a: nat)
    requires InRange(expected, actual, pairs)
  {
    a < |actual| && forall k :: 0 <= k < |pairs| && pairs[k].1 == a ==> CrossAt(kind, expected, actual, pairs, k)
  }

  /** A pairing of full size leaves no two indices unpaired on both sides. */
  lemma OneSidePaired(pairs: seq<Pair>, n: nat, m: nat, e: nat, a: nat)
    requires IsPairing(pairs, n, m) && |pairs| == Min(n, m) && e < n && a < m
    ensures e in Lefts(pairs) || a in Rights(pairs)
  {
    Pigeonhole(Lefts(pairs), n);
    Pigeonhole(Rights(pairs), m);
  }

  /** A pairing of full size can be improved while some label has both sides open. */
  lemma Improve(kind: Kind, expected: seq<Operation>, actual: seq<Operation>, pairs: seq<Pair>, e: nat, a: nat)
    returns (better: seq<Pair>)
    requires Respected(kind)
    requires IsPairing(pairs, |expected|, |actual|) && |pairs| == Min(|expected|, |actual|)
    requires LeftOpen(kind, expected, actual, pairs, e) && RightOpen(kind, expected, actual, pairs, a)
    requires Agree(kind, expected[e], actual[a])
    ensures IsPairing(better, |expected|, |actual|) && |better| == |pairs|
    ensures Total(Weight(expected, actual), better) > Total(Weight(expected, actual), pairs)
  {
    OneSidePaired(pairs, |expected|, |actual|, e, a);
    if e !in Lefts(pairs) {
      var j :| 0 <= j < |pairs| && Rights(pairs)[j] == a;
      RePair(kind, expected, actual, pairs, j, (e, a));
      better := pairs[j := (e, a)];
    } else {
      var i :| 0 <= i < |pairs| && Lefts(pairs)[i] == e;
      if a !in Rights(pairs) {
        RePair(kind, expected, actual, pairs, i, (e, a));
        better := pairs[i := (e, a)];
      } else {
        var j :| 0 <= j < |pairs| && Rights(pairs)[j] == a;
        SwapPartners(kind, expected, actual, pairs, i, j);
        better := Exchange(pairs, i, j);
      }
    }
  }

  /** No pairing of full size has a larger total score. */
  ghost predicate Optimal(expected: seq<Operation>, actual: seq<Operation>, pairs: seq<Pair>) {
    && IsPairing(pairs, |expected|, |actual|) && |pairs| == Min(|expected|, |actual|)
    && forall other :: IsPairing(other, |expected|, |actual|) && |other| == Min(|expected|, |actual|) ==>
         Total(Weight(expected, actual), other) <= Total(Weight(expected, actual), pairs)
  }

  function Chosen(expected: seq<Operation>, actual: seq<Operation>): (r: seq<Pair>)
    ensures InRange(expected, actual, r)
  {
    MatchIsPairing(expected, actual, MatchScore);
    MatchPairs(expected, actual, MatchScore)
  }

  lemma ChosenIsOptimal(expected: seq<Operation>, actual: seq<Operation>)
    ensures Optimal(expected, actual, Chosen(expected, actual))
  {
    MatchIsPairing(expected, actual, MatchScore);
    forall other | IsPairing(other, |expected|, |actual|) && |other| == Min(|expected|, |actual|)
      ensures Total(Weight(expected, actual), other) <= Total(Weight(expected, actual), Chosen(expected, actual))
    {
      MatchMaximisesScore(expected, actual, MatchScore, other);
    }
  }

  /** In an optimal pairing no component, and no usage within a component, has an open operation on both sides. */
  lemma NoLabelOpenTwice(kind: Kind, expected: seq<Operation>, actual: seq<Operation>, pairs: seq<Pair>, e: nat, a: nat)
    requires Respected(kind) && Optimal(expected, actual, pairs)
    requires e < |expected| && a < |actual| && Agree(kind, expected[e], actual[a])
    ensures !LeftOpen(kind, expected, actual, pairs, e) || !RightOpen(kind, expected, actual, pairs, a)
  {
    if LeftOpen(kind, expected, actual, pairs, e) && RightOpen(kind, expected, actual, pairs, a) {
      var better := Improve(kind, expected, actual, pairs, e, a);
    }
  }
}
