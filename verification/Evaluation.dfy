/**
  The evaluator's use of the matching: matched pairs, missed and unexpected operations and the
  metadata counters, as a function of the two lists.
 */
module Evaluation {
  import opened Options
  import opened Pairings
  import opened Rearranging
  import opened Matching
  import opened Operations
  import opened OperationCounts

  datatype MetadataScores = MetadataScores(usageCorrect: nat, keySizeCorrect: nat, pairCorrect: nat,
                                           knownCorrect: nat, knownDenominator: nat)

  datatype Outcome = Outcome(matched: seq<Pair>, missed: seq<nat>, unexpected: seq<nat>, scores: MetadataScores)

  predicate SameUsage(x: Operation, y: Operation) { x.usage == y.usage }

  predicate SameKeySize(x: Operation, y: Operation) { x.keySize == y.keySize }

  predicate SameMetadata(x: Operation, y: Operation) { SameUsage(x, y) && SameKeySize(x, y) }

  predicate SameKnownKeySize(x: Operation, y: Operation) { x.keySize.Some? && SameKeySize(x, y) }

  function Hits(expected: seq<Operation>, actual: seq<Operation>, pairs: seq<Pair>, hit: (Operation, Operation) -> bool): nat
    requires InRange(expected, actual, pairs)
  {
    if pairs == [] then 0
    else
      var last := pairs[|pairs| - 1];
      Hits(expected, actual, pairs[..|pairs| - 1], hit) + if hit(expected[last.0], actual[last.1]) then 1 else 0
  }

  /** 1 for each operation with a known key size, 0 for the others. */
  function KnownKeys(ops: seq<Operation>): (r: seq<int>)
    ensures |r| == |ops| && forall i :: 0 <= i < |ops| ==> r[i] == if ops[i].keySize.Some? then 1 else 0
  {
    seq(|ops|, i requires 0 <= i < |ops| => if ops[i].keySize.Some? then 1 else 0)
  }

  /** The numbers below n that are not in side, in increasing order. */
  function SortedUnpaired(side: seq<nat>, n: nat): (r: seq<nat>)
    ensures Distinct(r) && Below(r, n) && forall i: nat :: i in r <==> i < n && i !in side
  {
    if n == 0 then []
    else SortedUnpaired(side, n - 1) + if n - 1 in side then [] else [n - 1]
  }

  /** The pairs that cross components, in the order of the pairs. */
  function Rejected(expected: seq<Operation>, actual: seq<Operation>, pairs: seq<Pair>): (r: seq<Pair>)
    requires InRange(expected, actual, pairs)
    ensures forall x :: x in r ==> x in pairs && !Agree(ByComponent, expected[x.0], actual[x.1])
    ensures InRange(expected, actual, r)
  {
    if pairs == [] then []
    else
      var last := pairs[|pairs| - 1];
      Rejected(expected, actual, pairs[..|pairs| - 1])
        + if Agree(ByComponent, expected[last.0], actual[last.1]) then [] else [last]
  }

  /** Positions of the expected operations that end up missed: unpaired first, then rejected. */
  function Missed(expected: seq<Operation>, actual: seq<Operation>, pairs: seq<Pair>): seq<nat>
    requires InRange(expected, actual, pairs)
  {
    SortedUnpaired(Lefts(pairs), |expected|) + Lefts(Rejected(expected, actual, pairs))
  }

  function Unexpected(expected: seq<Operation>, actual: seq<Operation>, pairs: seq<Pair>): seq<nat>
    requires InRange(expected, actual, pairs)
  {
    SortedUnpaired(Rights(pairs), |actual|) + Rights(Rejected(expected, actual, pairs))
  }

  lemma {:induction false} EveryPairIsKeptOrRejected(expected: seq<Operation>, actual: seq<Operation>, pairs: seq<Pair>)
    requires InRange(expected, actual, pairs)
    ensures forall x :: x in pairs ==>
      x in Kept(ByComponent, expected, actual, pairs) || x in Rejected(expected, actual, pairs)
  {
    if pairs != [] {
      EveryPairIsKeptOrRejected(expected, actual, pairs[..|pairs| - 1]);
      assert pairs == pairs[..|pairs| - 1] + [pairs[|pairs| - 1]];
    }
  }

  lemma LeftsIff(pairs: seq<Pair>, i: nat)
    ensures i in Lefts(pairs) <==> exists x :: x in pairs && x.0 == i
  {
    if i in Lefts(pairs) {
      var k :| 0 <= k < |pairs| && Lefts(pairs)[k] == i;
      assert pairs[k] in pairs;
    }
    if x :| x in pairs && x.0 == i { InSides(pairs, x); }
  }

  lemma RightsIff(pairs: seq<Pair>, j: nat)
    ensures j in Rights(pairs) <==> exists x :: x in pairs && x.1 == j
  {
    if j in Rights(pairs) {
      var k :| 0 <= k < |pairs| && Rights(pairs)[k] == j;
      assert pairs[k] in pairs;
    }
    if x :| x in pairs && x.1 == j { InSides(pairs, x); }
  }

  lemma OnePairEach(pairs: seq<Pair>, n: nat, m: nat)
    requires IsPairing(pairs, n, m)
    ensures forall x, y :: x in pairs && y in pairs && (x.0 == y.0 || x.1 == y.1) ==> x == y
    ensures forall x :: x in pairs ==> x.0 < n && x.1 < m
  {
    forall x, y | x in pairs && y in pairs && (x.0 == y.0 || x.1 == y.1) ensures x == y {
      var k :| 0 <= k < |pairs| && pairs[k] == x;
      var l :| 0 <= l < |pairs| && pairs[l] == y;
    }
  }

  /** A position is missed exactly when no pair within a component holds it. */
  lemma {:induction false} MissedExactly(expected: seq<Operation>, actual: seq<Operation>, pairs: seq<Pair>, i: nat)
    requires IsPairing(pairs, |expected|, |actual|) && i < |expected|
    ensures i in Missed(expected, actual, pairs) <==> i !in Lefts(Kept(ByComponent, expected, actual, pairs))
    ensures i in Missed(expected, actual, pairs) <==>
      forall j: nat :: j < |actual| && (i, j) in pairs ==> expected[i].component != actual[j].component
  {
    var kept, rejected := Kept(ByComponent, expected, actual, pairs), Rejected(expected, actual, pairs);
    EveryPairIsKeptOrRejected(expected, actual, pairs);
    LeftsIff(pairs, i);
    LeftsIff(kept, i);
    LeftsIff(rejected, i);
    OnePairEach(pairs, |expected|, |actual|);
  }

  /** An actual operation is unexpected exactly when no pair within a component holds it. */
  lemma {:induction false} UnexpectedExactly(expected: seq<Operation>, actual: seq<Operation>, pairs: seq<Pair>, j: nat)
    requires IsPairing(pairs, |expected|, |actual|) && j < |actual|
    ensures j in Unexpected(expected, actual, pairs) <==> j !in Rights(Kept(ByComponent, expected, actual, pairs))
    ensures j in Unexpected(expected, actual, pairs) <==>
      forall i: nat :: i < |expected| && (i, j) in pairs ==> expected[i].component != actual[j].component
  {
    var kept, rejected := Kept(ByComponent, expected, actual, pairs), Rejected(expected, actual, pairs);
    EveryPairIsKeptOrRejected(expected, actual, pairs);
    RightsIff(pairs, j);
    RightsIff(kept, j);
    RightsIff(rejected, j);
    OnePairEach(pairs, |expected|, |actual|);
  }

  lemma {:induction false} PickSumConcat(s: seq<int>, positions: seq<nat>, more: seq<nat>)
    requires Below(positions, |s|) && Below(more, |s|)
    ensures PickSum(s, positions + more) == PickSum(s, positions) + PickSum(s, more)
  {
    if more == [] {
      assert positions + more == positions;
    } else {
      var last := |more| - 1;
      PickSumConcat(s, positions, more[..last]);
      assert (positions + more)[..|positions + more| - 1] == positions + more[..last];
    }
  }

  /** Paired and unpaired positions together are all of them, once each. */
  lemma {:induction false} UnpairedCompletes(s: seq<int>, side: seq<nat>)
    requires Distinct(side) && Below(side, |s|)
    ensures var unpaired := SortedUnpaired(side, |s|);
      && Below(unpaired, |s|)
      && |side| + |unpaired| == |s|
      && PickSum(s, side) + PickSum(s, unpaired) == Sum(s)
  {
    var unpaired := SortedUnpaired(side, |s|);
    forall k | 0 <= k < |unpaired| ensures unpaired[k] < |s| && unpaired[k] !in side { assert unpaired[k] in unpaired; }
    var all := side + unpaired;
    forall i, j | 0 <= i < j < |all| ensures all[i] != all[j] {
      assert i < |side| <= j ==> all[i] in side;
    }
    Pigeonhole(all, |s|);
    CoveringCount(all, |s|);
    PickSumConcat(s, side, unpaired);
    PickSumAll(s, all);
  }

  lemma {:induction false} PickSumAppend(s: seq<int>, pairs: seq<Pair>, x: Pair)
    requires Below(Lefts(pairs), |s|) && x.0 < |s|
    ensures Below(Lefts(pairs + [x]), |s|)
    ensures PickSum(s, Lefts(pairs + [x])) == PickSum(s, Lefts(pairs)) + s[x.0]
  {
    assert Lefts(pairs + [x]) == Lefts(pairs) + [x.0];
    PickSumConcat(s, Lefts(pairs), [x.0]);
    assert PickSum(s, [x.0]) == PickSum(s, [x.0][..0]) + s[x.0];
  }

  lemma {:induction false} KeptAndRejectedCount(expected: seq<Operation>, actual: seq<Operation>, pairs: seq<Pair>)
    requires InRange(expected, actual, pairs)
    ensures |Kept(ByComponent, expected, actual, pairs)| + |Rejected(expected, actual, pairs)| == |pairs|
  {
    if pairs != [] { KeptAndRejectedCount(expected, actual, pairs[..|pairs| - 1]); }
  }

  lemma {:induction false} LeftsBelow(expected: seq<Operation>, actual: seq<Operation>, pairs: seq<Pair>)
    requires InRange(expected, actual, pairs)
    ensures Below(Lefts(pairs), |expected|)
    ensures Below(Lefts(Kept(ByComponent, expected, actual, pairs)), |expected|)
    ensures Below(Lefts(Rejected(expected, actual, pairs)), |expected|)
  {
    var kept, rejected := Kept(ByComponent, expected, actual, pairs), Rejected(expected, actual, pairs);
    forall k | 0 <= k < |kept| ensures Lefts(kept)[k] < |expected| { assert kept[k] in kept; }
    forall k | 0 <= k < |rejected| ensures Lefts(rejected)[k] < |expected| { assert rejected[k] in rejected; }
  }

  lemma {:induction false} KeptAndRejectedSum(s: seq<int>, expected: seq<Operation>, actual: seq<Operation>, pairs: seq<Pair>)
    requires InRange(expected, actual, pairs) && |s| == |expected|
    requires Below(Lefts(pairs), |s|)
    requires Below(Lefts(Kept(ByComponent, expected, actual, pairs)), |s|)
    requires Below(Lefts(Rejected(expected, actual, pairs)), |s|)
    ensures PickSum(s, Lefts(Kept(ByComponent, expected, actual, pairs))) + PickSum(s, Lefts(Rejected(expected, actual, pairs)))
         == PickSum(s, Lefts(pairs))
  {
    if pairs != [] {
      var before, x := pairs[..|pairs| - 1], pairs[|pairs| - 1];
      SplitLast(pairs);
      LeftsBelow(expected, actual, before);
      KeptAndRejectedSum(s, expected, actual, before);
      PickSumAppend(s, before, x);
      if Agree(ByComponent, expected[x.0], actual[x.1]) {
        assert Rejected(expected, actual, pairs) == Rejected(expected, actual, before);
        PickSumAppend(s, Kept(ByComponent, expected, actual, before), x);
      } else {
        PickSumAppend(s, Rejected(expected, actual, before), x);
      }
    }
  }

  // ----- the outcome -----

  /** The counters over a list of matched pairs. */
  function Tally(expected: seq<Operation>, actual: seq<Operation>, pairs: seq<Pair>): MetadataScores
    requires InRange(expected, actual, pairs)
  {
    MetadataScores(Hits(expected, actual, pairs, SameUsage), Hits(expected, actual, pairs, SameKeySize),
                   Hits(expected, actual, pairs, SameMetadata), Hits(expected, actual, pairs, SameKnownKeySize),
                   KnownAt(expected, Lefts(pairs)))
  }

  function Evaluate(expected: seq<Operation>, actual: seq<Operation>): (r: Outcome)
    ensures InRange(expected, actual, r.matched)
  {
    var pairs := Chosen(expected, actual);
    var matched := Agreeing(ByComponent, expected, actual);
    var missed := Missed(expected, actual, pairs);
    var tally := Tally(expected, actual, matched);
    Outcome(matched, missed, Unexpected(expected, actual, pairs),
            tally.(knownDenominator := tally.knownDenominator + KnownAt(expected, missed)))
  }

  function KnownAt(ops: seq<Operation>, positions: seq<nat>): nat {
    if positions == [] then 0
    else
      var last := positions[|positions| - 1];
      KnownAt(ops, positions[..|positions| - 1]) + if last < |ops| && ops[last].keySize.Some? then 1 else 0
  }

  lemma {:induction false} KnownAtIsPickSum(ops: seq<Operation>, positions: seq<nat>)
    requires Below(positions, |ops|)
    ensures KnownAt(ops, positions) == PickSum(KnownKeys(ops), positions)
  {
    if positions != [] { KnownAtIsPickSum(ops, positions[..|positions| - 1]); }
  }

  /** Every operation is counted once: matched or missed, matched or unexpected. */
  lemma EvaluateAccounts(expected: seq<Operation>, actual: seq<Operation>)
    ensures var r := Evaluate(expected, actual);
      && |r.matched| + |r.missed| == |expected|
      && |r.matched| + |r.unexpected| == |actual|
      && r.scores.knownDenominator == Sum(KnownKeys(expected))
  {
    hide KnownAt, Hits, Kept, Rejected, SortedUnpaired, KnownKeys;
    var pairs := Chosen(expected, actual);
    MatchIsPairing(expected, actual, MatchScore);
    KeptAndRejectedCount(expected, actual, pairs);
    UnpairedCompletes(KnownKeys(expected), Lefts(pairs));
    UnpairedCompletes(KnownKeys(actual), Rights(pairs));
    KnownCounted(expected, actual, pairs);
  }

  /** Known key sizes of kept and missed operations are all of them. */
  lemma {:induction false} KnownCounted(expected: seq<Operation>, actual: seq<Operation>, pairs: seq<Pair>)
    requires IsPairing(pairs, |expected|, |actual|)
    ensures KnownAt(expected, Lefts(Kept(ByComponent, expected, actual, pairs))) + KnownAt(expected, Missed(expected, actual, pairs))
         == Sum(KnownKeys(expected))
  {
    hide KnownAt, Kept, Rejected, SortedUnpaired, KnownKeys;
    var known, kept := KnownKeys(expected), Kept(ByComponent, expected, actual, pairs);
    var unpaired, rejected := SortedUnpaired(Lefts(pairs), |expected|), Rejected(expected, actual, pairs);
    LeftsBelow(expected, actual, pairs);
    KeptAndRejectedSum(known, expected, actual, pairs);
    UnpairedCompletes(known, Lefts(pairs));
    PickSumConcat(known, unpaired, Lefts(rejected));
    KnownAtIsPickSum(expected, Lefts(kept));
    KnownAtIsPickSum(expected, unpaired + Lefts(rejected));
  }

  // ----- what the counters count -----

  lemma {:induction false} HitsAppend(expected: seq<Operation>, actual: seq<Operation>, pairs: seq<Pair>, x: Pair, hit: (Operation, Operation) -> bool)
    requires InRange(expected, actual, pairs) && x.0 < |expected| && x.1 < |actual|
    ensures InRange(expected, actual, pairs + [x])
    ensures Hits(expected, actual, pairs + [x], hit)
         == Hits(expected, actual, pairs, hit) + if hit(expected[x.0], actual[x.1]) then 1 else 0
  {
    assert (pairs + [x])[..|pairs|] == pairs;
  }

  lemma {:induction false} UsageHits(expected: seq<Operation>, actual: seq<Operation>, pairs: seq<Pair>)
    requires InRange(expected, actual, pairs)
    ensures Hits(expected, actual, Kept(ByComponent, expected, actual, pairs), SameUsage)
         == |Kept(ByUsage, expected, actual, pairs)|
  {
    if pairs != [] {
      var before, x := pairs[..|pairs| - 1], pairs[|pairs| - 1];
      UsageHits(expected, actual, before);
      HitsAppend(expected, actual, Kept(ByComponent, expected, actual, before), x, SameUsage);
    }
  }

  lemma {:induction false} MeritIsHits(expected: seq<Operation>, actual: seq<Operation>, pairs: seq<Pair>)
    requires InRange(expected, actual, pairs)
    ensures TotalMerit(expected, actual, pairs)
         == 101 * Hits(expected, actual, pairs, SameUsage) + Hits(expected, actual, pairs, SameKeySize)
  {
    if pairs != [] { MeritIsHits(expected, actual, pairs[..|pairs| - 1]); }
  }

  /**
    True positives and usage_correct have closed forms: the common components, and the common
    (component, usage) combinations, each counted as often as both lists have it.
   */
  lemma CountersMean(expected: seq<Operation>, actual: seq<Operation>)
    ensures |Evaluate(expected, actual).matched| == |Common(ByComponent, expected, actual)|
    ensures Evaluate(expected, actual).scores.usageCorrect == |Common(ByUsage, expected, actual)|
  {
    AgreeingCount(ByComponent, expected, actual);
    AgreeingCount(ByUsage, expected, actual);
    UsageHits(expected, actual, Chosen(expected, actual));
  }

  /** key_size_correct is the most that any equally large matching with as many usage matches attains. */
  lemma {:induction false} KeySizeCorrectIsBest(expected: seq<Operation>, actual: seq<Operation>, other: seq<Pair>)
    requires Within(ByComponent, expected, actual, other)
    requires |other| == |Evaluate(expected, actual).matched|
    requires Hits(expected, actual, other, SameUsage) == Evaluate(expected, actual).scores.usageCorrect
    ensures Hits(expected, actual, other, SameKeySize) <= Evaluate(expected, actual).scores.keySizeCorrect
  {
    AcceptedIsBest(expected, actual, other);
    MeritIsHits(expected, actual, other);
    MeritIsHits(expected, actual, Agreeing(ByComponent, expected, actual));
  }

  // ----- the order of the lists -----

  lemma {:induction false} MovedMerit(expected: seq<Operation>, actual: seq<Operation>, expected': seq<Operation>, actual': seq<Operation>,
                                      f: seq<nat>, g: seq<nat>, pairs: seq<Pair>)
    requires Rearranges(f, expected, expected') && Rearranges(g, actual, actual')
    requires InRange(expected, actual, pairs)
    ensures InRange(expected', actual', Moved(pairs, f, g))
    ensures TotalMerit(expected', actual', Moved(pairs, f, g)) == TotalMerit(expected, actual, pairs)
  {
    if pairs != [] {
      var before := pairs[..|pairs| - 1];
      MovedMerit(expected, actual, expected', actual', f, g, before);
      assert Moved(pairs, f, g)[..|pairs| - 1] == Moved(before, f, g);
    }
  }

  lemma MovedIsWithin(expected: seq<Operation>, actual: seq<Operation>, expected': seq<Operation>, actual': seq<Operation>,
                      f: seq<nat>, g: seq<nat>, pairs: seq<Pair>)
    requires Rearranges(f, expected, expected') && Rearranges(g, actual, actual')
    requires Within(ByComponent, expected, actual, pairs)
    ensures Within(ByComponent, expected', actual', Moved(pairs, f, g))
  {
    var moved := Moved(pairs, f, g);
    forall i, j | 0 <= i < j < |moved| ensures moved[i].0 != moved[j].0 && moved[i].1 != moved[j].1 {
      assert pairs[i].0 != pairs[j].0 && pairs[i].1 != pairs[j].1;
    }
  }

  lemma SameLabels(kind: Kind, s: seq<Operation>, t: seq<Operation>)
    requires multiset(s) == multiset(t)
    ensures multiset(Labels(kind, s)) == multiset(Labels(kind, t))
  {
    var f := Rearranged(s, t);
    assert At(Labels(kind, t), f) == Labels(kind, s);
    Pigeonhole(f, |t|);
    forall c: Label ensures multiset(Labels(kind, s))[c] == multiset(Labels(kind, t))[c] {
      AtCount(Labels(kind, t), f, c);
    }
  }

  lemma SameKnownKeys(s: seq<Operation>, t: seq<Operation>)
    requires multiset(s) == multiset(t)
    ensures Sum(KnownKeys(s)) == Sum(KnownKeys(t))
  {
    var f := Rearranged(s, t);
    SumRearranged(KnownKeys(s), KnownKeys(t), f);
  }

  lemma {:induction false} MeritNotLess(expected: seq<Operation>, actual: seq<Operation>, expected': seq<Operation>, actual': seq<Operation>)
    requires multiset(expected) == multiset(expected') && multiset(actual) == multiset(actual')
    requires |Agreeing(ByComponent, expected, actual)| == |Agreeing(ByComponent, expected', actual')|
    ensures TotalMerit(expected, actual, Agreeing(ByComponent, expected, actual))
         <= TotalMerit(expected', actual', Agreeing(ByComponent, expected', actual'))
  {
    var f := Rearranged(expected, expected');
    var g := Rearranged(actual, actual');
    var pairs := Agreeing(ByComponent, expected, actual);
    AgreeingIsWithin(ByComponent, expected, actual);
    MovedIsWithin(expected, actual, expected', actual', f, g, pairs);
    MovedMerit(expected, actual, expected', actual', f, g, pairs);
    AcceptedIsBest(expected', actual', Moved(pairs, f, g));
  }

  /** The counts do not depend on the order of either list, nor on how ties are broken. */
  lemma OrderDoesNotMatter(expected: seq<Operation>, actual: seq<Operation>, expected': seq<Operation>, actual': seq<Operation>)
    requires multiset(expected) == multiset(expected') && multiset(actual) == multiset(actual')
    ensures var r, r' := Evaluate(expected, actual), Evaluate(expected', actual');
      && |r.matched| == |r'.matched| && |r.missed| == |r'.missed| && |r.unexpected| == |r'.unexpected|
      && r.scores.usageCorrect == r'.scores.usageCorrect
      && r.scores.keySizeCorrect == r'.scores.keySizeCorrect
      && r.scores.knownDenominator == r'.scores.knownDenominator
  {
    CountersMean(expected, actual);
    CountersMean(expected', actual');
    SameLabels(ByComponent, expected, expected');
    SameLabels(ByComponent, actual, actual');
    SameLabels(ByUsage, expected, expected');
    SameLabels(ByUsage, actual, actual');
    MeritNotLess(expected, actual, expected', actual');
    MeritNotLess(expected', actual', expected, actual);
    MeritIsHits(expected, actual, Agreeing(ByComponent, expected, actual));
    MeritIsHits(expected', actual', Agreeing(ByComponent, expected', actual'));
    EvaluateAccounts(expected, actual);
    EvaluateAccounts(expected', actual');
    SameKnownKeys(expected, expected');
    assert |multiset(expected)| == |multiset(expected')| && |multiset(actual)| == |multiset(actual')|;
  }
}
