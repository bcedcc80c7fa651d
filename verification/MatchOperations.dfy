/**
  The evaluator's matching as it runs: counters and lists are updated pair by pair, and the
  operations that are matched are marked.
 */
module MatchOperations {
  import opened Options
  import opened Pairings
  import opened Rearranging
  import opened Matching
  import opened Operations
  import opened OperationCounts
  import opened Evaluation

  class EvaluatedOperation {
    const data: Operation
    var matched: bool
    var pairIndex: int

    constructor (data: Operation)
      ensures this.data == data && !matched && pairIndex == -1
    {
      this.data := data;
      matched, pairIndex := false, -1;
    }
  }

  function DataOf(ops: seq<EvaluatedOperation>): (r: seq<Operation>)
    ensures |r| == |ops| && forall i :: 0 <= i < |ops| ==> r[i] == ops[i].data
  {
    seq(|ops|, i requires 0 <= i < |ops| => ops[i].data)
  }

  function PairObjects(expected: seq<EvaluatedOperation>, actual: seq<EvaluatedOperation>, pairs: seq<Pair>)
    : (r: seq<(EvaluatedOperation, EvaluatedOperation)>)
    requires forall k :: 0 <= k < |pairs| ==> pairs[k].0 < |expected| && pairs[k].1 < |actual|
    ensures |r| == |pairs| && forall k :: 0 <= k < |r| ==> r[k] == (expected[pairs[k].0], actual[pairs[k].1])
  {
    seq(|pairs|, k requires 0 <= k < |pairs| => (expected[pairs[k].0], actual[pairs[k].1]))
  }

  function One(b: bool): nat { if b then 1 else 0 }

  lemma TallyAppend(expected: seq<Operation>, actual: seq<Operation>, pairs: seq<Pair>, x: Pair)
    requires InRange(expected, actual, pairs) && x.0 < |expected| && x.1 < |actual|
    ensures InRange(expected, actual, pairs + [x])
    ensures var t, e, a := Tally(expected, actual, pairs), expected[x.0], actual[x.1];
      Tally(expected, actual, pairs + [x]) == MetadataScores(
        t.usageCorrect + One(e.usage == a.usage),
        t.keySizeCorrect + One(e.keySize == a.keySize),
        t.pairCorrect + One(e.usage == a.usage && e.keySize == a.keySize),
        t.knownCorrect + One(e.keySize.Some? && e.keySize == a.keySize),
        t.knownDenominator + One(e.keySize.Some?))
  {
    var e, a := expected[x.0], actual[x.1];
    hide Hits, KnownAt;
    HitsAppend(expected, actual, pairs, x, SameUsage);
    HitsAppend(expected, actual, pairs, x, SameKeySize);
    HitsAppend(expected, actual, pairs, x, SameMetadata);
    HitsAppend(expected, actual, pairs, x, SameKnownKeySize);
    KnownAtAppend(expected, pairs, x);
    assert SameMetadata(e, a) <==> e.usage == a.usage && e.keySize == a.keySize;
    assert SameKnownKeySize(e, a) <==> e.keySize.Some? && e.keySize == a.keySize;
  }

  lemma {:induction false} KnownAtAppend(ops: seq<Operation>, pairs: seq<Pair>, x: Pair)
    requires x.0 < |ops|
    ensures KnownAt(ops, Lefts(pairs + [x])) == KnownAt(ops, Lefts(pairs)) + One(ops[x.0].keySize.Some?)
  {
    assert Lefts(pairs + [x]) == Lefts(pairs) + [x.0];
    assert (Lefts(pairs) + [x.0])[..|pairs|] == Lefts(pairs);
  }

  /** The increments made for one matched pair. */
  method CountPair(ghost expected: seq<Operation>, ghost actual: seq<Operation>, ghost pairs: seq<Pair>, ghost x: Pair,
                   e: Operation, a: Operation, scores: MetadataScores) returns (r: MetadataScores)
    requires InRange(expected, actual, pairs) && x.0 < |expected| && x.1 < |actual|
    requires e == expected[x.0] && a == actual[x.1] && scores == Tally(expected, actual, pairs)
    ensures InRange(expected, actual, pairs + [x]) && r == Tally(expected, actual, pairs + [x])
  {
    TallyAppend(expected, actual, pairs, x);
    r := scores;
    if e.usage == a.usage { r := r.(usageCorrect := r.usageCorrect + 1); }
    if e.keySize == a.keySize { r := r.(keySizeCorrect := r.keySizeCorrect + 1); }
    if e.usage == a.usage && e.keySize == a.keySize { r := r.(pairCorrect := r.pairCorrect + 1); }
    if e.keySize.Some? {
      r := r.(knownDenominator := r.knownDenominator + 1);
      if e.keySize == a.keySize { r := r.(knownCorrect := r.knownCorrect + 1); }
    }
  }

  /** Some pair of the list holds the operation. */
  ghost predicate Holds(expected: seq<EvaluatedOperation>, actual: seq<EvaluatedOperation>, pairs: seq<Pair>, o: EvaluatedOperation)
    requires forall k :: 0 <= k < |pairs| ==> pairs[k].0 < |expected| && pairs[k].1 < |actual|
  {
    exists k :: 0 <= k < |pairs| && (expected[pairs[k].0] == o || actual[pairs[k].1] == o)
  }

  lemma HoldsAppend(expected: seq<EvaluatedOperation>, actual: seq<EvaluatedOperation>, pairs: seq<Pair>, x: Pair, o: EvaluatedOperation)
    requires forall k :: 0 <= k < |pairs| ==> pairs[k].0 < |expected| && pairs[k].1 < |actual|
    requires x.0 < |expected| && x.1 < |actual|
    ensures Holds(expected, actual, pairs + [x], o)
       <==> Holds(expected, actual, pairs, o) || expected[x.0] == o || actual[x.1] == o
  {
    if Holds(expected, actual, pairs, o) {
      var k :| 0 <= k < |pairs| && (expected[pairs[k].0] == o || actual[pairs[k].1] == o);
      assert (pairs + [x])[k] == pairs[k];
    }
    assert (pairs + [x])[|pairs|] == x;
  }

  /** The flags agree with the pairs kept so far, on top of the operations marked before. */
  ghost predicate Marked(expected: seq<EvaluatedOperation>, actual: seq<EvaluatedOperation>, kept: seq<Pair>,
                         before: set<EvaluatedOperation>)
    requires forall k :: 0 <= k < |kept| ==> kept[k].0 < |expected| && kept[k].1 < |actual|
    reads expected, actual
  {
    && (forall o :: o in expected + actual ==> (o.matched <==> o in before || Holds(expected, actual, kept, o)))
    && (Distinct(expected) ==> forall k :: 0 <= k < |kept| ==> expected[kept[k].0].pairIndex == kept[k].1)
  }

  /** The marks made for one pair. */
  method MarkPair(expected: seq<EvaluatedOperation>, actual: seq<EvaluatedOperation>, ghost kept: seq<Pair>, x: Pair,
                  ghost before: set<EvaluatedOperation>)
    requires IsPairing(kept + [x], |expected|, |actual|) && x.0 < |expected| && x.1 < |actual|
    requires forall k :: 0 <= k < |kept| ==> kept[k].0 < |expected| && kept[k].1 < |actual| && kept[k].0 != x.0
    requires Marked(expected, actual, kept, before)
    modifies expected[x.0], actual[x.1]
    ensures Marked(expected, actual, kept + [x], before)
  {
    var exp, act := expected[x.0], actual[x.1];
    exp.matched := true;
    act.matched := true;
    exp.pairIndex := x.1;
    forall o | o in expected + actual
      ensures Holds(expected, actual, kept + [x], o) <==> Holds(expected, actual, kept, o) || o == exp || o == act
    {
      HoldsAppend(expected, actual, kept, x, o);
    }
  }

  /** The body of the loop for a pair within one component. */
  method KeepPair(expected: seq<EvaluatedOperation>, actual: seq<EvaluatedOperation>, ghost kept: seq<Pair>, x: Pair,
                  ghost before: set<EvaluatedOperation>, scores: MetadataScores) returns (r: MetadataScores)
    requires IsPairing(kept, |expected|, |actual|) && IsPairing(kept + [x], |expected|, |actual|)
    requires Marked(expected, actual, kept, before) && scores == Tally(DataOf(expected), DataOf(actual), kept)
    requires x.0 < |expected| && x.1 < |actual|
    modifies expected[x.0], actual[x.1]
    ensures Marked(expected, actual, kept + [x], before) && r == Tally(DataOf(expected), DataOf(actual), kept + [x])
  {
    forall k | 0 <= k < |kept| ensures kept[k].0 != x.0 {
      assert (kept + [x])[k] == kept[k] && (kept + [x])[|kept|] == x;
    }
    MarkPair(expected, actual, kept, x, before);
    r := CountPair(DataOf(expected), DataOf(actual), kept, x, expected[x.0].data, actual[x.1].data, scores);
  }

  lemma {:induction false} KeptStep(expected: seq<Operation>, actual: seq<Operation>, pairs: seq<Pair>, k: nat)
    requires IsPairing(pairs, |expected|, |actual|) && k < |pairs|
    ensures var kept, rejected, x := Kept(ByComponent, expected, actual, pairs[..k]), Rejected(expected, actual, pairs[..k]), pairs[k];
      if Agree(ByComponent, expected[x.0], actual[x.1]) then
        && Kept(ByComponent, expected, actual, pairs[..k + 1]) == kept + [x]
        && Rejected(expected, actual, pairs[..k + 1]) == rejected
        && IsPairing(kept, |expected|, |actual|) && IsPairing(kept + [x], |expected|, |actual|)
      else
        && Kept(ByComponent, expected, actual, pairs[..k + 1]) == kept
        && Rejected(expected, actual, pairs[..k + 1]) == rejected + [x]
  {
    assert pairs[..k + 1][..k] == pairs[..k];
    KeptIsWithin(ByComponent, expected, actual, pairs[..k + 1]);
    KeptIsWithin(ByComponent, expected, actual, pairs[..k]);
  }

  /** The loop over the chosen pairs. */
  method KeepPairs(expected: seq<EvaluatedOperation>, actual: seq<EvaluatedOperation>, pairs: seq<Pair>,
                   ghost before: set<EvaluatedOperation>)
    returns (kept: seq<Pair>, rejected: seq<Pair>, scores: MetadataScores)
    requires IsPairing(pairs, |expected|, |actual|)
    requires before == set o | o in expected + actual && o.matched
    modifies expected, actual
    ensures kept == Kept(ByComponent, DataOf(expected), DataOf(actual), pairs)
    ensures rejected == Rejected(DataOf(expected), DataOf(actual), pairs)
    ensures scores == Tally(DataOf(expected), DataOf(actual), kept)
    ensures InRange(DataOf(expected), DataOf(actual), kept) && InRange(DataOf(expected), DataOf(actual), rejected)
    ensures Marked(expected, actual, kept, before)
  {
    ghost var e, a := DataOf(expected), DataOf(actual);
    kept, rejected, scores := [], [], MetadataScores(0, 0, 0, 0, 0);
    for k := 0 to |pairs|
      invariant kept == Kept(ByComponent, e, a, pairs[..k])
      invariant rejected == Rejected(e, a, pairs[..k])
      invariant scores == Tally(e, a, kept)
      invariant Marked(expected, actual, kept, before)
    {
      var x := pairs[k];
      KeptStep(e, a, pairs, k);
      if expected[x.0].data.component != actual[x.1].data.component {
        rejected := rejected + [x];
      } else {
        scores := KeepPair(expected, actual, kept, x, before, scores);
        kept := kept + [x];
      }
    }
    assert pairs[..|pairs|] == pairs;
  }

  /** Missed expected operations still count in the denominator of known key sizes. */
  method CountMissed(ops: seq<EvaluatedOperation>, positions: seq<nat>) returns (known: nat)
    requires Below(positions, |ops|)
    ensures known == KnownAt(DataOf(ops), positions)
  {
    known := 0;
    for k := 0 to |positions|
      invariant known == KnownAt(DataOf(ops), positions[..k])
    {
      assert positions[..k + 1][..k] == positions[..k];
      if ops[positions[k]].data.keySize.Some? { known := known + 1; }
    }
    assert positions[..|positions|] == positions;
  }

  method ChoosePairs(expected: seq<EvaluatedOperation>, actual: seq<EvaluatedOperation>) returns (pairs: seq<Pair>)
    ensures pairs == Chosen(DataOf(expected), DataOf(actual))
    ensures IsPairing(pairs, |expected|, |actual|)
  {
    MatchIsPairing(DataOf(expected), DataOf(actual), MatchScore);
    var missed, unexpected;
    pairs, missed, unexpected := HungarianMatch(DataOf(expected), DataOf(actual), MatchScore);
  }

  /** The matching in terms of positions in the two lists. */
  method MatchPositions(expected: seq<EvaluatedOperation>, actual: seq<EvaluatedOperation>, ghost before: set<EvaluatedOperation>)
    returns (kept: seq<Pair>, left: seq<nat>, right: seq<nat>, scores: MetadataScores)
    requires before == set o | o in expected + actual && o.matched
    modifies expected, actual
    ensures Outcome(kept, left, right, scores) == Evaluate(DataOf(expected), DataOf(actual))
    ensures Below(left, |expected|) && Below(right, |actual|)
    ensures InRange(DataOf(expected), DataOf(actual), kept) && Marked(expected, actual, kept, before)
  {
    hide Marked, IsPairing, Kept, Rejected, Hits, PickSum;
    var pairs := ChoosePairs(expected, actual);
    var rejected, tally;
    kept, rejected, tally := KeepPairs(expected, actual, pairs, before);
    left := SortedUnpaired(Lefts(pairs), |expected|) + Lefts(rejected);
    right := SortedUnpaired(Rights(pairs), |actual|) + Rights(rejected);
    var known := CountMissed(expected, left);
    scores := tally.(knownDenominator := tally.knownDenominator + known);
  }

  /** Matched pairs, missed and unexpected operations and counters, with the matched operations marked. */
  method Match(expected: seq<EvaluatedOperation>, actual: seq<EvaluatedOperation>)
    returns (matched: seq<(EvaluatedOperation, EvaluatedOperation)>, missed: seq<EvaluatedOperation>,
             unexpected: seq<EvaluatedOperation>, scores: MetadataScores)
    modifies expected, actual
    ensures var r := Evaluate(DataOf(expected), DataOf(actual));
      && Below(r.missed, |expected|) && Below(r.unexpected, |actual|)
      && matched == PairObjects(expected, actual, r.matched)
      && missed == At(expected, r.missed) && unexpected == At(actual, r.unexpected)
      && scores == r.scores
      && Marked(expected, actual, r.matched, old(set o | o in expected + actual && o.matched))
  {
    var kept, left, right;
    kept, left, right, scores := MatchPositions(expected, actual, set o | o in expected + actual && o.matched);
    matched := PairObjects(expected, actual, kept);
    missed := At(expected, left);
    unexpected := At(actual, right);
  }
}
