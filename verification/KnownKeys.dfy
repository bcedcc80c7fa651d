/**
  known_key_size_correct: how large it can be, and when ties cannot change it.
 */
module KnownKeys {
  import opened Options
  import opened Pairings
  import opened Rearranging
  import opened Matching
  import opened Operations
  import opened OperationCounts
  import opened Evaluation

  // ----- the bound -----

  /** The operations whose key size is known, in order. */
  function Known(ops: seq<Operation>): seq<Operation> {
    if ops == [] then []
    else
      var x := ops[|ops| - 1];
      Known(ops[..|ops| - 1]) + if x.keySize.Some? then [x] else []
  }

  /** The common (component, known key size) combinations. */
  ghost function CommonKnown(expected: seq<Operation>, actual: seq<Operation>): multiset<Label> {
    Common(ByKeySize, Known(expected), Known(actual))
  }

  lemma {:induction false} KnownLabels(ops: seq<Operation>, c: Label)
    ensures multiset(Labels(ByKeySize, Known(ops)))[c] == if c.2.Some? then multiset(Labels(ByKeySize, ops))[c] else 0
  {
    if ops != [] {
      var front, x := ops[..|ops| - 1], ops[|ops| - 1];
      KnownLabels(front, c);
      assert Labels(ByKeySize, ops) == Labels(ByKeySize, front) + [LabelOf(ByKeySize, x)];
      if x.keySize.Some? {
        assert Labels(ByKeySize, Known(ops)) == Labels(ByKeySize, Known(front)) + [LabelOf(ByKeySize, x)];
      } else {
        assert Known(ops) == Known(front);
      }
    } else {
      assert Labels(ByKeySize, ops) == [] && Labels(ByKeySize, Known(ops)) == [];
    }
  }

  /** The accepted pairs that agree on a known key size, in the order of the pairs. */
  function KnownPairs(expected: seq<Operation>, actual: seq<Operation>, pairs: seq<Pair>): (r: seq<Pair>)
    requires InRange(expected, actual, pairs)
    ensures forall x :: x in r ==>
      x in pairs && Agree(ByKeySize, expected[x.0], actual[x.1]) && expected[x.0].keySize.Some?
  {
    if pairs == [] then []
    else
      var before, x := KnownPairs(expected, actual, pairs[..|pairs| - 1]), pairs[|pairs| - 1];
      if Agree(ByKeySize, expected[x.0], actual[x.1]) && expected[x.0].keySize.Some? then before + [x] else before
  }

  lemma {:induction false} KnownPairsWithin(expected: seq<Operation>, actual: seq<Operation>, pairs: seq<Pair>)
    requires IsPairing(pairs, |expected|, |actual|)
    ensures Within(ByKeySize, expected, actual, KnownPairs(expected, actual, pairs))
  {
    if pairs != [] {
      var before := pairs[..|pairs| - 1];
      KnownPairsWithin(expected, actual, before);
      var known := KnownPairs(expected, actual, before);
      forall k | 0 <= k < |known| ensures known[k] in before { assert known[k] in known; }
    }
  }

  lemma {:induction false} KnownHits(expected: seq<Operation>, actual: seq<Operation>, pairs: seq<Pair>)
    requires Within(ByComponent, expected, actual, pairs)
    ensures Hits(expected, actual, pairs, SameKnownKeySize) == |KnownPairs(expected, actual, pairs)|
  {
    if pairs != [] { KnownHits(expected, actual, pairs[..|pairs| - 1]); }
  }

  /** known_key_size_correct is at most the number of common (component, known key size) combinations. */
  lemma KnownCorrectAtMost(expected: seq<Operation>, actual: seq<Operation>)
    ensures Evaluate(expected, actual).scores.knownCorrect <= |CommonKnown(expected, actual)|
  {
    var pairs := Agreeing(ByComponent, expected, actual);
    AgreeingIsWithin(ByComponent, expected, actual);
    KnownHits(expected, actual, pairs);
    KnownPairsCommon(expected, actual, pairs);
    var lefts := multiset(At(Labels(ByKeySize, expected), Lefts(KnownPairs(expected, actual, pairs))));
    FewerAreSmaller(lefts, CommonKnown(expected, actual));
  }

  lemma FewerAreSmaller(a: multiset<Label>, b: multiset<Label>)
    requires a <= b
    ensures |a| <= |b|
  {
    assert b == a + (b - a);
  }

  lemma {:induction false} KnownPairsCommon(expected: seq<Operation>, actual: seq<Operation>, pairs: seq<Pair>)
    requires Within(ByComponent, expected, actual, pairs)
    ensures var known := KnownPairs(expected, actual, pairs);
      Below(Lefts(known), |expected|) && multiset(At(Labels(ByKeySize, expected), Lefts(known))) <= CommonKnown(expected, actual)
  {
    var known := KnownPairs(expected, actual, pairs);
    KnownPairsWithin(expected, actual, pairs);
    WithinIsCommon(ByKeySize, expected, actual, known);
    var lefts := At(Labels(ByKeySize, expected), Lefts(known));
    forall k | 0 <= k < |lefts| ensures lefts[k].2.Some? { assert known[k] in known; }
    hide Within, KnownPairs, CommonKnown, LabelOf;
    forall c: Label ensures multiset(lefts)[c] <= CommonKnown(expected, actual)[c] {
      KnownCount(expected, actual, lefts, c);
    }
  }

  lemma KnownCount(expected: seq<Operation>, actual: seq<Operation>, labels: seq<Label>, c: Label)
    requires multiset(labels) <= Common(ByKeySize, expected, actual)
    requires forall k :: 0 <= k < |labels| ==> labels[k].2.Some?
    ensures multiset(labels)[c] <= CommonKnown(expected, actual)[c]
  {
    KnownLabels(expected, c);
    KnownLabels(actual, c);
    if multiset(labels)[c] > 0 { assert c in labels; }
  }

  // ----- splitting a matching by component -----

  /** The pairs whose expected operation is in the chosen components, or, without inside, in the others. */
  function Part(expected: seq<Operation>, pairs: seq<Pair>, chosen: set<string>, inside: bool): (r: seq<Pair>)
    requires Below(Lefts(pairs), |expected|)
    ensures forall x :: x in r ==> x in pairs && x.0 < |expected| && (expected[x.0].component in chosen <==> inside)
  {
    if pairs == [] then []
    else
      var before, x := pairs[..|pairs| - 1], pairs[|pairs| - 1];
      assert Lefts(before) == Lefts(pairs)[..|before|];
      assert Lefts(pairs)[|pairs| - 1] == x.0;
      if expected[x.0].component in chosen <==> inside then Part(expected, before, chosen, inside) + [x]
      else Part(expected, before, chosen, inside)
  }

  lemma WithinBelow(expected: seq<Operation>, actual: seq<Operation>, pairs: seq<Pair>)
    requires Within(ByComponent, expected, actual, pairs)
    ensures Below(Lefts(pairs), |expected|)
  {
  }

  lemma {:induction false} PartWithin(expected: seq<Operation>, actual: seq<Operation>, pairs: seq<Pair>, chosen: set<string>, inside: bool)
    requires Within(ByComponent, expected, actual, pairs) && Below(Lefts(pairs), |expected|)
    ensures Within(ByComponent, expected, actual, Part(expected, pairs, chosen, inside))
  {
    if pairs != [] {
      var before, x := pairs[..|pairs| - 1], pairs[|pairs| - 1];
      WithinBelow(expected, actual, before);
      PartWithin(expected, actual, before, chosen, inside);
      var part := Part(expected, before, chosen, inside);
      forall k | 0 <= k < |part| ensures part[k].0 != x.0 && part[k].1 != x.1 {
        assert part[k] in before;
      }
      WithinAppend(expected, actual, part, x);
    }
  }

  lemma WithinAppend(expected: seq<Operation>, actual: seq<Operation>, pairs: seq<Pair>, x: Pair)
    requires Within(ByComponent, expected, actual, pairs) && x.0 < |expected| && x.1 < |actual|
    requires Agree(ByComponent, expected[x.0], actual[x.1])
    requires forall k :: 0 <= k < |pairs| ==> pairs[k].0 != x.0 && pairs[k].1 != x.1
    ensures Within(ByComponent, expected, actual, pairs + [x])
  {
  }

  lemma {:induction false} PartCounts(expected: seq<Operation>, actual: seq<Operation>, pairs: seq<Pair>, chosen: set<string>,
                                      hit: (Operation, Operation) -> bool)
    requires Within(ByComponent, expected, actual, pairs) && Below(Lefts(pairs), |expected|)
    ensures |pairs| == |Part(expected, pairs, chosen, true)| + |Part(expected, pairs, chosen, false)|
    ensures InRange(expected, actual, Part(expected, pairs, chosen, true)) && InRange(expected, actual, Part(expected, pairs, chosen, false))
    ensures Hits(expected, actual, pairs, hit) == Hits(expected, actual, Part(expected, pairs, chosen, true), hit)
                                                + Hits(expected, actual, Part(expected, pairs, chosen, false), hit)
  {
    PartWithin(expected, actual, pairs, chosen, true);
    PartWithin(expected, actual, pairs, chosen, false);
    if pairs != [] {
      var before, x := pairs[..|pairs| - 1], pairs[|pairs| - 1];
      var inside := expected[x.0].component in chosen;
      WithinBelow(expected, actual, before);
      PartCounts(expected, actual, before, chosen, hit);
      HitsAppend(expected, actual, Part(expected, before, chosen, inside), x, hit);
    }
  }

  lemma {:induction false} HitsConcat(expected: seq<Operation>, actual: seq<Operation>, pairs: seq<Pair>, more: seq<Pair>,
                                      hit: (Operation, Operation) -> bool)
    requires InRange(expected, actual, pairs) && InRange(expected, actual, more)
    ensures InRange(expected, actual, pairs + more)
    ensures Hits(expected, actual, pairs + more, hit) == Hits(expected, actual, pairs, hit) + Hits(expected, actual, more, hit)
  {
    if more == [] {
      assert pairs + more == pairs;
    } else {
      var last := |more| - 1;
      HitsConcat(expected, actual, pairs, more[..last], hit);
      assert (pairs + more)[..|pairs + more| - 1] == pairs + more[..last];
    }
  }

  /** The pairs of one matching in the chosen components, with those of another in the others. */
  ghost function Spliced(expected: seq<Operation>, these: seq<Pair>, those: seq<Pair>, chosen: set<string>): seq<Pair>
    requires Below(Lefts(these), |expected|) && Below(Lefts(those), |expected|)
  {
    Part(expected, these, chosen, true) + Part(expected, those, chosen, false)
  }

  lemma {:induction false} SplicedWithin(expected: seq<Operation>, actual: seq<Operation>, these: seq<Pair>, those: seq<Pair>, chosen: set<string>)
    requires Within(ByComponent, expected, actual, these) && Within(ByComponent, expected, actual, those)
    requires Below(Lefts(these), |expected|) && Below(Lefts(those), |expected|)
    ensures Within(ByComponent, expected, actual, Spliced(expected, these, those, chosen))
  {
    PartWithin(expected, actual, these, chosen, true);
    PartWithin(expected, actual, those, chosen, false);
    var inner, outer := Part(expected, these, chosen, true), Part(expected, those, chosen, false);
    forall i, j | 0 <= i < |inner| && 0 <= j < |outer| ensures inner[i].0 != outer[j].0 && inner[i].1 != outer[j].1 {
      assert inner[i] in inner && outer[j] in outer;
    }
  }

  // ----- equally good matchings -----

  ghost predicate AsGood(expected: seq<Operation>, actual: seq<Operation>, pairs: seq<Pair>) {
    && Within(ByComponent, expected, actual, pairs)
    && |pairs| == |Evaluate(expected, actual).matched|
    && Hits(expected, actual, pairs, SameUsage) == Evaluate(expected, actual).scores.usageCorrect
    && Hits(expected, actual, pairs, SameKeySize) == Evaluate(expected, actual).scores.keySizeCorrect
  }

  /** Nothing within components has more pairs, more usage matches, or as many of both and more key-size matches. */
  lemma {:induction false} NoneBetter(expected: seq<Operation>, actual: seq<Operation>, pairs: seq<Pair>)
    requires Within(ByComponent, expected, actual, pairs)
    ensures |pairs| <= |Evaluate(expected, actual).matched|
    ensures Hits(expected, actual, pairs, SameUsage) <= Evaluate(expected, actual).scores.usageCorrect
    ensures |pairs| == |Evaluate(expected, actual).matched| ==>
      Hits(expected, actual, pairs, SameUsage) == Evaluate(expected, actual).scores.usageCorrect ==>
      Hits(expected, actual, pairs, SameKeySize) <= Evaluate(expected, actual).scores.keySizeCorrect
  {
    AcceptedIsBest(expected, actual, pairs);
    UsageHits(expected, actual, pairs);
    AllKept(expected, actual, pairs);
    KeptIsCommon(ByUsage, expected, actual, pairs);
    CountersMean(expected, actual);
    if |pairs| == |Evaluate(expected, actual).matched|
       && Hits(expected, actual, pairs, SameUsage) == Evaluate(expected, actual).scores.usageCorrect {
      KeySizeCorrectIsBest(expected, actual, pairs);
    }
  }

  lemma {:induction false} AllKept(expected: seq<Operation>, actual: seq<Operation>, pairs: seq<Pair>)
    requires Within(ByComponent, expected, actual, pairs)
    ensures Kept(ByComponent, expected, actual, pairs) == pairs
  {
    hide Agree;
    if pairs != [] {
      AllKept(expected, actual, pairs[..|pairs| - 1]);
      SplitLast(pairs);
    }
  }

  /** The two ways of splicing two matchings have, together, the pairs and the hits of both. */
  lemma {:induction false} SplicedTotals(expected: seq<Operation>, actual: seq<Operation>, these: seq<Pair>, those: seq<Pair>, chosen: set<string>,
                                         hit: (Operation, Operation) -> bool)
    requires Within(ByComponent, expected, actual, these) && Within(ByComponent, expected, actual, those)
    requires Below(Lefts(these), |expected|) && Below(Lefts(those), |expected|)
    ensures var a, b := Spliced(expected, these, those, chosen), Spliced(expected, those, these, chosen);
      && Within(ByComponent, expected, actual, a) && Within(ByComponent, expected, actual, b)
      && InRange(expected, actual, a) && InRange(expected, actual, b) && InRange(expected, actual, these) && InRange(expected, actual, those)
      && |a| + |b| == |these| + |those|
      && Hits(expected, actual, a, hit) + Hits(expected, actual, b, hit)
           == Hits(expected, actual, these, hit) + Hits(expected, actual, those, hit)
  {
    hide *;
    WithinInRange(expected, actual, these);
    WithinInRange(expected, actual, those);
    SplicedCounts(expected, actual, these, those, chosen, hit);
    SplicedCounts(expected, actual, those, these, chosen, hit);
    PartCounts(expected, actual, these, chosen, hit);
    PartCounts(expected, actual, those, chosen, hit);
  }

  lemma WithinInRange(expected: seq<Operation>, actual: seq<Operation>, pairs: seq<Pair>)
    requires Within(ByComponent, expected, actual, pairs)
    ensures InRange(expected, actual, pairs)
  {
  }

  /** Splicing two equally good matchings gives one with as many pairs and usage matches, and no more key-size matches. */
  lemma {:induction false} SplicedIsAsGood(expected: seq<Operation>, actual: seq<Operation>, these: seq<Pair>, those: seq<Pair>, chosen: set<string>)
    requires AsGood(expected, actual, these) && AsGood(expected, actual, those)
    requires Below(Lefts(these), |expected|) && Below(Lefts(those), |expected|)
    ensures var s := Spliced(expected, these, those, chosen);
      && InRange(expected, actual, s)
      && Hits(expected, actual, s, SameKeySize) <= Evaluate(expected, actual).scores.keySizeCorrect
  {
    var a, b := Spliced(expected, these, those, chosen), Spliced(expected, those, these, chosen);
    hide *;
    AsGoodTotals(expected, actual, these, those);
    SplicedTotals(expected, actual, these, those, chosen, SameUsage);
    NoneBetter(expected, actual, a);
    NoneBetter(expected, actual, b);
  }

  lemma {:induction false} AsGoodTotals(expected: seq<Operation>, actual: seq<Operation>, these: seq<Pair>, those: seq<Pair>)
    requires AsGood(expected, actual, these) && AsGood(expected, actual, those)
    ensures InRange(expected, actual, these) && InRange(expected, actual, those)
    ensures Within(ByComponent, expected, actual, these) && Within(ByComponent, expected, actual, those)
    ensures |these| + |those| == 2 * |Evaluate(expected, actual).matched|
    ensures Hits(expected, actual, these, SameUsage) + Hits(expected, actual, those, SameUsage)
         == 2 * Evaluate(expected, actual).scores.usageCorrect
  {
  }

  /** Two equally good matchings have as many key-size matches as each other in any choice of components. */
  lemma {:induction false} PartsAgree(expected: seq<Operation>, actual: seq<Operation>, these: seq<Pair>, those: seq<Pair>, chosen: set<string>)
    requires AsGood(expected, actual, these) && AsGood(expected, actual, those)
    requires Below(Lefts(these), |expected|) && Below(Lefts(those), |expected|)
    ensures InRange(expected, actual, Part(expected, these, chosen, true)) && InRange(expected, actual, Part(expected, those, chosen, true))
    ensures Hits(expected, actual, Part(expected, these, chosen, true), SameKeySize)
         == Hits(expected, actual, Part(expected, those, chosen, true), SameKeySize)
  {
    SplicedIsAsGood(expected, actual, these, those, chosen);
    SplicedIsAsGood(expected, actual, those, these, chosen);
    SplicedTotals(expected, actual, these, those, chosen, SameKeySize);
    hide Spliced, Part, Hits, Evaluate;
    SplicedCounts(expected, actual, these, those, chosen, SameKeySize);
    PartCounts(expected, actual, those, chosen, SameKeySize);
  }

  lemma {:induction false} SplicedCounts(expected: seq<Operation>, actual: seq<Operation>, these: seq<Pair>, those: seq<Pair>, chosen: set<string>,
                      hit: (Operation, Operation) -> bool)
    requires Within(ByComponent, expected, actual, these) && Within(ByComponent, expected, actual, those)
    requires Below(Lefts(these), |expected|) && Below(Lefts(those), |expected|)
    ensures var s := Spliced(expected, these, those, chosen);
      var inner, outer := Part(expected, these, chosen, true), Part(expected, those, chosen, false);
      && Within(ByComponent, expected, actual, s) && InRange(expected, actual, s) && |s| == |inner| + |outer|
      && InRange(expected, actual, inner) && InRange(expected, actual, outer)
      && Hits(expected, actual, s, hit) == Hits(expected, actual, inner, hit) + Hits(expected, actual, outer, hit)
  {
    SplicedWithin(expected, actual, these, those, chosen);
    PartWithin(expected, actual, these, chosen, true);
    PartWithin(expected, actual, those, chosen, false);
    HitsConcat(expected, actual, Part(expected, these, chosen, true), Part(expected, those, chosen, false), hit);
  }

  // ----- a condition on the lists -----

  predicate HasUnknown(ops: seq<Operation>, component: string) {
    exists x :: x in ops && x.component == component && x.keySize.None?
  }

  ghost predicate SharesKnown(expected: seq<Operation>, actual: seq<Operation>, component: string) {
    exists x, y :: x in expected && y in actual && x.component == component && Agree(ByKeySize, x, y) && x.keySize.Some?
  }

  /** No component has unknown key sizes on both sides and a known one in common. */
  ghost predicate KeySizesApart(expected: seq<Operation>, actual: seq<Operation>) {
    forall c :: !(HasUnknown(expected, c) && HasUnknown(actual, c) && SharesKnown(expected, actual, c))
  }

  /** The components with a known key size in common. */
  ghost function Sharing(expected: seq<Operation>, actual: seq<Operation>): (r: set<string>)
    ensures forall c :: c in r <==> SharesKnown(expected, actual, c)
  {
    var all := set x | x in expected :: x.component;
    set c | c in all && SharesKnown(expected, actual, c)
  }

  /** Apart, the known key-size matches are the key-size matches in the components that share a known key size. */
  lemma {:induction false} KnownIsPart(expected: seq<Operation>, actual: seq<Operation>, pairs: seq<Pair>)
    requires KeySizesApart(expected, actual)
    requires Within(ByComponent, expected, actual, pairs) && Below(Lefts(pairs), |expected|)
    ensures InRange(expected, actual, Part(expected, pairs, Sharing(expected, actual), true))
    ensures Hits(expected, actual, pairs, SameKnownKeySize)
         == Hits(expected, actual, Part(expected, pairs, Sharing(expected, actual), true), SameKeySize)
  {
    var sharing := Sharing(expected, actual);
    PartWithin(expected, actual, pairs, sharing, true);
    if pairs != [] {
      var before, x := pairs[..|pairs| - 1], pairs[|pairs| - 1];
      WithinBelow(expected, actual, before);
      KnownIsPart(expected, actual, before);
      KnownHere(expected, actual, expected[x.0], actual[x.1]);
      if expected[x.0].component in sharing { HitsAppend(expected, actual, Part(expected, before, sharing, true), x, SameKeySize); }
    }
  }

  lemma KnownHere(expected: seq<Operation>, actual: seq<Operation>, x: Operation, y: Operation)
    requires KeySizesApart(expected, actual) && x in expected && y in actual && x.component == y.component
    ensures SameKnownKeySize(x, y) <==> x.component in Sharing(expected, actual) && SameKeySize(x, y)
  {
    if SameKnownKeySize(x, y) {
      assert SharesKnown(expected, actual, x.component);
    } else if SameKeySize(x, y) {
      assert HasUnknown(expected, x.component) && HasUnknown(actual, x.component);
    }
  }

  lemma MatchedIsAsGood(expected: seq<Operation>, actual: seq<Operation>)
    ensures AsGood(expected, actual, Evaluate(expected, actual).matched)
  {
    AgreeingIsWithin(ByComponent, expected, actual);
  }

  /** Apart, every equally good matching has as many known key-size matches as the evaluator reports. */
  lemma {:induction false} KnownCorrectMeans(expected: seq<Operation>, actual: seq<Operation>, pairs: seq<Pair>)
    requires KeySizesApart(expected, actual) && AsGood(expected, actual, pairs)
    ensures Hits(expected, actual, pairs, SameKnownKeySize) == Evaluate(expected, actual).scores.knownCorrect
  {
    var matched := Evaluate(expected, actual).matched;
    MatchedIsAsGood(expected, actual);
    WithinBelow(expected, actual, pairs);
    WithinBelow(expected, actual, matched);
    KnownIsPart(expected, actual, pairs);
    KnownIsPart(expected, actual, matched);
    PartsAgree(expected, actual, pairs, matched, Sharing(expected, actual));
  }

  lemma {:induction false} MovedHits(expected: seq<Operation>, actual: seq<Operation>, expected': seq<Operation>, actual': seq<Operation>,
                                     f: seq<nat>, g: seq<nat>, pairs: seq<Pair>, hit: (Operation, Operation) -> bool)
    requires Rearranges(f, expected, expected') && Rearranges(g, actual, actual')
    requires InRange(expected, actual, pairs)
    ensures InRange(expected', actual', Moved(pairs, f, g))
    ensures Hits(expected', actual', Moved(pairs, f, g), hit) == Hits(expected, actual, pairs, hit)
  {
    if pairs != [] {
      var before := pairs[..|pairs| - 1];
      MovedHits(expected, actual, expected', actual', f, g, before, hit);
      assert Moved(pairs, f, g)[..|pairs| - 1] == Moved(before, f, g);
    }
  }

  lemma SameApart(expected: seq<Operation>, actual: seq<Operation>, expected': seq<Operation>, actual': seq<Operation>)
    requires multiset(expected) == multiset(expected') && multiset(actual) == multiset(actual')
    requires KeySizesApart(expected, actual)
    ensures KeySizesApart(expected', actual')
  {
    assert forall x :: x in expected <==> x in multiset(expected);
    assert forall x :: x in expected' <==> x in multiset(expected');
    assert forall x :: x in actual <==> x in multiset(actual);
    assert forall x :: x in actual' <==> x in multiset(actual');
    forall c | HasUnknown(expected', c) && HasUnknown(actual', c) && SharesKnown(expected', actual', c) ensures false {
      assert HasUnknown(expected, c) && HasUnknown(actual, c) && SharesKnown(expected, actual, c);
    }
  }

  /** Apart, known_key_size_correct does not depend on the order of either list. */
  lemma KnownCorrectKept(expected: seq<Operation>, actual: seq<Operation>, expected': seq<Operation>, actual': seq<Operation>)
    requires multiset(expected) == multiset(expected') && multiset(actual) == multiset(actual')
    requires KeySizesApart(expected, actual)
    ensures Evaluate(expected, actual).scores.knownCorrect == Evaluate(expected', actual').scores.knownCorrect
  {
    var f := Rearranged(expected, expected');
    var g := Rearranged(actual, actual');
    var pairs := Evaluate(expected, actual).matched;
    MatchedIsAsGood(expected, actual);
    OrderDoesNotMatter(expected, actual, expected', actual');
    MovedIsWithin(expected, actual, expected', actual', f, g, pairs);
    MovedHits(expected, actual, expected', actual', f, g, pairs, SameUsage);
    MovedHits(expected, actual, expected', actual', f, g, pairs, SameKeySize);
    MovedHits(expected, actual, expected', actual', f, g, pairs, SameKnownKeySize);
    SameApart(expected, actual, expected', actual');
    hide KeySizesApart;
    KnownCorrectMeans(expected', actual', Moved(pairs, f, g));
  }
}
