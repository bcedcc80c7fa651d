/**
  metadata_pair_correct, the pairs that agree in usage and key size at once: how many there can be,
  and when ties between optimal pairings can make a difference.
 */
module MetadataTies {
  import opened Pairings
  import opened Rearranging
  import opened Matching
  import opened Operations
  import opened OperationCounts
  import opened Evaluation

  // ----- exchanging partners -----

  /** x2 and y2 share nothing but the component; x has the usage of one of them and the key size of the other. */
  predicate Mixes(x: Operation, x2: Operation, y2: Operation) {
    && x.component == x2.component == y2.component && x2.usage != y2.usage && x2.keySize != y2.keySize
    && ((x.usage == x2.usage && x.keySize == y2.keySize) || (x.usage == y2.usage && x.keySize == x2.keySize))
  }

  /** Pairing the equal operations x and y never scores less than two half matches, and as much only in one case. */
  lemma TieScores(x: Operation, y: Operation, x2: Operation, y2: Operation)
    requires Agree(ByMetadata, x, y) && !Agree(ByMetadata, x, y2) && !Agree(ByMetadata, x2, y)
    ensures MatchScore(x, y) + MatchScore(x2, y2) >= MatchScore(x, y2) + MatchScore(x2, y)
    ensures MatchScore(x, y) + MatchScore(x2, y2) == MatchScore(x, y2) + MatchScore(x2, y) <==> Mixes(x, x2, y2)
    ensures Mixes(x, x2, y2) ==> !Agree(ByMetadata, x2, y2)
  {
  }

  function Agrees(kind: Kind, expected: seq<Operation>, actual: seq<Operation>, x: Pair): nat
    requires x.0 < |expected| && x.1 < |actual|
  {
    if Agree(kind, expected[x.0], actual[x.1]) then 1 else 0
  }

  function KeptCount(kind: Kind, expected: seq<Operation>, actual: seq<Operation>, pairs: seq<Pair>): nat
    requires InRange(expected, actual, pairs)
  {
    |Kept(kind, expected, actual, pairs)|
  }

  lemma {:induction false} KeptUpdate(kind: Kind, expected: seq<Operation>, actual: seq<Operation>, pairs: seq<Pair>, i: nat, x: Pair)
    requires InRange(expected, actual, pairs) && i < |pairs| && x.0 < |expected| && x.1 < |actual|
    ensures InRange(expected, actual, pairs[i := x])
    ensures KeptCount(kind, expected, actual, pairs[i := x])
         == KeptCount(kind, expected, actual, pairs) - Agrees(kind, expected, actual, pairs[i]) + Agrees(kind, expected, actual, x)
  {
    var last := |pairs| - 1;
    if i == last {
      assert pairs[i := x][..last] == pairs[..last];
    } else {
      KeptUpdate(kind, expected, actual, pairs[..last], i, x);
      assert pairs[i := x][..last] == pairs[..last][i := x];
    }
  }

  lemma ExchangeCount(kind: Kind, expected: seq<Operation>, actual: seq<Operation>, pairs: seq<Pair>, i: nat, j: nat)
    requires InRange(expected, actual, pairs) && i < |pairs| && j < |pairs| && i != j
    ensures InRange(expected, actual, Exchange(pairs, i, j))
    ensures KeptCount(kind, expected, actual, Exchange(pairs, i, j)) == KeptCount(kind, expected, actual, pairs)
              - Agrees(kind, expected, actual, pairs[i]) - Agrees(kind, expected, actual, pairs[j])
              + Agrees(kind, expected, actual, (pairs[i].0, pairs[j].1)) + Agrees(kind, expected, actual, (pairs[j].0, pairs[i].1))
  {
    hide Kept, KeptCount;
    KeptUpdate(kind, expected, actual, pairs, i, (pairs[i].0, pairs[j].1));
    KeptUpdate(kind, expected, actual, pairs[i := (pairs[i].0, pairs[j].1)], j, (pairs[j].0, pairs[i].1));
  }

  // ----- ties -----

  /** Pair i agrees in usage and key size, which the operations of pair j, otherwise different, have between them. */
  ghost predicate Tied(expected: seq<Operation>, actual: seq<Operation>, pairs: seq<Pair>, i: nat, j: nat)
    requires InRange(expected, actual, pairs)
  {
    && i < |pairs| && j < |pairs| && i != j
    && Agree(ByMetadata, expected[pairs[i].0], actual[pairs[i].1])
    && Mixes(expected[pairs[i].0], expected[pairs[j].0], actual[pairs[j].1])
  }

  /** Exchanging the partners of tied pairs leaves an optimal pairing optimal, with one full match less. */
  lemma Untie(expected: seq<Operation>, actual: seq<Operation>, pairs: seq<Pair>, i: nat, j: nat)
    requires Optimal(expected, actual, pairs) && Tied(expected, actual, pairs, i, j)
    ensures Optimal(expected, actual, Exchange(pairs, i, j))
    ensures KeptCount(ByMetadata, expected, actual, Exchange(pairs, i, j)) == KeptCount(ByMetadata, expected, actual, pairs) - 1
  {
    hide KeptCount, Weight, MatchScore;
    var x, y, x2, y2 := expected[pairs[i].0], actual[pairs[i].1], expected[pairs[j].0], actual[pairs[j].1];
    TieScores(x, y, x2, y2);
    ExchangeTotal(expected, actual, pairs, i, j);
    ExchangeCount(ByMetadata, expected, actual, pairs, i, j);
  }

  /** Where an optimal pairing leaves two equal operations open, their partners can be exchanged for one full match more. */
  lemma OpenTwiceIsTied(expected: seq<Operation>, actual: seq<Operation>, pairs: seq<Pair>, e: nat, a: nat)
    returns (i: nat, j: nat)
    requires Optimal(expected, actual, pairs)
    requires LeftOpen(ByMetadata, expected, actual, pairs, e) && RightOpen(ByMetadata, expected, actual, pairs, a)
    requires Agree(ByMetadata, expected[e], actual[a])
    ensures i < |pairs| && j < |pairs| && i != j
    ensures Optimal(expected, actual, Exchange(pairs, i, j)) && Tied(expected, actual, Exchange(pairs, i, j), i, j)
    ensures KeptCount(ByMetadata, expected, actual, Exchange(pairs, i, j)) == KeptCount(ByMetadata, expected, actual, pairs) + 1
  {
    BothPaired(expected, actual, pairs, e, a);
    i :| 0 <= i < |pairs| && Lefts(pairs)[i] == e;
    j :| 0 <= j < |pairs| && Rights(pairs)[j] == a;
    hide KeptCount, Weight, MatchScore;
    TieScores(expected[e], actual[a], expected[pairs[j].0], actual[pairs[i].1]);
    ExchangeTotal(expected, actual, pairs, i, j);
    ExchangeCount(ByMetadata, expected, actual, pairs, i, j);
  }

  lemma BothPaired(expected: seq<Operation>, actual: seq<Operation>, pairs: seq<Pair>, e: nat, a: nat)
    requires Optimal(expected, actual, pairs)
    requires LeftOpen(ByMetadata, expected, actual, pairs, e) && RightOpen(ByMetadata, expected, actual, pairs, a)
    requires Agree(ByMetadata, expected[e], actual[a])
    ensures e in Lefts(pairs) && a in Rights(pairs)
  {
    hide Weight, MatchScore;
    OneSidePaired(pairs, |expected|, |actual|, e, a);
    if e !in Lefts(pairs) {
      var j :| 0 <= j < |pairs| && Rights(pairs)[j] == a;
      RePair(ByMetadata, expected, actual, pairs, j, (e, a));
    } else if a !in Rights(pairs) {
      var i :| 0 <= i < |pairs| && Lefts(pairs)[i] == e;
      RePair(ByMetadata, expected, actual, pairs, i, (e, a));
    }
  }

  /** A pairing with fewer agreeing pairs than common labels leaves some label open on both sides. */
  lemma SomeOpenTwice(kind: Kind, expected: seq<Operation>, actual: seq<Operation>, pairs: seq<Pair>) returns (e: nat, a: nat)
    requires IsPairing(pairs, |expected|, |actual|)
    requires KeptCount(kind, expected, actual, pairs) != |Common(kind, expected, actual)|
    ensures LeftOpen(kind, expected, actual, pairs, e) && RightOpen(kind, expected, actual, pairs, a)
    ensures Agree(kind, expected[e], actual[a])
  {
    var kept := Kept(kind, expected, actual, pairs);
    KeptSides(kind, expected, actual, pairs);
    var lefts, common := multiset(At(Labels(kind, expected), Lefts(kept))), Common(kind, expected, actual);
    assert lefts != common;
    var c: Label :| lefts[c] != common[c];
    AtCount(Labels(kind, expected), Lefts(kept), c);
    AtCount(Labels(kind, actual), Rights(kept), c);
    e :| e < |expected| && Labels(kind, expected)[e] == c && e !in Lefts(kept);
    a :| a < |actual| && Labels(kind, actual)[a] == c && a !in Rights(kept);
    UnkeptIsOpen(kind, expected, actual, pairs, e, a);
  }

  /** From any optimal pairing, exchanges lead to one in which all common (component, usage, key size) triples are paired. */
  lemma {:induction false} AllTriplesPaired(expected: seq<Operation>, actual: seq<Operation>, pairs: seq<Pair>) returns (best: seq<Pair>)
    requires Optimal(expected, actual, pairs)
    ensures Optimal(expected, actual, best)
    ensures KeptCount(ByMetadata, expected, actual, best) == |Common(ByMetadata, expected, actual)|
    decreases |Common(ByMetadata, expected, actual)| - KeptCount(ByMetadata, expected, actual, pairs)
  {
    KeptIsCommon(ByMetadata, expected, actual, pairs);
    best := pairs;
    if KeptCount(ByMetadata, expected, actual, pairs) != |Common(ByMetadata, expected, actual)| {
      var e, a := SomeOpenTwice(ByMetadata, expected, actual, pairs);
      var i, j := OpenTwiceIsTied(expected, actual, pairs, e, a);
      hide Optimal, KeptCount, Common;
      best := AllTriplesPaired(expected, actual, Exchange(pairs, i, j));
    }
  }

  /** Every optimal pairing pairs all common triples. */
  ghost predicate Settled(expected: seq<Operation>, actual: seq<Operation>) {
    forall pairs :: Optimal(expected, actual, pairs) ==>
      KeptCount(ByMetadata, expected, actual, pairs) == |Common(ByMetadata, expected, actual)|
  }

  /** Ties make no difference exactly when no optimal pairing has tied pairs. */
  lemma TiesDecide(expected: seq<Operation>, actual: seq<Operation>)
    ensures Settled(expected, actual) <==>
      forall pairs, i, j :: Optimal(expected, actual, pairs) ==> !Tied(expected, actual, pairs, i, j)
  {
    hide KeptCount, Common;
    if pairs, i, j :| Optimal(expected, actual, pairs) && Tied(expected, actual, pairs, i, j) {
      Untie(expected, actual, pairs, i, j);
    }
    if !Settled(expected, actual) {
      var pairs :| Optimal(expected, actual, pairs)
                   && KeptCount(ByMetadata, expected, actual, pairs) != |Common(ByMetadata, expected, actual)|;
      var e, a := SomeOpenTwice(ByMetadata, expected, actual, pairs);
      var i, j := OpenTwiceIsTied(expected, actual, pairs, e, a);
    }
  }

  // ----- a condition on the lists -----

  /** The first list has more operations with the component and usage of x than the second. */
  ghost predicate More(these: seq<Operation>, those: seq<Operation>, x: Operation) {
    multiset(Labels(ByUsage, these))[LabelOf(ByUsage, x)] > multiset(Labels(ByUsage, those))[LabelOf(ByUsage, x)]
  }

  /**
    Both lists have an operation x whose usage and key size are those of two other operations, x2
    expected and y2 found, between them; and both of these have usages that their own list has more
    often.
   */
  ghost predicate Entangled(expected: seq<Operation>, actual: seq<Operation>) {
    exists x, y, x2, y2 :: x in expected && y in actual && x2 in expected && y2 in actual
      && Agree(ByMetadata, x, y) && Mixes(x, x2, y2) && More(expected, actual, x2) && More(actual, expected, y2)
  }

  /** An operation whose partner has another usage is one of those that its list has too many of. */
  lemma CrossingUsage(expected: seq<Operation>, actual: seq<Operation>, pairs: seq<Pair>, j: nat)
    requires Optimal(expected, actual, pairs) && CrossAt(ByUsage, expected, actual, pairs, j)
    ensures More(expected, actual, expected[pairs[j].0]) && More(actual, expected, actual[pairs[j].1])
  {
    var kept := Kept(ByUsage, expected, actual, pairs);
    var e, a := pairs[j].0, pairs[j].1;
    OptimalCount(ByUsage, expected, actual, pairs);
    KeptSides(ByUsage, expected, actual, pairs);
    CrossingIsUnkept(ByUsage, expected, actual, pairs, j);
    AtCount(Labels(ByUsage, expected), Lefts(kept), LabelOf(ByUsage, expected[e]));
    AtCount(Labels(ByUsage, actual), Rights(kept), LabelOf(ByUsage, actual[a]));
  }

  lemma {:induction false} CrossingIsUnkept(kind: Kind, expected: seq<Operation>, actual: seq<Operation>, pairs: seq<Pair>, j: nat)
    requires IsPairing(pairs, |expected|, |actual|) && CrossAt(kind, expected, actual, pairs, j)
    ensures pairs[j].0 !in Lefts(Kept(kind, expected, actual, pairs))
    ensures pairs[j].1 !in Rights(Kept(kind, expected, actual, pairs))
  {
    var kept := Kept(kind, expected, actual, pairs);
    forall k | 0 <= k < |kept| ensures kept[k].0 != pairs[j].0 && kept[k].1 != pairs[j].1 {
      assert kept[k] in kept;
      var l :| 0 <= l < |pairs| && pairs[l] == kept[k];
    }
  }

  lemma TiedIsEntangled(expected: seq<Operation>, actual: seq<Operation>, pairs: seq<Pair>, i: nat, j: nat)
    requires Optimal(expected, actual, pairs) && Tied(expected, actual, pairs, i, j)
    ensures Entangled(expected, actual)
  {
    hide More;
    CrossingUsage(expected, actual, pairs, j);
    var x, y, x2, y2 := expected[pairs[i].0], actual[pairs[i].1], expected[pairs[j].0], actual[pairs[j].1];
    assert x in expected && y in actual && x2 in expected && y2 in actual;
  }

  lemma UnentangledIsSettled(expected: seq<Operation>, actual: seq<Operation>)
    requires !Entangled(expected, actual)
    ensures Settled(expected, actual)
  {
    hide Tied, Entangled, Settled;
    TiesDecide(expected, actual);
    forall pairs, i, j | Optimal(expected, actual, pairs) ensures !Tied(expected, actual, pairs, i, j) {
      if Tied(expected, actual, pairs, i, j) { TiedIsEntangled(expected, actual, pairs, i, j); }
    }
  }

  /** No key size occurs twice within a component. */
  ghost predicate DistinctKeySizes(ops: seq<Operation>) {
    forall i, j :: 0 <= i < j < |ops| ==> !Agree(ByKeySize, ops[i], ops[j])
  }

  lemma DistinctIsUnentangled(expected: seq<Operation>, actual: seq<Operation>)
    requires DistinctKeySizes(expected) && DistinctKeySizes(actual)
    ensures !Entangled(expected, actual)
  {
    hide More;
  }

  // ----- the evaluator -----

  lemma {:induction false} MetadataHits(expected: seq<Operation>, actual: seq<Operation>, pairs: seq<Pair>)
    requires InRange(expected, actual, pairs)
    ensures Hits(expected, actual, Kept(ByComponent, expected, actual, pairs), SameMetadata)
         == KeptCount(ByMetadata, expected, actual, pairs)
  {
    if pairs != [] {
      var before, x := pairs[..|pairs| - 1], pairs[|pairs| - 1];
      MetadataHits(expected, actual, before);
      HitsAppend(expected, actual, Kept(ByComponent, expected, actual, before), x, SameMetadata);
    }
  }

  /**
    metadata_pair_correct is at most the number of common (component, usage, key size) triples, and
    exactly that number unless the lists are entangled.
   */
  lemma PairCorrectMeans(expected: seq<Operation>, actual: seq<Operation>)
    ensures Evaluate(expected, actual).scores.pairCorrect <= |Common(ByMetadata, expected, actual)|
    ensures !Entangled(expected, actual) ==>
      Evaluate(expected, actual).scores.pairCorrect == |Common(ByMetadata, expected, actual)|
  {
    var pairs := Chosen(expected, actual);
    MetadataHits(expected, actual, pairs);
    ChosenIsOptimal(expected, actual);
    KeptIsCommon(ByMetadata, expected, actual, pairs);
    if !Entangled(expected, actual) { UnentangledIsSettled(expected, actual); }
  }

  lemma SameEntangled(expected: seq<Operation>, actual: seq<Operation>, expected': seq<Operation>, actual': seq<Operation>)
    requires multiset(expected) == multiset(expected') && multiset(actual) == multiset(actual')
    requires Entangled(expected, actual)
    ensures Entangled(expected', actual')
  {
    SameLabels(ByUsage, expected, expected');
    SameLabels(ByUsage, actual, actual');
    var x, y, x2, y2 :| x in expected && y in actual && x2 in expected && y2 in actual
      && Agree(ByMetadata, x, y) && Mixes(x, x2, y2) && More(expected, actual, x2) && More(actual, expected, y2);
    assert x in multiset(expected') && y in multiset(actual') && x2 in multiset(expected') && y2 in multiset(actual');
    assert More(expected', actual', x2) && More(actual', expected', y2);
  }

  /** Without entanglement metadata_pair_correct does not depend on the order of either list. */
  lemma PairCorrectKept(expected: seq<Operation>, actual: seq<Operation>, expected': seq<Operation>, actual': seq<Operation>)
    requires multiset(expected) == multiset(expected') && multiset(actual) == multiset(actual')
    requires !Entangled(expected, actual)
    ensures Evaluate(expected, actual).scores.pairCorrect == Evaluate(expected', actual').scores.pairCorrect
  {
    if Entangled(expected', actual') { SameEntangled(expected', actual', expected, actual); }
    PairCorrectMeans(expected, actual);
    PairCorrectMeans(expected', actual');
    SameLabels(ByMetadata, expected, expected');
    SameLabels(ByMetadata, actual, actual');
  }
}
