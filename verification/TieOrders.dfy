/**
  The order of the lists: when all metadata scores are independent of it, and inputs on which two of
  them are not, for any operation lists made from it whose optimal pairings tie.
 */
module TieOrders {
  import opened Options
  import opened Pairings
  import opened Hungarian
  import opened TwoRows
  import opened Matching
  import opened Operations
  import opened OperationCounts
  import opened Evaluation
  import opened MetadataTies
  import opened KnownKeys

  /** For lists that are not entangled and keep known and unknown key sizes apart, every score is independent of order. */
  lemma ScoresKept(expected: seq<Operation>, actual: seq<Operation>, expected': seq<Operation>, actual': seq<Operation>)
    requires multiset(expected) == multiset(expected') && multiset(actual) == multiset(actual')
    requires !Entangled(expected, actual) && KeySizesApart(expected, actual)
    ensures Evaluate(expected, actual).scores == Evaluate(expected', actual').scores
  {
    hide *;
    OrderDoesNotMatter(expected, actual, expected', actual');
    PairCorrectKept(expected, actual, expected', actual');
    KnownCorrectKept(expected, actual, expected', actual');
  }

  lemma CostsOfTwo(e: seq<Operation>, a: seq<Operation>)
    requires |e| == 2 && |a| == 3
    ensures Costs(e, a, MatchScore) ==
      [[-MatchScore(e[0], a[0]), -MatchScore(e[0], a[1]), -MatchScore(e[0], a[2])],
       [-MatchScore(e[1], a[0]), -MatchScore(e[1], a[1]), -MatchScore(e[1], a[2])]]
  {
    hide MatchScore;
    var costs := Costs(e, a, MatchScore);
    assert costs[0] == [-MatchScore(e[0], a[0]), -MatchScore(e[0], a[1]), -MatchScore(e[0], a[2])];
    assert costs[1] == [-MatchScore(e[1], a[0]), -MatchScore(e[1], a[1]), -MatchScore(e[1], a[2])];
  }

  /** What the evaluator accepts when the pairing of two rows stays within components. */
  lemma AcceptedOfTwo(e: seq<Operation>, a: seq<Operation>, pairs: seq<Pair>)
    requires |e| == 2 && |a| == 3
    requires Assign(Costs(e, a, MatchScore), 2, 3) == pairs && |pairs| == 2
    requires InRange(e, a, pairs) && Agree(ByComponent, e[pairs[0].0], a[pairs[0].1]) && Agree(ByComponent, e[pairs[1].0], a[pairs[1].1])
    ensures Evaluate(e, a).matched == pairs
  {
    hide Assign;
    assert Chosen(e, a) == pairs;
    assert pairs[..1][..0] == [] && pairs[..1][0] == pairs[0] && pairs == pairs[..1] + [pairs[1]];
    assert Kept(ByComponent, e, a, pairs[..1]) == pairs[..1];
  }

  lemma {:induction false} HitsOfTwo(e: seq<Operation>, a: seq<Operation>, pairs: seq<Pair>, hit: (Operation, Operation) -> bool)
    requires InRange(e, a, pairs) && |pairs| == 2
    ensures Hits(e, a, pairs, hit)
         == (if hit(e[pairs[0].0], a[pairs[0].1]) then 1 else 0) + (if hit(e[pairs[1].0], a[pairs[1].1]) then 1 else 0)
  {
    assert pairs[..1][..0] == [];
    assert Hits(e, a, pairs[..1], hit) == if hit(e[pairs[0].0], a[pairs[0].1]) then 1 else 0;
  }

  predicate Near(e: seq<Operation>, a: seq<Operation>, costs: Matrix) {
    |e| == 2 && |a| == 3 && Costs(e, a, MatchScore) == costs
    && e[0].component == e[1].component == a[0].component == a[1].component
  }

  function Count(b: bool): nat { if b then 1 else 0 }

  /** The first row keeps column 1. */
  lemma PairedStraight(e: seq<Operation>, a: seq<Operation>, costs: Matrix)
    requires Near(e, a, costs) && FirstIsCheapest(costs) && costs[1][1] - costs[1][0] <= costs[0][1] - costs[0][0]
    requires costs[1][1] <= costs[1][2] && costs[1][1] - costs[1][0] <= costs[0][2] - costs[0][0]
    ensures Evaluate(e, a).scores.pairCorrect == Count(SameMetadata(e[0], a[0])) + Count(SameMetadata(e[1], a[1]))
    ensures Evaluate(e, a).scores.knownCorrect == Count(SameKnownKeySize(e[0], a[0])) + Count(SameKnownKeySize(e[1], a[1]))
  {
    hide Assign, Costs, Agreeing, Hits, SameMetadata, SameKnownKeySize;
    TwoRowsAssigned(costs);
    AcceptedOfTwo(e, a, [(0, 0), (1, 1)]);
    HitsOfTwo(e, a, [(0, 0), (1, 1)], SameMetadata);
    HitsOfTwo(e, a, [(0, 0), (1, 1)], SameKnownKeySize);
  }

  /** The first row gives column 1 to the second. */
  lemma PairedCrosswise(e: seq<Operation>, a: seq<Operation>, costs: Matrix)
    requires Near(e, a, costs) && FirstIsCheapest(costs) && costs[0][1] - costs[0][0] < costs[1][1] - costs[1][0]
    requires costs[0][1] <= costs[0][2] && costs[0][1] - costs[0][0] <= costs[1][2] - costs[1][0]
    ensures Evaluate(e, a).scores.pairCorrect == Count(SameMetadata(e[1], a[0])) + Count(SameMetadata(e[0], a[1]))
    ensures Evaluate(e, a).scores.knownCorrect == Count(SameKnownKeySize(e[1], a[0])) + Count(SameKnownKeySize(e[0], a[1]))
  {
    hide Assign, Costs, Agreeing, Hits, SameMetadata, SameKnownKeySize;
    TwoRowsAssigned(costs);
    AcceptedOfTwo(e, a, [(1, 0), (0, 1)]);
    HitsOfTwo(e, a, [(1, 0), (0, 1)], SameMetadata);
    HitsOfTwo(e, a, [(1, 0), (0, 1)], SameKnownKeySize);
  }

  /** An operation, and the same with another usage. */
  function TwoUsages(x: Operation, usage: string): seq<Operation> { [x, x.(usage := usage)] }

  /** An operation, the same with another key size, and one of another component. */
  function TwoKeySizes(x: Operation, keySize: Option<int>, other: string): seq<Operation> {
    [x, x.(keySize := keySize), x.(component := other)]
  }

  function Reversed(s: seq<Operation>): seq<Operation>
    requires |s| == 2
  {
    [s[1], s[0]]
  }

  lemma TwoUsagesCosts(x: Operation, usage: string, keySize: Option<int>, other: string)
    requires usage != x.usage && keySize != x.keySize && other != x.component
    ensures var e, a := TwoUsages(x, usage), TwoKeySizes(x, keySize, other);
      Costs(e, a, MatchScore) == [[-101, -100, 2], [0, 1, 2]] && Costs(Reversed(e), a, MatchScore) == [[0, 1, 2], [-101, -100, 2]]
  {
    CostsOfTwo(TwoUsages(x, usage), TwoKeySizes(x, keySize, other));
    CostsOfTwo(Reversed(TwoUsages(x, usage)), TwoKeySizes(x, keySize, other));
  }

  /**
    For every operation x: the lists x and x with another usage, against x, x with another key size
    and a stranger, give metadata_pair_correct 1 in one order of the expected list and 0 in the other.
   */
  lemma MetadataPairDependsOnOrder(x: Operation, usage: string, keySize: Option<int>, other: string)
    requires usage != x.usage && keySize != x.keySize && other != x.component
    ensures var e, a := TwoUsages(x, usage), TwoKeySizes(x, keySize, other);
      && multiset(e) == multiset(Reversed(e))
      && Evaluate(e, a).scores.pairCorrect == 1 && Evaluate(Reversed(e), a).scores.pairCorrect == 0
  {
    assert multiset([x, x.(usage := usage)]) == multiset([x.(usage := usage), x]);
    hide *;
    UsagesInOrder(x, usage, keySize, other);
    UsagesReversed(x, usage, keySize, other);
  }

  lemma UsagesInOrder(x: Operation, usage: string, keySize: Option<int>, other: string)
    requires usage != x.usage && keySize != x.keySize && other != x.component
    ensures Evaluate(TwoUsages(x, usage), TwoKeySizes(x, keySize, other)).scores.pairCorrect == 1
  {
    TwoUsagesCosts(x, usage, keySize, other);
    hide MatchScore, Costs, Evaluate;
    PairedStraight(TwoUsages(x, usage), TwoKeySizes(x, keySize, other), [[-101, -100, 2], [0, 1, 2]]);
  }

  lemma UsagesReversed(x: Operation, usage: string, keySize: Option<int>, other: string)
    requires usage != x.usage && keySize != x.keySize && other != x.component
    ensures Evaluate(Reversed(TwoUsages(x, usage)), TwoKeySizes(x, keySize, other)).scores.pairCorrect == 0
  {
    TwoUsagesCosts(x, usage, keySize, other);
    hide MatchScore, Costs, Evaluate;
    PairedStraight(Reversed(TwoUsages(x, usage)), TwoKeySizes(x, keySize, other), [[0, 1, 2], [-101, -100, 2]]);
  }

  function Unknown(x: Operation): Operation { x.(keySize := None) }

  function ThreeFound(x: Operation, usage: string, keySize: int): seq<Operation> {
    [x.(keySize := Some(keySize)), x.(usage := usage), Unknown(x).(usage := usage)]
  }

  function LastTwoReversed(s: seq<Operation>): seq<Operation>
    requires |s| == 3
  {
    [s[0], s[2], s[1]]
  }

  lemma ThreeFoundCosts(x: Operation, usage: string, keySize: int)
    requires usage != x.usage && x.keySize.Some? && Some(keySize) != x.keySize
    ensures var e, a := [x, Unknown(x)], ThreeFound(x, usage, keySize);
      && Costs(e, a, MatchScore) == [[-100, 0, 1], [-100, 1, 0]]
      && Costs(e, LastTwoReversed(a), MatchScore) == [[-100, 1, 0], [-100, 0, 1]]
  {
    CostsOfTwo([x, Unknown(x)], ThreeFound(x, usage, keySize));
    CostsOfTwo([x, Unknown(x)], LastTwoReversed(ThreeFound(x, usage, keySize)));
  }

  /**
    For every operation x of known key size: x and x of unknown key size, against x with another key
    size and both with another usage, give known_key_size_correct 1 in one order of the found list
    and 0 in the other.
   */
  lemma KnownKeySizeDependsOnOrder(x: Operation, usage: string, keySize: int)
    requires usage != x.usage && x.keySize.Some? && Some(keySize) != x.keySize
    ensures var e, a := [x, Unknown(x)], ThreeFound(x, usage, keySize);
      && multiset(a) == multiset(LastTwoReversed(a))
      && Evaluate(e, a).scores.knownCorrect == 1 && Evaluate(e, LastTwoReversed(a)).scores.knownCorrect == 0
  {
    var y: Operation, z: Operation, w: Operation := x.(keySize := Some(keySize)), x.(usage := usage), Unknown(x).(usage := usage);
    assert multiset([y, z, w]) == multiset([y, w, z]);
    hide *;
    FoundInOrder(x, usage, keySize);
    FoundReversed(x, usage, keySize);
  }

  lemma FoundInOrder(x: Operation, usage: string, keySize: int)
    requires usage != x.usage && x.keySize.Some? && Some(keySize) != x.keySize
    ensures Evaluate([x, Unknown(x)], ThreeFound(x, usage, keySize)).scores.knownCorrect == 1
  {
    ThreeFoundCosts(x, usage, keySize);
    hide MatchScore, Costs, Evaluate;
    PairedCrosswise([x, Unknown(x)], ThreeFound(x, usage, keySize), [[-100, 0, 1], [-100, 1, 0]]);
  }

  lemma FoundReversed(x: Operation, usage: string, keySize: int)
    requires usage != x.usage && x.keySize.Some? && Some(keySize) != x.keySize
    ensures Evaluate([x, Unknown(x)], LastTwoReversed(ThreeFound(x, usage, keySize))).scores.knownCorrect == 0
  {
    ThreeFoundCosts(x, usage, keySize);
    hide MatchScore, Costs, Evaluate;
    PairedStraight([x, Unknown(x)], LastTwoReversed(ThreeFound(x, usage, keySize)), [[-100, 1, 0], [-100, 0, 1]]);
  }
}
