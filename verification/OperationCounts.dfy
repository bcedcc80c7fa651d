/**
  True positives of the operation-level evaluation, and the optimality of the metadata it reports.
 */
module OperationCounts {
  import opened Pairings
  import opened Rearranging
  import opened Matching
  import opened Operations

  function Labels(kind: Kind, ops: seq<Operation>): (r: seq<Label>)
    ensures |r| == |ops| && forall i :: 0 <= i < |ops| ==> r[i] == LabelOf(kind, ops[i])
  {
    seq(|ops|, i requires 0 <= i < |ops| => LabelOf(kind, ops[i]))
  }

  function Positions(s: seq<Label>, c: Label): set<nat> {
    set i: nat | i < |s| && s[i] == c
  }

  lemma {:induction false} PositionCount(s: seq<Label>, c: Label)
    ensures |Positions(s, c)| == multiset(s)[c]
  {
    if s != [] {
      var last := |s| - 1;
      PositionCount(s[..last], c);
      assert s == s[..last] + [s[last]];
      assert Positions(s, c) == Positions(s[..last], c) + if s[last] == c then {last} else {};
    } else {
      assert Positions(s, c) == {};
    }
  }

  lemma {:induction false} ImageCount(positions: seq<nat>, chosen: set<nat>)
    requires Distinct(positions) && forall k :: k in chosen ==> k < |positions|
    ensures |set k | k in chosen :: positions[k]| == |chosen|
    decreases chosen
  {
    if chosen != {} {
      var k :| k in chosen;
      ImageCount(positions, chosen - {k});
      assert (set i | i in chosen :: positions[i]) == (set i | i in chosen - {k} :: positions[i]) + {positions[k]};
    }
  }

  /** Distinct positions pick up no entry more often than it occurs, and all of it when they cover it. */
  lemma AtCount(s: seq<Label>, positions: seq<nat>, c: Label)
    requires Distinct(positions) && Below(positions, |s|)
    ensures multiset(At(s, positions))[c] <= multiset(s)[c]
    ensures multiset(At(s, positions))[c] == multiset(s)[c] <==> forall i: nat :: i < |s| && s[i] == c ==> i in positions
  {
    var picked := At(s, positions);
    PositionCount(s, c);
    PositionCount(picked, c);
    ImageCount(positions, Positions(picked, c));
    var image := set k | k in Positions(picked, c) :: positions[k];
    SubsetCount(image, Positions(s, c));
    if forall i: nat :: i < |s| && s[i] == c ==> i in positions {
      forall i | i in Positions(s, c) ensures i in image {
        var k :| 0 <= k < |positions| && positions[k] == i;
        assert k in Positions(picked, c);
      }
      assert image == Positions(s, c);
    } else {
      var i: nat :| i < |s| && s[i] == c && i !in positions;
      SubsetCount(image + {i}, Positions(s, c));
    }
  }

  // ----- the pairs kept -----

  lemma {:induction false} KeptIsWithin(kind: Kind, expected: seq<Operation>, actual: seq<Operation>, pairs: seq<Pair>)
    requires IsPairing(pairs, |expected|, |actual|)
    ensures Within(kind, expected, actual, Kept(kind, expected, actual, pairs))
  {
    if pairs != [] {
      var before := pairs[..|pairs| - 1];
      KeptIsWithin(kind, expected, actual, before);
      forall k | 0 <= k < |Kept(kind, expected, actual, before)|
        ensures Kept(kind, expected, actual, before)[k] in before
      {
        assert Kept(kind, expected, actual, before)[k] in Kept(kind, expected, actual, before);
      }
    }
  }

  lemma {:induction false} KeptContains(kind: Kind, expected: seq<Operation>, actual: seq<Operation>, pairs: seq<Pair>, i: nat)
    requires InRange(expected, actual, pairs) && i < |pairs|
    requires Agree(kind, expected[pairs[i].0], actual[pairs[i].1])
    ensures pairs[i] in Kept(kind, expected, actual, pairs)
  {
    if i < |pairs| - 1 { KeptContains(kind, expected, actual, pairs[..|pairs| - 1], i); }
  }

  lemma {:induction false} UnkeptIsOpen(kind: Kind, expected: seq<Operation>, actual: seq<Operation>, pairs: seq<Pair>, e: nat, a: nat)
    requires IsPairing(pairs, |expected|, |actual|) && e < |expected| && a < |actual|
    ensures e !in Lefts(Kept(kind, expected, actual, pairs)) ==> LeftOpen(kind, expected, actual, pairs, e)
    ensures a !in Rights(Kept(kind, expected, actual, pairs)) ==> RightOpen(kind, expected, actual, pairs, a)
  {
    var kept := Kept(kind, expected, actual, pairs);
    forall k: nat | k < |pairs| && !CrossAt(kind, expected, actual, pairs, k)
      ensures pairs[k].0 in Lefts(kept) && pairs[k].1 in Rights(kept)
    {
      KeptContains(kind, expected, actual, pairs, k);
      InSides(kept, pairs[k]);
    }
  }

  lemma {:induction false} KeptSides(kind: Kind, expected: seq<Operation>, actual: seq<Operation>, pairs: seq<Pair>)
    requires IsPairing(pairs, |expected|, |actual|)
    ensures Within(kind, expected, actual, Kept(kind, expected, actual, pairs))
    ensures var kept := Kept(kind, expected, actual, pairs);
      && Distinct(Lefts(kept)) && Below(Lefts(kept), |expected|)
      && Distinct(Rights(kept)) && Below(Rights(kept), |actual|)
      && At(Labels(kind, expected), Lefts(kept)) == At(Labels(kind, actual), Rights(kept))
  {
    KeptIsWithin(kind, expected, actual, pairs);
  }

  /** Some side of each label is used up by the pairs that agree. */
  lemma {:induction false} OneSideUsedUp(kind: Kind, expected: seq<Operation>, actual: seq<Operation>, pairs: seq<Pair>, c: Label)
    requires Respected(kind) && Optimal(expected, actual, pairs)
    ensures (forall e: nat :: e < |expected| && LabelOf(kind, expected[e]) == c ==> e in Lefts(Kept(kind, expected, actual, pairs)))
         || (forall a: nat :: a < |actual| && LabelOf(kind, actual[a]) == c ==> a in Rights(Kept(kind, expected, actual, pairs)))
  {
    var kept := Kept(kind, expected, actual, pairs);
    if e: nat :| e < |expected| && LabelOf(kind, expected[e]) == c && e !in Lefts(kept) {
      forall a: nat | a < |actual| && LabelOf(kind, actual[a]) == c ensures a in Rights(kept) {
        UnkeptIsOpen(kind, expected, actual, pairs, e, a);
        NoLabelOpenTwice(kind, expected, actual, pairs, e, a);
      }
    }
  }

  ghost function Common(kind: Kind, expected: seq<Operation>, actual: seq<Operation>): multiset<Label> {
    multiset(Labels(kind, expected)) * multiset(Labels(kind, actual))
  }

  /** Whatever the pairing, the pairs that agree are no more than the common labels. */
  lemma {:induction false} KeptIsCommon(kind: Kind, expected: seq<Operation>, actual: seq<Operation>, pairs: seq<Pair>)
    requires IsPairing(pairs, |expected|, |actual|)
    ensures Below(Lefts(Kept(kind, expected, actual, pairs)), |expected|)
    ensures multiset(At(Labels(kind, expected), Lefts(Kept(kind, expected, actual, pairs)))) <= Common(kind, expected, actual)
    ensures |Kept(kind, expected, actual, pairs)| <= |Common(kind, expected, actual)|
  {
    KeptSides(kind, expected, actual, pairs);
    WithinIsCommon(kind, expected, actual, Kept(kind, expected, actual, pairs));
  }

  /**
    In an optimal pairing the pairs that agree are, label by label, as many as the smaller of the two
    sides.  (In a multiset intersection each multiplicity is the minimum of the two.)
   */
  lemma {:induction false} OptimalCount(kind: Kind, expected: seq<Operation>, actual: seq<Operation>, pairs: seq<Pair>)
    requires Respected(kind) && Optimal(expected, actual, pairs)
    ensures Below(Lefts(Kept(kind, expected, actual, pairs)), |expected|)
    ensures multiset(At(Labels(kind, expected), Lefts(Kept(kind, expected, actual, pairs)))) == Common(kind, expected, actual)
    ensures |Kept(kind, expected, actual, pairs)| == |Common(kind, expected, actual)|
  {
    var kept := Kept(kind, expected, actual, pairs);
    KeptSides(kind, expected, actual, pairs);
    var lefts := At(Labels(kind, expected), Lefts(kept));
    forall c: Label ensures multiset(lefts)[c] == Common(kind, expected, actual)[c] {
      AtCount(Labels(kind, expected), Lefts(kept), c);
      AtCount(Labels(kind, actual), Rights(kept), c);
      OneSideUsedUp(kind, expected, actual, pairs, c);
    }
  }

  /** The chosen pairs that agree. */
  function Agreeing(kind: Kind, expected: seq<Operation>, actual: seq<Operation>): seq<Pair> {
    Kept(kind, expected, actual, Chosen(expected, actual))
  }

  lemma AgreeingIsWithin(kind: Kind, expected: seq<Operation>, actual: seq<Operation>)
    ensures Within(kind, expected, actual, Agreeing(kind, expected, actual))
    ensures Distinct(Lefts(Agreeing(kind, expected, actual))) && Below(Lefts(Agreeing(kind, expected, actual)), |expected|)
    ensures Distinct(Rights(Agreeing(kind, expected, actual))) && Below(Rights(Agreeing(kind, expected, actual)), |actual|)
  {
    MatchIsPairing(expected, actual, MatchScore);
    KeptSides(kind, expected, actual, Chosen(expected, actual));
  }

  /** The chosen pairs that agree are, label by label, as many as the smaller of the two sides. */
  lemma AgreeingCount(kind: Kind, expected: seq<Operation>, actual: seq<Operation>)
    requires Respected(kind)
    ensures Below(Lefts(Agreeing(kind, expected, actual)), |expected|)
    ensures multiset(At(Labels(kind, expected), Lefts(Agreeing(kind, expected, actual)))) == Common(kind, expected, actual)
    ensures |Agreeing(kind, expected, actual)| == |Common(kind, expected, actual)|
  {
    ChosenIsOptimal(expected, actual);
    OptimalCount(kind, expected, actual, Chosen(expected, actual));
  }

  // ----- no other matching within components does better -----

  lemma {:induction false} WithinTotal(expected: seq<Operation>, actual: seq<Operation>, pairs: seq<Pair>)
    requires Within(ByComponent, expected, actual, pairs)
    ensures Total(Weight(expected, actual), pairs) == TotalMerit(expected, actual, pairs) - |pairs|
  {
    if pairs != [] {
      var x := pairs[|pairs| - 1];
      WithinTotal(expected, actual, pairs[..|pairs| - 1]);
      WeightAt(expected, actual, x);
      MatchScoreMeaning(expected[x.0], actual[x.1]);
    }
  }

  lemma {:induction false} TotalAppend(w: (nat, nat) -> int, pairs: seq<Pair>, x: Pair)
    ensures Total(w, pairs + [x]) == Total(w, pairs) + w(x.0, x.1)
  {
    assert (pairs + [x])[..|pairs|] == pairs;
  }

  /** Every rejected pair weighs -2. */
  lemma {:induction false} KeptTotal(expected: seq<Operation>, actual: seq<Operation>, pairs: seq<Pair>)
    requires InRange(expected, actual, pairs)
    ensures var kept := Kept(ByComponent, expected, actual, pairs);
      Total(Weight(expected, actual), pairs) == Total(Weight(expected, actual), kept) - 2 * (|pairs| - |kept|)
  {
    if pairs != [] {
      var last := |pairs| - 1;
      KeptTotal(expected, actual, pairs[..last]);
      WeightAt(expected, actual, pairs[last]);
      MatchScoreMeaning(expected[pairs[last].0], actual[pairs[last].1]);
      TotalAppend(Weight(expected, actual), Kept(ByComponent, expected, actual, pairs[..last]), pairs[last]);
    }
  }

  /** Any pairing extends to full size, at a cost of at most 2 for each pair added. */
  lemma {:induction false} Extend(expected: seq<Operation>, actual: seq<Operation>, pairs: seq<Pair>) returns (full: seq<Pair>)
    requires IsPairing(pairs, |expected|, |actual|) && |pairs| <= Min(|expected|, |actual|)
    ensures IsPairing(full, |expected|, |actual|) && |full| == Min(|expected|, |actual|)
    ensures Total(Weight(expected, actual), full)
         >= Total(Weight(expected, actual), pairs) - 2 * (Min(|expected|, |actual|) - |pairs|)
    decreases Min(|expected|, |actual|) - |pairs|
  {
    if |pairs| == Min(|expected|, |actual|) {
      full := pairs;
    } else {
      var e := Unused(Lefts(pairs), |expected|);
      var a := Unused(Rights(pairs), |actual|);
      var more := pairs + [(e, a)];
      assert more[..|pairs|] == pairs;
      assert forall k :: 0 <= k < |pairs| ==> pairs[k].0 == Lefts(pairs)[k] && pairs[k].1 == Rights(pairs)[k];
      WeightAt(expected, actual, (e, a));
      AgreeingOutweighs(ByComponent, expected[e], actual[a]);
      full := Extend(expected, actual, more);
    }
  }

  lemma WithinIsCommon(kind: Kind, expected: seq<Operation>, actual: seq<Operation>, pairs: seq<Pair>)
    requires Within(kind, expected, actual, pairs)
    ensures multiset(At(Labels(kind, expected), Lefts(pairs))) <= Common(kind, expected, actual)
    ensures |pairs| <= |Common(kind, expected, actual)|
  {
    var lefts, rights := At(Labels(kind, expected), Lefts(pairs)), At(Labels(kind, actual), Rights(pairs));
    assert lefts == rights;
    forall c: Label ensures multiset(lefts)[c] <= Common(kind, expected, actual)[c] {
      AtCount(Labels(kind, expected), Lefts(pairs), c);
      AtCount(Labels(kind, actual), Rights(pairs), c);
    }
    var common := Common(kind, expected, actual);
    assert multiset(lefts) <= common;
    assert |common| == |multiset(lefts)| + |common - multiset(lefts)| by {
      assert common == multiset(lefts) + (common - multiset(lefts));
    }
  }

  /**
    Among all matchings within components the accepted one has the most pairs, and among those with
    as many pairs the largest 101 * usage_correct + key_size_correct.
   */
  lemma {:induction false} AcceptedIsBest(expected: seq<Operation>, actual: seq<Operation>, other: seq<Pair>)
    requires Within(ByComponent, expected, actual, other)
    ensures |other| <= |Agreeing(ByComponent, expected, actual)|
    ensures |other| == |Agreeing(ByComponent, expected, actual)| ==>
      TotalMerit(expected, actual, other) <= TotalMerit(expected, actual, Agreeing(ByComponent, expected, actual))
  {
    hide Kept, TotalMerit, Common, MatchScore, Labels, At;
    AgreeingCount(ByComponent, expected, actual);
    WithinIsCommon(ByComponent, expected, actual, other);
    ChosenIsOptimal(expected, actual);
    Pigeonhole(Lefts(other), |expected|);
    Pigeonhole(Rights(other), |actual|);
    var full := Extend(expected, actual, other);
    KeptTotal(expected, actual, Chosen(expected, actual));
    AgreeingIsWithin(ByComponent, expected, actual);
    WithinTotal(expected, actual, Agreeing(ByComponent, expected, actual));
    WithinTotal(expected, actual, other);
  }
}
