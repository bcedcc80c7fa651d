/**
  What the order of the lists can do: every optimal pairing is the one chosen for some order, so that
  the counts reported over all orders are exactly those of the optimal pairings.
 */
module TieChoices {
  import opened Pairings
  import opened Rearranging
  import opened Sorting
  import opened Totals
  import opened Matching
  import opened Operations
  import opened OperationCounts
  import opened Evaluation
  import opened MetadataTies
  import opened Hungarian
  import HungarianProof
  import opened HungarianDiagonal

  // ----- rows and columns in an order that puts a pairing on the diagonal -----

  function Value(v: seq<int>, c: nat): int { if c < |v| then v[c] else 0 }

  function ByValue(v: seq<int>): (Pair, Pair) -> bool {
    (x: Pair, y: Pair) => Value(v, x.1) <= Value(v, y.1)
  }

  /** The pairs by the potentials of their columns. */
  function Rungs(v: seq<int>, pairs: seq<Pair>): seq<Pair> { Sort(ByValue(v), pairs) }

  lemma RungsPair(v: seq<int>, pairs: seq<Pair>, n: nat, m: nat)
    requires IsPairing(pairs, n, m) && |v| == m
    ensures var q := Rungs(v, pairs);
      && multiset(q) == multiset(pairs) && |q| == |pairs| && IsPairing(q, n, m)
      && forall i, j :: 0 <= i < j < |q| ==> Value(v, q[i].1) <= Value(v, q[j].1)
  {
    var q := Rungs(v, pairs);
    PairingReordered(pairs, q, n, m);
    assert TotalPreorder(ByValue(v));
    SortSorted(ByValue(v), pairs);
    forall i, j | 0 <= i < j < |q| ensures Value(v, q[i].1) <= Value(v, q[j].1) {
      assert ByValue(v)(q[i], q[j]);
    }
  }

  /** The numbers in side, and then the others: each number below m once. */
  lemma {:induction false} AllOnce(side: seq<nat>, m: nat)
    requires Distinct(side) && Below(side, m)
    ensures var all := side + SortedUnpaired(side, m); Distinct(all) && Below(all, m) && |all| == m
  {
    var rest := SortedUnpaired(side, m);
    var all := side + rest;
    forall k | 0 <= k < |rest| ensures rest[k] < m && rest[k] !in side { assert rest[k] in rest; }
    forall i, j | 0 <= i < j < |all| ensures all[i] != all[j] {
      assert i < |side| <= j ==> all[i] in side;
    }
    Pigeonhole(all, m);
    CoveringCount(all, m);
  }

  /** The matrix with rows and columns in another order. */
  ghost predicate Reordered(a: Matrix, b: Matrix, n: nat, m: nat, f: seq<nat>, g: seq<nat>) {
    && Rectangular(a, n, m) && Rectangular(b, n, m) && |f| == n && |g| == m && Below(f, n) && Below(g, m)
    && forall i, j :: 0 <= i < n && 0 <= j < m ==> b[i][j] == a[f[i]][g[j]]
  }

  lemma {:induction false} ReorderedFeasible(a: Matrix, b: Matrix, n: nat, m: nat, f: seq<nat>, g: seq<nat>, u: seq<int>, v: seq<int>)
    requires Reordered(a, b, n, m, f, g) && DualFeasible(a, n, m, u, v)
    ensures DualFeasible(b, n, m, At(u, f), At(v, g))
  {
    forall i, j | 0 <= i < n && 0 <= j < m ensures At(u, f)[i] + At(v, g)[j] <= CostOf(b)(i, j) {
      assert u[f[i]] + v[g[j]] <= CostOf(a)(f[i], g[j]);
    }
  }

  lemma {:induction false} RungsAreTight(a: Matrix, b: Matrix, n: nat, m: nat, u: seq<int>, v: seq<int>, pairs: seq<Pair>, q: seq<Pair>, g: seq<nat>)
    requires Certifies(a, n, m, u, v, pairs) && n <= m && multiset(q) == multiset(pairs) && |q| == n
    requires Reordered(a, b, n, m, Lefts(q), g) && g[..n] == Rights(q)
    ensures forall i :: 0 <= i < n ==> At(u, Lefts(q))[i] + At(v, g)[i] == CostOf(b)(i, i)
  {
    forall i | 0 <= i < n ensures At(u, Lefts(q))[i] + At(v, g)[i] == CostOf(b)(i, i) {
      assert q[i] in multiset(pairs);
      var k :| 0 <= k < n && pairs[k] == q[i];
      assert g[i] == g[..n][i] == q[i].1;
      assert b[i][i] == a[q[i].0][q[i].1];
    }
  }

  lemma {:induction false} RungsAscend(v: seq<int>, m: nat, n: nat, q: seq<Pair>, g: seq<nat>)
    requires |v| == m == |g| && n <= m && |q| == n && Below(g, m) && g[..n] == Rights(q)
    requires (forall i, j :: 0 <= i < j < n ==> Value(v, q[i].1) <= Value(v, q[j].1)) && forall c :: 0 <= c < m ==> v[c] <= 0
    requires forall c :: n <= c < m ==> v[g[c]] == 0
    ensures forall i, j :: 0 <= i < j < m ==> At(v, g)[i] <= At(v, g)[j]
  {
    forall i | 0 <= i < n ensures At(v, g)[i] == Value(v, q[i].1) { assert g[..n][i] == g[i]; }
  }

  /** The pairs in ascending order of their columns' potentials, and all columns, the unpaired ones last. */
  ghost predicate InOrder(v: seq<int>, n: nat, m: nat, pairs: seq<Pair>, q: seq<Pair>, g: seq<nat>) {
    && |v| == m && n <= m && multiset(q) == multiset(pairs) && |q| == n && IsPairing(q, n, m)
    && (forall i, j :: 0 <= i < j < n ==> Value(v, q[i].1) <= Value(v, q[j].1))
    && |g| == m && Distinct(g) && Below(g, m) && g[..n] == Rights(q)
  }

  /** In that order the potentials form a ladder. */
  lemma {:induction false} LadderStands(a: Matrix, b: Matrix, n: nat, m: nat, u: seq<int>, v: seq<int>, pairs: seq<Pair>, q: seq<Pair>, g: seq<nat>)
    requires Certifies(a, n, m, u, v, pairs) && InOrder(v, n, m, pairs, q, g)
    requires Reordered(a, b, n, m, Lefts(q), g)
    ensures Ladder(b, n, m, At(u, Lefts(q)), At(v, g))
  {
    ReorderedFeasible(a, b, n, m, Lefts(q), g, u, v);
    RungsAreTight(a, b, n, m, u, v, pairs, q, g);
    RestIsZero(a, n, m, u, v, pairs, q, g);
    assert forall c :: 0 <= c < m ==> v[c] <= 0;
    hide Reordered, IsPairing, Certifies, Distinct;
    RungsAscend(v, m, n, q, g);
  }

  lemma {:induction false} OrderColumns(v: seq<int>, n: nat, m: nat, pairs: seq<Pair>) returns (q: seq<Pair>, g: seq<nat>)
    requires IsPairing(pairs, n, m) && |pairs| == n <= m == |v|
    ensures InOrder(v, n, m, pairs, q, g)
  {
    hide Rungs, SortedUnpaired;
    q := Rungs(v, pairs);
    RungsPair(v, pairs, n, m);
    AllOnce(Rights(q), m);
    g := Rights(q) + SortedUnpaired(Rights(q), m);
  }

  /** The columns after the first n are those left unpaired. */
  lemma {:induction false} RestIsZero(a: Matrix, n: nat, m: nat, u: seq<int>, v: seq<int>, pairs: seq<Pair>, q: seq<Pair>, g: seq<nat>)
    requires Certifies(a, n, m, u, v, pairs) && InOrder(v, n, m, pairs, q, g)
    ensures forall c :: n <= c < m ==> v[g[c]] == 0
  {
    forall c | n <= c < m ensures v[g[c]] == 0 {
      assert g[c] !in Rights(q) by {
        forall l | 0 <= l < n ensures Rights(q)[l] != g[c] { assert g[..n][l] == g[l]; }
      }
      SameColumns(pairs, q, g[c]);
    }
  }

  lemma {:induction false} SameColumns(pairs: seq<Pair>, q: seq<Pair>, c: nat)
    requires multiset(q) == multiset(pairs) && c !in Rights(q)
    ensures c !in Rights(pairs)
  {
    forall k | 0 <= k < |pairs| ensures Rights(pairs)[k] != c {
      assert pairs[k] in multiset(q);
      InSides(q, pairs[k]);
    }
  }

  /** Lists whose costs put the given optimal pairing on the diagonal, where the algorithm finds it. */
  lemma OnDiagonalOf<T>(rows: seq<T>, columns: seq<T>, score: (T, T) -> int, pairs: seq<Pair>)
    returns (rows': seq<T>, columns': seq<T>, q: seq<Pair>)
    requires |rows| <= |columns| && IsPairing(pairs, |rows|, |columns|) && |pairs| == |rows|
    requires Total(CostOf(Costs(rows, columns, score)), pairs)
          <= Total(CostOf(Costs(rows, columns, score)), Assign(Costs(rows, columns, score), |rows|, |columns|))
    ensures multiset(rows') == multiset(rows) && multiset(columns') == multiset(columns)
    ensures |rows'| == |rows| && |columns'| == |columns|
    ensures multiset(q) == multiset(pairs) && |q| == |rows| && IsPairing(q, |rows|, |columns|)
    ensures forall k :: 0 <= k < |q| ==> rows'[k] == rows[q[k].0] && columns'[k] == columns[q[k].1]
    ensures Assign(Costs(rows', columns', score), |rows|, |columns|) == Diagonal(|rows|)
  {
    var n, m, a := |rows|, |columns|, Costs(rows, columns, score);
    var t := Hungarian.Insert(a, n, m, n);
    var u, v := t.u[1..], t.v[1..];
    assert Certifies(a, n, m, u, v, pairs) by {
      HungarianProof.AssignCertified(a, n, m);
      OptimalIsCertified(a, n, m, u, v, Assign(a, n, m), pairs);
    }
    hide Assign, Certifies, Hungarian.Insert, CostOf;
    assert |u| == n && |v| == m by { CertifiedSizes(a, n, m, u, v, pairs); }
    var g;
    q, g := OrderColumns(v, n, m, pairs);
    rows', columns' := PutInOrder(rows, columns, score, v, pairs, q, g);
    var b := Costs(rows', columns', score);
    LadderStands(a, b, n, m, u, v, pairs, q, g);
    LadderIsAssigned(b, n, m, At(u, Lefts(q)), At(v, g));
  }

  lemma PutInOrder<T>(rows: seq<T>, columns: seq<T>, score: (T, T) -> int, v: seq<int>, pairs: seq<Pair>, q: seq<Pair>, g: seq<nat>)
    returns (rows': seq<T>, columns': seq<T>)
    requires InOrder(v, |rows|, |columns|, pairs, q, g)
    ensures multiset(rows') == multiset(rows) && multiset(columns') == multiset(columns)
    ensures |rows'| == |rows| && |columns'| == |columns|
    ensures forall k :: 0 <= k < |q| ==> rows'[k] == rows[q[k].0] && columns'[k] == columns[q[k].1]
    ensures Reordered(Costs(rows, columns, score), Costs(rows', columns', score), |rows|, |columns|, Lefts(q), g)
  {
    rows', columns' := At(rows, Lefts(q)), At(columns, g);
    SameMultiset(Lefts(q), rows', rows);
    SameMultiset(g, columns', columns);
    forall k | 0 <= k < |q| ensures columns'[k] == columns[q[k].1] { assert g[..|q|][k] == g[k]; }
  }

  lemma CertifiedSizes(a: Matrix, n: nat, m: nat, u: seq<int>, v: seq<int>, pairs: seq<Pair>)
    requires Certifies(a, n, m, u, v, pairs)
    ensures |u| == n && |v| == m
  {
  }

  // ----- every optimal pairing is chosen for some order -----

  lemma {:induction false} WeightIsCost(expected: seq<Operation>, actual: seq<Operation>, pairs: seq<Pair>)
    requires IsPairing(pairs, |expected|, |actual|)
    ensures Total(Weight(expected, actual), pairs) ==
      if |expected| > |actual| then -Total(CostOf(Costs(actual, expected, MatchScore)), Flip(pairs))
      else -Total(CostOf(Costs(expected, actual, MatchScore)), pairs)
  {
    OrientedIsCost(expected, actual, MatchScore, pairs);
    TotalAgrees(Oriented(expected, actual, MatchScore), Weight(expected, actual), pairs);
  }

  lemma {:induction false} FlipTwice(pairs: seq<Pair>)
    ensures Flip(Flip(pairs)) == pairs
  {
  }

  lemma {:induction false} FlipKeepsEntries(pairs: seq<Pair>, other: seq<Pair>)
    requires multiset(pairs) == multiset(other)
    ensures multiset(Flip(pairs)) == multiset(Flip(other))
  {
    var f := Rearranged(pairs, other);
    SameMultiset(f, Flip(pairs), Flip(other));
  }

  /** Every optimal pairing, written down in some order of its pairs, is the diagonal chosen for some order of the lists. */
  lemma {:induction false} EveryOptimumIsChosen(expected: seq<Operation>, actual: seq<Operation>, pairs: seq<Pair>)
    returns (expected': seq<Operation>, actual': seq<Operation>, q: seq<Pair>)
    requires Optimal(expected, actual, pairs)
    ensures multiset(expected') == multiset(expected) && multiset(actual') == multiset(actual)
    ensures multiset(q) == multiset(pairs) && |q| == |pairs| && IsPairing(q, |expected|, |actual|)
    ensures |expected'| == |expected| && |actual'| == |actual|
    ensures forall k :: 0 <= k < |q| ==> expected'[k] == expected[q[k].0] && actual'[k] == actual[q[k].1]
    ensures Chosen(expected', actual') == Diagonal(|q|)
  {
    hide Optimal, Chosen;
    if expected == [] || actual == [] {
      expected', actual', q := expected, actual, pairs;
      NothingChosen(expected, actual, pairs);
    } else if |expected| > |actual| {
      expected', actual', q := SwappedChoice(expected, actual, pairs);
    } else {
      expected', actual', q := StraightChoice(expected, actual, pairs);
    }
  }

  lemma NothingChosen(expected: seq<Operation>, actual: seq<Operation>, pairs: seq<Pair>)
    requires Optimal(expected, actual, pairs) && (expected == [] || actual == [])
    ensures pairs == [] && Chosen(expected, actual) == Diagonal(0)
  {
  }

  lemma {:induction false} ChosenCosts(expected: seq<Operation>, actual: seq<Operation>, pairs: seq<Pair>)
    requires Optimal(expected, actual, pairs) && expected != [] && actual != []
    ensures IsPairing(pairs, |expected|, |actual|) && |pairs| == Min(|expected|, |actual|)
    ensures |expected| > |actual| ==>
      Total(CostOf(Costs(actual, expected, MatchScore)), Flip(pairs))
        <= Total(CostOf(Costs(actual, expected, MatchScore)), Assign(Costs(actual, expected, MatchScore), |actual|, |expected|))
    ensures |expected| <= |actual| ==>
      Total(CostOf(Costs(expected, actual, MatchScore)), pairs)
        <= Total(CostOf(Costs(expected, actual, MatchScore)), Assign(Costs(expected, actual, MatchScore), |expected|, |actual|))
  {
    var chosen := Chosen(expected, actual);
    MatchIsPairing(expected, actual, MatchScore);
    WeightIsCost(expected, actual, pairs);
    WeightIsCost(expected, actual, chosen);
    FlipTwice(Assign(Costs(actual, expected, MatchScore), |actual|, |expected|));
    hide Assign, Costs, Flip, Weight, Total;
  }

  lemma SwappedChoice(expected: seq<Operation>, actual: seq<Operation>, pairs: seq<Pair>)
    returns (expected': seq<Operation>, actual': seq<Operation>, q: seq<Pair>)
    requires Optimal(expected, actual, pairs) && 0 < |actual| < |expected|
    ensures multiset(expected') == multiset(expected) && multiset(actual') == multiset(actual)
    ensures multiset(q) == multiset(pairs) && |q| == |pairs| && IsPairing(q, |expected|, |actual|)
    ensures |expected'| == |expected| && |actual'| == |actual|
    ensures forall k :: 0 <= k < |q| ==> expected'[k] == expected[q[k].0] && actual'[k] == actual[q[k].1]
    ensures Chosen(expected', actual') == Diagonal(|q|)
  {
    hide Optimal, Assign, Costs, MatchScore;
    ChosenCosts(expected, actual, pairs);
    PairingFlipped(pairs, |expected|, |actual|);
    var r;
    actual', expected', r := OnDiagonalOf(actual, expected, MatchScore, Flip(pairs));
    q := Flip(r);
    FlipKeepsEntries(r, Flip(pairs));
    FlipTwice(pairs);
    assert Flip(Diagonal(|r|)) == Diagonal(|r|);
    PairingFlipped(r, |actual|, |expected|);
  }

  lemma StraightChoice(expected: seq<Operation>, actual: seq<Operation>, pairs: seq<Pair>)
    returns (expected': seq<Operation>, actual': seq<Operation>, q: seq<Pair>)
    requires Optimal(expected, actual, pairs) && 0 < |expected| <= |actual|
    ensures multiset(expected') == multiset(expected) && multiset(actual') == multiset(actual)
    ensures multiset(q) == multiset(pairs) && |q| == |pairs| && IsPairing(q, |expected|, |actual|)
    ensures |expected'| == |expected| && |actual'| == |actual|
    ensures forall k :: 0 <= k < |q| ==> expected'[k] == expected[q[k].0] && actual'[k] == actual[q[k].1]
    ensures Chosen(expected', actual') == Diagonal(|q|)
  {
    hide Optimal, Assign, Costs, MatchScore;
    ChosenCosts(expected, actual, pairs);
    expected', actual', q := OnDiagonalOf(expected, actual, MatchScore, pairs);
  }

  lemma {:induction false} PairingFlipped(pairs: seq<Pair>, n: nat, m: nat)
    requires IsPairing(pairs, n, m)
    ensures IsPairing(Flip(pairs), m, n)
  {
  }

  // ----- counts over accepted pairs -----

  /** The pairs within components for which hit holds. */
  function AcceptedHits(expected: seq<Operation>, actual: seq<Operation>, pairs: seq<Pair>, hit: (Operation, Operation) -> bool): nat
    requires InRange(expected, actual, pairs)
  {
    Hits(expected, actual, Kept(ByComponent, expected, actual, pairs), hit)
  }

  ghost function HitWeight(expected: seq<Operation>, actual: seq<Operation>, hit: (Operation, Operation) -> bool): (nat, nat) -> int {
    (i: nat, j: nat) =>
      if i < |expected| && j < |actual| && Agree(ByComponent, expected[i], actual[j]) && hit(expected[i], actual[j]) then 1 else 0
  }

  lemma {:induction false} AcceptedIsTotal(expected: seq<Operation>, actual: seq<Operation>, pairs: seq<Pair>, hit: (Operation, Operation) -> bool)
    requires InRange(expected, actual, pairs)
    ensures AcceptedHits(expected, actual, pairs, hit) == Total(HitWeight(expected, actual, hit), pairs)
  {
    if pairs != [] {
      var before, x := pairs[..|pairs| - 1], pairs[|pairs| - 1];
      AcceptedIsTotal(expected, actual, before, hit);
      HitsAppend(expected, actual, Kept(ByComponent, expected, actual, before), x, hit);
    }
  }

  /** What the evaluator counts. */
  function Reported(expected: seq<Operation>, actual: seq<Operation>, hit: (Operation, Operation) -> bool): nat {
    AcceptedHits(expected, actual, Chosen(expected, actual), hit)
  }

  lemma ReportedAre(expected: seq<Operation>, actual: seq<Operation>)
    ensures Evaluate(expected, actual).scores.pairCorrect == Reported(expected, actual, SameMetadata)
    ensures Evaluate(expected, actual).scores.knownCorrect == Reported(expected, actual, SameKnownKeySize)
  {
  }

  /** Two lists with the entries of two others, in whatever order. */
  ghost predicate SameLists(expected': seq<Operation>, actual': seq<Operation>, expected: seq<Operation>, actual: seq<Operation>) {
    multiset(expected') == multiset(expected) && multiset(actual') == multiset(actual)
  }

  lemma OptimumIsReported(expected: seq<Operation>, actual: seq<Operation>, pairs: seq<Pair>, hit: (Operation, Operation) -> bool)
    returns (expected': seq<Operation>, actual': seq<Operation>)
    requires Optimal(expected, actual, pairs)
    ensures SameLists(expected', actual', expected, actual)
    ensures Reported(expected', actual', hit) == AcceptedHits(expected, actual, pairs, hit)
  {
    var q;
    expected', actual', q := EveryOptimumIsChosen(expected, actual, pairs);
    AcceptedIsTotal(expected', actual', Chosen(expected', actual'), hit);
    AcceptedIsTotal(expected, actual, pairs, hit);
    hide Chosen, AcceptedHits, Optimal;
    TotalPermuted(HitWeight(expected, actual, hit), q, pairs);
    TotalMatches(HitWeight(expected', actual', hit), HitWeight(expected, actual, hit), Diagonal(|q|), q);
  }

  /** What is chosen for lists in another order is an optimal pairing of the lists themselves. */
  lemma ReportedIsOptimum(expected: seq<Operation>, actual: seq<Operation>, expected': seq<Operation>, actual': seq<Operation>,
                          hit: (Operation, Operation) -> bool) returns (pairs: seq<Pair>)
    requires SameLists(expected', actual', expected, actual)
    ensures Optimal(expected, actual, pairs) && AcceptedHits(expected, actual, pairs, hit) == Reported(expected', actual', hit)
  {
    var f := Rearranged(expected', expected);
    var g := Rearranged(actual', actual);
    var chosen := Chosen(expected', actual');
    ChosenIsOptimal(expected', actual');
    pairs := Moved(chosen, f, g);
    MovedIsOptimal(expected', actual', expected, actual, f, g, chosen);
    AcceptedIsTotal(expected', actual', chosen, hit);
    AcceptedIsTotal(expected, actual, pairs, hit);
    hide AcceptedHits, Optimal;
    MovedTotal(HitWeight(expected', actual', hit), HitWeight(expected, actual, hit), f, g, chosen);
  }

  lemma {:induction false} MovedWeight(expected: seq<Operation>, actual: seq<Operation>, expected': seq<Operation>, actual': seq<Operation>,
                    f: seq<nat>, g: seq<nat>, pairs: seq<Pair>)
    requires Rearranges(f, expected, expected') && Rearranges(g, actual, actual') && IsPairing(pairs, |expected|, |actual|)
    ensures IsPairing(Moved(pairs, f, g), |expected'|, |actual'|)
    ensures Total(Weight(expected', actual'), Moved(pairs, f, g)) == Total(Weight(expected, actual), pairs)
  {
    hide MatchScore;
    MovedIsPairing(f, g, |expected'|, |actual'|, pairs);
    MovedTotal(Weight(expected, actual), Weight(expected', actual'), f, g, pairs);
  }

  lemma MovedIsOptimal(expected: seq<Operation>, actual: seq<Operation>, expected': seq<Operation>, actual': seq<Operation>,
                       f: seq<nat>, g: seq<nat>, pairs: seq<Pair>)
    requires Rearranges(f, expected, expected') && Rearranges(g, actual, actual') && Optimal(expected, actual, pairs)
    ensures Optimal(expected', actual', Moved(pairs, f, g))
  {
    var f' := InverseRearranges(f, expected, expected');
    var g' := InverseRearranges(g, actual, actual');
    hide Weight, IsPairing;
    MovedWeight(expected, actual, expected', actual', f, g, pairs);
    forall other | IsPairing(other, |expected'|, |actual'|) && |other| == Min(|expected'|, |actual'|)
      ensures Total(Weight(expected', actual'), other) <= Total(Weight(expected', actual'), Moved(pairs, f, g))
    {
      MovedWeight(expected', actual', expected, actual, f', g', other);
    }
  }

  /** The counts reported for the lists in all their orders are exactly those of the optimal pairings. */
  lemma ReportedExactly(expected: seq<Operation>, actual: seq<Operation>, hit: (Operation, Operation) -> bool, count: nat)
    ensures (exists expected', actual' :: SameLists(expected', actual', expected, actual) && Reported(expected', actual', hit) == count)
       <==> (exists pairs :: Optimal(expected, actual, pairs) && AcceptedHits(expected, actual, pairs, hit) == count)
  {
    hide Reported, AcceptedHits;
    if expected', actual' :| SameLists(expected', actual', expected, actual) && Reported(expected', actual', hit) == count {
      var pairs := ReportedIsOptimum(expected, actual, expected', actual', hit);
    }
    if pairs :| Optimal(expected, actual, pairs) && AcceptedHits(expected, actual, pairs, hit) == count {
      var expected', actual' := OptimumIsReported(expected, actual, pairs, hit);
    }
  }

  /** The order of the lists makes no difference to a count. */
  ghost predicate OrderFree(expected: seq<Operation>, actual: seq<Operation>, hit: (Operation, Operation) -> bool) {
    forall expected', actual' :: SameLists(expected', actual', expected, actual) ==>
      Reported(expected', actual', hit) == Reported(expected, actual, hit)
  }

  /** All optimal pairings have the same count. */
  ghost predicate TieFree(expected: seq<Operation>, actual: seq<Operation>, hit: (Operation, Operation) -> bool) {
    forall pairs :: Optimal(expected, actual, pairs) ==>
      AcceptedHits(expected, actual, pairs, hit) == Reported(expected, actual, hit)
  }

  /** A count is independent of the order of the lists exactly when no tie between optimal pairings changes it. */
  lemma OrderFreeExactly(expected: seq<Operation>, actual: seq<Operation>, hit: (Operation, Operation) -> bool)
    ensures OrderFree(expected, actual, hit) <==> TieFree(expected, actual, hit)
  {
    hide Reported, AcceptedHits, Optimal, SameLists;
    if OrderFree(expected, actual, hit) {
      forall pairs | Optimal(expected, actual, pairs)
        ensures InRange(expected, actual, pairs) && AcceptedHits(expected, actual, pairs, hit) == Reported(expected, actual, hit)
      {
        OptimalInRange(expected, actual, pairs);
        var expected', actual' := OptimumIsReported(expected, actual, pairs, hit);
      }
    }
    if TieFree(expected, actual, hit) {
      forall expected', actual' | SameLists(expected', actual', expected, actual)
        ensures Reported(expected', actual', hit) == Reported(expected, actual, hit)
      {
        var pairs := ReportedIsOptimum(expected, actual, expected', actual', hit);
      }
    }
  }

  lemma OptimalInRange(expected: seq<Operation>, actual: seq<Operation>, pairs: seq<Pair>)
    requires Optimal(expected, actual, pairs)
    ensures InRange(expected, actual, pairs)
  {
  }

  // ----- the two counters -----

  /** metadata_pair_correct is independent of the order of the lists exactly when no optimal pairing has tied pairs. */
  lemma PairCorrectOrder(expected: seq<Operation>, actual: seq<Operation>)
    ensures OrderFree(expected, actual, SameMetadata) <==>
      forall pairs, i, j :: Optimal(expected, actual, pairs) ==> !Tied(expected, actual, pairs, i, j)
  {
    TiesDecide(expected, actual);
    OrderFreeExactly(expected, actual, SameMetadata);
    SettledIsTieFree(expected, actual);
  }

  lemma SettledIsTieFree(expected: seq<Operation>, actual: seq<Operation>)
    ensures TieFree(expected, actual, SameMetadata) <==> Settled(expected, actual)
  {
    ChosenIsOptimal(expected, actual);
    var best := AllTriplesPaired(expected, actual, Chosen(expected, actual));
    hide Chosen, KeptCount, Common, Kept;
    forall pairs | Optimal(expected, actual, pairs)
      ensures InRange(expected, actual, pairs)
      ensures AcceptedHits(expected, actual, pairs, SameMetadata) == KeptCount(ByMetadata, expected, actual, pairs)
    {
      OptimalInRange(expected, actual, pairs);
      MetadataHits(expected, actual, pairs);
    }
  }

  /** known_key_size_correct is independent of it exactly when all optimal pairings have as many known key-size matches. */
  lemma KnownCorrectOrder(expected: seq<Operation>, actual: seq<Operation>)
    ensures (forall expected', actual' :: SameLists(expected', actual', expected, actual) ==>
               Evaluate(expected', actual').scores.knownCorrect == Evaluate(expected, actual).scores.knownCorrect)
       <==> TieFree(expected, actual, SameKnownKeySize)
  {
    OrderFreeExactly(expected, actual, SameKnownKeySize);
    hide Evaluate, Reported, TieFree;
    forall expected', actual'
      ensures Evaluate(expected', actual').scores.knownCorrect == Reported(expected', actual', SameKnownKeySize)
    {
      ReportedAre(expected', actual');
    }
  }
}
