/**
  Any sort by comparisons, as a tree of questions.  One that is right for every order has to compare
  all neighbours, so that sorting tuples with missing numbers fails for every such sort or for none.
 */
module ComparisonSort {
  import opened Options
  import opened Pairings
  import opened Sorting
  import opened Ordering

  /** Ask: is entry i less than entry j?  Done: the positions of the entries in increasing order. */
  datatype Sorter = Done(order: seq<nat>) | Ask(i: nat, j: nat, yes: Sorter, no: Sorter)

  predicate Lower(rank: seq<nat>, i: nat, j: nat) { i < |rank| && j < |rank| && rank[i] < rank[j] }

  function Answer(t: Sorter, rank: seq<nat>): seq<nat> {
    match t
    case Done(order) => order
    case Ask(i, j, yes, no) => Answer(if Lower(rank, i, j) then yes else no, rank)
  }

  /** The questions put on the way. */
  predicate Asks(t: Sorter, rank: seq<nat>, x: nat, y: nat) {
    match t
    case Done(_) => false
    case Ask(i, j, yes, no) =>
      (i == x && j == y) || (i == y && j == x) || Asks(if Lower(rank, i, j) then yes else no, rank, x, y)
  }

  ghost predicate Sorts(order: seq<nat>, rank: seq<nat>) {
    && |order| == |rank| && (forall k :: 0 <= k < |order| ==> order[k] < |rank|)
    && forall a, b :: 0 <= a < b < |order| ==> rank[order[a]] < rank[order[b]]
  }

  /** Right for every order of n entries. */
  ghost predicate Correct(t: Sorter, n: nat) {
    forall rank: seq<nat> :: |rank| == n && Pairings.Distinct(rank) ==> Sorts(Answer(t, rank), rank)
  }

  // ----- insertion sort is one of them -----

  /** The positions below k are sorted; those from k on are still to be inserted. */
  function Insertion(done: seq<nat>, k: nat, n: nat): Sorter
    requires k <= n
    decreases n - k, |done| + 1
  {
    if k == n then Done(done) else Inserting(done, 0, k, n)
  }

  /** Position k is to be inserted among those done, after the first i of them. */
  function Inserting(done: seq<nat>, i: nat, k: nat, n: nat): Sorter
    requires i <= |done| && k < n
    decreases n - k, |done| - i
  {
    if i == |done| then Insertion(done + [k], k + 1, n)
    else Ask(done[i], k, Inserting(done, i + 1, k, n), Insertion(done[..i] + [k] + done[i..], k + 1, n))
  }

  /** The positions below k, in increasing order. */
  ghost predicate SortedSoFar(done: seq<nat>, k: nat, rank: seq<nat>) {
    && |done| == k <= |rank| && (forall a :: 0 <= a < k ==> done[a] < k)
    && forall a, b :: 0 <= a < b < k ==> rank[done[a]] < rank[done[b]]
  }

  lemma InsertedSoFar(done: seq<nat>, i: nat, k: nat, rank: seq<nat>)
    requires SortedSoFar(done, k, rank) && k < |rank| && i <= k && Pairings.Distinct(rank)
    requires forall a :: 0 <= a < i ==> rank[done[a]] < rank[k]
    requires i < k ==> rank[k] <= rank[done[i]]
    ensures SortedSoFar(done[..i] + [k] + done[i..], k + 1, rank)
  {
    forall a | i <= a < k ensures rank[k] < rank[done[a]] {
      assert done[a] < k && rank[done[a]] != rank[k];
    }
  }

  lemma {:induction false} InsertionSorts(done: seq<nat>, k: nat, n: nat, rank: seq<nat>)
    requires k <= n == |rank| && Pairings.Distinct(rank) && SortedSoFar(done, k, rank)
    ensures Sorts(Answer(Insertion(done, k, n), rank), rank)
    decreases n - k, |done| + 1
  {
    if k < n { InsertingSorts(done, 0, k, n, rank); }
  }

  lemma {:induction false} InsertingSorts(done: seq<nat>, i: nat, k: nat, n: nat, rank: seq<nat>)
    requires i <= |done| && k < n == |rank| && Pairings.Distinct(rank) && SortedSoFar(done, k, rank)
    requires forall a :: 0 <= a < i ==> rank[done[a]] < rank[k]
    ensures Sorts(Answer(Inserting(done, i, k, n), rank), rank)
    decreases n - k, |done| - i
  {
    hide Sorts, Pairings.Distinct, Insertion;
    if i < |done| && Lower(rank, done[i], k) {
      InsertingSorts(done, i + 1, k, n, rank);
    } else {
      InsertedSoFar(done, i, k, rank);
      assert i == |done| ==> done[..i] + [k] + done[i..] == done + [k];
      InsertionSorts(done[..i] + [k] + done[i..], k + 1, n, rank);
    }
  }

  /** Insertion sort is right for every order, whatever the number of entries. */
  lemma {:induction false} InsertionIsCorrect(n: nat)
    ensures Correct(Insertion([], 0, n), n)
  {
    forall rank: seq<nat> | |rank| == n && Pairings.Distinct(rank) ensures Sorts(Answer(Insertion([], 0, n), rank), rank) {
      InsertionSorts([], 0, n, rank);
    }
  }

  // ----- neighbours are compared -----

  ghost predicate Adjacent(rank: seq<nat>, x: nat, y: nat) {
    x < |rank| && y < |rank| && rank[y] == rank[x] + 1
  }

  function Swapped(rank: seq<nat>, x: nat, y: nat): (r: seq<nat>)
    requires x < |rank| && y < |rank|
    ensures |r| == |rank|
  {
    rank[x := rank[y]][y := rank[x]]
  }

  lemma {:induction false} UnaskedIsUnseen(t: Sorter, rank: seq<nat>, x: nat, y: nat)
    requires Pairings.Distinct(rank) && Adjacent(rank, x, y) && !Asks(t, rank, x, y)
    ensures Answer(t, Swapped(rank, x, y)) == Answer(t, rank)
  {
    match t
    case Done(_) =>
    case Ask(i, j, yes, no) =>
      assert Lower(rank, i, j) <==> Lower(Swapped(rank, x, y), i, j) by { SameBelow(rank, x, y, i, j); }
      UnaskedIsUnseen(if Lower(rank, i, j) then yes else no, rank, x, y);
  }

  lemma SameBelow(rank: seq<nat>, x: nat, y: nat, i: nat, j: nat)
    requires Pairings.Distinct(rank) && Adjacent(rank, x, y) && !(i == x && j == y) && !(i == y && j == x)
    ensures Lower(rank, i, j) <==> Lower(Swapped(rank, x, y), i, j)
  {
    assert forall k :: 0 <= k < |rank| && k != x && k != y ==> rank[k] != rank[x] && rank[k] != rank[y];
  }

  /** A sorted order has the smaller of two entries first. */
  lemma SmallerFirst(order: seq<nat>, rank: seq<nat>, x: nat, y: nat) returns (a: nat, b: nat)
    requires Sorts(order, rank) && x < |rank| && y < |rank| && rank[x] < rank[y]
    ensures a < b < |order| && order[a] == x && order[b] == y
    ensures Pairings.Distinct(order)
  {
    Pigeonhole(order, |rank|);
    assert x in order && y in order;
    a :| a < |order| && order[a] == x;
    b :| b < |order| && order[b] == y;
  }

  lemma OneOrderSortsOne(order: seq<nat>, rank: seq<nat>, other: seq<nat>, x: nat, y: nat)
    requires Sorts(order, rank) && x < |rank| == |other| && y < |rank| && rank[x] < rank[y] && other[y] < other[x]
    ensures !Sorts(order, other)
  {
    hide Sorts;
    if Sorts(order, other) {
      var a, b := SmallerFirst(order, rank, x, y);
      var c, d := SmallerFirst(order, other, y, x);
    }
  }

  lemma SwappedIsDistinct(rank: seq<nat>, x: nat, y: nat)
    requires Pairings.Distinct(rank) && x < |rank| && y < |rank|
    ensures Pairings.Distinct(Swapped(rank, x, y))
  {
  }

  /** A correct sort compares any two entries with nothing between them. */
  lemma {:induction false} AdjacentAreCompared(t: Sorter, rank: seq<nat>, x: nat, y: nat)
    requires Correct(t, |rank|) && Pairings.Distinct(rank) && Adjacent(rank, x, y)
    ensures Asks(t, rank, x, y)
  {
    hide Sorts, Asks, Pairings.Distinct;
    if !Asks(t, rank, x, y) {
      UnaskedIsUnseen(t, rank, x, y);
      SwappedIsDistinct(rank, x, y);
      OneOrderSortsOne(Answer(t, rank), rank, Swapped(rank, x, y), x, y);
    }
  }

  // ----- sorting tuples -----

  /** The same questions put to tuples; None is a type error. */
  function SortTuples(t: Sorter, s: seq<Tuple>): Option<seq<nat>> {
    match t
    case Done(order) => Some(order)
    case Ask(i, j, yes, no) =>
      if i < |s| && j < |s| then
        match Less(s[i], s[j])
        case TypeError => None
        case Before => SortTuples(yes, s)
        case NotBefore => SortTuples(no, s)
      else SortTuples(no, s)
  }

  ghost predicate DistinctTuples(s: seq<Tuple>) { forall i, j :: 0 <= i < j < |s| ==> s[i] != s[j] }

  /** rank[i] is the place of tuple i in the sorted list. */
  ghost predicate Ranks(s: seq<Tuple>, sorted: seq<Tuple>, rank: seq<nat>) {
    && |rank| == |s| == |sorted| && DistinctTuples(s) && Sorted(TupleLe, sorted)
    && forall i :: 0 <= i < |s| ==> rank[i] < |s| && sorted[rank[i]] == s[i]
  }

  lemma RankTuples(s: seq<Tuple>) returns (sorted: seq<Tuple>, rank: seq<nat>)
    requires DistinctTuples(s)
    ensures Ranks(s, sorted, rank) && Pairings.Distinct(rank) && sorted == Sort(TupleLe, s)
  {
    hide Sort;
    sorted := Sort(TupleLe, s);
    TupleOrder();
    SortSorted(TupleLe, s);
    SameEntries(s, sorted);
    rank := seq(|s|, i requires 0 <= i < |s| => PositionIn(sorted, s[i]));
  }

  ghost function PositionIn(sorted: seq<Tuple>, x: Tuple): (k: nat)
    ensures x in sorted ==> k < |sorted| && sorted[k] == x
  {
    if x in sorted then
      var k: nat :| k < |sorted| && sorted[k] == x;
      k
    else 0
  }

  lemma BelowIsLess(s: seq<Tuple>, sorted: seq<Tuple>, rank: seq<nat>, i: nat, j: nat)
    requires Ranks(s, sorted, rank) && i < |s| && j < |s| && !Mixed(s[i], s[j])
    ensures Less(s[i], s[j]) == if Lower(rank, i, j) then Before else NotBefore
  {
    LessIs(s[i], s[j]);
    TupleOrder();
    assert rank[i] < rank[j] ==> TupleLe(sorted[rank[i]], sorted[rank[j]]);
    assert rank[j] < rank[i] ==> TupleLe(sorted[rank[j]], sorted[rank[i]]);
    assert s[i] == s[j] ==> i == j;
  }

  /** Unless it meets a type error, the sort gives the answer for the ranks, and no pair it asked about is mixed. */
  lemma {:induction false} AnswersByRank(t: Sorter, s: seq<Tuple>, sorted: seq<Tuple>, rank: seq<nat>)
    requires Ranks(s, sorted, rank)
    ensures SortTuples(t, s).Some? ==> SortTuples(t, s).value == Answer(t, rank)
    ensures SortTuples(t, s).Some? ==> forall x: nat, y: nat :: x < |s| && y < |s| && Asks(t, rank, x, y) ==> !Mixed(s[x], s[y])
    ensures SortTuples(t, s).None? ==> exists x: nat, y: nat :: x < |s| && y < |s| && Mixed(s[x], s[y])
  {
    match t
    case Done(_) =>
    case Ask(i, j, yes, no) =>
      AnswersByRank(yes, s, sorted, rank);
      AnswersByRank(no, s, sorted, rank);
      if i < |s| && j < |s| {
        LessIs(s[i], s[j]);
        MixedSymmetric(s[i], s[j]);
        if !Mixed(s[i], s[j]) { BelowIsLess(s, sorted, rank, i, j); }
      }
  }

  /** Between two mixed tuples of a sorted list there are two mixed neighbours. */
  lemma {:induction false} MixedNeighbours(sorted: seq<Tuple>, p: nat, q: nat) returns (a: nat)
    requires Sorted(TupleLe, sorted) && p < q < |sorted| && Mixed(sorted[p], sorted[q])
    ensures a + 1 < |sorted| && Mixed(sorted[a], sorted[a + 1])
    decreases q - p
  {
    if q == p + 1 {
      a := p;
    } else {
      MixedBetween(sorted[p], sorted[p + 1], sorted[q]);
      if Mixed(sorted[p], sorted[p + 1]) { a := p; } else { a := MixedNeighbours(sorted, p + 1, q); }
    }
  }

  lemma RankHolder(s: seq<Tuple>, sorted: seq<Tuple>, rank: seq<nat>, a: nat) returns (x: nat)
    requires Ranks(s, sorted, rank) && Pairings.Distinct(rank) && a < |s|
    ensures x < |s| && rank[x] == a
  {
    Pigeonhole(rank, |s|);
    assert a in rank;
    x :| x < |s| && rank[x] == a;
  }

  /** Every correct comparison sort fails on distinct tuples exactly when two of them are mixed; otherwise it sorts them. */
  lemma {:induction false} EveryCorrectSort(t: Sorter, s: seq<Tuple>)
    requires Correct(t, |s|) && DistinctTuples(s)
    ensures SortTuples(t, s).None? <==> exists i, j :: 0 <= i < |s| && 0 <= j < |s| && Mixed(s[i], s[j])
    ensures SortTuples(t, s).Some? ==>
      var order := SortTuples(t, s).value;
      |order| == |s| && forall k :: 0 <= k < |s| ==> order[k] < |s| && s[order[k]] == Sort(TupleLe, s)[k]
  {
    hide Sort, Mixed, Correct;
    var sorted, rank := RankTuples(s);
    AnswersByRank(t, s, sorted, rank);
    if SortTuples(t, s).Some? {
      if i, j :| 0 <= i < |s| && 0 <= j < |s| && Mixed(s[i], s[j]) { MixedIsMet(t, s, sorted, rank, i, j); }
      AnswerIsSorted(t, s, sorted, rank);
    }
  }

  lemma {:induction false} MixedIsMet(t: Sorter, s: seq<Tuple>, sorted: seq<Tuple>, rank: seq<nat>, i: nat, j: nat)
    requires Correct(t, |s|) && Ranks(s, sorted, rank) && Pairings.Distinct(rank)
    requires i < |s| && j < |s| && Mixed(s[i], s[j])
    ensures exists x: nat, y: nat :: x < |s| && y < |s| && Asks(t, rank, x, y) && Mixed(s[x], s[y])
  {
    hide Mixed, Correct;
    MixedSymmetric(s[i], s[j]);
    NeverMixedWithItself(s[i]);
    var p, q := if rank[i] < rank[j] then rank[i] else rank[j], if rank[i] < rank[j] then rank[j] else rank[i];
    var a := MixedNeighbours(sorted, p, q);
    var x := RankHolder(s, sorted, rank, a);
    var y := RankHolder(s, sorted, rank, a + 1);
    AdjacentAreCompared(t, rank, x, y);
  }

  lemma {:induction false} AnswerIsSorted(t: Sorter, s: seq<Tuple>, sorted: seq<Tuple>, rank: seq<nat>)
    requires Correct(t, |s|) && Ranks(s, sorted, rank) && Pairings.Distinct(rank)
    ensures var order := Answer(t, rank);
      |order| == |s| && forall k :: 0 <= k < |s| ==> order[k] < |s| && s[order[k]] == sorted[k]
  {
    var order := Answer(t, rank);
    assert Sorts(order, rank);
    hide *;
    SortedRanks(order, rank);
  }

  /** The k-th entry of the answer has rank k. */
  lemma SortedRanks(order: seq<nat>, rank: seq<nat>)
    requires Sorts(order, rank) && forall i :: 0 <= i < |rank| ==> rank[i] < |rank|
    ensures |order| == |rank| && forall k :: 0 <= k < |rank| ==> order[k] < |rank| && rank[order[k]] == k
  {
    var a := seq(|rank|, k requires 0 <= k < |rank| => rank[order[k]]);
    StrictlyIncreasing(a);
    forall k | 0 <= k < |rank| ensures rank[order[k]] == k { assert a[k] == k; }
  }

  /** As many increasing numbers as there are below a bound are all of them. */
  lemma StrictlyIncreasing(a: seq<nat>)
    requires (forall k :: 0 <= k < |a| ==> a[k] < |a|) && forall i, j :: 0 <= i < j < |a| ==> a[i] < a[j]
    ensures forall k :: 0 <= k < |a| ==> a[k] == k
  {
    forall k | 0 <= k < |a| ensures a[k] == k {
      AtLeast(a, k);
      AtMost(a, k);
    }
  }

  lemma {:induction false} AtLeast(a: seq<nat>, k: nat)
    requires k < |a| && forall i, j :: 0 <= i < j < |a| ==> a[i] < a[j]
    ensures a[k] >= k
  {
    if k > 0 { AtLeast(a, k - 1); }
  }

  lemma {:induction false} AtMost(a: seq<nat>, k: nat)
    requires k < |a| && (forall i :: 0 <= i < |a| ==> a[i] < |a|) && forall i, j :: 0 <= i < j < |a| ==> a[i] < a[j]
    ensures a[k] <= k
    decreases |a| - k
  {
    if k < |a| - 1 { AtMost(a, k + 1); }
  }
}
