/**
  What the comparison's counters count: one matching of the whole lists, pair by pair, and what it
  leaves over.
 */
module CompareWitness {
  import opened Options
  import opened Pairings
  import opened Rearranging
  import opened Sorting
  import opened Matching
  import opened JointPairing
  import opened Compare

  type Agreement = (Item, Item) -> bool

  predicate SameUsage(x: Item, y: Item) { x.usage == y.usage }

  predicate SameKeySize(x: Item, y: Item) { x.keySize == y.keySize }

  predicate SameMetadata(x: Item, y: Item) { x.usage == y.usage && x.keySize == y.keySize }

  predicate SameKnown(x: Item, y: Item) { x.keySize.Some? && x.keySize == y.keySize }

  ghost function Count(expected: seq<Item>, actual: seq<Item>, pairs: seq<Pair>, agree: Agreement): nat {
    |set k | 0 <= k < |pairs| && pairs[k].0 < |expected| && pairs[k].1 < |actual| && agree(expected[pairs[k].0], actual[pairs[k].1])|
  }

  // ----- counting -----

  lemma CountAppend(expected: seq<Item>, actual: seq<Item>, pairs: seq<Pair>, x: Pair, agree: Agreement)
    requires x.0 < |expected| && x.1 < |actual|
    ensures Count(expected, actual, pairs + [x], agree)
         == Count(expected, actual, pairs, agree) + Bit(agree(expected[x.0], actual[x.1]))
  {
    var n, more := |pairs|, pairs + [x];
    var before := set k | 0 <= k < n && pairs[k].0 < |expected| && pairs[k].1 < |actual| && agree(expected[pairs[k].0], actual[pairs[k].1]);
    var now := set k | 0 <= k < n + 1 && more[k].0 < |expected| && more[k].1 < |actual| && agree(expected[more[k].0], actual[more[k].1]);
    assert now == before + if agree(expected[x.0], actual[x.1]) then {n} else {};
  }

  ghost function UpTo(n: nat): (r: set<int>)
    ensures |r| == n && forall k :: k in r <==> 0 <= k < n
  {
    if n == 0 then {} else UpTo(n - 1) + {n - 1}
  }

  lemma CountAtMost(expected: seq<Item>, actual: seq<Item>, pairs: seq<Pair>, agree: Agreement)
    ensures Count(expected, actual, pairs, agree) <= |pairs|
  {
    var n := |pairs|;
    var counted := set k | 0 <= k < n && pairs[k].0 < |expected| && pairs[k].1 < |actual| && agree(expected[pairs[k].0], actual[pairs[k].1]);
    Fewer(counted, UpTo(n));
  }

  lemma Fewer(a: set<int>, b: set<int>)
    requires a <= b
    ensures |a| <= |b|
  {
    assert b == a + (b - a);
  }

  ghost predicate InRange(expected: seq<Item>, actual: seq<Item>, pairs: seq<Pair>) {
    forall k :: 0 <= k < |pairs| ==> pairs[k].0 < |expected| && pairs[k].1 < |actual|
  }

  lemma {:induction false} CountConcat(expected: seq<Item>, actual: seq<Item>, pairs: seq<Pair>, more: seq<Pair>, agree: Agreement)
    requires InRange(expected, actual, more)
    ensures Count(expected, actual, pairs + more, agree)
         == Count(expected, actual, pairs, agree) + Count(expected, actual, more, agree)
  {
    hide Count;
    if more == [] {
      assert pairs + more == pairs;
      CountAtMost(expected, actual, [], agree);
    } else {
      var front, x := more[..|more| - 1], more[|more| - 1];
      CountConcat(expected, actual, pairs, front, agree);
      SplitLast(more);
      assert pairs + more == (pairs + front) + [x];
      CountAppend(expected, actual, pairs + front, x, agree);
      CountAppend(expected, actual, front, x, agree);
    }
  }

  /** The items of s stand in t, each at a place of its own. */
  ghost predicate Places(f: seq<nat>, s: seq<Item>, t: seq<Item>) {
    && |f| == |s| && Distinct(f) && Below(f, |t|)
    && forall i :: 0 <= i < |s| ==> s[i] == t[f[i]]
  }

  lemma CountMoved(expected: seq<Item>, actual: seq<Item>, labels: seq<Item>, findings: seq<Item>, f: seq<nat>, g: seq<nat>,
                   pairs: seq<Pair>, agree: Agreement)
    requires Places(f, labels, expected) && Places(g, findings, actual) && InRange(labels, findings, pairs)
    ensures Count(expected, actual, Moved(pairs, f, g), agree) == Count(labels, findings, pairs, agree)
  {
    var moved := Moved(pairs, f, g);
    var here := set k | 0 <= k < |pairs| && pairs[k].0 < |labels| && pairs[k].1 < |findings| && agree(labels[pairs[k].0], findings[pairs[k].1]);
    var there := set k | 0 <= k < |moved| && moved[k].0 < |expected| && moved[k].1 < |actual| && agree(expected[moved[k].0], actual[moved[k].1]);
    assert here == there;
  }

  // ----- the counters of one identity -----

  /** The counters are those at the start and one for each agreeing pair. */
  ghost predicate Counted(labels: seq<Item>, findings: seq<Item>, pairs: seq<Pair>, counts: Counts, r: Counts) {
    && r.usageCorrect == counts.usageCorrect + Count(labels, findings, pairs, SameUsage)
    && r.keySizeCorrect == counts.keySizeCorrect + Count(labels, findings, pairs, SameKeySize)
    && r.pairCorrect == counts.pairCorrect + Count(labels, findings, pairs, SameMetadata)
    && r.knownCorrect == counts.knownCorrect + Count(labels, findings, pairs, SameKnown)
  }

  lemma {:induction false} AddPairsCounted(labels: seq<Item>, findings: seq<Item>, pairs: seq<Pair>, counts: Counts, k: nat)
    requires IsPairing(pairs, |labels|, |findings|) && k <= |pairs|
    ensures Counted(labels, findings, pairs[..k], counts, AddPairs(labels, findings, pairs, counts, k))
  {
    hide Count;
    if k == 0 {
      CountAtMost(labels, findings, [], SameUsage);
      CountAtMost(labels, findings, [], SameKeySize);
      CountAtMost(labels, findings, [], SameMetadata);
      CountAtMost(labels, findings, [], SameKnown);
    } else {
      AddPairsCounted(labels, findings, pairs, counts, k - 1);
      var x := pairs[k - 1];
      assert pairs[..k] == pairs[..k - 1] + [x];
      CountAppend(labels, findings, pairs[..k - 1], x, SameUsage);
      CountAppend(labels, findings, pairs[..k - 1], x, SameKeySize);
      CountAppend(labels, findings, pairs[..k - 1], x, SameMetadata);
      CountAppend(labels, findings, pairs[..k - 1], x, SameKnown);
    }
  }

  /** The items left over and those at the positions of side make up all. */
  lemma {:induction false} LeftMarks(items: seq<Item>, side: seq<nat>, k: nat, x: Item)
    requires k <= |items|
    ensures multiset(Left(items, side, k))[x] == Sum(seq(k, i requires 0 <= i < k => if i in side then 0 else Marks(items, x)[i]))
  {
    var marks := seq(k, i requires 0 <= i < k => if i in side then 0 else Marks(items, x)[i]);
    if k > 0 {
      LeftMarks(items, side, k - 1, x);
      assert marks[..k - 1] == seq(k - 1, i requires 0 <= i < k - 1 => if i in side then 0 else Marks(items, x)[i]);
    }
  }

  lemma {:induction false} PickedMarks(items: seq<Item>, side: seq<nat>, x: Item)
    requires Below(side, |items|)
    ensures PickSum(Marks(items, x), side) == multiset(At(items, side))[x]
  {
    if side != [] {
      var front := side[..|side| - 1];
      PickedMarks(items, front, x);
      assert At(items, side) == At(items, front) + [items[side[|side| - 1]]];
    }
  }

  lemma {:induction false} LeftAndPicked(items: seq<Item>, side: seq<nat>, x: Item)
    requires Distinct(side) && Below(side, |items|)
    ensures multiset(Left(items, side, |items|))[x] + multiset(At(items, side))[x] == multiset(items)[x]
  {
    var marks := Marks(items, x);
    var rest := seq(|items|, i requires 0 <= i < |items| => if i in side then 0 else marks[i]);
    var picked := seq(|items|, i requires 0 <= i < |items| => if i in side then marks[i] else 0);
    MarksCount(items, x);
    LeftMarks(items, side, |items|, x);
    PickedMarks(items, side, x);
    SumSplits(marks, rest, picked);
    PickSumAgrees(marks, picked, side);
    PickSumAll(picked, side);
  }

  // ----- pools as parts of the lists -----

  lemma {:induction false} PoolPlaces(items: seq<Item>, id: Identity) returns (f: seq<nat>)
    ensures Places(f, Pool(items, id), items)
  {
    if items == [] {
      f := [];
    } else {
      var last := |items| - 1;
      f := PoolPlaces(items[..last], id);
      if IdentityOf(items[last]) == id { f := f + [last]; }
    }
  }

  lemma SortedPlaces(le: ItemOrder, items: seq<Item>, id: Identity) returns (f: seq<nat>)
    ensures Places(f, Sort(le, Pool(items, id)), items) && |f| == |Sort(le, Pool(items, id))|
  {
    hide Sort, Pool;
    var pool := Pool(items, id);
    var g := PoolPlaces(items, id);
    var h := Rearranged(Sort(le, pool), pool);
    f := seq(|h|, i requires 0 <= i < |h| => g[h[i]]);
    forall i, j | 0 <= i < j < |f| ensures f[i] != f[j] { assert h[i] != h[j]; }
  }

  lemma MovedItems(items: seq<Item>, labels: seq<Item>, f: seq<nat>, side: seq<nat>, moved: seq<nat>)
    requires Places(f, labels, items) && Below(side, |labels|) && |moved| == |side|
    requires forall k :: 0 <= k < |side| ==> moved[k] == f[side[k]]
    ensures Below(moved, |items|) && At(items, moved) == At(labels, side)
  {
  }

  /** What one identity leaves over, with what it pairs, is what the list has of it. */
  ghost predicate Splits(items: seq<Item>, id: Identity, left: seq<Item>, side: seq<nat>) {
    Below(side, |items|)
    && forall x :: multiset(left)[x] + multiset(At(items, side))[x] == if IdentityOf(x) == id then multiset(items)[x] else 0
  }

  lemma {:induction false} SideSplits(le: ItemOrder, items: seq<Item>, id: Identity, f: seq<nat>, side: seq<nat>, moved: seq<nat>)
    requires Places(f, Sort(le, Pool(items, id)), items)
    requires Distinct(side) && Below(side, |Pool(items, id)|) && |moved| == |side|
    requires forall k :: 0 <= k < |side| ==> moved[k] == f[side[k]]
    ensures var labels := Sort(le, Pool(items, id)); Splits(items, id, Left(labels, side, |labels|), moved)
  {
    hide Sort, Pool, Left, Places;
    var labels := Sort(le, Pool(items, id));
    MovedItems(items, labels, f, side, moved);
    forall x ensures multiset(Left(labels, side, |labels|))[x] + multiset(At(items, moved))[x]
                  == if IdentityOf(x) == id then multiset(items)[x] else 0
    {
      LeftAndPicked(labels, side, x);
      PoolMultiset(items, id, x);
    }
  }

  // ----- one identity, in positions of the whole lists -----

  ghost predicate OfIdentity(expected: seq<Item>, actual: seq<Item>, pairs: seq<Pair>, id: Identity) {
    && IsPairing(pairs, |expected|, |actual|)
    && forall k :: 0 <= k < |pairs| ==> IdentityOf(expected[pairs[k].0]) == id && IdentityOf(actual[pairs[k].1]) == id
  }

  lemma OwnPairs(le: ItemOrder, expected: seq<Item>, actual: seq<Item>, id: Identity, counts: Counts)
    returns (own: seq<Pair>, missed: seq<Item>, unexpected: seq<Item>)
    ensures OfIdentity(expected, actual, own, id)
    ensures var r := AddIdentity(le, Sort(le, Pool(expected, id)), Sort(le, Pool(actual, id)), counts);
      && r.tp == counts.tp + |own| && Counted(expected, actual, own, counts, r)
      && r.missed == counts.missed + missed && r.unexpected == counts.unexpected + unexpected
    ensures Splits(expected, id, missed, Lefts(own)) && Splits(actual, id, unexpected, Rights(own))
    ensures missed == [] || unexpected == []
  {
    var labels, findings := Sort(le, Pool(expected, id)), Sort(le, Pool(actual, id));
    hide JointPairs, Sort, Pool, Left, AddIdentity, Sorted, Count, Places, Splits, OfIdentity;
    var f := SortedPlaces(le, expected, id);
    var g := SortedPlaces(le, actual, id);
    var pairs := JointPairs(le, labels, findings);
    JointIsPairing(le, labels, findings);
    own := Moved(pairs, f, g);
    missed, unexpected := Left(labels, Lefts(pairs), |labels|), Left(findings, Rights(pairs), |findings|);
    LeftIsRest(labels, Lefts(pairs));
    LeftIsRest(findings, Rights(pairs));
    AddIdentityCounted(le, labels, findings, counts);
    CountsMoved(expected, actual, labels, findings, f, g, pairs);
    MovedOfIdentity(le, expected, actual, id, f, g, pairs);
    SideSplits(le, expected, id, f, Lefts(pairs), Lefts(own));
    SideSplits(le, actual, id, g, Rights(pairs), Rights(own));
  }

  lemma {:induction false} MovedOfIdentity(le: ItemOrder, expected: seq<Item>, actual: seq<Item>, id: Identity, f: seq<nat>, g: seq<nat>, pairs: seq<Pair>)
    requires Places(f, Sort(le, Pool(expected, id)), expected) && Places(g, Sort(le, Pool(actual, id)), actual)
    requires IsPairing(pairs, |f|, |g|)
    ensures OfIdentity(expected, actual, Moved(pairs, f, g), id)
  {
    hide Sort, Pool;
    var labels, findings := Sort(le, Pool(expected, id)), Sort(le, Pool(actual, id));
    MovedIsPairing(f, g, |expected|, |actual|, pairs);
    var own := Moved(pairs, f, g);
    forall k | 0 <= k < |own| ensures IdentityOf(expected[own[k].0]) == id && IdentityOf(actual[own[k].1]) == id {
      assert labels[pairs[k].0] in multiset(Pool(expected, id)) && findings[pairs[k].1] in multiset(Pool(actual, id));
    }
  }

  lemma CountsMoved(expected: seq<Item>, actual: seq<Item>, labels: seq<Item>, findings: seq<Item>, f: seq<nat>, g: seq<nat>, pairs: seq<Pair>)
    requires Places(f, labels, expected) && Places(g, findings, actual) && InRange(labels, findings, pairs)
    ensures var moved := Moved(pairs, f, g);
      && Count(expected, actual, moved, SameUsage) == Count(labels, findings, pairs, SameUsage)
      && Count(expected, actual, moved, SameKeySize) == Count(labels, findings, pairs, SameKeySize)
      && Count(expected, actual, moved, SameMetadata) == Count(labels, findings, pairs, SameMetadata)
      && Count(expected, actual, moved, SameKnown) == Count(labels, findings, pairs, SameKnown)
  {
    CountMoved(expected, actual, labels, findings, f, g, pairs, SameUsage);
    CountMoved(expected, actual, labels, findings, f, g, pairs, SameKeySize);
    CountMoved(expected, actual, labels, findings, f, g, pairs, SameMetadata);
    CountMoved(expected, actual, labels, findings, f, g, pairs, SameKnown);
  }

  lemma {:induction false} AddIdentityCounted(le: ItemOrder, labels: seq<Item>, findings: seq<Item>, counts: Counts)
    ensures var r := AddIdentity(le, labels, findings, counts);
      var pairs := JointPairs(le, labels, findings);
      && r.tp == counts.tp + |pairs| && Counted(labels, findings, pairs, counts, r)
      && r.missed == counts.missed + Left(labels, Lefts(pairs), |labels|)
      && r.unexpected == counts.unexpected + Left(findings, Rights(pairs), |findings|)
  {
    hide JointPairs, Known, Left, AddPairs, Count, Sorted;
    JointIsPairing(le, labels, findings);
    var pairs := JointPairs(le, labels, findings);
    var unexpected := Left(findings, Rights(pairs), |findings|);
    assert pairs[..|pairs|] == pairs;
    var start := counts.(tp := counts.tp + |pairs|, fp := counts.fp + |unexpected|);
    AddPairsCounts(labels, findings, pairs, start, |pairs|);
    AddPairsCounted(labels, findings, pairs, start, |pairs|);
  }

  // ----- all identities -----

  /** What is left over and what is paired make up what the list has of the identities. */
  ghost predicate SplitsOver(items: seq<Item>, ids: seq<Identity>, left: seq<Item>, side: seq<nat>) {
    Below(side, |items|)
    && forall x :: multiset(left)[x] + multiset(At(items, side))[x] == if IdentityOf(x) in ids then multiset(items)[x] else 0
  }

  lemma SplitsMore(items: seq<Item>, ids: seq<Identity>, id: Identity, left: seq<Item>, side: seq<nat>, more: seq<Item>, moreSide: seq<nat>)
    requires SplitsOver(items, ids, left, side) && Splits(items, id, more, moreSide) && id !in ids
    ensures SplitsOver(items, ids + [id], left + more, side + moreSide)
  {
    assert At(items, side + moreSide) == At(items, side) + At(items, moreSide);
  }

  ghost predicate OfIdentities(expected: seq<Item>, actual: seq<Item>, pairs: seq<Pair>, ids: seq<Identity>) {
    && IsPairing(pairs, |expected|, |actual|)
    && forall k :: 0 <= k < |pairs| ==>
         IdentityOf(expected[pairs[k].0]) in ids && IdentityOf(expected[pairs[k].0]) == IdentityOf(actual[pairs[k].1])
  }

  lemma OfMoreIdentities(expected: seq<Item>, actual: seq<Item>, ids: seq<Identity>, id: Identity, pairs: seq<Pair>, own: seq<Pair>)
    requires OfIdentities(expected, actual, pairs, ids) && OfIdentity(expected, actual, own, id) && id !in ids
    ensures OfIdentities(expected, actual, pairs + own, ids + [id])
  {
    forall i, j | 0 <= i < |pairs| && 0 <= j < |own| ensures pairs[i].0 != own[j].0 && pairs[i].1 != own[j].1 {
      assert IdentityOf(expected[pairs[i].0]) != IdentityOf(expected[own[j].0]);
    }
  }

  /** No item is missed that is also unexpected, under the same identity. */
  ghost predicate Apart(missed: seq<Item>, unexpected: seq<Item>) {
    forall x, y :: x in missed && y in unexpected ==> IdentityOf(x) != IdentityOf(y)
  }

  lemma LeftIn(items: seq<Item>, id: Identity, left: seq<Item>, side: seq<nat>)
    requires Splits(items, id, left, side)
    ensures forall x :: x in left ==> IdentityOf(x) == id
  {
    forall x | x in left ensures IdentityOf(x) == id { assert multiset(left)[x] > 0; }
  }

  lemma LeftInAll(items: seq<Item>, ids: seq<Identity>, left: seq<Item>, side: seq<nat>)
    requires SplitsOver(items, ids, left, side)
    ensures forall x :: x in left ==> IdentityOf(x) in ids
  {
    forall x | x in left ensures IdentityOf(x) in ids { assert multiset(left)[x] > 0; }
  }

  /** The counters after some identities are those of one matching within them. */
  ghost predicate Witnessed(expected: seq<Item>, actual: seq<Item>, ids: seq<Identity>, pairs: seq<Pair>, r: Counts) {
    && OfIdentities(expected, actual, pairs, ids)
    && r.tp == |pairs| && Counted(expected, actual, pairs, NOTHING, r)
    && SplitsOver(expected, ids, r.missed, Lefts(pairs)) && SplitsOver(actual, ids, r.unexpected, Rights(pairs))
    && Apart(r.missed, r.unexpected)
  }

  lemma NothingWitnessed(expected: seq<Item>, actual: seq<Item>)
    ensures Witnessed(expected, actual, [], [], NOTHING)
  {
    CountAtMost(expected, actual, [], SameUsage);
    CountAtMost(expected, actual, [], SameKeySize);
    CountAtMost(expected, actual, [], SameMetadata);
    CountAtMost(expected, actual, [], SameKnown);
  }

  lemma CountedMore(expected: seq<Item>, actual: seq<Item>, pairs: seq<Pair>, own: seq<Pair>, counts: Counts, r: Counts)
    requires Counted(expected, actual, pairs, NOTHING, counts) && Counted(expected, actual, own, counts, r)
    requires IsPairing(own, |expected|, |actual|)
    ensures Counted(expected, actual, pairs + own, NOTHING, r)
  {
    hide Count;
    CountConcat(expected, actual, pairs, own, SameUsage);
    CountConcat(expected, actual, pairs, own, SameKeySize);
    CountConcat(expected, actual, pairs, own, SameMetadata);
    CountConcat(expected, actual, pairs, own, SameKnown);
  }

  lemma OneMoreIdentity(le: ItemOrder, expected: seq<Item>, actual: seq<Item>, ids: seq<Identity>, id: Identity, pairs: seq<Pair>, counts: Counts)
    returns (more: seq<Pair>)
    requires Witnessed(expected, actual, ids, pairs, counts) && id !in ids
    ensures Witnessed(expected, actual, ids + [id], more,
                      AddIdentity(le, Sort(le, Pool(expected, id)), Sort(le, Pool(actual, id)), counts))
  {
    hide AddIdentity, Sort, Pool, Counted, OfIdentities, OfIdentity, Splits, SplitsOver;
    var own, missed, unexpected := OwnPairs(le, expected, actual, id, counts);
    more := pairs + own;
    CountedMore(expected, actual, pairs, own, counts, AddIdentity(le, Sort(le, Pool(expected, id)), Sort(le, Pool(actual, id)), counts))
      by { assert IsPairing(own, |expected|, |actual|) by { OwnIsPairing(expected, actual, own, id); } }
    OfMoreIdentities(expected, actual, ids, id, pairs, own);
    assert Lefts(more) == Lefts(pairs) + Lefts(own) && Rights(more) == Rights(pairs) + Rights(own);
    SplitsMore(expected, ids, id, counts.missed, Lefts(pairs), missed, Lefts(own));
    SplitsMore(actual, ids, id, counts.unexpected, Rights(pairs), unexpected, Rights(own));
    LeftIn(expected, id, missed, Lefts(own));
    LeftIn(actual, id, unexpected, Rights(own));
    LeftInAll(expected, ids, counts.missed, Lefts(pairs));
    LeftInAll(actual, ids, counts.unexpected, Rights(pairs));
  }

  lemma OwnIsPairing(expected: seq<Item>, actual: seq<Item>, own: seq<Pair>, id: Identity)
    requires OfIdentity(expected, actual, own, id)
    ensures IsPairing(own, |expected|, |actual|)
  {
  }

  lemma {:induction false} IdentitiesWitnessed(le: ItemOrder, expected: seq<Item>, actual: seq<Item>, ids: seq<Identity>) returns (pairs: seq<Pair>)
    requires Distinct(ids)
    ensures Witnessed(expected, actual, ids, pairs, AddIdentities(le, expected, actual, ids))
  {
    hide Witnessed, AddIdentity, Sort, Pool;
    if ids == [] {
      NothingWitnessed(expected, actual);
      pairs := [];
    } else {
      var before, id := ids[..|ids| - 1], ids[|ids| - 1];
      SplitLast(ids);
      pairs := IdentitiesWitnessed(le, expected, actual, before);
      pairs := OneMoreIdentity(le, expected, actual, before, id, pairs, AddIdentities(le, expected, actual, before));
    }
  }

  // ----- what is reported -----

  /** The same file, line and algorithm. */
  predicate SamePlace(x: Item, y: Item) { x.file == y.file && x.line == y.line && x.algorithm == y.algorithm }

  /**
    The report of one one-to-one matching of items at the same place: how many pairs it has, how many of
    them agree on usage, on key size, on both and on a known key size, and which items it leaves over;
    nothing that it leaves over on one side could be paired with anything on the other.
   */
  ghost predicate ReportOf(expected: seq<Item>, actual: seq<Item>, pairs: seq<Pair>, r: Counts) {
    && IsPairing(pairs, |expected|, |actual|)
    && (forall k :: 0 <= k < |pairs| ==> SamePlace(expected[pairs[k].0], actual[pairs[k].1]))
    && r.tp == |pairs|
    && r.usageCorrect == Count(expected, actual, pairs, SameUsage)
    && r.keySizeCorrect == Count(expected, actual, pairs, SameKeySize)
    && r.pairCorrect == Count(expected, actual, pairs, SameMetadata)
    && r.knownCorrect == Count(expected, actual, pairs, SameKnown)
    && multiset(r.missed) + multiset(At(expected, Lefts(pairs))) == multiset(expected)
    && multiset(r.unexpected) + multiset(At(actual, Rights(pairs))) == multiset(actual)
    && forall x, y :: x in r.missed && y in r.unexpected ==> !SamePlace(x, y)
  }

  /** All that is reported is the report of one matching. */
  lemma ComparedBy(le: ItemOrder, leId: IdentityOrder, expected: seq<Item>, actual: seq<Item>) returns (pairs: seq<Pair>)
    ensures ReportOf(expected, actual, pairs, CompareCounts(le, leId, expected, actual))
  {
    var ids := Identities(leId, expected, actual);
    AllCovered(leId, expected, actual);
    hide Identities, Witnessed, ReportOf;
    pairs := IdentitiesWitnessed(le, expected, actual, ids);
    WitnessReports(expected, actual, ids, pairs, AddIdentities(le, expected, actual, ids));
  }

  lemma AllCovered(leId: IdentityOrder, expected: seq<Item>, actual: seq<Item>)
    ensures var ids := Identities(leId, expected, actual);
      && Distinct(ids) && (forall x :: x in expected ==> IdentityOf(x) in ids) && (forall x :: x in actual ==> IdentityOf(x) in ids)
  {
    var ids := Identities(leId, expected, actual);
    hide Identities;
    IdentitiesCover(leId, expected, actual);
    forall x | x in expected ensures IdentityOf(x) in ids { Covers(expected, x); }
    forall x | x in actual ensures IdentityOf(x) in ids { Covers(actual, x); }
  }

  lemma WitnessReports(expected: seq<Item>, actual: seq<Item>, ids: seq<Identity>, pairs: seq<Pair>, r: Counts)
    requires Witnessed(expected, actual, ids, pairs, r)
    requires (forall x :: x in expected ==> IdentityOf(x) in ids) && (forall x :: x in actual ==> IdentityOf(x) in ids)
    ensures ReportOf(expected, actual, pairs, r)
  {
    hide Counted, SplitsOver;
    SplitsAll(expected, ids, r.missed, Lefts(pairs));
    SplitsAll(actual, ids, r.unexpected, Rights(pairs));
    CountedFromNothing(expected, actual, pairs, r);
  }

  lemma CountedFromNothing(expected: seq<Item>, actual: seq<Item>, pairs: seq<Pair>, r: Counts)
    requires Counted(expected, actual, pairs, NOTHING, r)
    ensures r.usageCorrect == Count(expected, actual, pairs, SameUsage) && r.keySizeCorrect == Count(expected, actual, pairs, SameKeySize)
    ensures r.pairCorrect == Count(expected, actual, pairs, SameMetadata) && r.knownCorrect == Count(expected, actual, pairs, SameKnown)
  {
  }

  lemma Covers(items: seq<Item>, x: Item)
    requires x in items
    ensures IdentityOf(x) in Bag(items)
  {
    var i :| 0 <= i < |items| && items[i] == x;
    assert IdentitiesOf(items)[i] == IdentityOf(x);
  }

  lemma SplitsAll(items: seq<Item>, ids: seq<Identity>, left: seq<Item>, side: seq<nat>)
    requires SplitsOver(items, ids, left, side) && forall x :: x in items ==> IdentityOf(x) in ids
    ensures Below(side, |items|) && multiset(left) + multiset(At(items, side)) == multiset(items)
  {
    forall x ensures (multiset(left) + multiset(At(items, side)))[x] == multiset(items)[x] {
      assert multiset(items)[x] > 0 ==> x in items;
    }
  }

  // ----- how the counters bound each other -----

  /** Joint agreement is agreement on both, counted by inclusion and exclusion. */
  lemma {:induction false} CountsRelate(expected: seq<Item>, actual: seq<Item>, pairs: seq<Pair>)
    requires InRange(expected, actual, pairs)
    ensures var usage, keySize, both, known := Count(expected, actual, pairs, SameUsage), Count(expected, actual, pairs, SameKeySize),
                                               Count(expected, actual, pairs, SameMetadata), Count(expected, actual, pairs, SameKnown);
      both <= usage && both <= keySize && usage + keySize <= |pairs| + both && known <= keySize
  {
    hide Count;
    if pairs == [] {
      CountAtMost(expected, actual, [], SameUsage);
      CountAtMost(expected, actual, [], SameKeySize);
      CountAtMost(expected, actual, [], SameMetadata);
      CountAtMost(expected, actual, [], SameKnown);
    } else {
      var front, x := pairs[..|pairs| - 1], pairs[|pairs| - 1];
      SplitLast(pairs);
      CountsRelate(expected, actual, front);
      CountAppend(expected, actual, front, x, SameUsage);
      CountAppend(expected, actual, front, x, SameKeySize);
      CountAppend(expected, actual, front, x, SameMetadata);
      CountAppend(expected, actual, front, x, SameKnown);
    }
  }

  /** What a pair agrees on: a key of either item, the same for both when they agree. */
  type Key = Item -> Option<Item>

  function KeysOf(items: seq<Item>, key: Key): (r: seq<Option<Item>>)
    ensures |r| == |items| && forall i :: 0 <= i < |items| ==> r[i] == key(items[i])
  {
    seq(|items|, i requires 0 <= i < |items| => key(items[i]))
  }

  /** The pairs whose items agree. */
  function AgreeingPairs(expected: seq<Item>, actual: seq<Item>, pairs: seq<Pair>, agree: Agreement): (r: seq<Pair>)
    requires InRange(expected, actual, pairs)
    ensures forall x :: x in r ==> x in pairs && x.0 < |expected| && x.1 < |actual| && agree(expected[x.0], actual[x.1])
  {
    if pairs == [] then []
    else
      var before, x := AgreeingPairs(expected, actual, pairs[..|pairs| - 1], agree), pairs[|pairs| - 1];
      if agree(expected[x.0], actual[x.1]) then before + [x] else before
  }

  lemma {:induction false} AgreeingCount(expected: seq<Item>, actual: seq<Item>, pairs: seq<Pair>, agree: Agreement)
    requires InRange(expected, actual, pairs)
    ensures |AgreeingPairs(expected, actual, pairs, agree)| == Count(expected, actual, pairs, agree)
  {
    hide Count;
    if pairs == [] {
      CountAtMost(expected, actual, [], agree);
    } else {
      var front, x := pairs[..|pairs| - 1], pairs[|pairs| - 1];
      SplitLast(pairs);
      AgreeingCount(expected, actual, front, agree);
      CountAppend(expected, actual, front, x, agree);
    }
  }

  lemma PairingAppend(pairs: seq<Pair>, x: Pair, n: nat, m: nat)
    requires IsPairing(pairs, n, m) && x.0 < n && x.1 < m && forall y :: y in pairs ==> y.0 != x.0 && y.1 != x.1
    ensures IsPairing(pairs + [x], n, m)
  {
  }

  lemma LastDiffers(pairs: seq<Pair>, n: nat, m: nat)
    requires IsPairing(pairs, n, m) && pairs != []
    ensures var front, x := pairs[..|pairs| - 1], pairs[|pairs| - 1];
      IsPairing(front, n, m) && x.0 < n && x.1 < m && forall y :: y in front ==> y.0 != x.0 && y.1 != x.1
  {
  }

  lemma {:induction false} AgreeingIsPairing(expected: seq<Item>, actual: seq<Item>, pairs: seq<Pair>, agree: Agreement)
    requires IsPairing(pairs, |expected|, |actual|)
    ensures IsPairing(AgreeingPairs(expected, actual, pairs, agree), |expected|, |actual|)
  {
    if pairs != [] {
      var front, x := pairs[..|pairs| - 1], pairs[|pairs| - 1];
      LastDiffers(pairs, |expected|, |actual|);
      hide IsPairing;
      assert InRange(expected, actual, front);
      AgreeingIsPairing(expected, actual, front, agree);
      var before := AgreeingPairs(expected, actual, front, agree);
      if agree(expected[x.0], actual[x.1]) { PairingAppend(before, x, |expected|, |actual|); }
    }
  }

  lemma {:induction false} PickedAtMost<T>(s: seq<T>, side: seq<nat>, x: T)
    requires Distinct(side) && Below(side, |s|)
    ensures multiset(At(s, side))[x] <= multiset(s)[x]
  {
    var marks := Marks(s, x);
    var picked := seq(|s|, i requires 0 <= i < |s| => if i in side then marks[i] else 0);
    MarksCount(s, x);
    MarksPicked(s, side, x);
    PickSumAgrees(marks, picked, side);
    PickSumAll(picked, side);
    SumAtMost(picked, marks);
  }

  lemma {:induction false} MarksPicked<T>(s: seq<T>, side: seq<nat>, x: T)
    requires Below(side, |s|)
    ensures PickSum(Marks(s, x), side) == multiset(At(s, side))[x]
  {
    if side != [] {
      var front := side[..|side| - 1];
      MarksPicked(s, front, x);
      assert At(s, side) == At(s, front) + [s[side[|side| - 1]]];
    }
  }

  lemma {:induction false} SumAtMost(a: seq<int>, b: seq<int>)
    requires |a| == |b| && forall i :: 0 <= i < |a| ==> a[i] <= b[i]
    ensures Sum(a) <= Sum(b)
  {
    if a != [] { SumAtMost(a[..|a| - 1], b[..|b| - 1]); }
  }

  /** Agreeing pairs are at most as many as the keys that both lists have in common, counted as often as both have them. */
  lemma {:induction false} AgreeingAtMost(expected: seq<Item>, actual: seq<Item>, pairs: seq<Pair>, agree: Agreement, key: Key)
    requires IsPairing(pairs, |expected|, |actual|)
    requires forall k :: 0 <= k < |pairs| && agree(expected[pairs[k].0], actual[pairs[k].1]) ==>
      key(expected[pairs[k].0]) == key(actual[pairs[k].1]) != None
    ensures Count(expected, actual, pairs, agree) <= |(multiset(KeysOf(expected, key)) * multiset(KeysOf(actual, key)))[None := 0]|
  {
    hide Count, AgreeingPairs;
    var own := AgreeingPairs(expected, actual, pairs, agree);
    AgreeingCount(expected, actual, pairs, agree);
    AgreeingIsPairing(expected, actual, pairs, agree);
    var left, right := At(KeysOf(expected, key), Lefts(own)), At(KeysOf(actual, key), Rights(own));
    forall k | 0 <= k < |own| ensures left[k] == right[k] != None { assert own[k] in own; }
    assert left == right;
    var common := (multiset(KeysOf(expected, key)) * multiset(KeysOf(actual, key)))[None := 0];
    forall x ensures multiset(left)[x] <= common[x] {
      PickedAtMost(KeysOf(expected, key), Lefts(own), x);
      PickedAtMost(KeysOf(actual, key), Rights(own), x);
      if x == None { assert x !in left; }
    }
    assert common == multiset(left) + (common - multiset(left));
  }

  function WholeItem(x: Item): Option<Item> { Some(x) }

  /** Place and known key size. */
  function KnownKey(x: Item): Option<Item> { if x.keySize.Some? then Some(x.(usage := "")) else None }

  lemma {:induction false} WholeKeys(items: seq<Item>, x: Item)
    ensures multiset(KeysOf(items, WholeItem))[Some(x)] == multiset(items)[x]
  {
    if items != [] {
      var front, last := items[..|items| - 1], items[|items| - 1];
      WholeKeys(front, x);
      SplitLast(items);
      assert KeysOf(items, WholeItem) == KeysOf(front, WholeItem) + [Some(last)];
    }
  }

  lemma {:induction false} SameSize(m: multiset<Item>, lifted: multiset<Option<Item>>)
    requires lifted[None] == 0 && forall x :: lifted[Some(x)] == m[x]
    ensures |lifted| == |m|
    decreases |m|
  {
    if m == multiset{} {
      assert lifted == multiset{} by {
        forall k ensures lifted[k] == 0 { if k.Some? { assert lifted[Some(k.value)] == m[k.value]; } }
      }
    } else {
      var x :| x in m;
      SameSize(m - multiset{x}, lifted - multiset{Some(x)});
    }
  }

  lemma WholeCommon(expected: seq<Item>, actual: seq<Item>)
    ensures |(multiset(KeysOf(expected, WholeItem)) * multiset(KeysOf(actual, WholeItem)))[None := 0]| == |multiset(expected) * multiset(actual)|
  {
    hide KeysOf;
    var lifted := (multiset(KeysOf(expected, WholeItem)) * multiset(KeysOf(actual, WholeItem)))[None := 0];
    forall x ensures lifted[Some(x)] == (multiset(expected) * multiset(actual))[x] {
      WholeKeys(expected, x);
      WholeKeys(actual, x);
    }
    SameSize(multiset(expected) * multiset(actual), lifted);
  }

  /** How the reported counters bound each other, and what the lists have in common bounds them. */
  lemma {:induction false} MetadataBounds(le: ItemOrder, leId: IdentityOrder, expected: seq<Item>, actual: seq<Item>)
    ensures var r := CompareCounts(le, leId, expected, actual);
      && r.pairCorrect <= r.usageCorrect && r.pairCorrect <= r.keySizeCorrect
      && r.usageCorrect + r.keySizeCorrect <= r.tp + r.pairCorrect
      && r.knownCorrect <= r.keySizeCorrect
      && r.pairCorrect <= |multiset(expected) * multiset(actual)|
      && r.knownCorrect <= |(multiset(KeysOf(expected, KnownKey)) * multiset(KeysOf(actual, KnownKey)))[None := 0]|
  {
    hide Count;
    var pairs := ComparedBy(le, leId, expected, actual);
    CountsRelate(expected, actual, pairs);
    AgreeingAtMost(expected, actual, pairs, SameMetadata, WholeItem);
    AgreeingAtMost(expected, actual, pairs, SameKnown, KnownKey);
    WholeCommon(expected, actual);
  }

  // ----- the order of what is left over -----

  /** By identity, and items of one identity by their own order. */
  ghost predicate Listed(le: ItemOrder, leId: IdentityOrder, items: seq<Item>) {
    forall i, j :: 0 <= i < j < |items| ==>
      if IdentityOf(items[i]) == IdentityOf(items[j]) then le(items[i], items[j]) else leId(IdentityOf(items[i]), IdentityOf(items[j]))
  }

  lemma {:induction false} LeftSorted(le: ItemOrder, items: seq<Item>, side: seq<nat>, k: nat)
    requires k <= |items| && Sorted(le, items)
    ensures Sorted(le, Left(items, side, k))
    ensures forall x, j :: x in Left(items, side, k) && k <= j < |items| ==> le(x, items[j])
  {
    if k > 0 {
      LeftSorted(le, items, side, k - 1);
      var before := Left(items, side, k - 1);
      assert forall i :: 0 <= i < |before| ==> before[i] in before;
    }
  }

  lemma ListedMore(le: ItemOrder, leId: IdentityOrder, ids: seq<Identity>, id: Identity, before: seq<Item>, more: seq<Item>)
    requires Listed(le, leId, before) && Sorted(le, more) && Sorted(leId, ids + [id]) && id !in ids
    requires (forall x :: x in before ==> IdentityOf(x) in ids) && (forall x :: x in more ==> IdentityOf(x) == id)
    ensures Listed(le, leId, before + more)
  {
    var all := before + more;
    forall i, j | 0 <= i < j < |all|
      ensures if IdentityOf(all[i]) == IdentityOf(all[j]) then le(all[i], all[j]) else leId(IdentityOf(all[i]), IdentityOf(all[j]))
    {
      if i < |before| <= j {
        assert before[i] in before && more[j - |before|] in more;
        var k :| 0 <= k < |ids| && ids[k] == IdentityOf(before[i]);
        assert leId((ids + [id])[k], (ids + [id])[|ids|]);
      } else if |before| <= i {
        assert more[i - |before|] in more && more[j - |before|] in more;
      }
    }
  }

  lemma {:induction false} LeftOver(le: ItemOrder, items: seq<Item>, id: Identity, side: seq<nat>)
    requires TotalOrder(le)
    ensures var labels := Sort(le, Pool(items, id)); var left := Left(labels, side, |labels|);
      Sorted(le, left) && forall x :: x in left ==> IdentityOf(x) == id
  {
    hide Sort, Pool;
    var labels := Sort(le, Pool(items, id));
    SortSorted(le, Pool(items, id));
    LeftSorted(le, labels, side, |labels|);
    LeftAmong(labels, side, |labels|);
    forall x | x in labels ensures IdentityOf(x) == id { assert x in multiset(Pool(items, id)); }
  }

  lemma {:induction false} LeftAmong(items: seq<Item>, side: seq<nat>, k: nat)
    requires k <= |items|
    ensures forall x :: x in Left(items, side, k) ==> x in items
  {
    if k > 0 { LeftAmong(items, side, k - 1); }
  }

  lemma {:induction false} IdentitiesListed(le: ItemOrder, leId: IdentityOrder, expected: seq<Item>, actual: seq<Item>, ids: seq<Identity>)
    requires TotalOrder(le) && Distinct(ids) && Sorted(leId, ids)
    ensures var r := AddIdentities(le, expected, actual, ids);
      && Listed(le, leId, r.missed) && Listed(le, leId, r.unexpected)
      && (forall x :: x in r.missed ==> IdentityOf(x) in ids) && (forall x :: x in r.unexpected ==> IdentityOf(x) in ids)
  {
    hide Listed, AddIdentity, Sort, Pool, Left, JointPairs;
    if ids == [] {
      assert Listed(le, leId, []) by { NothingListed(le, leId); }
    } else {
      var before, id := ids[..|ids| - 1], ids[|ids| - 1];
      SplitLast(ids);
      IdentitiesListed(le, leId, expected, actual, before);
      var counts := AddIdentities(le, expected, actual, before);
      var labels, findings := Sort(le, Pool(expected, id)), Sort(le, Pool(actual, id));
      var pairs := JointPairs(le, labels, findings);
      AddIdentityCounted(le, labels, findings, counts);
      LeftOver(le, expected, id, Lefts(pairs));
      LeftOver(le, actual, id, Rights(pairs));
      ListedMore(le, leId, before, id, counts.missed, Left(labels, Lefts(pairs), |labels|));
      ListedMore(le, leId, before, id, counts.unexpected, Left(findings, Rights(pairs), |findings|));
    }
  }

  lemma NothingListed(le: ItemOrder, leId: IdentityOrder)
    ensures Listed(le, leId, [])
  {
  }

  /** Missed and unexpected items are listed in order. */
  lemma {:induction false} LeftoversInOrder(le: ItemOrder, leId: IdentityOrder, expected: seq<Item>, actual: seq<Item>)
    requires TotalOrder(le) && TotalOrder(leId)
    ensures var r := CompareCounts(le, leId, expected, actual);
      Listed(le, leId, r.missed) && Listed(le, leId, r.unexpected)
  {
    AllCovered(leId, expected, actual);
    SortSorted(leId, Once(IdentitiesOf(expected) + IdentitiesOf(actual)));
    IdentitiesListed(le, leId, expected, actual, Identities(leId, expected, actual));
  }
}
