/**
  The totals that the comparison reports, against every one-to-one matching of the whole lists that
  stays within identities.
 */
module CompareOptimal {
  import opened Pairings
  import opened Rearranging
  import opened Sorting
  import opened Matching
  import opened JointPairing
  import opened Compare

  type Hit = (Item, Item) -> int

  function UsageOnly(x: Item, y: Item): int { UsageHit(x, y) }

  function Metadata(x: Item, y: Item): int { UsageHit(x, y) + KeySizeHit(x, y) }

  ghost function HitsOf(hit: Hit, labels: seq<Item>, findings: seq<Item>, pairs: seq<Pair>): int {
    Total(ScoreOf(labels, findings, hit), pairs)
  }

  /** One-to-one, and items of the same identity only. */
  ghost predicate WithinIdentities(expected: seq<Item>, actual: seq<Item>, pairs: seq<Pair>) {
    IsPairing(pairs, |expected|, |actual|)
    && forall k :: 0 <= k < |pairs| ==> IdentityOf(expected[pairs[k].0]) == IdentityOf(actual[pairs[k].1])
  }

  // ----- one pool -----

  lemma {:induction false} HitsAre(labels: seq<Item>, findings: seq<Item>, pairs: seq<Pair>)
    ensures HitsOf(Metadata, labels, findings, pairs) == Total(MetadataHits(labels, findings), pairs)
    ensures HitsOf(UsageOnly, labels, findings, pairs) == Total(UsageHits(labels, findings), pairs)
  {
    TotalAgrees(ScoreOf(labels, findings, Metadata), MetadataHits(labels, findings), pairs);
    TotalAgrees(ScoreOf(labels, findings, UsageOnly), UsageHits(labels, findings), pairs);
  }

  lemma OneMoreHit(hit: Hit, labels: seq<Item>, findings: seq<Item>, pairs: seq<Pair>, x: Pair)
    requires x.0 < |labels| && x.1 < |findings|
    ensures HitsOf(hit, labels, findings, pairs + [x]) == HitsOf(hit, labels, findings, pairs) + hit(labels[x.0], findings[x.1])
  {
    assert (pairs + [x])[..|pairs|] == pairs;
  }

  lemma HitValues(x: Item, y: Item)
    ensures UsageOnly(x, y) == UsageHit(x, y) >= 0
    ensures Metadata(x, y) == UsageHit(x, y) + KeySizeHit(x, y) >= 0
  {
  }

  /** Any pairing extends to full size without losing a hit. */
  lemma {:induction false} ExtendPairing(labels: seq<Item>, findings: seq<Item>, pairs: seq<Pair>) returns (full: seq<Pair>)
    requires IsPairing(pairs, |labels|, |findings|)
    ensures IsPairing(full, |labels|, |findings|) && |full| == Min(|labels|, |findings|)
    ensures HitsOf(Metadata, labels, findings, full) >= HitsOf(Metadata, labels, findings, pairs)
    ensures HitsOf(UsageOnly, labels, findings, full) >= HitsOf(UsageOnly, labels, findings, pairs)
    decreases |labels| - |pairs|
  {
    Pigeonhole(Lefts(pairs), |labels|);
    Pigeonhole(Rights(pairs), |findings|);
    full := pairs;
    if |pairs| < Min(|labels|, |findings|) {
      var e := Unused(Lefts(pairs), |labels|);
      var a := Unused(Rights(pairs), |findings|);
      var more := pairs + [(e, a)];
      hide HitsOf;
      OneMoreHit(Metadata, labels, findings, pairs, (e, a));
      OneMoreHit(UsageOnly, labels, findings, pairs, (e, a));
      HitValues(labels[e], findings[a]);
      assert forall k :: 0 <= k < |pairs| ==> pairs[k].0 == Lefts(pairs)[k] && pairs[k].1 == Rights(pairs)[k];
      full := ExtendPairing(labels, findings, more);
    }
  }

  /** The first two numbers are at least as good: metadata matches first, usage matches when those are equal. */
  predicate Better(metadata: int, usage: int, metadata': int, usage': int) {
    metadata' <= metadata && (metadata' == metadata ==> usage' <= usage)
  }

  /** The joint pairing of the sorted pools is at least as good as any pairing of the pools. */
  lemma {:induction false} PoolBest(le: ItemOrder, labels: seq<Item>, findings: seq<Item>, pairs: seq<Pair>)
    requires IsPairing(pairs, |labels|, |findings|)
    ensures var l, f := Sort(le, labels), Sort(le, findings);
      var joint := JointPairs(le, l, f);
      Better(HitsOf(Metadata, l, f, joint), HitsOf(UsageOnly, l, f, joint),
             HitsOf(Metadata, labels, findings, pairs), HitsOf(UsageOnly, labels, findings, pairs))
  {
    hide Sort, JointPairs, HitsOf;
    var l, f := Sort(le, labels), Sort(le, findings);
    var full := ExtendPairing(labels, findings, pairs);
    var p := Rearranged(labels, l);
    var q := Rearranged(findings, f);
    var moved := Moved(full, p, q);
    MovedHits(labels, findings, l, f, p, q, full);
    HitsAre(labels, findings, full);
    HitsAre(l, f, moved);
    HitsAre(l, f, JointPairs(le, l, f));
    JointLexicographic(le, l, f, moved);
  }

  // ----- what an identity adds to the counters -----

  lemma {:induction false} AddPairsHits(labels: seq<Item>, findings: seq<Item>, pairs: seq<Pair>, counts: Counts, k: nat)
    requires IsPairing(pairs, |labels|, |findings|) && k <= |pairs|
    ensures var r := AddPairs(labels, findings, pairs, counts, k);
      && r.usageCorrect == counts.usageCorrect + HitsOf(UsageOnly, labels, findings, pairs[..k])
      && r.usageCorrect + r.keySizeCorrect
           == counts.usageCorrect + counts.keySizeCorrect + HitsOf(Metadata, labels, findings, pairs[..k])
  {
    if k > 0 {
      AddPairsHits(labels, findings, pairs, counts, k - 1);
      var x := pairs[k - 1];
      assert pairs[..k] == pairs[..k - 1] + [x];
      hide HitsOf;
      OneMoreHit(Metadata, labels, findings, pairs[..k - 1], x);
      OneMoreHit(UsageOnly, labels, findings, pairs[..k - 1], x);
      HitValues(labels[x.0], findings[x.1]);
    }
  }

  lemma AddIdentityHits(le: ItemOrder, labels: seq<Item>, findings: seq<Item>, counts: Counts)
    ensures var r := AddIdentity(le, labels, findings, counts);
      var pairs := JointPairs(le, labels, findings);
      && r.usageCorrect == counts.usageCorrect + HitsOf(UsageOnly, labels, findings, pairs)
      && r.usageCorrect + r.keySizeCorrect
           == counts.usageCorrect + counts.keySizeCorrect + HitsOf(Metadata, labels, findings, pairs)
  {
    hide JointPairs, Known, Left, AddPairs, HitsOf, Sorted;
    JointIsPairing(le, labels, findings);
    var pairs := JointPairs(le, labels, findings);
    var unexpected := Left(findings, Rights(pairs), |findings|);
    assert pairs[..|pairs|] == pairs;
    AddPairsHits(labels, findings, pairs, counts.(tp := counts.tp + |pairs|, fp := counts.fp + |unexpected|), |pairs|);
  }

  // ----- a matching of the whole lists, pool by pool -----

  /** Where item i stands in the pool of its identity. */
  function PoolIndex(items: seq<Item>, i: nat): nat
    requires i < |items|
  {
    |Pool(items[..i], IdentityOf(items[i]))|
  }

  lemma {:induction false} PoolIndexIs(items: seq<Item>, i: nat)
    requires i < |items|
    ensures PoolIndex(items, i) < |Pool(items, IdentityOf(items[i]))|
    ensures Pool(items, IdentityOf(items[i]))[PoolIndex(items, i)] == items[i]
  {
    if i < |items| - 1 {
      var front := items[..|items| - 1];
      PoolIndexIs(front, i);
      assert front[..i] == items[..i];
    }
  }

  lemma PoolIndexGrows(items: seq<Item>, i: nat, j: nat)
    requires i < j < |items| && IdentityOf(items[i]) == IdentityOf(items[j])
    ensures PoolIndex(items, i) < PoolIndex(items, j)
  {
    PoolIndexIs(items[..j], i);
    assert items[..j][..i] == items[..i];
  }

  lemma PoolIndexDiffers(items: seq<Item>, i: nat, j: nat)
    requires i < |items| && j < |items| && i != j && IdentityOf(items[i]) == IdentityOf(items[j])
    ensures PoolIndex(items, i) != PoolIndex(items, j)
  {
    if i < j { PoolIndexGrows(items, i, j); } else { PoolIndexGrows(items, j, i); }
  }

  function Placed(expected: seq<Item>, actual: seq<Item>, x: Pair): Pair
    requires x.0 < |expected| && x.1 < |actual|
  {
    (PoolIndex(expected, x.0), PoolIndex(actual, x.1))
  }

  /** The pairs of one identity, as pairs of positions in its pools. */
  function InPool(expected: seq<Item>, actual: seq<Item>, pairs: seq<Pair>, id: Identity): seq<Pair>
    requires IsPairing(pairs, |expected|, |actual|)
  {
    if pairs == [] then []
    else
      var before, x := InPool(expected, actual, pairs[..|pairs| - 1], id), pairs[|pairs| - 1];
      if IdentityOf(expected[x.0]) == id then before + [Placed(expected, actual, x)] else before
  }

  lemma {:induction false} FromPair(expected: seq<Item>, actual: seq<Item>, pairs: seq<Pair>, id: Identity, y: Pair)
    requires IsPairing(pairs, |expected|, |actual|) && y in InPool(expected, actual, pairs, id)
    ensures exists k :: 0 <= k < |pairs| && IdentityOf(expected[pairs[k].0]) == id && y == Placed(expected, actual, pairs[k])
  {
    var n := |pairs| - 1;
    if IdentityOf(expected[pairs[n].0]) != id || y != Placed(expected, actual, pairs[n]) {
      FromPair(expected, actual, pairs[..n], id, y);
      var k :| 0 <= k < n && IdentityOf(expected[pairs[..n][k].0]) == id && y == Placed(expected, actual, pairs[..n][k]);
      assert pairs[k] == pairs[..n][k];
    }
  }

  lemma {:induction false} InPoolIsPairing(expected: seq<Item>, actual: seq<Item>, pairs: seq<Pair>, id: Identity)
    requires WithinIdentities(expected, actual, pairs)
    ensures IsPairing(InPool(expected, actual, pairs, id), |Pool(expected, id)|, |Pool(actual, id)|)
  {
    hide Pool, PoolIndex;
    if pairs != [] {
      var front, x := pairs[..|pairs| - 1], pairs[|pairs| - 1];
      InPoolIsPairing(expected, actual, front, id);
      if IdentityOf(expected[x.0]) == id {
        PoolIndexIs(expected, x.0);
        PoolIndexIs(actual, x.1);
        var before := InPool(expected, actual, front, id);
        forall i | 0 <= i < |before|
          ensures before[i].0 != PoolIndex(expected, x.0) && before[i].1 != PoolIndex(actual, x.1)
        {
          assert before[i] in before;
          FromPair(expected, actual, front, id, before[i]);
          var k :| 0 <= k < |front| && IdentityOf(expected[front[k].0]) == id && before[i] == Placed(expected, actual, front[k]);
          assert front[k] == pairs[k];
          PoolIndexDiffers(expected, pairs[k].0, x.0);
          PoolIndexDiffers(actual, pairs[k].1, x.1);
        }
      }
    }
  }

  /** The hits of a matching, added up identity by identity. */
  ghost function PoolSum(hit: Hit, expected: seq<Item>, actual: seq<Item>, pairs: seq<Pair>, ids: seq<Identity>): int
    requires IsPairing(pairs, |expected|, |actual|)
  {
    if ids == [] then 0
    else
      var id := ids[|ids| - 1];
      PoolSum(hit, expected, actual, pairs, ids[..|ids| - 1])
        + HitsOf(hit, Pool(expected, id), Pool(actual, id), InPool(expected, actual, pairs, id))
  }

  lemma {:induction false} PoolSumOfNone(hit: Hit, expected: seq<Item>, actual: seq<Item>, ids: seq<Identity>)
    ensures PoolSum(hit, expected, actual, [], ids) == 0
  {
    if ids != [] { PoolSumOfNone(hit, expected, actual, ids[..|ids| - 1]); }
  }

  /** One more pair adds its hit in the pool of its identity. */
  lemma {:induction false} HitsInPool(hit: Hit, expected: seq<Item>, actual: seq<Item>, pairs: seq<Pair>, id: Identity)
    requires WithinIdentities(expected, actual, pairs) && pairs != []
    ensures var front, x := pairs[..|pairs| - 1], pairs[|pairs| - 1];
      HitsOf(hit, Pool(expected, id), Pool(actual, id), InPool(expected, actual, pairs, id))
        == HitsOf(hit, Pool(expected, id), Pool(actual, id), InPool(expected, actual, front, id))
           + if IdentityOf(expected[x.0]) == id then hit(expected[x.0], actual[x.1]) else 0
  {
    hide Pool, PoolIndex;
    var front, x := pairs[..|pairs| - 1], pairs[|pairs| - 1];
    if IdentityOf(expected[x.0]) == id {
      PoolIndexIs(expected, x.0);
      PoolIndexIs(actual, x.1);
      var before, y := InPool(expected, actual, front, id), Placed(expected, actual, x);
      assert (before + [y])[..|before|] == before;
    }
  }

  lemma {:induction false} PoolSumGrows(hit: Hit, expected: seq<Item>, actual: seq<Item>, pairs: seq<Pair>, ids: seq<Identity>)
    requires WithinIdentities(expected, actual, pairs) && pairs != [] && Distinct(ids)
    ensures var front, x := pairs[..|pairs| - 1], pairs[|pairs| - 1];
      PoolSum(hit, expected, actual, pairs, ids) == PoolSum(hit, expected, actual, front, ids)
        + if IdentityOf(expected[x.0]) in ids then hit(expected[x.0], actual[x.1]) else 0
  {
    hide InPool, Pool, HitsOf;
    if ids != [] {
      SplitLast(ids);
      PoolSumGrows(hit, expected, actual, pairs, ids[..|ids| - 1]);
      HitsInPool(hit, expected, actual, pairs, ids[|ids| - 1]);
    }
  }

  lemma {:induction false} PoolSumIs(hit: Hit, expected: seq<Item>, actual: seq<Item>, pairs: seq<Pair>, ids: seq<Identity>)
    requires WithinIdentities(expected, actual, pairs) && Distinct(ids)
    requires forall k :: 0 <= k < |pairs| ==> IdentityOf(expected[pairs[k].0]) in ids
    ensures PoolSum(hit, expected, actual, pairs, ids) == HitsOf(hit, expected, actual, pairs)
  {
    if pairs == [] {
      PoolSumOfNone(hit, expected, actual, ids);
    } else {
      hide PoolSum;
      PoolSumIs(hit, expected, actual, pairs[..|pairs| - 1], ids);
      PoolSumGrows(hit, expected, actual, pairs, ids);
    }
  }

  // ----- all identities -----

  lemma {:induction false} IdentitiesBest(le: ItemOrder, expected: seq<Item>, actual: seq<Item>, pairs: seq<Pair>, ids: seq<Identity>)
    requires WithinIdentities(expected, actual, pairs)
    ensures var r := AddIdentities(le, expected, actual, ids);
      Better(r.usageCorrect + r.keySizeCorrect, r.usageCorrect,
             PoolSum(Metadata, expected, actual, pairs, ids), PoolSum(UsageOnly, expected, actual, pairs, ids))
  {
    hide AddIdentity, HitsOf, InPool, Pool, Sort, JointPairs;
    if ids != [] {
      var id := ids[|ids| - 1];
      IdentitiesBest(le, expected, actual, pairs, ids[..|ids| - 1]);
      InPoolIsPairing(expected, actual, pairs, id);
      PoolBest(le, Pool(expected, id), Pool(actual, id), InPool(expected, actual, pairs, id));
      AddIdentityHits(le, Sort(le, Pool(expected, id)), Sort(le, Pool(actual, id)),
                      AddIdentities(le, expected, actual, ids[..|ids| - 1]));
    }
  }

  /**
    Of all one-to-one matchings within identities none has more usage matches plus key-size matches
    than the comparison reports, and among those with as many none has more usage matches.
   */
  lemma {:induction false} CompareIsBest(le: ItemOrder, leId: IdentityOrder, expected: seq<Item>, actual: seq<Item>, pairs: seq<Pair>)
    requires WithinIdentities(expected, actual, pairs)
    ensures var r := CompareCounts(le, leId, expected, actual);
      && Total(MetadataHits(expected, actual), pairs) <= r.usageCorrect + r.keySizeCorrect
      && (Total(MetadataHits(expected, actual), pairs) == r.usageCorrect + r.keySizeCorrect ==>
            Total(UsageHits(expected, actual), pairs) <= r.usageCorrect)
  {
    var ids := Identities(leId, expected, actual);
    KnownIdentities(leId, expected, actual, pairs);
    assert CompareCounts(le, leId, expected, actual) == AddIdentities(le, expected, actual, ids);
    assert forall m, u, m', u' :: Better(m, u, m', u') ==> m' <= m && (m' == m ==> u' <= u);
    hide *;
    PoolSumIs(Metadata, expected, actual, pairs, ids);
    PoolSumIs(UsageOnly, expected, actual, pairs, ids);
    IdentitiesBest(le, expected, actual, pairs, ids);
    HitsAre(expected, actual, pairs);
  }

  lemma KnownIdentities(leId: IdentityOrder, expected: seq<Item>, actual: seq<Item>, pairs: seq<Pair>)
    requires WithinIdentities(expected, actual, pairs)
    ensures Distinct(Identities(leId, expected, actual))
    ensures forall k :: 0 <= k < |pairs| ==> IdentityOf(expected[pairs[k].0]) in Identities(leId, expected, actual)
  {
    hide Identities;
    IdentitiesCover(leId, expected, actual);
    forall k | 0 <= k < |pairs| ensures IdentityOf(expected[pairs[k].0]) in Identities(leId, expected, actual) {
      assert IdentitiesOf(expected)[pairs[k].0] in Bag(expected);
    }
  }
}
