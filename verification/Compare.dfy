/**
  The external benchmark's comparison: items are pooled by identity, each pool is paired, and
  the counts are added up over the identities in their serialised order.
 */
module Compare {
  import opened Options
  import opened Pairings
  import opened Rearranging
  import opened Sorting
  import opened JointPairing

  type Identity = (string, Option<int>, string)

  type IdentityOrder = (Identity, Identity) -> bool

  datatype Counts = Counts(tp: nat, fp: nat, usageCorrect: nat, keySizeCorrect: nat, pairCorrect: nat,
                           knownKeys: nat, knownCorrect: nat, missed: seq<Item>, unexpected: seq<Item>)

  const NOTHING := Counts(0, 0, 0, 0, 0, 0, 0, [], [])

  function IdentityOf(x: Item): Identity { (x.file, x.line, x.algorithm) }

  function IdentitiesOf(items: seq<Item>): (r: seq<Identity>)
    ensures |r| == |items| && forall i :: 0 <= i < |items| ==> r[i] == IdentityOf(items[i])
  {
    seq(|items|, i requires 0 <= i < |items| => IdentityOf(items[i]))
  }

  /** The items of one identity, in order of arrival. */
  function Pool(items: seq<Item>, id: Identity): (r: seq<Item>)
    ensures forall x :: x in r ==> x in items && IdentityOf(x) == id
  {
    if items == [] then []
    else
      var before := Pool(items[..|items| - 1], id);
      if IdentityOf(items[|items| - 1]) == id then before + [items[|items| - 1]] else before
  }

  function Known(items: seq<Item>): nat {
    if items == [] then 0
    else Known(items[..|items| - 1]) + if items[|items| - 1].keySize.Some? then 1 else 0
  }

  /** The items at the positions below k that are not in side, in order. */
  function Left(items: seq<Item>, side: seq<nat>, k: nat): seq<Item>
    requires k <= |items|
  {
    if k == 0 then []
    else Left(items, side, k - 1) + if k - 1 in side then [] else [items[k - 1]]
  }

  function Bit(b: bool): nat { if b then 1 else 0 }

  /** The counters after the first k pairs of one identity. */
  function AddPairs(labels: seq<Item>, findings: seq<Item>, pairs: seq<Pair>, counts: Counts, k: nat): Counts
    requires IsPairing(pairs, |labels|, |findings|) && k <= |pairs|
  {
    if k == 0 then counts
    else
      var before := AddPairs(labels, findings, pairs, counts, k - 1);
      var x, y := labels[pairs[k - 1].0], findings[pairs[k - 1].1];
      before.(usageCorrect := before.usageCorrect + Bit(x.usage == y.usage),
              keySizeCorrect := before.keySizeCorrect + Bit(x.keySize == y.keySize),
              pairCorrect := before.pairCorrect + Bit(x.usage == y.usage && x.keySize == y.keySize),
              knownKeys := before.knownKeys + Bit(x.keySize.Some?),
              knownCorrect := before.knownCorrect + Bit(x.keySize.Some? && x.keySize == y.keySize))
  }

  /** One identity: its pools are sorted, paired and counted. */
  function AddIdentity(le: ItemOrder, labels: seq<Item>, findings: seq<Item>, counts: Counts): Counts {
    JointIsPairing(le, labels, findings);
    var pairs := JointPairs(le, labels, findings);
    var missed := Left(labels, Lefts(pairs), |labels|);
    var unexpected := Left(findings, Rights(pairs), |findings|);
    var counted := AddPairs(labels, findings, pairs,
                            counts.(tp := counts.tp + |pairs|, fp := counts.fp + |unexpected|), |pairs|);
    counted.(knownKeys := counted.knownKeys + Known(missed),
             missed := counted.missed + missed, unexpected := counted.unexpected + unexpected)
  }

  function AddIdentities(le: ItemOrder, expected: seq<Item>, actual: seq<Item>, ids: seq<Identity>): Counts {
    if ids == [] then NOTHING
    else
      var id := ids[|ids| - 1];
      AddIdentity(le, Sort(le, Pool(expected, id)), Sort(le, Pool(actual, id)),
                  AddIdentities(le, expected, actual, ids[..|ids| - 1]))
  }

  function Identities(leId: IdentityOrder, expected: seq<Item>, actual: seq<Item>): seq<Identity> {
    Sort(leId, Once(IdentitiesOf(expected) + IdentitiesOf(actual)))
  }

  function CompareCounts(le: ItemOrder, leId: IdentityOrder, expected: seq<Item>, actual: seq<Item>): Counts {
    AddIdentities(le, expected, actual, Identities(leId, expected, actual))
  }

  // ----- conservation within one identity -----

  /** The paired and the remaining positions below k make up k. */
  lemma {:induction false} LeftCount(items: seq<Item>, side: seq<nat>, k: nat)
    requires k <= |items|
    ensures |Left(items, side, k)| + |set i: nat | i < k && i in side| == k
  {
    if k > 0 {
      LeftCount(items, side, k - 1);
      var before := set i: nat | i < k - 1 && i in side;
      var now := set i: nat | i < k && i in side;
      assert now == before + if k - 1 in side then {k - 1} else {};
    } else {
      assert (set i: nat | i < 0 && i in side) == {};
    }
  }

  lemma {:induction false} LeftIsRest(items: seq<Item>, side: seq<nat>)
    requires Distinct(side) && Below(side, |items|)
    ensures |Left(items, side, |items|)| == |items| - |side|
  {
    LeftCount(items, side, |items|);
    DistinctCount(side);
    assert (set i: nat | i < |items| && i in side) == (set k | 0 <= k < |side| :: side[k]);
  }

  /** Known key sizes at the paired positions and at the remaining ones make up all of them. */
  function KnownBits(items: seq<Item>): (r: seq<int>)
    ensures |r| == |items| && forall i :: 0 <= i < |items| ==> r[i] == Bit(items[i].keySize.Some?)
  {
    seq(|items|, i requires 0 <= i < |items| => Bit(items[i].keySize.Some?))
  }

  lemma {:induction false} KnownIsSum(items: seq<Item>)
    ensures Known(items) == Sum(KnownBits(items))
  {
    if items != [] {
      KnownIsSum(items[..|items| - 1]);
      assert KnownBits(items)[..|items| - 1] == KnownBits(items[..|items| - 1]);
    }
  }

  lemma {:induction false} KnownConcat(a: seq<Item>, b: seq<Item>)
    ensures Known(a + b) == Known(a) + Known(b)
  {
    if b == [] {
      assert a + b == a;
    } else {
      KnownConcat(a, b[..|b| - 1]);
      assert (a + b)[..|a + b| - 1] == a + b[..|b| - 1];
    }
  }

  lemma KnownOne(item: Item)
    ensures Known([item]) == Bit(item.keySize.Some?)
  {
    assert [item][..0] == [];
  }

  /** The known key sizes left over, with the paired ones cleared. */
  lemma {:induction false} KnownLeft(items: seq<Item>, side: seq<nat>, k: nat)
    requires k <= |items|
    ensures Known(Left(items, side, k)) == Sum(seq(k, i requires 0 <= i < k => if i in side then 0 else KnownBits(items)[i]))
  {
    var bits := seq(k, i requires 0 <= i < k => if i in side then 0 else KnownBits(items)[i]);
    if k > 0 {
      KnownLeft(items, side, k - 1);
      assert bits[..k - 1] == seq(k - 1, i requires 0 <= i < k - 1 => if i in side then 0 else KnownBits(items)[i]);
      KnownConcat(Left(items, side, k - 1), if k - 1 in side then [] else [items[k - 1]]);
      KnownOne(items[k - 1]);
    }
  }

  lemma {:induction false} SumSplits(s: seq<int>, a: seq<int>, b: seq<int>)
    requires |s| == |a| == |b| && forall i :: 0 <= i < |s| ==> s[i] == a[i] + b[i]
    ensures Sum(s) == Sum(a) + Sum(b)
  {
    if s != [] { SumSplits(s[..|s| - 1], a[..|s| - 1], b[..|s| - 1]); }
  }

  lemma {:induction false} KnownConserved(items: seq<Item>, side: seq<nat>)
    requires Distinct(side) && Below(side, |items|)
    ensures PickSum(KnownBits(items), side) + Known(Left(items, side, |items|)) == Known(items)
  {
    var bits := KnownBits(items);
    var rest := seq(|items|, i requires 0 <= i < |items| => if i in side then 0 else bits[i]);
    var picked := seq(|items|, i requires 0 <= i < |items| => if i in side then bits[i] else 0);
    KnownIsSum(items);
    KnownLeft(items, side, |items|);
    SumSplits(bits, rest, picked);
    PickSumAgrees(bits, picked, side);
    PickSumAll(picked, side);
  }

  lemma {:induction false} AddPairsCounts(labels: seq<Item>, findings: seq<Item>, pairs: seq<Pair>, counts: Counts, k: nat)
    requires IsPairing(pairs, |labels|, |findings|) && k <= |pairs|
    ensures var r := AddPairs(labels, findings, pairs, counts, k);
      && r.tp == counts.tp && r.fp == counts.fp && r.missed == counts.missed && r.unexpected == counts.unexpected
      && Below(Lefts(pairs)[..k], |labels|)
      && r.knownKeys == counts.knownKeys + PickSum(KnownBits(labels), Lefts(pairs)[..k])
  {
    if k > 0 {
      AddPairsCounts(labels, findings, pairs, counts, k - 1);
      assert Lefts(pairs)[..k][..k - 1] == Lefts(pairs)[..k - 1];
    }
  }

  /** What one identity adds to the counts. */
  lemma {:induction false} AddIdentityCounts(le: ItemOrder, labels: seq<Item>, findings: seq<Item>, counts: Counts)
    ensures var r := AddIdentity(le, labels, findings, counts);
      && r.tp == counts.tp + Min(|labels|, |findings|)
      && |r.missed| == |counts.missed| + |labels| - Min(|labels|, |findings|)
      && r.fp == counts.fp + |findings| - Min(|labels|, |findings|)
      && |r.unexpected| == |counts.unexpected| + |findings| - Min(|labels|, |findings|)
      && r.knownKeys == counts.knownKeys + Known(labels)
  {
    hide JointPairs, Known, Left, PickSum, AddPairs, Sorted;
    JointIsPairing(le, labels, findings);
    var pairs := JointPairs(le, labels, findings);
    var unexpected := Left(findings, Rights(pairs), |findings|);
    LeftIsRest(labels, Lefts(pairs));
    LeftIsRest(findings, Rights(pairs));
    KnownConserved(labels, Lefts(pairs));
    assert Lefts(pairs)[..|pairs|] == Lefts(pairs);
    AddPairsCounts(labels, findings, pairs, counts.(tp := counts.tp + |pairs|, fp := counts.fp + |unexpected|), |pairs|);
  }

  // ----- adding up over the identities -----

  lemma {:induction false} PoolCount(items: seq<Item>, id: Identity)
    ensures |Pool(items, id)| == multiset(IdentitiesOf(items))[id]
  {
    if items != [] {
      PoolCount(items[..|items| - 1], id);
      assert IdentitiesOf(items) == IdentitiesOf(items[..|items| - 1]) + [IdentityOf(items[|items| - 1])];
    }
  }

  function KnownOnly(items: seq<Item>): seq<Item> {
    if items == [] then []
    else KnownOnly(items[..|items| - 1]) + if items[|items| - 1].keySize.Some? then [items[|items| - 1]] else []
  }

  lemma {:induction false} KnownPoolCount(items: seq<Item>, id: Identity)
    ensures Known(Pool(items, id)) == multiset(IdentitiesOf(KnownOnly(items)))[id]
    ensures Known(items) == |KnownOnly(items)|
  {
    if items != [] {
      var before, x := items[..|items| - 1], items[|items| - 1];
      KnownPoolCount(before, id);
      KnownConcat(Pool(before, id), [x]);
      assert Known([x]) == Known([x][..0]) + Bit(x.keySize.Some?);
      assert IdentitiesOf(KnownOnly(before) + [x]) == IdentitiesOf(KnownOnly(before)) + [IdentityOf(x)];
      assert KnownOnly(before) + [] == KnownOnly(before);
    }
  }

  lemma {:induction false} KnownOnlyIdentities(items: seq<Item>, x: Item)
    requires x in KnownOnly(items)
    ensures x in items
  {
    if x in KnownOnly(items[..|items| - 1]) { KnownOnlyIdentities(items[..|items| - 1], x); }
  }

  lemma {:induction false} KnownSorted(le: ItemOrder, items: seq<Item>)
    ensures Known(Sort(le, items)) == Known(items)
  {
    var f := Rearranged(Sort(le, items), items);
    SumRearranged(KnownBits(Sort(le, items)), KnownBits(items), f);
    KnownIsSum(items);
    KnownIsSum(Sort(le, items));
  }

  ghost function CountOver(ids: seq<Identity>, m: multiset<Identity>): nat {
    if ids == [] then 0 else CountOver(ids[..|ids| - 1], m) + m[ids[|ids| - 1]]
  }

  lemma {:induction false} CountOverWithout(ids: seq<Identity>, m: multiset<Identity>, x: Identity)
    requires x !in ids
    ensures CountOver(ids, m[x := 0]) == CountOver(ids, m)
  {
    if ids != [] {
      SplitLast(ids);
      CountOverWithout(ids[..|ids| - 1], m, x);
    }
  }

  /** Distinct identities that include all of a multiset count it completely. */
  lemma {:induction false} CountOverAll(ids: seq<Identity>, m: multiset<Identity>)
    requires Distinct(ids) && forall x :: x in m ==> x in ids
    ensures CountOver(ids, m) == |m|
    decreases |ids|
  {
    if ids == [] {
      assert m == multiset{};
    } else {
      var rest, x := ids[..|ids| - 1], ids[|ids| - 1];
      SplitLast(ids);
      CountOverAll(rest, m[x := 0]);
      CountOverWithout(rest, m, x);
      assert |m[x := 0]| == |m| - m[x];
    }
  }

  ghost function Bag(items: seq<Item>): multiset<Identity> { multiset(IdentitiesOf(items)) }

  /** What one identity adds, counted in the bags of identities. */
  lemma {:induction false} AddOneIdentity(le: ItemOrder, expected: seq<Item>, actual: seq<Item>, id: Identity, counts: Counts)
    ensures var r := AddIdentity(le, Sort(le, Pool(expected, id)), Sort(le, Pool(actual, id)), counts);
      var both := (Bag(expected) * Bag(actual))[id];
      && r.tp == counts.tp + both
      && r.tp + |r.missed| == counts.tp + |counts.missed| + Bag(expected)[id]
      && r.tp + r.fp == counts.tp + counts.fp + Bag(actual)[id]
      && |r.unexpected| - r.fp == |counts.unexpected| - counts.fp
      && r.knownKeys == counts.knownKeys + Bag(KnownOnly(expected))[id]
  {
    PoolCount(expected, id);
    PoolCount(actual, id);
    KnownPoolCount(expected, id);
    KnownSorted(le, Pool(expected, id));
    hide Pool, Sort, Known, KnownOnly, AddIdentity;
    AddIdentityCounts(le, Sort(le, Pool(expected, id)), Sort(le, Pool(actual, id)), counts);
  }

  lemma {:induction false} AddIdentitiesCounts(le: ItemOrder, expected: seq<Item>, actual: seq<Item>, ids: seq<Identity>)
    ensures var r := AddIdentities(le, expected, actual, ids);
      && r.tp == CountOver(ids, Bag(expected) * Bag(actual))
      && r.tp + |r.missed| == CountOver(ids, Bag(expected))
      && r.tp + r.fp == CountOver(ids, Bag(actual))
      && |r.unexpected| == r.fp
      && r.knownKeys == CountOver(ids, Bag(KnownOnly(expected)))
  {
    hide Bag, AddIdentity, Sort, Pool, KnownOnly;
    if ids != [] {
      var before, id := ids[..|ids| - 1], ids[|ids| - 1];
      AddIdentitiesCounts(le, expected, actual, before);
      AddOneIdentity(le, expected, actual, id, AddIdentities(le, expected, actual, before));
    }
  }

  lemma IdentitiesCover(leId: IdentityOrder, expected: seq<Item>, actual: seq<Item>)
    ensures Distinct(Identities(leId, expected, actual))
    ensures forall id :: id in Identities(leId, expected, actual) <==> id in Bag(expected) || id in Bag(actual)
  {
    var once := Once(IdentitiesOf(expected) + IdentitiesOf(actual));
    var ids := Sort(leId, once);
    forall id ensures id in ids <==> id in once { assert id in multiset(ids) <==> id in multiset(once); }
    var f := Rearranged(ids, once);
    forall i, j | 0 <= i < j < |ids| ensures ids[i] != ids[j] { assert f[i] != f[j]; }
  }

  /**
    Accounting: every expected item is a true positive or missed, every actual item a true positive
    or a false positive, true positives are the common identities counted as often as both sides
    have them, and every known expected key size is counted once.
   */
  lemma {:induction false} CompareAccounts(le: ItemOrder, leId: IdentityOrder, expected: seq<Item>, actual: seq<Item>)
    ensures var r := CompareCounts(le, leId, expected, actual);
      && r.tp + |r.missed| == |expected|
      && r.tp + r.fp == |actual| && |r.unexpected| == r.fp
      && r.tp == |Bag(expected) * Bag(actual)|
      && r.knownKeys == Known(expected)
  {
    var ids := Identities(leId, expected, actual);
    IdentitiesCover(leId, expected, actual);
    AddIdentitiesCounts(le, expected, actual, ids);
    CountOverAll(ids, Bag(expected));
    CountOverAll(ids, Bag(actual));
    CountOverAll(ids, Bag(expected) * Bag(actual));
    var known := KnownOnly(expected);
    forall id | id in Bag(known) ensures id in ids {
      assert id in IdentitiesOf(known);
      var i :| 0 <= i < |known| && IdentityOf(known[i]) == id;
      KnownOnlyIdentities(expected, known[i]);
      var j :| 0 <= j < |expected| && expected[j] == known[i];
      assert IdentitiesOf(expected)[j] == id;
    }
    CountOverAll(ids, Bag(known));
    KnownPoolCount(expected, ("", None, ""));
  }

  // ----- the order of arrival -----

  lemma {:induction false} PoolMultiset(items: seq<Item>, id: Identity, x: Item)
    ensures multiset(Pool(items, id))[x] == if IdentityOf(x) == id then multiset(items)[x] else 0
  {
    if items != [] {
      SplitLast(items);
      PoolMultiset(items[..|items| - 1], id, x);
    }
  }

  lemma {:induction false} SamePools(le: ItemOrder, expected: seq<Item>, actual: seq<Item>,
                                     expected': seq<Item>, actual': seq<Item>, ids: seq<Identity>)
    requires TotalOrder(le) && multiset(expected) == multiset(expected') && multiset(actual) == multiset(actual')
    ensures AddIdentities(le, expected, actual, ids) == AddIdentities(le, expected', actual', ids)
  {
    hide AddIdentity, Sort, Pool;
    if ids != [] {
      var id := ids[|ids| - 1];
      SamePools(le, expected, actual, expected', actual', ids[..|ids| - 1]);
      SamePool(le, expected, expected', id);
      SamePool(le, actual, actual', id);
    }
  }

  lemma {:induction false} SamePool(le: ItemOrder, items: seq<Item>, other: seq<Item>, id: Identity)
    requires TotalOrder(le) && multiset(items) == multiset(other)
    ensures Sort(le, Pool(items, id)) == Sort(le, Pool(other, id))
  {
    hide Sort, Pool;
    forall x ensures multiset(Pool(items, id))[x] == multiset(Pool(other, id))[x] {
      PoolMultiset(items, id, x);
      PoolMultiset(other, id, x);
    }
    SortCanonical(le, Pool(items, id), Pool(other, id));
  }

  lemma IdentityEntries(items: seq<Item>, other: seq<Item>, id: Identity)
    requires multiset(items) == multiset(other) && id in IdentitiesOf(items)
    ensures id in IdentitiesOf(other)
  {
    var i :| 0 <= i < |items| && IdentitiesOf(items)[i] == id;
    assert items[i] in multiset(other);
    var j :| 0 <= j < |other| && other[j] == items[i];
    assert IdentitiesOf(other)[j] == id;
  }

  /** Nothing the comparison reports changes when either input is permuted. */
  lemma ComparePermuted(le: ItemOrder, leId: IdentityOrder, expected: seq<Item>, actual: seq<Item>,
                        expected': seq<Item>, actual': seq<Item>)
    requires TotalOrder(le) && TotalOrder(leId)
    requires multiset(expected) == multiset(expected') && multiset(actual) == multiset(actual')
    ensures CompareCounts(le, leId, expected, actual) == CompareCounts(le, leId, expected', actual')
  {
    var all, all' := IdentitiesOf(expected) + IdentitiesOf(actual), IdentitiesOf(expected') + IdentitiesOf(actual');
    forall id ensures id in all <==> id in all' {
      if id in IdentitiesOf(expected) { IdentityEntries(expected, expected', id); }
      if id in IdentitiesOf(actual) { IdentityEntries(actual, actual', id); }
      if id in IdentitiesOf(expected') { IdentityEntries(expected', expected, id); }
      if id in IdentitiesOf(actual') { IdentityEntries(actual', actual, id); }
    }
    OnceCanonical(leId, all, all');
    SamePools(le, expected, actual, expected', actual', Identities(leId, expected, actual));
  }

  // ----- the comparison as it runs -----

  type Pools = map<Identity, seq<Item>>

  function PoolsOf(items: seq<Item>): (r: Pools)
    ensures forall id :: id in r <==> id in IdentitiesOf(items)
    ensures forall id :: id in r ==> r[id] == Pool(items, id)
  {
    map id | id in IdentitiesOf(items) :: Pool(items, id)
  }

  lemma {:induction false} PoolEmpty(items: seq<Item>, id: Identity)
    requires id !in IdentitiesOf(items)
    ensures Pool(items, id) == []
  {
    if items != [] {
      var last := |items| - 1;
      assert IdentitiesOf(items)[last] == IdentityOf(items[last]);
      forall i | 0 <= i < last ensures IdentitiesOf(items[..last])[i] != id {
        assert IdentitiesOf(items)[i] == IdentitiesOf(items[..last])[i];
      }
      PoolEmpty(items[..last], id);
    }
  }

  lemma {:induction false} PoolsGrow(items: seq<Item>, item: Item)
    ensures var pools, id := PoolsOf(items), IdentityOf(item);
      PoolsOf(items + [item]) == pools[id := (if id in pools then pools[id] else []) + [item]]
  {
    var longer, id := items + [item], IdentityOf(item);
    assert longer[..|items|] == items;
    assert IdentitiesOf(longer) == IdentitiesOf(items) + [id];
    if id !in IdentitiesOf(items) { PoolEmpty(items, id); }
  }

  /** The loop that fills the pools; a missing identity starts as an empty list. */
  method FillPools(items: seq<Item>) returns (pools: Pools)
    ensures pools == PoolsOf(items)
  {
    hide Pool;
    pools := map[];
    for k := 0 to |items|
      invariant pools == PoolsOf(items[..k])
    {
      var id := IdentityOf(items[k]);
      assert items[..k + 1] == items[..k] + [items[k]];
      PoolsGrow(items[..k], items[k]);
      pools := pools[id := (if id in pools then pools[id] else []) + [items[k]]];
    }
    assert items[..|items|] == items;
  }

  /** The loop over the pairs of one identity. */
  method CountPairs(labels: seq<Item>, findings: seq<Item>, pairs: seq<Pair>, counts: Counts) returns (r: Counts)
    requires IsPairing(pairs, |labels|, |findings|)
    ensures r == AddPairs(labels, findings, pairs, counts, |pairs|)
  {
    r := counts;
    for k := 0 to |pairs|
      invariant r == AddPairs(labels, findings, pairs, counts, k)
    {
      var wanted, found := labels[pairs[k].0], findings[pairs[k].1];
      if wanted.usage == found.usage { r := r.(usageCorrect := r.usageCorrect + 1); }
      if wanted.keySize == found.keySize { r := r.(keySizeCorrect := r.keySizeCorrect + 1); }
      if (wanted.usage, wanted.keySize) == (found.usage, found.keySize) { r := r.(pairCorrect := r.pairCorrect + 1); }
      if wanted.keySize.Some? {
        r := r.(knownKeys := r.knownKeys + 1);
        if wanted.keySize == found.keySize { r := r.(knownCorrect := r.knownCorrect + 1); }
      }
    }
  }

  method CompareIdentity(le: ItemOrder, labels: seq<Item>, findings: seq<Item>, counts: Counts) returns (r: Counts)
    ensures r == AddIdentity(le, labels, findings, counts)
  {
    hide JointPairs, Left, Known, AddPairs, IsPairing, Sorted;
    JointIsPairing(le, labels, findings);
    var pairs, missed, unexpected := JointPairsOf(le, labels, findings);
    var left, right := Left(labels, Lefts(pairs), |labels|), Left(findings, Rights(pairs), |findings|);
    r := CountPairs(labels, findings, pairs, counts.(tp := counts.tp + |pairs|, fp := counts.fp + |right|));
    r := r.(knownKeys := r.knownKeys + Known(left), missed := r.missed + left, unexpected := r.unexpected + right);
  }

  /** Looking up an identity that only the other side has gives an empty pool. */
  method PoolIn(pools: Pools, ghost items: seq<Item>, id: Identity) returns (pool: seq<Item>)
    requires pools == PoolsOf(items)
    ensures pool == Pool(items, id)
  {
    if id !in pools { PoolEmpty(items, id); }
    pool := if id in pools then pools[id] else [];
  }

  method CompareItems(le: ItemOrder, leId: IdentityOrder, expected: seq<Item>, actual: seq<Item>) returns (r: Counts)
    ensures r == CompareCounts(le, leId, expected, actual)
  {
    hide Pool, AddIdentity, Identities, Sort;
    var expectedPools := FillPools(expected);
    var actualPools := FillPools(actual);
    var ids := Identities(leId, expected, actual);
    r := NOTHING;
    for k := 0 to |ids|
      invariant r == AddIdentities(le, expected, actual, ids[..k])
    {
      var id := ids[k];
      assert ids[..k + 1][..k] == ids[..k];
      var labels := PoolIn(expectedPools, expected, id);
      var findings := PoolIn(actualPools, actual, id);
      r := CompareIdentity(le, Sort(le, labels), Sort(le, findings), r);
    }
    assert ids[..|ids|] == ids;
  }
}
