/**
  Grouping by key into a dictionary that remembers the order in which its keys appeared.
 */
module Grouping {
  import opened Sorting

  /** The records with key k, in order. */
  function Group<R, K(==)>(records: seq<R>, key: R -> K, k: K): seq<R> {
    if records == [] then []
    else
      var last := records[|records| - 1];
      Group(records[..|records| - 1], key, k) + if key(last) == k then [last] else []
  }

  function KeysOf<R, K>(records: seq<R>, key: R -> K): (keys: seq<K>)
    ensures |keys| == |records| && forall i :: 0 <= i < |records| ==> keys[i] == key(records[i])
  {
    seq(|records|, i requires 0 <= i < |records| => key(records[i]))
  }

  /** The keys in the order of their first records. */
  function Keys<R, K(==,!new)>(records: seq<R>, key: R -> K): (keys: seq<K>)
    ensures forall i, j :: 0 <= i < j < |keys| ==> keys[i] != keys[j]
    ensures forall i :: 0 <= i < |records| ==> key(records[i]) in keys
    ensures forall k :: k in keys ==> exists i :: 0 <= i < |records| && key(records[i]) == k
  {
    var all := KeysOf(records, key);
    assert forall i :: 0 <= i < |records| ==> all[i] in all;
    Once(all)
  }

  lemma KeysGrow<R, K(!new)>(records: seq<R>, key: R -> K)
    requires records != []
    ensures var n := |records| - 1;
      var before := Keys(records[..n], key);
      Keys(records, key) == if key(records[n]) in before then before else before + [key(records[n])]
  {
    var n := |records| - 1;
    assert KeysOf(records, key)[..n] == KeysOf(records[..n], key);
  }

  /** A group holds the records of its key, each as often as the list does. */
  lemma {:induction false} GroupHolds<R, K>(records: seq<R>, key: R -> K, k: K, r: R)
    ensures multiset(Group(records, key, k))[r] == if key(r) == k then multiset(records)[r] else 0
  {
    if records != [] {
      var n := |records| - 1;
      GroupHolds(records[..n], key, k, r);
      assert records == records[..n] + [records[n]];
    }
  }

  lemma {:induction false} GroupEmpty<R, K>(records: seq<R>, key: R -> K, k: K)
    ensures Group(records, key, k) == [] <==> forall i :: 0 <= i < |records| ==> key(records[i]) != k
  {
    if records != [] {
      GroupEmpty(records[..|records| - 1], key, k);
      assert forall i :: 0 <= i < |records| - 1 ==> records[..|records| - 1][i] == records[i];
    }
  }

  lemma {:induction false} GroupMember<R, K>(records: seq<R>, key: R -> K, k: K, r: R)
    ensures r in Group(records, key, k) <==> r in records && key(r) == k
  {
    GroupHolds(records, key, k, r);
    assert r in Group(records, key, k) <==> multiset(Group(records, key, k))[r] > 0;
    assert r in records <==> multiset(records)[r] > 0;
  }

  function Sizes<R, K(==)>(records: seq<R>, key: R -> K, keys: seq<K>): nat {
    if keys == [] then 0
    else Sizes(records, key, keys[..|keys| - 1]) + |Group(records, key, keys[|keys| - 1])|
  }

  lemma {:induction false} SizesGrow<R, K>(records: seq<R>, key: R -> K, keys: seq<K>)
    requires records != [] && forall i, j :: 0 <= i < j < |keys| ==> keys[i] != keys[j]
    ensures Sizes(records, key, keys)
      == Sizes(records[..|records| - 1], key, keys) + if key(records[|records| - 1]) in keys then 1 else 0
  {
    if keys != [] {
      SizesGrow(records, key, keys[..|keys| - 1]);
      assert keys == keys[..|keys| - 1] + [keys[|keys| - 1]];
    }
  }

  lemma {:induction false} NoRecordsNoSizes<R, K>(key: R -> K, keys: seq<K>)
    ensures Sizes([], key, keys) == 0
  {
    if keys != [] { NoRecordsNoSizes(key, keys[..|keys| - 1]); }
  }

  lemma {:induction false} SizesCover<R, K>(records: seq<R>, key: R -> K, keys: seq<K>)
    requires forall i, j :: 0 <= i < j < |keys| ==> keys[i] != keys[j]
    requires forall i :: 0 <= i < |records| ==> key(records[i]) in keys
    ensures Sizes(records, key, keys) == |records|
  {
    if records == [] {
      NoRecordsNoSizes(key, keys);
    } else {
      SizesCover(records[..|records| - 1], key, keys);
      SizesGrow(records, key, keys);
    }
  }

  /** Grouping loses and invents nothing: each record is in the group of its own key and in no other. */
  lemma {:induction false} GroupsPartition<R(!new), K(!new)>(records: seq<R>, key: R -> K)
    ensures Sizes(records, key, Keys(records, key)) == |records|
    ensures forall r, k :: multiset(Group(records, key, k))[r] == if key(r) == k then multiset(records)[r] else 0
  {
    hide Group, Sizes, Keys;
    SizesCover(records, key, Keys(records, key));
    forall r, k ensures multiset(Group(records, key, k))[r] == if key(r) == k then multiset(records)[r] else 0 {
      GroupHolds(records, key, k, r);
    }
  }

  /** The dictionary holds the groups of the records, its keys in order. */
  ghost predicate IsGrouped<R, K(!new)>(order: seq<K>, grouped: map<K, seq<R>>, records: seq<R>, key: R -> K) {
    && order == Keys(records, key)
    && (forall k :: k in grouped <==> k in order)
    && forall k :: k in grouped ==> grouped[k] == Group(records, key, k)
  }

  /** The dictionary, built record by record. */
  method GroupRecords<R, K(==,!new)>(records: seq<R>, key: R -> K) returns (order: seq<K>, grouped: map<K, seq<R>>)
    ensures order == Keys(records, key)
    ensures forall k :: k in grouped <==> k in order
    ensures forall k :: k in grouped ==> grouped[k] == Group(records, key, k)
  {
    order, grouped := [], map[];
    assert IsGrouped(order, grouped, records[..0], key) by { NoKeys(records[..0], key); }
    for i := 0 to |records|
      invariant IsGrouped(order, grouped, records[..i], key)
    {
      hide IsGrouped;
      var k := key(records[i]);
      GroupedNext(order, grouped, records[..i], records[i], key);
      assert records[..i + 1] == records[..i] + [records[i]];
      if k !in grouped {
        order := order + [k];
        grouped := grouped[k := []];
      }
      grouped := grouped[k := grouped[k] + [records[i]]];
    }
    assert records[..|records|] == records;
  }

  lemma GroupedNext<R, K(!new)>(order: seq<K>, grouped: map<K, seq<R>>, records: seq<R>, r: R, key: R -> K)
    requires IsGrouped(order, grouped, records, key)
    ensures var k := key(r);
      if k in grouped then IsGrouped(order, grouped[k := grouped[k] + [r]], records + [r], key)
      else IsGrouped(order + [k], grouped[k := []][k := [] + [r]], records + [r], key)
  {
    hide Keys, Group;
    var more, k := records + [r], key(r);
    assert more[..|more| - 1] == records;
    KeysGrow(more, key);
    forall l ensures Group(more, key, l) == if k == l then Group(records, key, l) + [r] else Group(records, key, l) {
      GroupSnoc(records, r, key, l);
    }
    if k !in grouped { NewGroup(records, key, k); }
  }

  lemma {:induction false} GroupSnoc<R, K>(records: seq<R>, r: R, key: R -> K, k: K)
    ensures Group(records + [r], key, k) == if key(r) == k then Group(records, key, k) + [r] else Group(records, key, k)
  {
    assert (records + [r])[..|records|] == records;
  }

  lemma NoKeys<R, K(!new)>(records: seq<R>, key: R -> K)
    requires records == []
    ensures Keys(records, key) == []
  {
  }

  lemma {:induction false} NewGroup<R, K(!new)>(records: seq<R>, key: R -> K, k: K)
    requires k !in Keys(records, key)
    ensures Group(records, key, k) == []
  {
    GroupEmpty(records, key, k);
  }

  // ----- groups without repetition, one a key -----

  ghost predicate Distinct<K>(keys: seq<K>) { forall i, j :: 0 <= i < j < |keys| ==> keys[i] != keys[j] }

  /** Groups listed in the order of the given keys, each record once. */
  ghost predicate AreGroups<R(!new), K(!new)>(groups: seq<seq<R>>, records: seq<R>, key: R -> K, keys: seq<K>) {
    && |groups| == |keys| && multiset(keys) == multiset(Keys(records, key))
    && forall i :: 0 <= i < |keys| ==> groups[i] == Once(Group(records, key, keys[i]))
  }

  lemma {:induction false} TwiceCounted<K>(s: seq<K>, i: nat, j: nat)
    requires i < j < |s| && s[i] == s[j]
    ensures multiset(s)[s[i]] >= 2
  {
    assert s == s[..j] + [s[j]] + s[j + 1..];
    assert s[..j][i] == s[i];
    assert s[i] in multiset(s[..j]);
  }

  lemma {:induction false} StillDistinct<K>(keys: seq<K>, sorted: seq<K>)
    requires Distinct(keys) && multiset(keys) == multiset(sorted)
    ensures Distinct(sorted)
  {
    forall i, j | 0 <= i < j < |sorted| ensures sorted[i] != sorted[j] {
      if sorted[i] == sorted[j] {
        TwiceCounted(sorted, i, j);
        DistinctMultiset(keys, sorted[i]);
      }
    }
  }

  /** Every record is in exactly one of the groups, the one of its key, and nothing else is in any. */
  lemma {:induction false} GroupsCover<R(!new), K(!new)>(groups: seq<seq<R>>, records: seq<R>, key: R -> K, keys: seq<K>)
    requires AreGroups(groups, records, key, keys)
    ensures Distinct(keys)
    ensures forall i, r :: 0 <= i < |groups| ==> (r in groups[i] <==> r in records && key(r) == keys[i])
    ensures forall r :: r in records ==> exists i :: 0 <= i < |groups| && r in groups[i]
  {
    hide Keys, Group, Once;
    var all := Keys(records, key);
    StillDistinct(all, keys);
    SameEntries(all, keys);
    forall i, r | 0 <= i < |groups| ensures r in groups[i] <==> r in records && key(r) == keys[i] {
      GroupMember(records, key, keys[i], r);
    }
    forall r | r in records ensures exists i :: 0 <= i < |groups| && r in groups[i] {
      var a :| 0 <= a < |records| && records[a] == r;
      assert key(records[a]) in all;
      var i :| 0 <= i < |keys| && keys[i] == key(r);
      assert r in groups[i];
    }
  }

  lemma {:induction false} InOneGroup<R(!new), K(!new)>(groups: seq<seq<R>>, records: seq<R>, key: R -> K, keys: seq<K>, r: R)
    requires AreGroups(groups, records, key, keys)
    ensures (exists i :: 0 <= i < |groups| && r in groups[i]) <==> r in records
    ensures forall i, j :: 0 <= i < j < |groups| && r in groups[i] ==> r !in groups[j]
  {
    GroupsCover(groups, records, key, keys);
  }
}
