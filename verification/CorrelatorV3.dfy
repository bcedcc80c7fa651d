/**
  The operation-v3 correlator: grouping by span and kind, links across kinds, and ambiguous
  matches between groups of one file and algorithm.
 */
module CorrelatorV3 {
  import opened Options
  import opened Sorting
  import opened Ordering
  import opened ComparisonSort
  import opened Grouping
  import opened Evidence
  import Pairings

  datatype Key = Key(file: string, algorithm: string, line: Option<int>, column: Option<int>, anchor: string, kind: string)

  function AnchorText(anchor: Option<string>): string { if anchor.Some? then anchor.value else "" }

  function KeyOf(r: Record): Key { Key(r.file, r.algorithm, r.line, r.column, AnchorText(r.anchor), r.kind) }

  function TupleOf(k: Key): Tuple {
    [Text(k.file), Text(k.algorithm), Number(k.line), Number(k.column), Text(k.anchor), Text(k.kind)]
  }

  // ----- links across kinds -----

  datatype CrossKey = CrossKey(file: string, algorithm: string, line: Option<int>, column: Option<int>, anchor: string)

  function CrossKeyOf(k: Key): CrossKey { CrossKey(k.file, k.algorithm, k.line, k.column, k.anchor) }

  /** The other kinds found at the same place. */
  function LinkedKinds(keys: seq<Key>, k: Key): set<string> {
    set l | l in keys && CrossKeyOf(l) == CrossKeyOf(k) && l.kind != k.kind :: l.kind
  }

  function LinksAt(links: map<Key, set<string>>, k: Key): set<string> { if k in links then links[k] else {} }

  /** The keys of one place link to each other's kinds. */
  method LinkBucket(primary: seq<Key>, before: map<Key, set<string>>, ghost keys: seq<Key>) returns (links: map<Key, set<string>>)
    requires forall k, l :: k in primary && l in keys ==> (l in primary <==> CrossKeyOf(l) == CrossKeyOf(k))
    requires forall k :: k in primary ==> k in keys && k !in before
    ensures forall k :: LinksAt(links, k) == if k in primary then LinkedKinds(keys, k) else LinksAt(before, k)
    ensures links.Keys <= before.Keys + set k | k in primary
  {
    links := before;
    var kinds := set k: Key | k in primary :: k.kind;
    if |kinds| > 1 {
      for i := 0 to |primary|
        invariant forall k :: LinksAt(links, k) == if k in primary[..i] then LinkedKinds(keys, k) else LinksAt(before, k)
        invariant links.Keys <= before.Keys + set k | k in primary
      {
        var pk := primary[i];
        OtherKinds(primary, kinds, pk, keys);
        links := links[pk := kinds - {pk.kind}];
        assert primary[..i + 1] == primary[..i] + [pk];
      }
      assert primary[..|primary|] == primary;
    } else {
      forall k | k in primary ensures LinkedKinds(keys, k) == {} { OneKind(primary, kinds, k, keys); }
    }
  }

  lemma OtherKinds(primary: seq<Key>, kinds: set<string>, k: Key, keys: seq<Key>)
    requires kinds == (set l | l in primary :: l.kind) && k in primary
    requires forall l :: l in primary <==> l in keys && CrossKeyOf(l) == CrossKeyOf(k)
    ensures LinkedKinds(keys, k) == kinds - {k.kind}
  {
  }

  method CrossKindLinks(keys: seq<Key>) returns (links: map<Key, set<string>>)
    ensures forall k :: k in keys ==> LinksAt(links, k) == LinkedKinds(keys, k)
  {
    hide LinkedKinds, LinksAt, Keys, Group;
    var order, buckets := GroupRecords(keys, CrossKeyOf);
    links := map[];
    for b := 0 to |order|
      invariant forall k :: k in keys && CrossKeyOf(k) in order[..b] ==> LinksAt(links, k) == LinkedKinds(keys, k)
      invariant forall k :: k in links ==> CrossKeyOf(k) in order[..b]
    {
      var primary := buckets[order[b]];
      forall k ensures k in primary <==> k in keys && CrossKeyOf(k) == order[b] { GroupMember(keys, CrossKeyOf, order[b], k); }
      ghost var before := links;
      links := LinkBucket(primary, links, keys);
      assert order[..b + 1] == order[..b] + [order[b]];
    }
    assert order[..|order|] == order;
    forall k | k in keys ensures CrossKeyOf(k) in order { }
  }

  lemma OneKind(primary: seq<Key>, kinds: set<string>, k: Key, keys: seq<Key>)
    requires kinds == (set l | l in primary :: l.kind) && |kinds| <= 1 && k in primary
    requires forall l :: l in primary <==> l in keys && CrossKeyOf(l) == CrossKeyOf(k)
    ensures LinkedKinds(keys, k) == {}
  {
    forall l | l in primary ensures l.kind == k.kind {
      assert {k.kind, l.kind} <= kinds;
      if l.kind != k.kind { Pairings.SubsetCount({k.kind, l.kind}, kinds); }
    }
  }

  // ----- ambiguous matches -----

  datatype Match = Match(candidate: Record, confidence: real, merge: bool, ambiguous: bool)

  datatype Payload = Payload(algorithm: string, kind: string, file: string, line: Option<int>, column: Option<int>,
                             anchor: Option<string>, confidence: real, merge: bool)

  predicate Nearby(file: string, line: Option<int>, otherFile: string, otherLine: Option<int>) {
    file == otherFile && line.Some? && otherLine.Some? && -5 <= line.value - otherLine.value <= 5
  }

  function MatchOf(target: Record, candidate: Record): Match {
    var same := target.kind == candidate.kind;
    var near := Nearby(target.file, target.line, candidate.file, candidate.line);
    if same && near then Match(candidate, 1.0, true, false)
    else if !same && near then Match(candidate, 0.7, false, false)
    else if same then Match(candidate, 0.0, false, false)
    else Match(candidate, 0.3, false, true)
  }

  predicate IsUncertain(m: Match) { m.ambiguous || 0.0 < m.confidence < 0.7 }

  function PayloadOf(m: Match): Payload {
    var c := m.candidate;
    Payload(c.algorithm, c.kind, c.file, c.line, c.column, c.anchor, m.confidence, m.merge)
  }

  function PayloadKey(p: Payload): Key { Key(p.file, p.algorithm, p.line, p.column, AnchorText(p.anchor), p.kind) }

  /** The keys are of different kinds, and not near each other. */
  predicate Clashes(k: Key, l: Key) { k.kind != l.kind && !Nearby(k.file, k.line, l.file, l.line) }

  /** What a target with key k finds uncertain among the records. */
  function Uncertain(k: Key, records: seq<Record>): seq<Payload> {
    if records == [] then []
    else
      var r := records[|records| - 1];
      Uncertain(k, records[..|records| - 1]) + if Clashes(k, KeyOf(r)) then [PayloadOf(Match(r, 0.3, false, true))] else []
  }

  /** What the targets with key k store, all in all. */
  function Stored(k: Key, targets: seq<Record>, candidates: seq<Record>): seq<Payload> {
    if targets == [] then []
    else
      Stored(k, targets[..|targets| - 1], candidates)
      + if KeyOf(targets[|targets| - 1]) == k then Uncertain(k, candidates) else []
  }

  datatype Place = Place(file: string, algorithm: string)

  function PlaceOf(k: Key): Place { Place(k.file, k.algorithm) }

  /** The groups of the given keys, one after the other. */
  function Joined(records: seq<Record>, keys: seq<Key>): seq<Record> {
    if keys == [] then []
    else Joined(records, keys[..|keys| - 1]) + Group(records, KeyOf, keys[|keys| - 1])
  }

  function Neighbours(records: seq<Record>, k: Key): seq<Record> {
    Joined(records, Group(Keys(records, KeyOf), PlaceOf, PlaceOf(k)))
  }

  function AmbiguousOf(records: seq<Record>, k: Key): seq<Payload> {
    Stored(k, Neighbours(records, k), Neighbours(records, k))
  }

  lemma {:induction false} StoredCount(k: Key, targets: seq<Record>, candidates: seq<Record>)
    ensures |Stored(k, targets, candidates)| == |Group(targets, KeyOf, k)| * |Uncertain(k, candidates)|
  {
    if targets != [] {
      var n := |targets| - 1;
      StoredCount(k, targets[..n], candidates);
      if KeyOf(targets[n]) == k {
        OneMoreTime(|Group(targets[..n], KeyOf, k)|, |Uncertain(k, candidates)|);
      }
    }
  }

  /** The records of the groups that clash with k. */
  function ClashTotal(records: seq<Record>, keys: seq<Key>, k: Key): nat {
    if keys == [] then 0
    else
      var l := keys[|keys| - 1];
      ClashTotal(records, keys[..|keys| - 1], k) + if Clashes(k, l) then |Group(records, KeyOf, l)| else 0
  }

  lemma {:induction false} UncertainAppend(k: Key, a: seq<Record>, b: seq<Record>)
    ensures Uncertain(k, a + b) == Uncertain(k, a) + Uncertain(k, b)
  {
    if b == [] {
      assert a + b == a;
    } else {
      var n := |b| - 1;
      UncertainAppend(k, a, b[..n]);
      assert (a + b)[..|a + b| - 1] == a + b[..n];
    }
  }

  lemma {:induction false} UncertainInGroup(k: Key, l: Key, group: seq<Record>)
    requires forall i :: 0 <= i < |group| ==> KeyOf(group[i]) == l
    ensures |Uncertain(k, group)| == if Clashes(k, l) then |group| else 0
  {
    if group != [] {
      var front := group[..|group| - 1];
      assert forall i :: 0 <= i < |front| ==> front[i] == group[i];
      UncertainInGroup(k, l, front);
    }
  }

  lemma {:induction false} GroupKeys(records: seq<Record>, l: Key)
    ensures forall i :: 0 <= i < |Group(records, KeyOf, l)| ==> KeyOf(Group(records, KeyOf, l)[i]) == l
  {
    if records != [] { GroupKeys(records[..|records| - 1], l); }
  }

  lemma {:induction false} UncertainCount(records: seq<Record>, keys: seq<Key>, k: Key)
    ensures |Uncertain(k, Joined(records, keys))| == ClashTotal(records, keys, k)
  {
    if keys != [] {
      var l := keys[|keys| - 1];
      UncertainCount(records, keys[..|keys| - 1], k);
      UncertainAppend(k, Joined(records, keys[..|keys| - 1]), Group(records, KeyOf, l));
      GroupKeys(records, l);
      UncertainInGroup(k, l, Group(records, KeyOf, l));
    }
  }

  lemma {:induction false} GroupAppend(a: seq<Record>, b: seq<Record>, k: Key)
    ensures Group(a + b, KeyOf, k) == Group(a, KeyOf, k) + Group(b, KeyOf, k)
  {
    if b == [] {
      assert a + b == a;
    } else {
      var n := |b| - 1;
      GroupAppend(a, b[..n], k);
      assert (a + b)[..|a + b| - 1] == a + b[..n];
    }
  }

  lemma {:induction false} GroupOfGroup(group: seq<Record>, l: Key, k: Key)
    requires forall i :: 0 <= i < |group| ==> KeyOf(group[i]) == l
    ensures Group(group, KeyOf, k) == if k == l then group else []
  {
    if group != [] {
      var front := group[..|group| - 1];
      assert forall i :: 0 <= i < |front| ==> front[i] == group[i];
      GroupOfGroup(front, l, k);
      assert group == front + [group[|group| - 1]];
    }
  }

  lemma {:induction false} GroupOfJoined(records: seq<Record>, keys: seq<Key>, k: Key)
    requires Distinct(keys)
    ensures Group(Joined(records, keys), KeyOf, k) == if k in keys then Group(records, KeyOf, k) else []
  {
    if keys == [] {
      NoGroup(k);
    } else {
      hide Group;
      var front, l := keys[..|keys| - 1], keys[|keys| - 1];
      assert keys == front + [l] && Distinct(front) && l !in front;
      GroupOfJoined(records, front, k);
      GroupAppend(Joined(records, front), Group(records, KeyOf, l), k);
      GroupKeys(records, l);
      GroupOfGroup(Group(records, KeyOf, l), l, k);
      var own := Group(records, KeyOf, k);
      assert own + [] == own && [] + own == own;
    }
  }

  lemma {:induction false} NoGroup(k: Key)
    ensures Group([], KeyOf, k) == []
  {
  }

  lemma AppendDistinct(keys: seq<Key>, k: Key)
    requires Distinct(keys) && k !in keys
    ensures Distinct(keys + [k])
  {
  }

  lemma {:induction false} GroupDistinct(keys: seq<Key>, place: Place)
    requires Distinct(keys)
    ensures Distinct(Group(keys, PlaceOf, place))
  {
    if keys != [] {
      var front, k := keys[..|keys| - 1], keys[|keys| - 1];
      GroupDistinct(front, place);
      GroupMember(front, PlaceOf, place, k);
      assert k !in front;
      if PlaceOf(k) == place {
        AppendDistinct(Group(front, PlaceOf, place), k);
      } else {
        assert Group(front, PlaceOf, place) + [] == Group(front, PlaceOf, place);
      }
    }
  }

  /** The number of ambiguous matches of a group: its size times the records of the groups that clash with it. */
  lemma {:induction false} AmbiguityCount(records: seq<Record>, k: Key)
    requires k in Keys(records, KeyOf)
    ensures |AmbiguousOf(records, k)| ==
      |Group(records, KeyOf, k)| * ClashTotal(records, Group(Keys(records, KeyOf), PlaceOf, PlaceOf(k)), k)
  {
    var keys := Keys(records, KeyOf);
    var sharing := Group(keys, PlaceOf, PlaceOf(k));
    GroupDistinct(keys, PlaceOf(k));
    GroupMember(keys, PlaceOf, PlaceOf(k), k);
    GroupOfJoined(records, sharing, k);
    UncertainCount(records, sharing, k);
    StoredCount(k, Joined(records, sharing), Joined(records, sharing));
  }

  function CountFor(payloads: seq<Payload>, l: Key): nat {
    if payloads == [] then 0
    else CountFor(payloads[..|payloads| - 1], l) + if PayloadKey(payloads[|payloads| - 1]) == l then 1 else 0
  }

  lemma {:induction false} CountAppend(a: seq<Payload>, b: seq<Payload>, l: Key)
    ensures CountFor(a + b, l) == CountFor(a, l) + CountFor(b, l)
  {
    if b == [] {
      assert a + b == a;
    } else {
      CountAppend(a, b[..|b| - 1], l);
      assert (a + b)[..|a + b| - 1] == a + b[..|b| - 1];
    }
  }

  lemma {:induction false} UncertainFor(k: Key, records: seq<Record>, l: Key)
    ensures CountFor(Uncertain(k, records), l) == if Clashes(k, l) then |Group(records, KeyOf, l)| else 0
  {
    hide Clashes, Group, Uncertain, CountFor;
    if records == [] {
      assert Group(records, KeyOf, l) == [] by { NoGroup(l); }
      assert CountFor(Uncertain(k, records), l) == 0 by { NothingUncertain(k, l); }
    } else {
      UncertainFor(k, records[..|records| - 1], l);
      UncertainForLast(k, records, l);
      GroupLast(records, l);
    }
  }

  lemma {:induction false} NothingUncertain(k: Key, l: Key)
    ensures CountFor(Uncertain(k, []), l) == 0
  {
  }

  lemma {:induction false} GroupLast(records: seq<Record>, l: Key)
    requires records != []
    ensures |Group(records, KeyOf, l)|
         == |Group(records[..|records| - 1], KeyOf, l)| + if KeyOf(records[|records| - 1]) == l then 1 else 0
  {
  }

  lemma UncertainForLast(k: Key, records: seq<Record>, l: Key)
    requires records != []
    ensures var r := records[|records| - 1];
      CountFor(Uncertain(k, records), l)
        == CountFor(Uncertain(k, records[..|records| - 1]), l) + if Clashes(k, l) && KeyOf(r) == l then 1 else 0
  {
    hide Clashes;
    var r, front := records[|records| - 1], Uncertain(k, records[..|records| - 1]);
    if Clashes(k, KeyOf(r)) {
      var own := PayloadOf(Match(r, 0.3, false, true));
      assert Uncertain(k, records) == front + [own];
      hide Uncertain;
      OneMorePayload(front, own, l);
    } else {
      assert Uncertain(k, records) == front;
    }
  }

  lemma {:induction false} OneMorePayload(front: seq<Payload>, own: Payload, l: Key)
    ensures CountFor(front + [own], l) == CountFor(front, l) + if PayloadKey(own) == l then 1 else 0
  {
    assert (front + [own])[..|front|] == front;
  }

  lemma {:induction false} StoredNext(k: Key, targets: seq<Record>, i: nat, candidates: seq<Record>)
    requires i < |targets|
    ensures Stored(k, targets[..i + 1], candidates) ==
      Stored(k, targets[..i], candidates) + if KeyOf(targets[i]) == k then Uncertain(k, candidates) else []
  {
    assert targets[..i + 1][..i] == targets[..i];
  }

  lemma {:induction false} StoredFor(k: Key, targets: seq<Record>, candidates: seq<Record>, l: Key)
    ensures CountFor(Stored(k, targets, candidates), l) == |Group(targets, KeyOf, k)| * CountFor(Uncertain(k, candidates), l)
  {
    hide Uncertain, CountFor;
    if targets == [] {
      NothingCounted(l);
    } else {
      var n := |targets| - 1;
      StoredFor(k, targets[..n], candidates, l);
      var before, own := Stored(k, targets[..n], candidates), Uncertain(k, candidates);
      if KeyOf(targets[n]) == k {
        CountAppend(before, own, l);
        OneMoreTime(|Group(targets[..n], KeyOf, k)|, CountFor(own, l));
      } else {
        assert before + [] == before;
      }
    }
  }

  lemma {:induction false} NothingCounted(l: Key)
    ensures CountFor([], l) == 0
  {
  }

  lemma OneMoreTime(g: nat, u: nat)
    ensures (g + 1) * u == g * u + u
  {
  }

  /** Between two groups of one file and algorithm, each stores as many matches as the other: |A| * |B|, or none. */
  lemma {:induction false} AmbiguitySymmetric(records: seq<Record>, k: Key, l: Key)
    requires k in Keys(records, KeyOf) && l in Keys(records, KeyOf) && PlaceOf(k) == PlaceOf(l)
    ensures CountFor(AmbiguousOf(records, k), l) ==
      if Clashes(k, l) then |Group(records, KeyOf, k)| * |Group(records, KeyOf, l)| else 0
    ensures CountFor(AmbiguousOf(records, k), l) == CountFor(AmbiguousOf(records, l), k)
  {
    OneWay(records, k, l);
    OneWay(records, l, k);
    assert |Group(records, KeyOf, k)| * |Group(records, KeyOf, l)| == |Group(records, KeyOf, l)| * |Group(records, KeyOf, k)|;
  }

  lemma {:induction false} OneWay(records: seq<Record>, k: Key, l: Key)
    requires k in Keys(records, KeyOf) && l in Keys(records, KeyOf) && PlaceOf(k) == PlaceOf(l)
    ensures CountFor(AmbiguousOf(records, k), l) ==
      if Clashes(k, l) then |Group(records, KeyOf, k)| * |Group(records, KeyOf, l)| else 0
  {
    var keys := Keys(records, KeyOf);
    var sharing := Group(keys, PlaceOf, PlaceOf(k));
    GroupDistinct(keys, PlaceOf(k));
    GroupMember(keys, PlaceOf, PlaceOf(k), k);
    GroupMember(keys, PlaceOf, PlaceOf(k), l);
    GroupOfJoined(records, sharing, k);
    GroupOfJoined(records, sharing, l);
    var joined := Joined(records, sharing);
    StoredFor(k, joined, joined, l);
    UncertainFor(k, joined, l);
  }

  // ----- the matching loops -----

  function PayloadsAt(found: map<Key, seq<Payload>>, k: Key): seq<Payload> { if k in found then found[k] else [] }

  lemma Regroup(a: seq<Payload>, b: seq<Payload>, c: seq<Payload>)
    ensures (a + b) + c == a + (b + c)
  {
  }

  lemma {:induction false} NothingStored(bucket: seq<Record>)
    ensures forall k :: Stored(k, bucket[..0], bucket) == []
  {
  }

  /** One target against all others. */
  method MatchTarget(bucket: seq<Record>, i: nat) returns (uncertain: seq<Payload>)
    requires i < |bucket|
    ensures uncertain == Uncertain(KeyOf(bucket[i]), bucket)
  {
    uncertain := [];
    for j := 0 to |bucket|
      invariant uncertain == Uncertain(KeyOf(bucket[i]), bucket[..j])
    {
      assert bucket[..j + 1][..j] == bucket[..j];
      if j != i {
        var m := MatchOf(bucket[i], bucket[j]);
        if IsUncertain(m) { uncertain := uncertain + [PayloadOf(m)]; }
      }
    }
    assert bucket[..|bucket|] == bucket;
  }

  method MatchBucket(bucket: seq<Record>, before: map<Key, seq<Payload>>) returns (found: map<Key, seq<Payload>>)
    ensures forall k :: PayloadsAt(found, k) == PayloadsAt(before, k) + Stored(k, bucket, bucket)
  {
    hide Uncertain, Stored;
    found := before;
    NothingStored(bucket);
    for i := 0 to |bucket|
      invariant forall k :: PayloadsAt(found, k) == PayloadsAt(before, k) + Stored(k, bucket[..i], bucket)
    {
      ghost var reached := found;
      var uncertain := MatchTarget(bucket, i);
      var own := KeyOf(bucket[i]);
      if uncertain != [] { found := found[own := PayloadsAt(found, own) + uncertain]; }
      forall k ensures PayloadsAt(found, k) == PayloadsAt(before, k) + Stored(k, bucket[..i + 1], bucket) {
        var more := if k == own then uncertain else [];
        StoredNext(k, bucket, i, bucket);
        assert PayloadsAt(found, k) == PayloadsAt(reached, k) + more;
        Regroup(PayloadsAt(before, k), Stored(k, bucket[..i], bucket), more);
      }
    }
    assert bucket[..|bucket|] == bucket;
  }

  method JoinGroups(grouped: map<Key, seq<Record>>, keys: seq<Key>, ghost records: seq<Record>) returns (bucket: seq<Record>)
    requires forall k :: k in keys ==> k in grouped && grouped[k] == Group(records, KeyOf, k)
    ensures bucket == Joined(records, keys)
  {
    bucket := [];
    for i := 0 to |keys|
      invariant bucket == Joined(records, keys[..i])
    {
      assert keys[..i + 1][..i] == keys[..i];
      bucket := bucket + grouped[keys[i]];
    }
    assert keys[..|keys|] == keys;
  }

  /** A single group clashes with nothing. */
  lemma {:induction false} AloneStoresNothing(records: seq<Record>, keys: seq<Key>, k: Key)
    requires |keys| == 1
    ensures Stored(k, Joined(records, keys), Joined(records, keys)) == []
  {
    var joined := Joined(records, keys);
    assert keys == [keys[0]] && keys[..0] == [];
    GroupKeys(records, keys[0]);
    StoredCount(k, joined, joined);
    assert Joined(records, keys[..0]) == [];
    assert joined == [] + Group(records, KeyOf, keys[0]) == Group(records, KeyOf, keys[0]);
    GroupOfGroup(joined, keys[0], k);
    UncertainInGroup(k, keys[0], joined);
  }

  /** Every file and algorithm with at least two groups is matched record against record. */
  method AmbiguousMatches(records: seq<Record>, order: seq<Key>, grouped: map<Key, seq<Record>>)
    returns (found: map<Key, seq<Payload>>)
    requires order == Keys(records, KeyOf)
    requires forall k :: k in order ==> k in grouped && grouped[k] == Group(records, KeyOf, k)
    ensures forall k :: k in order ==> PayloadsAt(found, k) == AmbiguousOf(records, k)
  {
    hide Keys, Group, AmbiguousOf, PayloadsAt;
    NoPayloads();
    var places, byPlace := GroupRecords(order, PlaceOf);
    found := map[];
    for b := 0 to |places|
      invariant forall k :: k in order && PlaceOf(k) in places[..b] ==> PayloadsAt(found, k) == AmbiguousOf(records, k)
      invariant forall k :: PlaceOf(k) !in places[..b] ==> PayloadsAt(found, k) == []
    {
      var primary := byPlace[places[b]];
      ghost var before := found;
      found := MatchPlace(records, order, grouped, places[b], primary, found);
      assert places[..b + 1] == places[..b] + [places[b]];
      assert places[b] !in places[..b];
    }
    assert places[..|places|] == places;
    forall k | k in order ensures PlaceOf(k) in places { }
  }

  method MatchPlace(records: seq<Record>, ghost order: seq<Key>, grouped: map<Key, seq<Record>>, place: Place, primary: seq<Key>,
                    before: map<Key, seq<Payload>>) returns (found: map<Key, seq<Payload>>)
    requires order == Keys(records, KeyOf) && primary == Group(order, PlaceOf, place)
    requires forall k :: k in order ==> k in grouped && grouped[k] == Group(records, KeyOf, k)
    requires forall k :: PlaceOf(k) == place ==> PayloadsAt(before, k) == []
    ensures forall k :: PlaceOf(k) == place ==> PayloadsAt(found, k) == AmbiguousOf(records, k)
    ensures forall k :: PlaceOf(k) != place ==> PayloadsAt(found, k) == PayloadsAt(before, k)
  {
    forall k | k in primary ensures k in grouped && grouped[k] == Group(records, KeyOf, k) && PlaceOf(k) == place {
      GroupMember(order, PlaceOf, place, k);
    }
    hide Keys, Stored, Joined, Group, Uncertain;
    ghost var joined := Joined(records, primary);
    forall k | PlaceOf(k) == place ensures AmbiguousOf(records, k) == Stored(k, joined, joined) { }
    if |primary| < 2 {
      forall k ensures Stored(k, joined, joined) == [] { FewStoreNothing(records, primary, k); }
      return before;
    }
    var bucket := JoinGroups(grouped, primary, records);
    found := MatchBucket(bucket, before);
    forall k | PlaceOf(k) != place ensures Stored(k, bucket, bucket) == [] { ElsewhereStoresNothing(records, primary, place, k); }
  }

  lemma NoPayloads()
    ensures forall k :: PayloadsAt(map[], k) == []
  {
  }

  lemma {:induction false} FewStoreNothing(records: seq<Record>, keys: seq<Key>, k: Key)
    requires |keys| < 2
    ensures Stored(k, Joined(records, keys), Joined(records, keys)) == []
  {
    if |keys| == 1 { AloneStoresNothing(records, keys, k); }
  }

  lemma {:induction false} ElsewhereStoresNothing(records: seq<Record>, keys: seq<Key>, place: Place, k: Key)
    requires PlaceOf(k) != place && forall l :: l in keys ==> PlaceOf(l) == place
    ensures Stored(k, Joined(records, keys), Joined(records, keys)) == []
  {
    var joined := Joined(records, keys);
    StoredCount(k, joined, joined);
    NotJoined(records, keys, k);
  }

  lemma {:induction false} NotJoined(records: seq<Record>, keys: seq<Key>, k: Key)
    requires k !in keys
    ensures Group(Joined(records, keys), KeyOf, k) == []
  {
    if keys != [] {
      var front, l := keys[..|keys| - 1], keys[|keys| - 1];
      assert keys == front + [l];
      NotJoined(records, front, k);
      GroupAppend(Joined(records, front), Group(records, KeyOf, l), k);
      GroupKeys(records, l);
      GroupOfGroup(Group(records, KeyOf, l), l, k);
    }
  }

  // ----- the correlator -----

  datatype Finding = Finding(identity: Key, links: set<string>, ambiguous: seq<Payload>, sources: seq<string>,
                             confidence: map<string, real>, evidence: seq<Record>)

  /** What a finding says about its group. */
  ghost predicate Describes(f: Finding, records: seq<Record>, k: Key) {
    var group := Group(records, KeyOf, k);
    && f.identity == k && f.links == LinkedKinds(Keys(records, KeyOf), k) && f.ambiguous == AmbiguousOf(records, k)
    && f.sources == Sort(TextLe, Keys(group, SourceOf)) && f.evidence == Once(group)
    && f.confidence.Keys == (set r | r in group :: r.source)
    && forall s :: s in f.confidence ==> f.confidence[s] == Best(group, s)
  }

  /** Two groups of the same file and algorithm cannot be ordered when one number is missing in one of them only. */
  predicate Incomparable(k: Key, l: Key) {
    PlaceOf(k) == PlaceOf(l) &&
    (k.line.None? != l.line.None? || (k.line == l.line && k.column.None? != l.column.None?))
  }

  lemma {:induction false} MixedFirst(x: Item, a: Tuple, y: Item, b: Tuple)
    ensures Mixed([x] + a, [y] + b) <==>
      if x == y then Mixed(a, b) else x.Number? && y.Number? && x.number.None? != y.number.None?
  {
    assert ([x] + a)[1..] == a && ([y] + b)[1..] == b;
  }

  lemma MixedKeys(k: Key, l: Key)
    ensures Mixed(TupleOf(k), TupleOf(l)) <==> Incomparable(k, l)
  {
    hide Mixed;
    var a, b := [Text(k.anchor), Text(k.kind)], [Text(l.anchor), Text(l.kind)];
    var a3, b3 := [Number(k.column)] + a, [Number(l.column)] + b;
    var a2, b2 := [Number(k.line)] + a3, [Number(l.line)] + b3;
    var a1, b1 := [Text(k.algorithm)] + a2, [Text(l.algorithm)] + b2;
    assert TupleOf(k) == [Text(k.file)] + a1 && TupleOf(l) == [Text(l.file)] + b1;
    MixedFirst(Text(k.file), a1, Text(l.file), b1);
    MixedFirst(Text(k.algorithm), a2, Text(l.algorithm), b2);
    MixedFirst(Number(k.line), a3, Number(l.line), b3);
    MixedFirst(Number(k.column), a, Number(l.column), b);
    TextsNeverMixed(k.anchor, k.kind, l.anchor, l.kind);
  }

  lemma TextsNeverMixed(a: string, b: string, c: string, d: string)
    ensures !Mixed([Text(a), Text(b)], [Text(c), Text(d)])
  {
    assert [Text(a), Text(b)] == [Text(a)] + [Text(b)] && [Text(c), Text(d)] == [Text(c)] + [Text(d)];
    MixedFirst(Text(a), [Text(b)], Text(c), [Text(d)]);
  }

  method BuildFinding(records: seq<Record>, k: Key, evidences: seq<Record>, links: set<string>, ambiguous: seq<Payload>)
    returns (f: Finding)
    requires evidences == Group(records, KeyOf, k)
    requires links == LinkedKinds(Keys(records, KeyOf), k) && ambiguous == AmbiguousOf(records, k)
    ensures Describes(f, records, k)
  {
    hide AmbiguousOf, LinkedKinds, Group, Keys, Best;
    var sources, confidence, unique := EvidenceSummary(evidences);
    SourcesAre(evidences);
    f := Finding(k, links, ambiguous, Sort(TextLe, sources), confidence, unique);
  }

  /** Two records' groups cannot be ordered. */
  ghost predicate Unsortable(evidence: seq<Record>) {
    exists r, s :: r in evidence && s in evidence && Incomparable(KeyOf(r), KeyOf(s))
  }

  /**
    The findings of the records in canonical order, one a group, in the order of their keys; or
    None for a type error, which happens exactly when two records' groups are incomparable.
   */
  method Correlate(evidence: seq<Record>, le: (Record, Record) -> bool) returns (findings: Option<seq<Finding>>)
    ensures findings.None? <==> Unsortable(evidence)
    ensures var records := Sort(le, evidence);
      findings.Some? ==> AreFindings(findings.value, records, Sort(By(TupleOf), Keys(records, KeyOf)))
  {
    hide AreFindings, Keys, Group, AmbiguousOf, LinkedKinds, Sort, SortBy, Incomparable, Unsortable;
    var records := Sort(le, evidence);
    var order, grouped := GroupRecords(records, KeyOf);
    var links := CrossKindLinks(order);
    var ambiguous := AmbiguousMatches(records, order, grouped);
    var sorted := SortBy(TupleOf, order);
    KeysSort(order);
    UnsortableKeys(evidence, records);
    if sorted.None? { return None; }
    forall k | k in sorted.value ensures k in order { SameEntries(order, sorted.value); }
    var done := BuildFindings(records, sorted.value, grouped, links, ambiguous);
    findings := Some(done);
  }

  lemma UnsortableKeys(evidence: seq<Record>, records: seq<Record>)
    requires multiset(evidence) == multiset(records)
    ensures Unsortable(evidence) <==> exists k, l :: k in Keys(records, KeyOf) && l in Keys(records, KeyOf) && Incomparable(k, l)
  {
    hide Incomparable, Keys;
    SameEntries(evidence, records);
    var keys := Keys(records, KeyOf);
    forall r | r in records ensures KeyOf(r) in keys {
      var i :| 0 <= i < |records| && records[i] == r;
    }
    if k, l :| k in keys && l in keys && Incomparable(k, l) {
      var i :| 0 <= i < |records| && KeyOf(records[i]) == k;
      var j :| 0 <= j < |records| && KeyOf(records[j]) == l;
      assert records[i] in records && records[j] in records;
    }
  }

  /** One finding a key, in the same order. */
  ghost predicate AreFindings(findings: seq<Finding>, records: seq<Record>, keys: seq<Key>) {
    |findings| == |keys| && forall i :: 0 <= i < |keys| ==> Describes(findings[i], records, keys[i])
  }

  method BuildFindings(records: seq<Record>, keys: seq<Key>, grouped: map<Key, seq<Record>>, links: map<Key, set<string>>,
                       ambiguous: map<Key, seq<Payload>>) returns (findings: seq<Finding>)
    requires forall k :: k in keys ==> k in grouped && grouped[k] == Group(records, KeyOf, k)
    requires forall k :: k in keys ==> LinksAt(links, k) == LinkedKinds(Keys(records, KeyOf), k)
    requires forall k :: k in keys ==> PayloadsAt(ambiguous, k) == AmbiguousOf(records, k)
    ensures AreFindings(findings, records, keys)
  {
    hide Describes, Keys, Group, AmbiguousOf, LinkedKinds;
    findings := [];
    for i := 0 to |keys|
      invariant |findings| == i
      invariant forall j :: 0 <= j < i ==> Describes(findings[j], records, keys[j])
    {
      var k := keys[i];
      var f := BuildFinding(records, k, grouped[k], LinksAt(links, k), PayloadsAt(ambiguous, k));
      findings := findings + [f];
    }
  }

  lemma {:induction false} KeysSort(keys: seq<Key>)
    requires forall i, j :: 0 <= i < j < |keys| ==> keys[i] != keys[j]
    ensures SortBy(TupleOf, keys).None? <==> exists k, l :: k in keys && l in keys && Incomparable(k, l)
    ensures SortBy(TupleOf, keys).Some? ==> SortBy(TupleOf, keys).value == Sort(By(TupleOf), keys)
  {
    hide SortBy, Mixed, Sort, Incomparable;
    SortByIs(TupleOf, keys);
    forall k, l ensures Mixed(TupleOf(k), TupleOf(l)) <==> Incomparable(k, l) { MixedKeys(k, l); }
    forall k ensures !Incomparable(k, k) { MixedKeys(k, k); NeverMixedWithItself(TupleOf(k)); }
    forall k, l ensures Incomparable(k, l) <==> Incomparable(l, k) { MixedKeys(k, l); MixedKeys(l, k); MixedSymmetric(TupleOf(k), TupleOf(l)); }
    if AllComparable(TupleOf, keys) {
      forall k, l | k in keys && l in keys ensures !Incomparable(k, l) {
        var i :| 0 <= i < |keys| && keys[i] == k;
        var j :| 0 <= j < |keys| && keys[j] == l;
      }
    }
  }

  /** One record with a line and one without, of one algorithm in one file, are enough for the type error, whatever else there is. */
  lemma UnlocatedEvidenceFails(evidence: seq<Record>, r: Record, s: Record)
    requires r in evidence && s in evidence && r.file == s.file && r.algorithm == s.algorithm
    requires r.line.None? && s.line.Some?
    ensures Unsortable(evidence)
  {
    assert Incomparable(KeyOf(r), KeyOf(s));
  }

  /** Whether the correlator fails depends on the records, not on the order in which they arrive. */
  lemma FailureKept(a: seq<Record>, b: seq<Record>)
    requires multiset(a) == multiset(b)
    ensures Unsortable(a) <==> Unsortable(b)
  {
    SameEntries(a, b);
  }

  /** And it does not depend on the sort: any correct sort by comparisons fails on the groups' keys exactly then. */
  lemma {:induction false} EverySortFails(evidence: seq<Record>, t: Sorter)
    requires Correct(t, |Keys(evidence, KeyOf)|)
    ensures SortTuples(t, TuplesOf(Keys(evidence, KeyOf))).None? <==> Unsortable(evidence)
  {
    hide Incomparable, Keys, Correct, Mixed;
    var keys := Keys(evidence, KeyOf);
    var tuples := TuplesOf(keys);
    UnsortableKeys(evidence, evidence);
    forall k, l ensures Mixed(TupleOf(k), TupleOf(l)) <==> Incomparable(k, l) { MixedKeys(k, l); }
    assert DistinctTuples(tuples);
    EveryCorrectSort(t, tuples);
    if k, l :| k in keys && l in keys && Incomparable(k, l) {
      var i :| 0 <= i < |keys| && keys[i] == k;
      var j :| 0 <= j < |keys| && keys[j] == l;
      assert Mixed(tuples[i], tuples[j]);
    }
    if i, j :| 0 <= i < |tuples| && 0 <= j < |tuples| && Mixed(tuples[i], tuples[j]) {
      assert keys[i] in keys && keys[j] in keys && Incomparable(keys[i], keys[j]);
    }
  }

  function TuplesOf(keys: seq<Key>): (r: seq<Tuple>)
    ensures |r| == |keys| && forall i :: 0 <= i < |keys| ==> r[i] == TupleOf(keys[i])
  {
    seq(|keys|, i requires 0 <= i < |keys| => TupleOf(keys[i]))
  }

  // ----- conservation and determinism -----

  function EvidenceOf(findings: seq<Finding>): (groups: seq<seq<Record>>)
    ensures |groups| == |findings| && forall i :: 0 <= i < |groups| ==> groups[i] == findings[i].evidence
  {
    seq(|findings|, i requires 0 <= i < |findings| => findings[i].evidence)
  }

  lemma {:induction false} FindingsGroup(findings: seq<Finding>, records: seq<Record>, keys: seq<Key>)
    requires AreFindings(findings, records, keys) && multiset(keys) == multiset(Keys(records, KeyOf))
    ensures AreGroups(EvidenceOf(findings), records, KeyOf, keys)
    ensures forall i :: 0 <= i < |findings| ==> findings[i].identity == keys[i]
  {
    hide Keys, Group, AmbiguousOf, LinkedKinds;
    forall i | 0 <= i < |keys|
      ensures findings[i].identity == keys[i] && EvidenceOf(findings)[i] == Once(Group(records, KeyOf, keys[i]))
    {
      assert Describes(findings[i], records, keys[i]);
    }
  }

  /** Every record is evidence of exactly one finding, and nothing else is evidence. */
  lemma {:induction false} EveryRecordOnce(findings: seq<Finding>, records: seq<Record>)
    requires AreFindings(findings, records, Sort(By(TupleOf), Keys(records, KeyOf)))
    ensures forall r :: r in records ==> exists i :: 0 <= i < |findings| && r in findings[i].evidence
    ensures forall i, r :: 0 <= i < |findings| && r in findings[i].evidence ==> r in records && KeyOf(r) == findings[i].identity
    ensures forall i, j :: 0 <= i < j < |findings| ==> findings[i].identity != findings[j].identity
  {
    hide Keys, Sort, AreFindings, AreGroups;
    var sorted := Sort(By(TupleOf), Keys(records, KeyOf));
    FindingsGroup(findings, records, sorted);
    GroupsCover(EvidenceOf(findings), records, KeyOf, sorted);
    assert |findings| == |sorted| by { CountFindings(findings, records, sorted); }
    forall r | r in records ensures exists i :: 0 <= i < |findings| && r in findings[i].evidence {
      var i :| 0 <= i < |findings| && r in EvidenceOf(findings)[i];
      assert r in findings[i].evidence;
    }
  }

  lemma {:induction false} CountFindings(findings: seq<Finding>, records: seq<Record>, keys: seq<Key>)
    requires AreFindings(findings, records, keys)
    ensures |findings| == |keys|
  {
  }

  /** Findings at one place link to each other's kinds, and every linked kind is that of a finding that links back. */
  lemma {:induction false} LinksSymmetric(findings: seq<Finding>, records: seq<Record>, i: nat)
    requires AreFindings(findings, records, Sort(By(TupleOf), Keys(records, KeyOf))) && i < |findings|
    ensures forall kind :: kind in findings[i].links <==>
      exists j :: 0 <= j < |findings| && SamePlace(findings[i], findings[j]) && findings[j].identity.kind == kind
    ensures forall j :: 0 <= j < |findings| && SamePlace(findings[i], findings[j]) ==>
      findings[j].identity.kind in findings[i].links && findings[i].identity.kind in findings[j].links
  {
    hide Keys, Group, AmbiguousOf, Sort, Best, Once;
    var keys := Keys(records, KeyOf);
    var sorted := Sort(By(TupleOf), keys);
    SameEntries(sorted, keys);
    forall j | 0 <= j < |findings| ensures findings[j].identity == sorted[j] && findings[j].links == LinkedKinds(keys, sorted[j]) {
      assert Describes(findings[j], records, sorted[j]);
    }
    assert forall j :: 0 <= j < |findings| ==> sorted[j] in keys;
    forall kind | kind in findings[i].links
      ensures exists j :: 0 <= j < |findings| && SamePlace(findings[i], findings[j]) && findings[j].identity.kind == kind
    {
      var l :| l in keys && CrossKeyOf(l) == CrossKeyOf(sorted[i]) && l.kind != sorted[i].kind && l.kind == kind;
      assert l in sorted;
      var j :| 0 <= j < |sorted| && sorted[j] == l;
      assert SamePlace(findings[i], findings[j]);
    }
  }

  /** Different groups at one place: they differ in their kind alone. */
  predicate SamePlace(f: Finding, g: Finding) {
    f.identity != g.identity && CrossKeyOf(f.identity) == CrossKeyOf(g.identity)
  }

  /** The findings depend on the records, not on the order in which they arrive. */
  lemma {:induction false} OrderOfArrival(le: (Record, Record) -> bool, a: seq<Record>, b: seq<Record>, f: seq<Finding>, g: seq<Finding>)
    requires TotalOrder(le) && multiset(a) == multiset(b)
    requires AreFindings(f, Sort(le, a), Sort(By(TupleOf), Keys(Sort(le, a), KeyOf)))
    requires AreFindings(g, Sort(le, b), Sort(By(TupleOf), Keys(Sort(le, b), KeyOf)))
    ensures f == g
  {
    hide Sort, Keys;
    SortCanonical(le, a, b);
    var records := Sort(le, a);
    var keys := Sort(By(TupleOf), Keys(records, KeyOf));
    forall i | 0 <= i < |f| ensures f[i] == g[i] { SameDescription(f[i], g[i], records, keys[i]); }
  }

  lemma {:induction false} SameDescription(f: Finding, g: Finding, records: seq<Record>, k: Key)
    requires Describes(f, records, k) && Describes(g, records, k)
    ensures f == g
  {
    hide Sort, Keys, Group, AmbiguousOf, LinkedKinds, Best, Once;
    assert f.confidence == g.confidence;
  }
}
