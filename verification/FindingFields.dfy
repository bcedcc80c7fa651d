/**
  What the findings of both correlators say, field by field of the records.
 */
module FindingFields {
  import opened Options
  import opened Sorting
  import opened Ordering
  import opened Grouping
  import opened Evidence
  import V2 = CorrelatorV2
  import V3 = CorrelatorV3

  // ----- records counted by what they are -----

  function Those(records: seq<Record>, which: Record -> bool): (r: seq<Record>)
    ensures forall x :: x in r ==> x in records && which(x)
  {
    if records == [] then []
    else Those(records[..|records| - 1], which) + if which(records[|records| - 1]) then [records[|records| - 1]] else []
  }

  // ----- operation-v2 -----

  /** The record has the identity's component, algorithm, usage, kind, file and operation. */
  predicate Bears(r: Record, k: V2.Identity) {
    && r.component == k.component && r.algorithm == k.algorithm && r.usage == k.usage
    && r.kind == k.kind && r.file == k.file && r.operation == k.operation
  }

  /** Dependency evidence of a component with direct evidence, none of it of the same algorithm. */
  ghost predicate Contradicted(records: seq<Record>, r: Record) {
    && r.source == "dep"
    && (exists d :: d in records && d.source != "dep" && d.component == r.component)
    && (forall d :: d in records && d.source != "dep" && d.component == r.component ==> d.algorithm != r.algorithm)
  }

  lemma ContradictedIsDropped(records: seq<Record>, r: Record)
    ensures V2.Dropped(records, r) <==> Contradicted(records, r)
  {
    V2.DroppedExactly(records, r);
    if d :| d in records && V2.Direct(d) && d.component == r.component { assert d.source != "dep"; }
    if d :| d in records && d.source != "dep" && d.component == r.component { assert V2.Direct(d); }
    if V2.Dropped(records, r) {
      forall d | d in records && d.source != "dep" && d.component == r.component ensures d.algorithm != r.algorithm { assert V2.Direct(d); }
    }
  }

  /** A finding's evidence is exactly the evidence with its identity that is not contradicted. */
  lemma {:induction false} EvidenceV2(findings: seq<V2.Finding>, records: seq<Record>, i: nat)
    requires V2.AreFindings(findings, records) && i < |findings|
    ensures forall r :: r in findings[i].evidence <==> r in records && !Contradicted(records, r) && Bears(r, findings[i].identity)
  {
    var kept := V2.Kept(records, records);
    var keys := Sort(By(V2.TupleOf), Keys(kept, V2.IdentityOf));
    assert V2.Describes(findings[i], records, keys[i]);
    hide *;
    var k := findings[i].identity;
    DescribedV2(findings[i], records, keys[i]);
    forall r ensures r in findings[i].evidence <==> r in records && !Contradicted(records, r) && Bears(r, k) {
      GroupMember(kept, V2.IdentityOf, k, r);
      V2.KeptMember(records, records, r);
      ContradictedIsDropped(records, r);
      BearsIs(r, k);
    }
  }

  lemma BearsIs(r: Record, k: V2.Identity)
    ensures V2.IdentityOf(r) == k <==> Bears(r, k)
  {
  }

  lemma {:induction false} DescribedV2(f: V2.Finding, records: seq<Record>, k: V2.Identity)
    requires V2.Describes(f, records, k)
    ensures var group := Group(V2.Kept(records, records), V2.IdentityOf, k);
      && f.identity == k && (forall r :: r in f.evidence <==> r in group)
      && (forall s :: s in f.sources <==> exists r :: r in group && r.source == s)
      && (forall s :: s in f.confidence <==> exists r :: r in group && r.source == s)
      && (forall s :: s in f.confidence ==> f.confidence[s] == Best(group, s))
  {
    hide Group, Keys, Best, Once, Sort, V2.Kept, V2.Conflicting;
    var group := Group(V2.Kept(records, records), V2.IdentityOf, k);
    SourcesAre(group);
    SameEntries(f.sources, Keys(group, SourceOf));
  }

  /** Two records are evidence of one finding exactly when they agree in all six fields and neither is contradicted. */
  lemma {:induction false} SharedV2(findings: seq<V2.Finding>, records: seq<Record>, r: Record, s: Record)
    requires V2.AreFindings(findings, records) && r in records && s in records
    ensures (exists i :: 0 <= i < |findings| && r in findings[i].evidence && s in findings[i].evidence) <==>
      && !Contradicted(records, r) && !Contradicted(records, s)
      && r.component == s.component && r.algorithm == s.algorithm && r.usage == s.usage
      && r.kind == s.kind && r.file == s.file && r.operation == s.operation
  {
    hide V2.AreFindings, Contradicted;
    forall i: nat | i < |findings|
      ensures r in findings[i].evidence <==> !Contradicted(records, r) && Bears(r, findings[i].identity)
      ensures s in findings[i].evidence <==> !Contradicted(records, s) && Bears(s, findings[i].identity)
    {
      EvidenceV2(findings, records, i);
    }
    V2.KeptRecordsOnce(findings, records, r);
    ContradictedIsDropped(records, r);
  }

  /** Direct evidence of the record is at the operation. */
  predicate DirectAt(r: Record, file: string, operation: string) {
    r.source != "dep" && r.file == file && r.operation == operation
  }

  lemma DirectAtIs(r: Record, file: string, operation: string)
    ensures V2.Direct(r) && V2.OperationOf(r) == V2.Operation(file, operation) <==> DirectAt(r, file, operation)
  {
  }

  lemma Disagreeing(records: seq<Record>, file: string, operation: string)
    ensures V2.Conflicting(records, V2.Operation(file, operation)) <==> exists r, s ::
      && r in records && s in records && DirectAt(r, file, operation) && DirectAt(s, file, operation)
      && r.category == s.category && r.algorithm != s.algorithm
  {
    hide V2.OperationOf, V2.Direct, DirectAt;
    forall r { DirectAtIs(r, file, operation); }
  }

  /** A conflict is direct evidence of two algorithms of one category at the finding's operation. */
  lemma {:induction false} ConflictV2(findings: seq<V2.Finding>, records: seq<Record>, i: nat)
    requires V2.AreFindings(findings, records) && i < |findings|
    ensures findings[i].conflict <==> exists r, s ::
      && r in records && s in records && r.source != "dep" && s.source != "dep"
      && r.file == s.file == findings[i].identity.file && r.operation == s.operation == findings[i].identity.operation
      && r.category == s.category && r.algorithm != s.algorithm
  {
    var keys := Sort(By(V2.TupleOf), Keys(V2.Kept(records, records), V2.IdentityOf));
    assert V2.Describes(findings[i], records, keys[i]);
    hide Sort, Keys, Group, V2.Kept, Best, Once, V2.AreFindings, V2.Conflicting;
    var k := findings[i].identity;
    Disagreeing(records, k.file, k.operation);
    if r, s :| && r in records && s in records && r.source != "dep" && s.source != "dep"
               && r.file == s.file == k.file && r.operation == s.operation == k.operation
               && r.category == s.category && r.algorithm != s.algorithm {
      assert DirectAt(r, k.file, k.operation) && DirectAt(s, k.file, k.operation);
    }
  }

  /** The first field in which two identities differ decides which of them comes first. */
  predicate PrecedesV2(a: V2.Identity, b: V2.Identity) {
    if a.component != b.component then TextLe(a.component, b.component)
    else if a.algorithm != b.algorithm then TextLe(a.algorithm, b.algorithm)
    else if a.usage != b.usage then TextLe(a.usage, b.usage)
    else if a.kind != b.kind then TextLe(a.kind, b.kind)
    else if a.file != b.file then TextLe(a.file, b.file)
    else TextLe(a.operation, b.operation)
  }

  lemma {:induction false} FirstEntry(x: Item, a: Tuple, y: Item, b: Tuple)
    ensures TupleLe([x] + a, [y] + b) <==> if x == y then TupleLe(a, b) else ItemLe(x, y)
  {
    assert ([x] + a)[1..] == a && ([y] + b)[1..] == b;
  }

  lemma TuplesV2(a: V2.Identity, b: V2.Identity)
    ensures TupleLe(V2.TupleOf(a), V2.TupleOf(b)) ==> PrecedesV2(a, b)
  {
    hide TupleLe, TextLe;
    var a5, b5 := [Text(a.operation)], [Text(b.operation)];
    var a4, b4 := [Text(a.file)] + a5, [Text(b.file)] + b5;
    var a3, b3 := [Text(a.kind)] + a4, [Text(b.kind)] + b4;
    var a2, b2 := [Text(a.usage)] + a3, [Text(b.usage)] + b3;
    var a1, b1 := [Text(a.algorithm)] + a2, [Text(b.algorithm)] + b2;
    assert V2.TupleOf(a) == [Text(a.component)] + a1 && V2.TupleOf(b) == [Text(b.component)] + b1;
    FirstEntry(Text(a.component), a1, Text(b.component), b1);
    FirstEntry(Text(a.algorithm), a2, Text(b.algorithm), b2);
    FirstEntry(Text(a.usage), a3, Text(b.usage), b3);
    FirstEntry(Text(a.kind), a4, Text(b.kind), b4);
    FirstEntry(Text(a.file), a5, Text(b.file), b5);
    assert a5 == [Text(a.operation)] + [] && b5 == [Text(b.operation)] + [];
    FirstEntry(Text(a.operation), [], Text(b.operation), []);
    SameText(a.operation);
  }

  lemma {:induction false} SameText(a: string)
    ensures TextLe(a, a)
  {
    ItemOrder();
    assert ItemLe(Text(a), Text(a));
  }

  lemma {:induction false} SortedBy<K(!new)>(tuple: K -> Tuple, keys: seq<K>)
    ensures Sorted(By(tuple), Sort(By(tuple), keys))
  {
    TupleOrder();
    SortSorted(By(tuple), keys);
  }

  /** Findings are listed by component, algorithm, usage, kind, file and operation, in that order. */
  lemma {:induction false} ListedV2(findings: seq<V2.Finding>, records: seq<Record>, i: nat, j: nat)
    requires V2.AreFindings(findings, records) && i < j < |findings|
    ensures findings[i].identity != findings[j].identity && PrecedesV2(findings[i].identity, findings[j].identity)
  {
    var kept := V2.Kept(records, records);
    var order := Keys(kept, V2.IdentityOf);
    var keys := Sort(By(V2.TupleOf), order);
    assert V2.Describes(findings[i], records, keys[i]) && V2.Describes(findings[j], records, keys[j]);
    hide Sort, Keys, V2.Kept, Best, Once, V2.AreFindings, PrecedesV2, V2.TupleOf;
    SortedBy(V2.TupleOf, order);
    TuplesV2(keys[i], keys[j]);
    StillDistinct(order, keys);
  }

  /** The best confidence of a source in a finding is the largest one its evidence reports, and zero at least. */
  ghost predicate BestOf(evidence: seq<Record>, source: string, c: real) {
    && c >= 0.0 && (forall r :: r in evidence && r.source == source ==> r.confidence <= c)
    && (c == 0.0 || exists r :: r in evidence && r.source == source && r.confidence == c)
  }

  lemma {:induction false} SourcesV2(findings: seq<V2.Finding>, records: seq<Record>, i: nat)
    requires V2.AreFindings(findings, records) && i < |findings|
    ensures var f := findings[i];
      && (forall s :: s in f.sources <==> exists r :: r in f.evidence && r.source == s)
      && (forall s :: s in f.confidence <==> s in f.sources)
      && (forall s :: s in f.confidence ==> BestOf(f.evidence, s, f.confidence[s]))
  {
    var kept := V2.Kept(records, records);
    var keys := Sort(By(V2.TupleOf), Keys(kept, V2.IdentityOf));
    assert V2.Describes(findings[i], records, keys[i]);
    hide *;
    var group, f := Group(kept, V2.IdentityOf, keys[i]), findings[i];
    DescribedV2(f, records, keys[i]);
    forall s | s in f.confidence ensures BestOf(f.evidence, s, f.confidence[s]) { BestInGroup(group, f.evidence, s); }
  }

  lemma {:induction false} BestInGroup(group: seq<Record>, evidence: seq<Record>, source: string)
    requires forall r :: r in evidence <==> r in group
    ensures BestOf(evidence, source, Best(group, source))
  {
    BestIsMaximum(group, source);
  }

  // ----- operation-v3 -----

  /** The text of an anchor; a missing one counts as empty. */
  predicate AnchoredAt(r: Record, text: string) { (r.anchor == None && text == "") || r.anchor == Some(text) }

  predicate HasKey(r: Record, k: V3.Key) {
    && r.file == k.file && r.algorithm == k.algorithm && r.line == k.line && r.column == k.column
    && AnchoredAt(r, k.anchor) && r.kind == k.kind
  }

  lemma HasKeyIs(r: Record, k: V3.Key)
    ensures V3.KeyOf(r) == k <==> HasKey(r, k)
  {
  }

  ghost predicate FindingsV3(findings: seq<V3.Finding>, records: seq<Record>) {
    V3.AreFindings(findings, records, Sort(By(V3.TupleOf), Keys(records, V3.KeyOf)))
  }

  lemma {:induction false} DescribedV3(findings: seq<V3.Finding>, records: seq<Record>, i: nat)
    requires FindingsV3(findings, records) && i < |findings|
    ensures var f := findings[i]; f.identity in Keys(records, V3.KeyOf) && SaysV3(f, records, f.identity)
  {
    var order := Keys(records, V3.KeyOf);
    var keys := Sort(By(V3.TupleOf), order);
    assert V3.Describes(findings[i], records, keys[i]);
    hide Keys, Sort, SaysV3;
    SameEntries(order, keys);
    assert keys[i] in keys;
    FindingSays(findings[i], records, keys[i]);
  }

  ghost predicate SaysV3(f: V3.Finding, records: seq<Record>, k: V3.Key) {
    var group := Group(records, V3.KeyOf, k);
    && f.identity == k && f.links == V3.LinkedKinds(Keys(records, V3.KeyOf), k) && f.ambiguous == V3.AmbiguousOf(records, k)
    && (forall r :: r in f.evidence <==> r in group)
    && (forall s :: s in f.sources <==> exists r :: r in group && r.source == s)
    && (forall s :: s in f.confidence <==> exists r :: r in group && r.source == s)
    && (forall s :: s in f.confidence ==> f.confidence[s] == Best(group, s))
  }

  lemma FindingSays(f: V3.Finding, records: seq<Record>, k: V3.Key)
    requires V3.Describes(f, records, k)
    ensures SaysV3(f, records, k)
  {
    hide Group, Keys, Best, Once, Sort, V3.LinkedKinds, V3.AmbiguousOf;
    var group := Group(records, V3.KeyOf, k);
    SourcesAre(group);
    SameEntries(f.sources, Keys(group, SourceOf));
  }

  /** A finding's evidence is exactly the evidence with its file, algorithm, line, column, anchor and kind. */
  lemma {:induction false} EvidenceV3(findings: seq<V3.Finding>, records: seq<Record>, i: nat)
    requires FindingsV3(findings, records) && i < |findings|
    ensures forall r :: r in findings[i].evidence <==> r in records && HasKey(r, findings[i].identity)
    ensures var f := findings[i];
      && (forall s :: s in f.sources <==> exists r :: r in f.evidence && r.source == s)
      && (forall s :: s in f.confidence <==> s in f.sources)
      && (forall s :: s in f.confidence ==> BestOf(f.evidence, s, f.confidence[s]))
  {
    hide FindingsV3, Group, Keys, Best, BestOf, HasKey;
    DescribedV3(findings, records, i);
    var f := findings[i];
    var group := Group(records, V3.KeyOf, f.identity);
    forall r ensures r in f.evidence <==> r in records && HasKey(r, f.identity) {
      GroupMember(records, V3.KeyOf, f.identity, r);
      HasKeyIs(r, f.identity);
    }
    forall s | s in f.confidence ensures BestOf(f.evidence, s, f.confidence[s]) { BestInGroup(group, f.evidence, s); }
  }

  /** Two records are evidence of one finding exactly when they agree in all six, a missing anchor being an empty one. */
  lemma {:induction false} SharedV3(findings: seq<V3.Finding>, records: seq<Record>, r: Record, s: Record)
    requires FindingsV3(findings, records) && r in records && s in records
    ensures (exists i :: 0 <= i < |findings| && r in findings[i].evidence && s in findings[i].evidence) <==>
      && r.file == s.file && r.algorithm == s.algorithm && r.line == s.line && r.column == s.column && r.kind == s.kind
      && (r.anchor == s.anchor || (r.anchor in {None, Some("")} && s.anchor in {None, Some("")}))
  {
    forall i: nat | i < |findings|
      ensures r in findings[i].evidence <==> HasKey(r, findings[i].identity)
      ensures s in findings[i].evidence <==> HasKey(s, findings[i].identity)
    {
      EvidenceV3(findings, records, i);
    }
    V3.EveryRecordOnce(findings, records);
  }

  // ----- links -----

  /** A finding links to the kinds of the other evidence at its place: same file, algorithm, line, column and anchor. */
  lemma {:induction false} LinksV3(findings: seq<V3.Finding>, records: seq<Record>, i: nat, kind: string)
    requires FindingsV3(findings, records) && i < |findings|
    ensures kind in findings[i].links <==>
      var k := findings[i].identity;
      kind != k.kind && exists r :: r in records && HasKey(r, k.(kind := kind))
  {
    hide V3.AreFindings, Keys, Group, V3.AmbiguousOf, Best;
    DescribedV3(findings, records, i);
    var k, keys := findings[i].identity, Keys(records, V3.KeyOf);
    if kind in findings[i].links {
      var l :| l in keys && V3.CrossKeyOf(l) == V3.CrossKeyOf(k) && l.kind != k.kind && l.kind == kind;
      var j :| 0 <= j < |records| && V3.KeyOf(records[j]) == l;
      assert records[j] in records && HasKey(records[j], k.(kind := kind));
    }
    if r :| kind != k.kind && r in records && HasKey(r, k.(kind := kind)) {
      var j :| 0 <= j < |records| && records[j] == r;
      assert V3.KeyOf(records[j]) in keys;
    }
  }

  // ----- ambiguous matches -----

  /** Evidence of another kind for the same file and algorithm, not within five lines of the finding. */
  predicate Elsewhere(k: V3.Key, r: Record) {
    && r.file == k.file && r.algorithm == k.algorithm && r.kind != k.kind
    && !(r.line.Some? && k.line.Some? && r.line.value - k.line.value <= 5 && k.line.value - r.line.value <= 5)
  }

  /** An uncertain match as it is reported: what the other evidence is, with confidence 0.3, and not to be merged. */
  function Reported(c: Record): V3.Payload { V3.Payload(c.algorithm, c.kind, c.file, c.line, c.column, c.anchor, 0.3, false) }

  /** Two records in one file, both with a line, and the lines at most five apart. */
  predicate WithinFive(r: Record, s: Record) {
    r.file == s.file && r.line.Some? && s.line.Some? && r.line.value - s.line.value <= 5 && s.line.value - r.line.value <= 5
  }

  /** What matching one record against another says: merged if near and of one kind, ambiguous and uncertain if neither. */
  lemma MatchV3(r: Record, s: Record)
    ensures var m := V3.MatchOf(r, s);
      && m.candidate == s
      && (m.merge <==> WithinFive(r, s) && r.kind == s.kind) && (m.ambiguous <==> !WithinFive(r, s) && r.kind != s.kind)
      && (V3.IsUncertain(m) <==> m.ambiguous)
      && (m.confidence == if WithinFive(r, s) then if r.kind == s.kind then 1.0 else 0.7 else if r.kind == s.kind then 0.0 else 0.3)
  {
  }

  lemma ElsewhereIs(k: V3.Key, r: Record)
    ensures Elsewhere(k, r) <==> V3.PlaceOf(V3.KeyOf(r)) == V3.PlaceOf(k) && V3.Clashes(k, V3.KeyOf(r))
  {
  }

  /** Records of the keys that clash with k, counted record by record. */
  lemma {:induction false} ClashGrows(records: seq<Record>, keys: seq<V3.Key>, k: V3.Key)
    requires records != [] && Distinct(keys)
    ensures var l := V3.KeyOf(records[|records| - 1]);
      V3.ClashTotal(records, keys, k)
        == V3.ClashTotal(records[..|records| - 1], keys, k) + if l in keys && V3.Clashes(k, l) then 1 else 0
  {
    hide V3.Clashes, V3.KeyOf;
    if keys != [] {
      ClashGrows(records, keys[..|keys| - 1], k);
      assert keys == keys[..|keys| - 1] + [keys[|keys| - 1]];
    }
  }

  lemma {:induction false} NoClash(keys: seq<V3.Key>, k: V3.Key)
    ensures V3.ClashTotal([], keys, k) == 0
  {
    if keys != [] { NoClash(keys[..|keys| - 1], k); }
  }

  lemma {:induction false} ClashCount(records: seq<Record>, keys: seq<V3.Key>, k: V3.Key)
    requires Distinct(keys) && forall r :: r in records ==> (V3.KeyOf(r) in keys <==> V3.PlaceOf(V3.KeyOf(r)) == V3.PlaceOf(k))
    ensures V3.ClashTotal(records, keys, k) == |Those(records, r => Elsewhere(k, r))|
  {
    if records == [] {
      NoClash(keys, k);
    } else {
      hide Elsewhere, V3.Clashes, V3.ClashTotal;
      var front, last := records[..|records| - 1], records[|records| - 1];
      assert records == front + [last];
      ClashCount(front, keys, k);
      ClashGrows(records, keys, k);
      ElsewhereIs(k, last);
    }
  }

  lemma {:induction false} GroupCount(records: seq<Record>, k: V3.Key)
    ensures |Group(records, V3.KeyOf, k)| == |Those(records, r => HasKey(r, k))|
  {
    if records != [] {
      GroupCount(records[..|records| - 1], k);
      HasKeyIs(records[|records| - 1], k);
    }
  }

  /** Every record of a finding's group stores one match for each piece of evidence that is elsewhere. */
  lemma {:induction false} AmbiguousV3(findings: seq<V3.Finding>, records: seq<Record>, i: nat)
    requires FindingsV3(findings, records) && i < |findings|
    ensures var k := findings[i].identity;
      && |findings[i].ambiguous| == |Those(records, r => HasKey(r, k))| * |Those(records, r => Elsewhere(k, r))|
      && (forall p :: p in findings[i].ambiguous <==> exists c :: c in records && Elsewhere(k, c) && p == Reported(c))
  {
    hide FindingsV3, Keys, Group, V3.AmbiguousOf, Best, Elsewhere, HasKey, V3.LinkedKinds, V3.ClashTotal;
    DescribedV3(findings, records, i);
    var k, order := findings[i].identity, Keys(records, V3.KeyOf);
    var sharing := Group(order, V3.PlaceOf, V3.PlaceOf(k));
    V3.AmbiguityCount(records, k);
    GroupCount(records, k);
    V3.GroupDistinct(order, V3.PlaceOf(k));
    forall r | r in records ensures V3.KeyOf(r) in sharing <==> V3.PlaceOf(V3.KeyOf(r)) == V3.PlaceOf(k) {
      var j :| 0 <= j < |records| && records[j] == r;
      assert V3.KeyOf(records[j]) in order;
      GroupMember(order, V3.PlaceOf, V3.PlaceOf(k), V3.KeyOf(r));
    }
    ClashCount(records, sharing, k);
    PayloadsAre(records, k);
  }

  lemma {:induction false} UncertainAre(k: V3.Key, records: seq<Record>, p: V3.Payload)
    ensures p in V3.Uncertain(k, records) <==> exists c :: c in records && V3.Clashes(k, V3.KeyOf(c)) && p == Reported(c)
  {
    hide V3.Clashes, V3.KeyOf;
    if records != [] {
      UncertainAre(k, records[..|records| - 1], p);
      assert records == records[..|records| - 1] + [records[|records| - 1]];
    }
  }

  lemma {:induction false} StoredAre(k: V3.Key, targets: seq<Record>, candidates: seq<Record>, p: V3.Payload)
    ensures p in V3.Stored(k, targets, candidates) <==>
      p in V3.Uncertain(k, candidates) && exists r :: r in targets && V3.KeyOf(r) == k
  {
    hide V3.KeyOf, V3.Uncertain;
    if targets != [] {
      StoredAre(k, targets[..|targets| - 1], candidates, p);
      assert targets == targets[..|targets| - 1] + [targets[|targets| - 1]];
    }
  }

  lemma {:induction false} JoinedAre(records: seq<Record>, keys: seq<V3.Key>, r: Record)
    ensures r in V3.Joined(records, keys) <==> r in records && V3.KeyOf(r) in keys
  {
    hide V3.KeyOf, Group;
    if keys != [] {
      JoinedAre(records, keys[..|keys| - 1], r);
      GroupMember(records, V3.KeyOf, keys[|keys| - 1], r);
      assert keys == keys[..|keys| - 1] + [keys[|keys| - 1]];
    }
  }

  lemma {:induction false} NeighboursAre(records: seq<Record>, k: V3.Key, r: Record)
    ensures r in V3.Neighbours(records, k) <==> r in records && V3.PlaceOf(V3.KeyOf(r)) == V3.PlaceOf(k)
  {
    hide Keys, Group;
    var order := Keys(records, V3.KeyOf);
    JoinedAre(records, Group(order, V3.PlaceOf, V3.PlaceOf(k)), r);
    GroupMember(order, V3.PlaceOf, V3.PlaceOf(k), V3.KeyOf(r));
    if r in records {
      var j :| 0 <= j < |records| && records[j] == r;
      assert V3.KeyOf(records[j]) in order;
    }
  }

  lemma {:induction false} PayloadsAre(records: seq<Record>, k: V3.Key)
    requires k in Keys(records, V3.KeyOf)
    ensures forall p :: p in V3.AmbiguousOf(records, k) <==> exists c :: c in records && Elsewhere(k, c) && p == Reported(c)
  {
    var j :| 0 <= j < |records| && V3.KeyOf(records[j]) == k;
    hide Keys, V3.Neighbours, V3.Stored, V3.Uncertain, Elsewhere, V3.Clashes, V3.KeyOf;
    var near := V3.Neighbours(records, k);
    forall r ensures r in near <==> r in records && V3.PlaceOf(V3.KeyOf(r)) == V3.PlaceOf(k) { NeighboursAre(records, k, r); }
    assert records[j] in near;
    forall c ensures c in near && V3.Clashes(k, V3.KeyOf(c)) <==> c in records && Elsewhere(k, c) { ElsewhereIs(k, c); }
    forall p ensures p in V3.AmbiguousOf(records, k) <==> exists c :: c in records && Elsewhere(k, c) && p == Reported(c)
    {
      UncertainAre(k, near, p);
      StoredAre(k, near, near, p);
    }
  }

  // ----- the order of the findings -----

  predicate NumberLe(a: Option<int>, b: Option<int>) { a.None? || (b.Some? && a.value <= b.value) }

  /** The first field in which two identities differ decides which of them comes first. */
  predicate PrecedesV3(a: V3.Key, b: V3.Key) {
    if a.file != b.file then TextLe(a.file, b.file)
    else if a.algorithm != b.algorithm then TextLe(a.algorithm, b.algorithm)
    else if a.line != b.line then NumberLe(a.line, b.line)
    else if a.column != b.column then NumberLe(a.column, b.column)
    else if a.anchor != b.anchor then TextLe(a.anchor, b.anchor)
    else TextLe(a.kind, b.kind)
  }

  lemma TuplesV3(a: V3.Key, b: V3.Key)
    ensures TupleLe(V3.TupleOf(a), V3.TupleOf(b)) ==> PrecedesV3(a, b)
  {
    hide TupleLe, TextLe;
    var a5, b5 := [Text(a.kind)], [Text(b.kind)];
    var a4, b4 := [Text(a.anchor)] + a5, [Text(b.anchor)] + b5;
    var a3, b3 := [Number(a.column)] + a4, [Number(b.column)] + b4;
    var a2, b2 := [Number(a.line)] + a3, [Number(b.line)] + b3;
    var a1, b1 := [Text(a.algorithm)] + a2, [Text(b.algorithm)] + b2;
    assert V3.TupleOf(a) == [Text(a.file)] + a1 && V3.TupleOf(b) == [Text(b.file)] + b1;
    FirstEntry(Text(a.file), a1, Text(b.file), b1);
    FirstEntry(Text(a.algorithm), a2, Text(b.algorithm), b2);
    FirstEntry(Number(a.line), a3, Number(b.line), b3);
    FirstEntry(Number(a.column), a4, Number(b.column), b4);
    FirstEntry(Text(a.anchor), a5, Text(b.anchor), b5);
    assert a5 == [Text(a.kind)] + [] && b5 == [Text(b.kind)] + [];
    FirstEntry(Text(a.kind), [], Text(b.kind), []);
    SameText(a.kind);
  }

  /** Findings are listed by file, algorithm, line, column, anchor and kind, in that order. */
  lemma {:induction false} ListedV3(findings: seq<V3.Finding>, records: seq<Record>, i: nat, j: nat)
    requires FindingsV3(findings, records) && i < j < |findings|
    ensures findings[i].identity != findings[j].identity && PrecedesV3(findings[i].identity, findings[j].identity)
  {
    var order := Keys(records, V3.KeyOf);
    var keys := Sort(By(V3.TupleOf), order);
    assert V3.Describes(findings[i], records, keys[i]) && V3.Describes(findings[j], records, keys[j]);
    hide Sort, Keys, Group, Best, Once, V3.AreFindings, PrecedesV3, V3.TupleOf, V3.LinkedKinds, V3.AmbiguousOf;
    SortedBy(V3.TupleOf, order);
    TuplesV3(keys[i], keys[j]);
    StillDistinct(order, keys);
  }
}
