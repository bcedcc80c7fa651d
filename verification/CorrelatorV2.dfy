/**
  The operation-v2 correlator: dependency evidence that direct evidence contradicts is dropped, and
  the rest is grouped by component, algorithm, usage, kind and operation.
 */
module CorrelatorV2 {
  import opened Options
  import opened Sorting
  import opened Ordering
  import opened Grouping
  import opened Evidence
  import Pairings

  datatype Identity = Identity(component: string, algorithm: string, usage: string, kind: string, file: string, operation: string)

  function IdentityOf(r: Record): Identity { Identity(r.component, r.algorithm, r.usage, r.kind, r.file, r.operation) }

  function TupleOf(k: Identity): Tuple {
    [Text(k.component), Text(k.algorithm), Text(k.usage), Text(k.kind), Text(k.file), Text(k.operation)]
  }

  predicate Direct(r: Record) { r.source != "dep" }

  /** The algorithms for which the component has direct evidence. */
  function Strong(records: seq<Record>, component: string): set<string> {
    set r | r in records && Direct(r) && r.component == component :: r.algorithm
  }

  predicate Dropped(records: seq<Record>, r: Record) {
    !Direct(r) && Strong(records, r.component) != {} && r.algorithm !in Strong(records, r.component)
  }

  /** Dependency evidence is dropped exactly when its component has direct evidence, but none of its algorithm. */
  lemma {:induction false} DroppedExactly(records: seq<Record>, r: Record)
    ensures Dropped(records, r) <==>
      && r.source == "dep"
      && (exists d :: d in records && Direct(d) && d.component == r.component)
      && (forall d :: d in records && Direct(d) && d.component == r.component ==> d.algorithm != r.algorithm)
  {
    if d :| d in records && Direct(d) && d.component == r.component {
      assert d.algorithm in Strong(records, r.component);
    }
  }

  /** The records of s that the evidence in all does not drop. */
  function Kept(s: seq<Record>, all: seq<Record>): seq<Record> {
    if s == [] then []
    else Kept(s[..|s| - 1], all) + if Dropped(all, s[|s| - 1]) then [] else [s[|s| - 1]]
  }

  lemma {:induction false} KeptHolds(s: seq<Record>, all: seq<Record>, r: Record)
    ensures multiset(Kept(s, all))[r] == if Dropped(all, r) then 0 else multiset(s)[r]
  {
    if s != [] {
      KeptHolds(s[..|s| - 1], all, r);
      assert s == s[..|s| - 1] + [s[|s| - 1]];
    }
  }

  lemma {:induction false} KeptMember(s: seq<Record>, all: seq<Record>, r: Record)
    ensures r in Kept(s, all) <==> r in s && !Dropped(all, r)
  {
    KeptHolds(s, all, r);
    assert r in Kept(s, all) <==> multiset(Kept(s, all))[r] > 0;
    assert r in s <==> multiset(s)[r] > 0;
  }

  /** Dropping takes nothing from the evidence that decides about it: a second pass drops nothing. */
  lemma {:induction false} DroppingIsFinal(records: seq<Record>, component: string)
    ensures Strong(Kept(records, records), component) == Strong(records, component)
    ensures forall r :: r in Kept(records, records) ==> !Dropped(Kept(records, records), r)
  {
    var kept := Kept(records, records);
    forall r ensures r in kept <==> r in records && !Dropped(records, r) { KeptMember(records, records, r); }
    forall c ensures Strong(kept, c) == Strong(records, c) { }
  }

  /** Direct evidence is never dropped, nor is any evidence of a component that has no direct evidence. */
  lemma {:induction false} KeptSafely(records: seq<Record>, r: Record)
    requires r in records
    requires Direct(r) || (forall d :: d in records && d.component == r.component ==> !Direct(d))
    ensures multiset(Kept(records, records))[r] == multiset(records)[r]
  {
    DroppedExactly(records, r);
    KeptHolds(records, records, r);
  }

  // ----- conflicts -----

  datatype Operation = Operation(file: string, name: string)

  function OperationOf(r: Record): Operation { Operation(r.file, r.operation) }

  /** The algorithms of one category that direct evidence reports for an operation. */
  function Reported(records: seq<Record>, op: Operation, category: string): set<string> {
    set r | r in records && Direct(r) && OperationOf(r) == op && r.category == category :: r.algorithm
  }

  /** Two pieces of direct evidence disagree about the algorithm of one category at the operation. */
  ghost predicate Conflicting(records: seq<Record>, op: Operation) {
    exists r, s :: r in records && s in records && Direct(r) && Direct(s) && OperationOf(r) == OperationOf(s) == op
                   && r.category == s.category && r.algorithm != s.algorithm
  }

  lemma {:induction false} ConflictIsPlural(records: seq<Record>, op: Operation)
    ensures Conflicting(records, op) <==> exists c :: |Reported(records, op, c)| > 1
  {
    if r, s :| r in records && s in records && Direct(r) && Direct(s) && OperationOf(r) == OperationOf(s) == op
               && r.category == s.category && r.algorithm != s.algorithm {
      var both := {r.algorithm, s.algorithm};
      assert both <= Reported(records, op, r.category);
      Pairings.SubsetCount(both, Reported(records, op, r.category));
    }
    if c :| |Reported(records, op, c)| > 1 {
      TwoMembers(Reported(records, op, c));
    }
  }

  lemma TwoMembers<T(!new)>(a: set<T>)
    requires |a| > 1
    ensures exists x, y :: x in a && y in a && x != y
  {
    var x :| x in a;
    var rest := a - {x};
    assert a == {x} + rest && |a| == 1 + |rest|;
    var y :| y in rest;
  }

  // ----- the correlator -----

  function StrongAt(strong: map<string, set<string>>, component: string): set<string> {
    if component in strong then strong[component] else {}
  }

  lemma StrongGrows(records: seq<Record>, r: Record, component: string)
    ensures Strong(records + [r], component) ==
      Strong(records, component) + if Direct(r) && r.component == component then {r.algorithm} else {}
  {
    assert forall x :: x in records + [r] <==> x in records || x == r;
  }

  lemma ReportedGrows(records: seq<Record>, r: Record, op: Operation, category: string)
    ensures Reported(records + [r], op, category) ==
      Reported(records, op, category) + if Direct(r) && OperationOf(r) == op && r.category == category then {r.algorithm} else {}
  {
    assert forall x :: x in records + [r] <==> x in records || x == r;
  }

  /** The direct algorithms of every component, record by record. */
  method StrongAlgorithms(records: seq<Record>) returns (strong: map<string, set<string>>)
    ensures forall c :: StrongAt(strong, c) == Strong(records, c)
  {
    strong := map[];
    for i := 0 to |records|
      invariant forall c :: StrongAt(strong, c) == Strong(records[..i], c)
    {
      var r := records[i];
      assert records[..i + 1] == records[..i] + [r];
      forall c { StrongGrows(records[..i], r, c); }
      if Direct(r) { strong := strong[r.component := StrongAt(strong, r.component) + {r.algorithm}]; }
    }
    assert records[..|records|] == records;
  }

  function ReportedAt(reported: map<Operation, map<string, set<string>>>, op: Operation, category: string): set<string> {
    if op in reported && category in reported[op] then reported[op][category] else {}
  }

  method OperationCategories(records: seq<Record>) returns (reported: map<Operation, map<string, set<string>>>)
    ensures forall op, c :: ReportedAt(reported, op, c) == Reported(records, op, c)
  {
    reported := map[];
    for i := 0 to |records|
      invariant forall op, c :: ReportedAt(reported, op, c) == Reported(records[..i], op, c)
    {
      var r := records[i];
      assert records[..i + 1] == records[..i] + [r];
      forall op, c { ReportedGrows(records[..i], r, op, c); }
      if Direct(r) {
        var op := OperationOf(r);
        var categories := if op in reported then reported[op] else map[];
        var before := ReportedAt(reported, op, r.category);
        reported := reported[op := categories[r.category := before + {r.algorithm}]];
      }
    }
    assert records[..|records|] == records;
  }

  method KeepRecords(records: seq<Record>, strong: map<string, set<string>>) returns (kept: seq<Record>)
    requires forall c :: StrongAt(strong, c) == Strong(records, c)
    ensures kept == Kept(records, records)
  {
    kept := [];
    for i := 0 to |records|
      invariant kept == Kept(records[..i], records)
    {
      var r := records[i];
      assert records[..i + 1][..i] == records[..i];
      var algorithms := StrongAt(strong, r.component);
      if r.source == "dep" && algorithms != {} && r.algorithm !in algorithms { continue; }
      kept := kept + [r];
    }
    assert records[..|records|] == records;
  }

  datatype Finding = Finding(identity: Identity, conflict: bool, sources: seq<string>, confidence: map<string, real>, evidence: seq<Record>)

  ghost predicate Describes(f: Finding, records: seq<Record>, k: Identity) {
    var group := Group(Kept(records, records), IdentityOf, k);
    && f.identity == k && (f.conflict <==> Conflicting(records, Operation(k.file, k.operation)))
    && f.sources == Sort(TextLe, Keys(group, SourceOf)) && f.evidence == Once(group)
    && f.confidence.Keys == (set r | r in group :: r.source)
    && forall s :: s in f.confidence ==> f.confidence[s] == Best(group, s)
  }

  /** One finding a kept identity, in order. */
  ghost predicate AreFindings(findings: seq<Finding>, records: seq<Record>) {
    var keys := Sort(By(TupleOf), Keys(Kept(records, records), IdentityOf));
    |findings| == |keys| && forall i :: 0 <= i < |keys| ==> Describes(findings[i], records, keys[i])
  }

  /** Some category has more than one algorithm. */
  predicate Plural(reported: map<Operation, map<string, set<string>>>, op: Operation) {
    op in reported && exists c :: c in reported[op] && |reported[op][c]| > 1
  }

  lemma {:induction false} PluralIsConflict(reported: map<Operation, map<string, set<string>>>, records: seq<Record>, op: Operation)
    requires forall op, c :: ReportedAt(reported, op, c) == Reported(records, op, c)
    ensures Plural(reported, op) <==> Conflicting(records, op)
  {
    hide Reported, Conflicting;
    ConflictIsPlural(records, op);
    forall c ensures |Reported(records, op, c)| > 1 <==> op in reported && c in reported[op] && |reported[op][c]| > 1 {
      assert ReportedAt(reported, op, c) == Reported(records, op, c);
    }
  }

  method BuildFinding(records: seq<Record>, k: Identity, evidences: seq<Record>,
                      reported: map<Operation, map<string, set<string>>>) returns (f: Finding)
    requires evidences == Group(Kept(records, records), IdentityOf, k)
    requires forall op, c :: ReportedAt(reported, op, c) == Reported(records, op, c)
    ensures Describes(f, records, k)
  {
    hide Group, Keys, Best, Kept, Reported, Conflicting, Plural, Sort, Once;
    var sources, confidence, unique := EvidenceSummary(evidences);
    SourcesAre(evidences);
    var op := Operation(k.file, k.operation);
    var conflict := Plural(reported, op);
    PluralIsConflict(reported, records, op);
    f := Finding(k, conflict, Sort(TextLe, sources), confidence, unique);
  }

  lemma {:induction false} TextsNeverMixed(a: Tuple, b: Tuple)
    requires (forall i :: 0 <= i < |a| ==> a[i].Text?) && forall i :: 0 <= i < |b| ==> b[i].Text?
    ensures !Mixed(a, b)
  {
    if a != [] && b != [] && a[0] == b[0] { TextsNeverMixed(a[1..], b[1..]); }
  }

  /** Identities consist of text alone, so they can always be sorted. */
  lemma {:induction false} IdentitiesSort(keys: seq<Identity>)
    ensures SortBy(TupleOf, keys) == Some(Sort(By(TupleOf), keys))
  {
    SortByIs(TupleOf, keys);
    forall i, j | 0 <= i < j < |keys| ensures !Mixed(TupleOf(keys[i]), TupleOf(keys[j])) {
      TextsNeverMixed(TupleOf(keys[i]), TupleOf(keys[j]));
    }
  }

  method Correlate(evidence: seq<Record>, le: (Record, Record) -> bool) returns (findings: seq<Finding>)
    ensures AreFindings(findings, Sort(le, evidence))
  {
    hide Describes, Keys, Group, Kept, Sort, SortBy, Reported, Strong;
    var records := Sort(le, evidence);
    var reported := OperationCategories(records);
    var strong := StrongAlgorithms(records);
    var kept := KeepRecords(records, strong);
    var order, grouped := GroupRecords(kept, IdentityOf);
    IdentitiesSort(order);
    var keys := SortBy(TupleOf, order).value;
    SameEntries(order, keys);
    findings := [];
    for i := 0 to |keys|
      invariant |findings| == i
      invariant forall j :: 0 <= j < i ==> Describes(findings[j], records, keys[j])
    {
      assert keys[i] in order;
      var f := BuildFinding(records, keys[i], grouped[keys[i]], reported);
      findings := findings + [f];
    }
  }

  function EvidenceOf(findings: seq<Finding>): (groups: seq<seq<Record>>)
    ensures |groups| == |findings| && forall i :: 0 <= i < |groups| ==> groups[i] == findings[i].evidence
  {
    seq(|findings|, i requires 0 <= i < |findings| => findings[i].evidence)
  }

  lemma {:induction false} FindingsGroup(findings: seq<Finding>, records: seq<Record>)
    requires AreFindings(findings, records)
    ensures var kept := Kept(records, records);
      AreGroups(EvidenceOf(findings), kept, IdentityOf, Sort(By(TupleOf), Keys(kept, IdentityOf)))
  {
    hide Keys, Group, Kept, Sort, Conflicting;
    var keys := Sort(By(TupleOf), Keys(Kept(records, records), IdentityOf));
    forall i | 0 <= i < |keys| ensures EvidenceOf(findings)[i] == Once(Group(Kept(records, records), IdentityOf, keys[i])) {
      assert Describes(findings[i], records, keys[i]);
    }
  }

  /** A record is evidence of exactly one finding, unless it is dropped; dropped records are evidence of none. */
  lemma {:induction false} KeptRecordsOnce(findings: seq<Finding>, records: seq<Record>, r: Record)
    requires AreFindings(findings, records)
    ensures (exists i :: 0 <= i < |findings| && r in findings[i].evidence) <==> r in records && !Dropped(records, r)
    ensures forall i, j :: 0 <= i < j < |findings| && r in findings[i].evidence ==> r !in findings[j].evidence
  {
    hide *;
    var groups := EvidenceOf(findings);
    FindingsGroup(findings, records);
    var kept := Kept(records, records);
    var keys := Sort(By(TupleOf), Keys(kept, IdentityOf));
    InOneGroup(groups, kept, IdentityOf, keys, r);
    KeptMember(records, records, r);
    assert forall i :: 0 <= i < |groups| ==> groups[i] == findings[i].evidence;
  }

  /** The findings depend on the records, not on the order in which they arrive. */
  lemma {:induction false} OrderOfArrival(le: (Record, Record) -> bool, a: seq<Record>, b: seq<Record>, f: seq<Finding>, g: seq<Finding>)
    requires TotalOrder(le) && multiset(a) == multiset(b)
    requires AreFindings(f, Sort(le, a)) && AreFindings(g, Sort(le, b))
    ensures f == g
  {
    hide Sort, Keys, Kept, Describes;
    SortCanonical(le, a, b);
    var records := Sort(le, a);
    var keys := Sort(By(TupleOf), Keys(Kept(records, records), IdentityOf));
    forall i | 0 <= i < |f| ensures f[i] == g[i] { SameDescription(f[i], g[i], records, keys[i]); }
  }

  lemma {:induction false} SameDescription(f: Finding, g: Finding, records: seq<Record>, k: Identity)
    requires Describes(f, records, k) && Describes(g, records, k)
    ensures f == g
  {
    hide Sort, Keys, Group, Kept, Best, Once, Conflicting;
    assert f.confidence == g.confidence;
  }
}
