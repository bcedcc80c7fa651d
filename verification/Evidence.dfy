/**
  Evidence records of the collectors, and the summary of one group of them.
 */
module Evidence {
  import opened Options
  import opened Sorting
  import opened Grouping

  /** content stands for whatever else a record holds; equal records have equal fingerprints. */
  datatype Record = Record(file: string, component: string, algorithm: string, usage: string, kind: string,
                           line: Option<int>, column: Option<int>, anchor: Option<string>, operation: string,
                           source: string, category: string, confidence: real, content: string)

  function SourceOf(r: Record): string { r.source }

  function Max(x: real, y: real): real { if x >= y then x else y }

  /** The best confidence a source reports, zero at least. */
  function Best(records: seq<Record>, source: string): real {
    if records == [] then 0.0
    else
      var last := records[|records| - 1];
      var before := Best(records[..|records| - 1], source);
      if last.source == source then Max(before, last.confidence) else before
  }

  lemma {:induction false} BestIsMaximum(records: seq<Record>, source: string)
    ensures Best(records, source) >= 0.0
    ensures forall r :: r in records && r.source == source ==> r.confidence <= Best(records, source)
    ensures Best(records, source) == 0.0 || exists r :: r in records && r.source == source && r.confidence == Best(records, source)
  {
    if records != [] {
      var n := |records| - 1;
      BestIsMaximum(records[..n], source);
      assert records == records[..n] + [records[n]];
      assert records[n] in records;
    }
  }

  /** Sources in the order they appear, their best confidences, and the records without repetition. */
  method EvidenceSummary(evidences: seq<Record>)
    returns (sources: seq<string>, confidence: map<string, real>, unique: seq<Record>)
    ensures sources == Keys(evidences, SourceOf)
    ensures forall s :: s in confidence <==> s in sources
    ensures forall s :: s in confidence ==> confidence[s] == Best(evidences, s)
    ensures unique == Once(evidences)
  {
    hide Keys;
    sources, confidence, unique := [], map[], [];
    NoKeys(evidences[..0], SourceOf);
    var seen: set<Record> := {};
    for i := 0 to |evidences|
      invariant sources == Keys(evidences[..i], SourceOf)
      invariant forall s :: s in confidence <==> s in sources
      invariant forall s :: s in confidence ==> confidence[s] == Best(evidences[..i], s)
      invariant unique == Once(evidences[..i])
      invariant forall r :: r in seen <==> r in unique
    {
      var item, front := evidences[i], evidences[..i + 1];
      assert front[..i] == evidences[..i] && front[i] == item;
      KeysGrow(front, SourceOf);
      if item.source !in sources {
        NoSource(evidences[..i], item.source);
        sources := sources + [item.source];
      }
      var before := if item.source in confidence then confidence[item.source] else 0.0;
      confidence := confidence[item.source := Max(before, item.confidence)];
      if item !in seen {
        seen := seen + {item};
        unique := unique + [item];
      }
    }
    assert evidences[..|evidences|] == evidences;
  }

  lemma {:induction false} NoSource(records: seq<Record>, source: string)
    requires source !in Keys(records, SourceOf)
    ensures Best(records, source) == 0.0
  {
    forall r | r in records ensures r.source != source {
      var i :| 0 <= i < |records| && records[i] == r;
      assert SourceOf(records[i]) in Keys(records, SourceOf);
    }
    NoneOfSource(records, source);
  }

  lemma {:induction false} NoneOfSource(records: seq<Record>, source: string)
    requires forall r :: r in records ==> r.source != source
    ensures Best(records, source) == 0.0
  {
    if records != [] {
      assert records[|records| - 1] in records;
      forall r | r in records[..|records| - 1] ensures r.source != source { assert r in records; }
      NoneOfSource(records[..|records| - 1], source);
    }
  }

  lemma {:induction false} SourcesAre(evidences: seq<Record>)
    ensures forall s :: s in Keys(evidences, SourceOf) <==> s in (set r | r in evidences :: r.source)
  {
    forall r | r in evidences ensures r.source in Keys(evidences, SourceOf) {
      var i :| 0 <= i < |evidences| && evidences[i] == r;
    }
  }
}
