/**
  The calibration error and the reliability table as they are computed, bin by bin.
 */
module CalibrationTables {
  import opened Options
  import opened Calibration

  /** One bin's contribution: its share of the samples times accuracy against confidence. */
  function Weighted(accuracy: real, confidence: real, count: nat, total: nat): real
    requires total > 0
  {
    (count as real / total as real) * Abs(accuracy - confidence)
  }

  function Mean(sum: real, count: nat): real {
    if count == 0 then 0.0 else sum / count as real
  }

  lemma SharedMeans(a: real, b: real, count: real, total: real)
    requires count > 0.0 && total > 0.0
    ensures (count / total) * Abs(a / count - b / count) == Abs(a - b) / total
  {
    Ratio(a, count);
    Ratio(b, count);
    var x, y := a / count, b / count;
    AbsScaled(x - y, count);
    Regroup(count, total, Abs(x - y));
    assert (x - y) * count == x * count - y * count;
  }

  lemma AbsScaled(x: real, c: real)
    requires c > 0.0
    ensures Abs(x * c) == Abs(x) * c
  {
    if x >= 0.0 { Product(x, c); } else { Product(-x, c); assert (-x) * c == -(x * c); }
  }

  lemma Regroup(count: real, total: real, x: real)
    requires total > 0.0
    ensures (count / total) * x == (x * count) / total
  {
  }

  lemma {:induction false} EmptyBin(values: seq<real>, predictions: seq<real>, i: nat, n: nat)
    requires |values| == |predictions| && i < n && BinCount(predictions, i, n) == 0
    ensures BinSum(values, predictions, i, n) == 0.0
  {
    if values != [] { EmptyBin(values[..|values| - 1], predictions[..|values| - 1], i, n); }
  }

  lemma {:induction false} GapOfBin(predictions: seq<real>, outcomes: seq<real>, i: nat, n: nat)
    requires |predictions| == |outcomes| && i < n
    ensures BinSum(Gaps(predictions, outcomes), predictions, i, n)
      == BinSum(outcomes, predictions, i, n) - BinSum(predictions, predictions, i, n)
  {
    if predictions != [] {
      var k := |predictions| - 1;
      GapOfBin(predictions[..k], outcomes[..k], i, n);
      assert Gaps(predictions, outcomes)[..k] == Gaps(predictions[..k], outcomes[..k]);
    }
  }

  lemma WeightedIs(a: real, b: real, count: nat, total: nat)
    requires total > 0 && (count == 0 ==> a - b == 0.0)
    ensures Weighted(Mean(a, count), Mean(b, count), count, total) == Abs(a - b) / total as real
  {
    if count > 0 { SharedMeans(a, b, count as real, total as real); }
  }

  /** A bin's weighted difference of means is its excess against the number of samples. */
  lemma {:induction false} BinContribution(predictions: seq<real>, outcomes: seq<real>, i: nat, n: nat)
    requires |predictions| == |outcomes| > 0 && i < n
    ensures var count := BinCount(predictions, i, n);
      Weighted(Mean(BinSum(outcomes, predictions, i, n), count), Mean(BinSum(predictions, predictions, i, n), count), count, |predictions|)
      == Abs(BinSum(Gaps(predictions, outcomes), predictions, i, n)) / |predictions| as real
  {
    hide BinSum, BinCount, InBin, Weighted;
    var count := BinCount(predictions, i, n);
    GapOfBin(predictions, outcomes, i, n);
    if count == 0 { EmptyBin(Gaps(predictions, outcomes), predictions, i, n); }
    WeightedIs(BinSum(outcomes, predictions, i, n), BinSum(predictions, predictions, i, n), count, |predictions|);
  }

  lemma AddQuotients(x: real, y: real, c: real)
    requires c > 0.0
    ensures x / c + y / c == (x + y) / c
  {
  }

  /** Expected calibration error with n uniform bins; without bins there is nothing to add up. */
  method ComputeEce(predictions: seq<real>, outcomes: seq<real>, n: int) returns (r: Result<real>)
    ensures predictions == [] || |predictions| != |outcomes| ==> r == ValueError
    ensures |predictions| == |outcomes| > 0 ==> r == Ok(if n > 0 then Ece(predictions, outcomes, n) else 0.0)
  {
    if predictions == [] || |predictions| != |outcomes| { return ValueError; }
    hide Weighted, BinSum, BinCount, Mean, InBin;
    var binAcc: seq<real>, binConf: seq<real>, binCounts: seq<nat> := [], [], [];
    var i := 0;
    while i < n
      invariant 0 <= i && (n > 0 ==> i <= n) && |binAcc| == |binConf| == |binCounts| == i && (n <= 0 ==> i == 0)
      invariant forall k :: 0 <= k < i ==> binCounts[k] == BinCount(predictions, k, n)
      invariant forall k :: 0 <= k < i ==> binAcc[k] == Mean(BinSum(outcomes, predictions, k, n), binCounts[k])
      invariant forall k :: 0 <= k < i ==> binConf[k] == Mean(BinSum(predictions, predictions, k, n), binCounts[k])
    {
      var count := BinCount(predictions, i, n);
      binAcc := binAcc + [Mean(BinSum(outcomes, predictions, i, n), count)];
      binConf := binConf + [Mean(BinSum(predictions, predictions, i, n), count)];
      binCounts := binCounts + [count];
      i := i + 1;
    }
    var total := |predictions|;
    var ece := 0.0;
    ghost var gaps := Gaps(predictions, outcomes);
    i := 0;
    while i < |binCounts|
      invariant 0 <= i <= |binCounts|
      invariant ece == if n > 0 then BinTotal(gaps, predictions, n, i) / total as real else 0.0
    {
      ece := ece + Weighted(binAcc[i], binConf[i], binCounts[i], total);
      BinContribution(predictions, outcomes, i, n);
      AddQuotients(BinTotal(gaps, predictions, n, i), Abs(BinSum(gaps, predictions, i, n)), total as real);
      i := i + 1;
    }
    r := Ok(ece);
  }

  // ----- the reliability table -----

  datatype Table = Table(edges: seq<real>, confidence: seq<Option<real>>, accuracy: seq<Option<real>>, counts: seq<nat>)

  /** The values whose prediction has slot i, in order. */
  function InSlot(values: seq<real>, predictions: seq<real>, i: nat, n: int): seq<real>
    requires |values| == |predictions|
  {
    if values == [] then []
    else
      var k := |values| - 1;
      InSlot(values[..k], predictions[..k], i, n) + if Slot(predictions[k], n) == Some(i) then [values[k]] else []
  }

  predicate Slotted(predictions: seq<real>, n: int) { forall p :: p in predictions ==> Slot(p, n).Some? }

  ghost predicate IsTable(table: Table, predictions: seq<real>, outcomes: seq<real>, n: nat)
    requires n > 0
  {
    && |table.edges| == n + 1 && (forall i :: 0 <= i <= n ==> table.edges[i] == i as real / n as real)
    && |table.confidence| == |table.accuracy| == |table.counts| == n
    && forall i :: 0 <= i < n ==>
         var ps, os := if |predictions| == |outcomes| then InSlot(predictions, predictions, i, n) else [],
                       if |predictions| == |outcomes| then InSlot(outcomes, predictions, i, n) else [];
         && table.counts[i] == |ps| == |os|
         && (table.counts[i] == 0 ==> table.confidence[i] == None && table.accuracy[i] == None)
         && (table.counts[i] > 0 ==>
               && table.confidence[i] == Some(Sum(ps) / table.counts[i] as real)
               && table.accuracy[i] == Some(Sum(os) / table.counts[i] as real))
  }

  method Edges(n: int) returns (edges: seq<real>)
    requires n != 0
    ensures |edges| == if n > 0 then n + 1 else 0
    ensures forall k :: 0 <= k < |edges| ==> edges[k] == k as real / n as real
  {
    edges := [];
    var i := 0;
    while i <= n
      invariant 0 <= i && (n > 0 ==> i <= n + 1) && (n < 0 ==> i == 0) && |edges| == i
      invariant forall k :: 0 <= k < i ==> edges[k] == k as real / n as real
    {
      edges := edges + [i as real / n as real];
      i := i + 1;
    }
  }

  /** Put the samples into their slots one by one, unless one has none. */
  method FillSlots(predictions: seq<real>, outcomes: seq<real>, n: int, size: nat)
    returns (ok: bool, binPreds: seq<seq<real>>, binOutcomes: seq<seq<real>>)
    requires |predictions| == |outcomes| && size == if n > 0 then n else 0
    ensures ok == Slotted(predictions, n)
    ensures ok ==> |binPreds| == |binOutcomes| == size
    ensures ok ==> forall k :: 0 <= k < size ==> binPreds[k] == InSlot(predictions, predictions, k, n)
    ensures ok ==> forall k :: 0 <= k < size ==> binOutcomes[k] == InSlot(outcomes, predictions, k, n)
  {
    hide InSlot, SlotOf;
    binPreds, binOutcomes := seq(size, _ => []), seq(size, _ => []);
    NoSamples(n);
    var i := 0;
    while i < |predictions|
      invariant 0 <= i <= |predictions| && |binPreds| == |binOutcomes| == size
      invariant Slotted(predictions[..i], n)
      invariant forall k :: 0 <= k < size ==> binPreds[k] == InSlot(predictions[..i], predictions[..i], k, n)
      invariant forall k :: 0 <= k < size ==> binOutcomes[k] == InSlot(outcomes[..i], predictions[..i], k, n)
    {
      var at := Slot(predictions[i], n);
      if at.None? {
        assert predictions[i] in predictions;
        return false, [], [];
      }
      SlotBelow(predictions[i], n);
      NextSample(predictions, outcomes, i, n);
      binPreds := binPreds[at.value := binPreds[at.value] + [predictions[i]]];
      binOutcomes := binOutcomes[at.value := binOutcomes[at.value] + [outcomes[i]]];
      i := i + 1;
    }
    assert predictions[..i] == predictions && outcomes[..i] == outcomes;
    ok := true;
  }

  lemma NoSamples(n: int)
    ensures forall k: nat :: InSlot([], [], k, n) == []
  {
  }

  lemma SlotBelow(p: real, n: int)
    requires Slot(p, n).Some?
    ensures Slot(p, n).value < n
  {
  }

  /** The edges, the samples in their slots, and then the means of each; empty slots have none. */
  method ReliabilityData(predictions: seq<real>, outcomes: seq<real>, n: int) returns (r: Result<Table>)
    ensures n == 0 ==> r == ZeroDivisionError
    ensures n != 0 && |predictions| == |outcomes| && !Slotted(predictions, n) ==> r == IndexError
    ensures n > 0 && (|predictions| != |outcomes| || Slotted(predictions, n)) ==>
      r.Ok? && IsTable(r.value, predictions, outcomes, n)
    ensures n < 0 && (|predictions| != |outcomes| || predictions == []) ==> r == Ok(Table([], [], [], []))
  {
    if n == 0 { return ZeroDivisionError; }
    hide InSlot, SlotOf, Sum;
    var edges := Edges(n);
    var size: nat := if n > 0 then n else 0;
    var binPreds: seq<seq<real>>, binOutcomes: seq<seq<real>> := seq(size, _ => []), seq(size, _ => []);
    if |predictions| == |outcomes| {
      var ok;
      ok, binPreds, binOutcomes := FillSlots(predictions, outcomes, n, size);
      if !ok { return IndexError; }
      forall k | 0 <= k < size ensures |binOutcomes[k]| == |binPreds[k]| { SameSlotSizes(predictions, outcomes, k, n); }
    }
    var confidence, accuracy, counts := Means(binPreds, binOutcomes);
    r := Ok(Table(edges, confidence, accuracy, counts));
  }

  /** The last loop: a slot without samples has no means. */
  method Means(binPreds: seq<seq<real>>, binOutcomes: seq<seq<real>>)
    returns (confidence: seq<Option<real>>, accuracy: seq<Option<real>>, counts: seq<nat>)
    requires |binPreds| == |binOutcomes| && forall k :: 0 <= k < |binPreds| ==> |binPreds[k]| == |binOutcomes[k]|
    ensures |confidence| == |accuracy| == |counts| == |binPreds|
    ensures forall k :: 0 <= k < |counts| ==> counts[k] == |binPreds[k]|
    ensures forall k :: 0 <= k < |counts| && counts[k] == 0 ==> confidence[k] == None && accuracy[k] == None
    ensures forall k :: 0 <= k < |counts| && counts[k] > 0 ==> confidence[k] == Some(Sum(binPreds[k]) / counts[k] as real)
    ensures forall k :: 0 <= k < |counts| && counts[k] > 0 ==> accuracy[k] == Some(Sum(binOutcomes[k]) / counts[k] as real)
  {
    hide Sum;
    confidence, accuracy, counts := [], [], [];
    var i := 0;
    while i < |binPreds|
      invariant 0 <= i <= |binPreds| && |confidence| == |accuracy| == |counts| == i
      invariant forall k :: 0 <= k < i ==> counts[k] == |binPreds[k]|
      invariant forall k :: 0 <= k < i && counts[k] == 0 ==> confidence[k] == None && accuracy[k] == None
      invariant forall k :: 0 <= k < i && counts[k] > 0 ==> confidence[k] == Some(Sum(binPreds[k]) / counts[k] as real)
      invariant forall k :: 0 <= k < i && counts[k] > 0 ==> accuracy[k] == Some(Sum(binOutcomes[k]) / counts[k] as real)
    {
      var count := |binPreds[i]|;
      counts := counts + [count];
      if count == 0 {
        confidence, accuracy := confidence + [None], accuracy + [None];
      } else {
        confidence := confidence + [Some(Sum(binPreds[i]) / count as real)];
        accuracy := accuracy + [Some(Sum(binOutcomes[i]) / count as real)];
      }
      i := i + 1;
    }
  }

  lemma {:induction false} NextSample(predictions: seq<real>, outcomes: seq<real>, i: nat, n: int)
    requires |predictions| == |outcomes| && i < |predictions| && Slot(predictions[i], n).Some? && Slotted(predictions[..i], n)
    ensures Slotted(predictions[..i + 1], n)
    ensures forall k: nat ::
      InSlot(predictions[..i + 1], predictions[..i + 1], k, n) ==
      InSlot(predictions[..i], predictions[..i], k, n) + (if Slot(predictions[i], n) == Some(k) then [predictions[i]] else [])
    ensures forall k: nat ::
      InSlot(outcomes[..i + 1], predictions[..i + 1], k, n) ==
      InSlot(outcomes[..i], predictions[..i], k, n) + (if Slot(predictions[i], n) == Some(k) then [outcomes[i]] else [])
  {
    var ps, os := predictions[..i + 1], outcomes[..i + 1];
    assert ps[..i] == predictions[..i] && os[..i] == outcomes[..i] && ps == predictions[..i] + [predictions[i]];
  }

  lemma {:induction false} SameSlotSizes(predictions: seq<real>, outcomes: seq<real>, i: nat, n: int)
    requires |predictions| == |outcomes|
    ensures |InSlot(outcomes, predictions, i, n)| == |InSlot(predictions, predictions, i, n)|
  {
    if predictions != [] { SameSlotSizes(predictions[..|predictions| - 1], outcomes[..|predictions| - 1], i, n); }
  }

  // ----- the table agrees with the error -----

  lemma {:induction false} SlotIsBin(values: seq<real>, predictions: seq<real>, i: nat, n: nat)
    requires |values| == |predictions| && i < n && InUnit(predictions)
    ensures Sum(InSlot(values, predictions, i, n)) == BinSum(values, predictions, i, n)
    ensures |InSlot(values, predictions, i, n)| == BinCount(predictions, i, n)
  {
    hide InBin, Slot;
    if values != [] {
      var k := |values| - 1;
      SlotIsBin(values[..k], predictions[..k], i, n);
      BinningsAgree(predictions[k], n);
      var shorter := InSlot(values[..k], predictions[..k], i, n);
      assert (shorter + [values[k]])[..|shorter|] == shorter && shorter + [] == shorter;
      assert InBin(i, n, predictions[k]) <==> Slot(predictions[k], n) == Some(i);
    }
  }

  /** The error that the rows of a table show. */
  function TableError(table: Table, total: nat, m: nat): real
    requires m <= |table.counts| == |table.confidence| == |table.accuracy| && total > 0
  {
    if m == 0 then 0.0
    else TableError(table, total, m - 1) +
         if table.confidence[m - 1].Some? && table.accuracy[m - 1].Some?
         then Weighted(table.accuracy[m - 1].value, table.confidence[m - 1].value, table.counts[m - 1], total) else 0.0
  }

  lemma {:induction false} TableErrorIs(table: Table, predictions: seq<real>, outcomes: seq<real>, n: nat, m: nat)
    requires n > 0 && m <= n && |predictions| == |outcomes| > 0 && InUnit(predictions) && IsTable(table, predictions, outcomes, n)
    ensures TableError(table, |predictions|, m) == BinTotal(Gaps(predictions, outcomes), predictions, n, m) / |predictions| as real
  {
    hide BinSum, BinCount, Weighted, InBin, InSlot;
    if m > 0 {
      TableErrorIs(table, predictions, outcomes, n, m - 1);
      SlotIsBin(predictions, predictions, m - 1, n);
      SlotIsBin(outcomes, predictions, m - 1, n);
      BinContribution(predictions, outcomes, m - 1, n);
      var gaps := Gaps(predictions, outcomes);
      AddQuotients(BinTotal(gaps, predictions, n, m - 1), Abs(BinSum(gaps, predictions, m - 1, n)), |predictions| as real);
      if BinCount(predictions, m - 1, n) == 0 { EmptyBin(gaps, predictions, m - 1, n); }
    }
  }

  /** For predictions in the unit interval the reliability table shows the calibration error. */
  lemma {:induction false} TableShowsEce(table: Table, predictions: seq<real>, outcomes: seq<real>, n: nat)
    requires n > 0 && |predictions| == |outcomes| > 0 && InUnit(predictions) && IsTable(table, predictions, outcomes, n)
    ensures TableError(table, |predictions|, n) == Ece(predictions, outcomes, n)
  {
    TableErrorIs(table, predictions, outcomes, n, n);
  }
}
