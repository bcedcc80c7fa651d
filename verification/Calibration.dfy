/**
  Calibration error over the reals: what the score is, how it relates to the Brier score and to
  the difference of the means, and that the two ways of binning agree.
 */
module Calibration {
  import opened Options

  datatype Result<T> = Ok(value: T) | ValueError | IndexError | ZeroDivisionError

  function Abs(x: real): (r: real)
    ensures r >= 0.0 && r >= x && r >= -x
  {
    if x >= 0.0 then x else -x
  }

  function Sum(xs: seq<real>): real {
    if xs == [] then 0.0 else Sum(xs[..|xs| - 1]) + xs[|xs| - 1]
  }

  function AbsSum(xs: seq<real>): real {
    if xs == [] then 0.0 else AbsSum(xs[..|xs| - 1]) + Abs(xs[|xs| - 1])
  }

  function SquareSum(xs: seq<real>): real {
    if xs == [] then 0.0 else SquareSum(xs[..|xs| - 1]) + xs[|xs| - 1] * xs[|xs| - 1]
  }

  /** What each outcome exceeds its prediction by. */
  function Gaps(predictions: seq<real>, outcomes: seq<real>): (gaps: seq<real>)
    requires |predictions| == |outcomes|
    ensures |gaps| == |predictions| && forall k :: 0 <= k < |gaps| ==> gaps[k] == outcomes[k] - predictions[k]
  {
    seq(|predictions|, k requires 0 <= k < |predictions| => outcomes[k] - predictions[k])
  }

  ghost predicate InUnit(xs: seq<real>) { forall k :: 0 <= k < |xs| ==> 0.0 <= xs[k] <= 1.0 }

  // ----- bins -----

  /** Bin i of n; only the last one is closed above. */
  predicate InBin(i: nat, n: nat, p: real)
    requires i < n
  {
    var lo, hi := i as real / n as real, (i + 1) as real / n as real;
    if i == n - 1 then lo <= p <= hi else lo <= p < hi
  }

  function Truncated(x: real): int { if x >= 0.0 then x.Floor else -(-x).Floor }

  /** The list position of a scaled prediction: the last one at most; negative ones count from the end. */
  function SlotOf(scaled: real, n: int): Option<nat> {
    var at := Truncated(scaled);
    var index := if at <= n - 1 then at else n - 1;
    if 0 <= index < n then Some(index)
    else if -n <= index < 0 then Some(n + index)
    else None
  }

  /** The list position that the reliability table uses. */
  function Slot(p: real, n: int): Option<nat> { SlotOf(p * n as real, n) }

  /** Scaling by a positive number keeps the order, both ways. */
  lemma Scaled(x: real, y: real, c: real)
    requires c > 0.0
    ensures x <= y <==> x * c <= y * c
  {
    if x <= y { Product(y - x, c); } else { Product(x - y, c); }
    assert (y - x) * c == y * c - x * c;
  }

  lemma Product(x: real, y: real)
    requires x >= 0.0 && y > 0.0
    ensures x * y >= 0.0 && (x > 0.0 ==> x * y > 0.0)
  {
  }

  lemma EdgeBounds(lo: real, hi: real, p: real, c: real, from: real, to: real)
    requires c > 0.0 && lo * c == from && hi * c == to
    ensures lo <= p <==> from <= p * c
    ensures p < hi <==> p * c < to
    ensures p <= hi <==> p * c <= to
  {
    Scaled(lo, p, c);
    Scaled(p, hi, c);
    Scaled(hi, p, c);
  }

  lemma BinBounds(i: nat, n: nat, p: real)
    requires i < n
    ensures InBin(i, n, p) <==>
      i as real <= p * n as real && (p * n as real < (i + 1) as real || (i == n - 1 && p * n as real == n as real))
  {
    Ratio(i as real, n as real);
    Ratio((i + 1) as real, n as real);
    EdgeBounds(i as real / n as real, (i + 1) as real / n as real, p, n as real, i as real, (i + 1) as real);
  }

  lemma Ratio(x: real, c: real)
    requires c > 0.0
    ensures (x / c) * c == x
  {
  }

  lemma BinIsSlot(scaled: real, i: nat, n: nat)
    requires i < n && 0.0 <= scaled <= n as real
    ensures SlotOf(scaled, n) == Some(i) <==> i as real <= scaled && (scaled < (i + 1) as real || (i == n - 1 && scaled == n as real))
  {
  }

  lemma BinOf(p: real, i: nat, n: nat, scaled: real)
    requires i < n && scaled == p * n as real
    ensures InBin(i, n, p) <==> 0.0 <= p <= 1.0 && SlotOf(scaled, n) == Some(i)
  {
    hide InBin, SlotOf;
    BinBounds(i, n, p);
    EdgeBounds(0.0, 1.0, p, n as real, 0.0, n as real);
    if 0.0 <= scaled <= n as real { BinIsSlot(scaled, i, n); }
  }

  /** A prediction lies in no bin, or exactly in the one whose slot the reliability table gives it. */
  lemma BinningsAgree(p: real, n: nat)
    requires n > 0
    ensures (exists i: nat :: i < n && InBin(i, n, p)) <==> 0.0 <= p <= 1.0
    ensures forall i: nat :: i < n && InBin(i, n, p) ==> Slot(p, n) == Some(i)
    ensures 0.0 <= p <= 1.0 ==> Slot(p, n).Some? && Slot(p, n).value < n && InBin(Slot(p, n).value, n, p)
  {
    hide InBin, SlotOf;
    forall i: nat | i < n ensures InBin(i, n, p) <==> 0.0 <= p <= 1.0 && Slot(p, n) == Some(i) {
      BinOf(p, i, n, p * n as real);
    }
    EdgeBounds(0.0, 1.0, p, n as real, 0.0, n as real);
    SlotInRange(p * n as real, n);
    assert 0.0 <= p <= 1.0 ==> InBin(Slot(p, n).value, n, p);
  }

  lemma SlotInRange(scaled: real, n: nat)
    requires n > 0
    ensures 0.0 <= scaled ==> SlotOf(scaled, n).Some? && SlotOf(scaled, n).value < n
  {
  }

  /**
    From zero on the whole part is the slot, and the last slot takes all that is larger; a part of a unit
    below zero is cut off, and from one unit below zero on slots count from the end.
   */
  predicate FallsIn(scaled: real, n: nat, i: nat) {
    i < n &&
    if scaled >= 0.0 then i as real <= scaled && (scaled < i as real + 1.0 || i == n - 1)
    else if scaled > -1.0 then i == 0
    else (i - n) as real - 1.0 < scaled <= (i - n) as real
  }

  /** Which slot a prediction has; without slots it has none. */
  lemma SlotExactly(p: real, n: int, i: nat)
    ensures n > 0 ==> (Slot(p, n) == Some(i) <==> FallsIn(p * n as real, n, i))
    ensures n <= 0 ==> Slot(p, n).None?
  {
    SlotOfScaled(p * n as real, n, i);
  }

  lemma SlotOfScaled(scaled: real, n: int, i: nat)
    ensures n > 0 ==> (SlotOf(scaled, n) == Some(i) <==> FallsIn(scaled, n, i))
    ensures n <= 0 ==> SlotOf(scaled, n).None?
  {
  }

  /** The sum of the values whose prediction lies in bin i. */
  function BinSum(values: seq<real>, predictions: seq<real>, i: nat, n: nat): real
    requires |values| == |predictions| && i < n
  {
    if values == [] then 0.0
    else
      var k := |values| - 1;
      BinSum(values[..k], predictions[..k], i, n) + if InBin(i, n, predictions[k]) then values[k] else 0.0
  }

  function BinCount(predictions: seq<real>, i: nat, n: nat): nat
    requires i < n
  {
    if predictions == [] then 0
    else BinCount(predictions[..|predictions| - 1], i, n) + if InBin(i, n, predictions[|predictions| - 1]) then 1 else 0
  }

  /** The absolute values of the first m bin sums. */
  function BinTotal(values: seq<real>, predictions: seq<real>, n: nat, m: nat): real
    requires |values| == |predictions| && m <= n
  {
    if m == 0 then 0.0 else BinTotal(values, predictions, n, m - 1) + Abs(BinSum(values, predictions, m - 1, n))
  }

  /** The expected calibration error: the bins' excesses against the number of samples. */
  function Ece(predictions: seq<real>, outcomes: seq<real>, n: nat): real
    requires |predictions| == |outcomes| > 0
  {
    BinTotal(Gaps(predictions, outcomes), predictions, n, n) / |predictions| as real
  }

  /** The mean squared error. */
  function ComputeBrierScore(predictions: seq<real>, outcomes: seq<real>): Result<real> {
    if predictions == [] || |predictions| != |outcomes| then ValueError
    else Ok(SquareSum(Gaps(predictions, outcomes)) / |predictions| as real)
  }

  /** One more sample adds its squared error to the score times the number of samples. */
  lemma {:induction false} BrierAdds(predictions: seq<real>, outcomes: seq<real>, p: real, o: real)
    requires |predictions| == |outcomes|
    ensures var more, before := ComputeBrierScore(predictions + [p], outcomes + [o]), ComputeBrierScore(predictions, outcomes);
      && more.Ok? && (predictions != [] ==> before.Ok?)
      && more.value * (|predictions| + 1) as real
           == (p - o) * (p - o) + if predictions == [] then 0.0 else before.value * |predictions| as real
  {
    hide SquareSum;
    var n := |predictions|;
    var gaps, more := Gaps(predictions, outcomes), Gaps(predictions + [p], outcomes + [o]);
    assert more == gaps + [o - p];
    OneMoreGap(gaps, o - p);
    Ratio(SquareSum(more), (n + 1) as real);
    if n > 0 { Ratio(SquareSum(gaps), n as real); }
    SameSquare(o, p);
  }

  lemma {:induction false} OneMoreGap(gaps: seq<real>, gap: real)
    ensures SquareSum(gaps + [gap]) == SquareSum(gaps) + gap * gap && SquareSum([]) == 0.0
  {
    assert (gaps + [gap])[..|gaps|] == gaps;
  }

  lemma SameSquare(x: real, y: real)
    ensures (x - y) * (x - y) == (y - x) * (y - x)
  {
  }

  // ----- every value is in at most one bin -----

  predicate Placed(p: real, n: nat, m: nat)
    requires m <= n
  {
    exists i: nat :: i < m && InBin(i, n, p)
  }

  lemma {:induction false} OneMoreValue(values: seq<real>, predictions: seq<real>, n: nat, m: nat)
    requires |values| == |predictions| > 0 && m <= n
    ensures var k := |values| - 1;
      BinTotal(values, predictions, n, m)
      <= BinTotal(values[..k], predictions[..k], n, m) + if Placed(predictions[k], n, m) then Abs(values[k]) else 0.0
  {
    var k := |values| - 1;
    if m > 0 {
      OneMoreValue(values, predictions, n, m - 1);
      BinningsAgree(predictions[k], n);
      if InBin(m - 1, n, predictions[k]) {
        assert !Placed(predictions[k], n, m - 1);
      }
    }
  }

  lemma {:induction false} BinTotalBelow(values: seq<real>, predictions: seq<real>, n: nat)
    requires |values| == |predictions|
    ensures BinTotal(values, predictions, n, n) <= AbsSum(values)
  {
    if values == [] {
      NoBins(predictions, n, n);
    } else {
      BinTotalBelow(values[..|values| - 1], predictions[..|values| - 1], n);
      OneMoreValue(values, predictions, n, n);
    }
  }

  lemma {:induction false} NoBins(predictions: seq<real>, n: nat, m: nat)
    requires predictions == [] && m <= n
    ensures BinTotal([], predictions, n, m) == 0.0
  {
    if m > 0 { NoBins(predictions, n, m - 1); }
  }

  // ----- predictions in the unit interval are in exactly one bin -----

  function SignedTotal(values: seq<real>, predictions: seq<real>, n: nat, m: nat): real
    requires |values| == |predictions| && m <= n
  {
    if m == 0 then 0.0 else SignedTotal(values, predictions, n, m - 1) + BinSum(values, predictions, m - 1, n)
  }

  lemma {:induction false} SignedBelow(values: seq<real>, predictions: seq<real>, n: nat, m: nat)
    requires |values| == |predictions| && m <= n
    ensures Abs(SignedTotal(values, predictions, n, m)) <= BinTotal(values, predictions, n, m)
  {
    if m > 0 { SignedBelow(values, predictions, n, m - 1); }
  }

  lemma {:induction false} OneMoreSigned(values: seq<real>, predictions: seq<real>, n: nat, m: nat)
    requires |values| == |predictions| > 0 && m <= n
    ensures var k := |values| - 1;
      SignedTotal(values, predictions, n, m)
      == SignedTotal(values[..k], predictions[..k], n, m) + if Placed(predictions[k], n, m) then values[k] else 0.0
  {
    var k := |values| - 1;
    if m > 0 {
      OneMoreSigned(values, predictions, n, m - 1);
      BinningsAgree(predictions[k], n);
      if InBin(m - 1, n, predictions[k]) {
        assert !Placed(predictions[k], n, m - 1);
        assert Placed(predictions[k], n, m);
      }
    }
  }

  /** The bins partition the samples: their sums add up to the sum of all. */
  lemma {:induction false} BinsPartition(values: seq<real>, predictions: seq<real>, n: nat)
    requires |values| == |predictions| && n > 0 && InUnit(predictions)
    ensures SignedTotal(values, predictions, n, n) == Sum(values)
  {
    if values == [] {
      NoSigned(predictions, n, n);
    } else {
      BinsPartition(values[..|values| - 1], predictions[..|values| - 1], n);
      OneMoreSigned(values, predictions, n, n);
      BinningsAgree(predictions[|values| - 1], n);
    }
  }

  lemma {:induction false} NoSigned(predictions: seq<real>, n: nat, m: nat)
    requires predictions == [] && m <= n
    ensures SignedTotal([], predictions, n, m) == 0.0
  {
    if m > 0 { NoSigned(predictions, n, m - 1); }
  }

  // ----- the inequalities -----

  lemma {:induction false} CauchySchwarz(xs: seq<real>)
    ensures AbsSum(xs) * AbsSum(xs) <= |xs| as real * SquareSum(xs)
    ensures AbsSum(xs) >= 0.0 && SquareSum(xs) >= 0.0
  {
    if xs != [] {
      var k := |xs| - 1;
      CauchySchwarz(xs[..k]);
      OneMoreSquare(AbsSum(xs[..k]), Abs(xs[k]), k, SquareSum(xs[..k]));
      assert Abs(xs[k]) * Abs(xs[k]) == xs[k] * xs[k];
    }
  }

  lemma OneMoreSquare(s: real, a: real, n: nat, q: real)
    requires s * s <= n as real * q && q >= 0.0 && s >= 0.0 && a >= 0.0
    ensures (s + a) * (s + a) <= (n + 1) as real * (q + a * a)
  {
    var m := n as real;
    assert (s + a) * (s + a) == s * s + 2.0 * (s * a) + a * a;
    assert (m + 1.0) * (q + a * a) == m * q + m * (a * a) + q + a * a;
    if n == 0 {
      if s > 0.0 { Product(s, s); }
    } else {
      var d := m * a - s;
      assert 0.0 <= d * d == m * (m * (a * a)) - 2.0 * (m * (s * a)) + s * s;
      assert m * (2.0 * (s * a)) <= m * (m * (a * a) + q);
      Cancel(m, 2.0 * (s * a), m * (a * a) + q);
    }
  }

  lemma Cancel(m: real, x: real, y: real)
    requires m > 0.0 && m * x <= m * y
    ensures x <= y
  {
    Scaled(x, y, m);
  }

  /** The squared calibration error never exceeds the Brier score, whatever the predictions. */
  lemma EceBelowBrier(predictions: seq<real>, outcomes: seq<real>, n: nat)
    requires |predictions| == |outcomes| > 0
    ensures ComputeBrierScore(predictions, outcomes).Ok?
    ensures Ece(predictions, outcomes, n) * Ece(predictions, outcomes, n) <= ComputeBrierScore(predictions, outcomes).value
  {
    var gaps, count := Gaps(predictions, outcomes), |predictions| as real;
    var total := BinTotal(gaps, predictions, n, n);
    BinTotalBelow(gaps, predictions, n);
    TotalNonNegative(gaps, predictions, n, n);
    CauchySchwarz(gaps);
    assert total * total <= AbsSum(gaps) * AbsSum(gaps) by { SquareGrows(total, AbsSum(gaps)); }
    Divide(total, SquareSum(gaps), count);
  }

  lemma SquareGrows(x: real, y: real)
    requires 0.0 <= x <= y
    ensures x * x <= y * y
  {
    assert x * x <= x * y <= y * y;
  }

  lemma Divide(total: real, squares: real, count: real)
    requires count > 0.0 && total * total <= count * squares
    ensures (total / count) * (total / count) <= squares / count
  {
    var x, y := total / count, squares / count;
    assert total == x * count && squares == y * count;
    assert (x * count) * (x * count) == count * (count * (x * x));
    assert count * (y * count) == count * (count * y);
    Cancel(count, count * (x * x), count * y);
    Cancel(count, x * x, y);
  }

  lemma {:induction false} TotalNonNegative(values: seq<real>, predictions: seq<real>, n: nat, m: nat)
    requires |values| == |predictions| && m <= n
    ensures BinTotal(values, predictions, n, m) >= 0.0
  {
    if m > 0 { TotalNonNegative(values, predictions, n, m - 1); }
  }

  lemma {:induction false} GapsAddUp(predictions: seq<real>, outcomes: seq<real>)
    requires |predictions| == |outcomes|
    ensures Sum(Gaps(predictions, outcomes)) == Sum(outcomes) - Sum(predictions)
  {
    if predictions != [] {
      var k := |predictions| - 1;
      GapsAddUp(predictions[..k], outcomes[..k]);
      assert Gaps(predictions, outcomes)[..k] == Gaps(predictions[..k], outcomes[..k]);
    }
  }

  lemma {:induction false} SmallGaps(gaps: seq<real>)
    requires forall k :: 0 <= k < |gaps| ==> -1.0 <= gaps[k] <= 1.0
    ensures AbsSum(gaps) <= |gaps| as real
  {
    if gaps != [] { SmallGaps(gaps[..|gaps| - 1]); }
  }

  lemma OneSide(a: real, b: real, c: real, count: real, ac: real, bc: real, cc: real)
    requires count > 0.0 && a * count == ac && b * count == bc && c * count == cc
    requires ac - bc <= cc
    ensures a - b <= c
  {
    var d := a - b - c;
    assert d * count == a * count - b * count - c * count;
    if d > 0.0 { Product(d, count); }
  }

  lemma ScaledMeans(a: real, b: real, c: real, count: real, outcomes: real, predictions: real, total: real)
    requires count > 0.0 && a * count == outcomes && b * count == predictions && c * count == total
    requires Abs(outcomes - predictions) <= total <= count
    ensures Abs(a - b) <= c <= 1.0
  {
    OneSide(a, b, c, count, outcomes, predictions, total);
    OneSide(b, a, c, count, predictions, outcomes, total);
    OneSide(c, 0.0, 1.0, count, total, 0.0, count);
  }

  /** The step from sums to means. */
  lemma Means(outcomes: real, predictions: real, total: real, count: real)
    requires count > 0.0 && Abs(outcomes - predictions) <= total <= count
    ensures Abs(outcomes / count - predictions / count) <= total / count <= 1.0
  {
    Ratio(outcomes, count);
    Ratio(predictions, count);
    Ratio(total, count);
    ScaledMeans(outcomes / count, predictions / count, total / count, count, outcomes, predictions, total);
  }

  /** The calibration error lies between the difference of the means and one. */
  lemma {:induction false} EceBetween(predictions: seq<real>, outcomes: seq<real>, n: nat)
    requires |predictions| == |outcomes| > 0 && n > 0 && InUnit(predictions) && InUnit(outcomes)
    ensures var count := |predictions| as real;
      Abs(Sum(outcomes) / count - Sum(predictions) / count) <= Ece(predictions, outcomes, n) <= 1.0
  {
    hide Sum, AbsSum, BinTotal, SignedTotal;
    var gaps := Gaps(predictions, outcomes);
    BinsPartition(gaps, predictions, n);
    SignedBelow(gaps, predictions, n, n);
    GapsAddUp(predictions, outcomes);
    BinTotalBelow(gaps, predictions, n);
    SmallGaps(gaps);
    Means(Sum(outcomes), Sum(predictions), BinTotal(gaps, predictions, n, n), |predictions| as real);
  }
}
