/**
  When the algorithm returns the diagonal: whenever it is optimal and the potentials that certify it
  do not decrease along the columns.  Then no row that is inserted later disturbs an earlier one, and
  ties go to the diagonal.
 */
module HungarianDiagonal {
  import opened Pairings
  import opened Hungarian
  import opened HungarianProof

  // ----- optimal pairings are tight -----

  lemma {:induction false} SlackCounts(a: Matrix, n: nat, m: nat, u: seq<int>, v: seq<int>, pairs: seq<Pair>, k: nat)
    requires DualFeasible(a, n, m, u, v) && IsPairing(pairs, n, m) && k < |pairs|
    ensures PickSum(u, Lefts(pairs)) + PickSum(v, Rights(pairs)) <=
      Total(CostOf(a), pairs) - (CostOf(a)(pairs[k].0, pairs[k].1) - u[pairs[k].0] - v[pairs[k].1])
  {
    var last := |pairs| - 1;
    assert Lefts(pairs)[..last] == Lefts(pairs[..last]) && Rights(pairs)[..last] == Rights(pairs[..last]);
    if k < last { SlackCounts(a, n, m, u, v, pairs[..last], k); } else { TotalAboveDual(a, n, m, u, v, pairs[..last]); }
  }

  lemma {:induction false} PickSumMore(s: seq<int>, positions: seq<nat>, c: nat)
    requires Below(positions, |s|) && c < |s|
    ensures PickSum(s, positions + [c]) == PickSum(s, positions) + s[c]
  {
    assert (positions + [c])[..|positions|] == positions;
  }

  lemma {:induction false} NothingUnused(v: seq<int>, m: nat, pairs: seq<Pair>, n: nat)
    requires |v| == m && IsPairing(pairs, n, m) && (forall c :: 0 <= c < m ==> v[c] <= 0) && PickSum(v, Rights(pairs)) == Sum(v)
    ensures forall c: nat :: c < m && c !in Rights(pairs) ==> v[c] == 0
  {
    forall c: nat | c < m && c !in Rights(pairs) ensures v[c] == 0 {
      PickSumMore(v, Rights(pairs), c);
      PickSumNonPositive(v, Rights(pairs) + [c]);
    }
  }

  /** Complementary slackness: what certifies one optimal pairing certifies every other. */
  lemma {:induction false} OptimalIsCertified(a: Matrix, n: nat, m: nat, u: seq<int>, v: seq<int>, pairs: seq<Pair>, other: seq<Pair>)
    requires Certifies(a, n, m, u, v, pairs) && IsPairing(other, n, m) && |other| == n
    requires Total(CostOf(a), other) <= Total(CostOf(a), pairs)
    ensures Certifies(a, n, m, u, v, other)
  {
    CertifiedTotal(a, n, m, u, v, pairs);
    assert Below(Lefts(other), n) && Distinct(Lefts(other)) && Below(Rights(other), m) && Distinct(Rights(other));
    Pigeonhole(Lefts(other), n);
    PickSumAll(u, Lefts(other));
    PickSumNonPositive(v, Rights(other));
    TotalAboveDual(a, n, m, u, v, other);
    hide Total, PickSum, Sum, Distinct;
    forall k | 0 <= k < n ensures u[other[k].0] + v[other[k].1] == CostOf(a)(other[k].0, other[k].1) {
      SlackCounts(a, n, m, u, v, other, k);
    }
    NothingUnused(v, m, other, n);
  }

  // ----- the diagonal -----

  function Diagonal(n: nat): (r: seq<Pair>)
    ensures |r| == n && forall i :: 0 <= i < n ==> r[i] == (i, i)
  {
    seq(n, i requires 0 <= i < n => (i, i))
  }

  /** Potentials that certify the diagonal, and do not decrease along the columns. */
  ghost predicate Ladder(a: Matrix, n: nat, m: nat, u: seq<int>, v: seq<int>) {
    && n <= m && DualFeasible(a, n, m, u, v)
    && (forall i :: 0 <= i < n ==> u[i] + v[i] == CostOf(a)(i, i))
    && (forall c :: n <= c < m ==> v[c] == 0)
    && forall i, j :: 0 <= i < j < m ==> v[i] <= v[j]
  }

  /** Potentials for the first k rows: those of the ladder, with its last used rung at zero. */
  function RowsUpTo(u: seq<int>, v: seq<int>, k: nat): (r: seq<int>)
    requires 1 <= k <= |u| <= |v|
    ensures |r| == k && forall i :: 0 <= i < k ==> r[i] == u[i] + v[k - 1]
  {
    seq(k, i requires 0 <= i < k => u[i] + v[k - 1])
  }

  function ColumnsUpTo(v: seq<int>, k: nat): (r: seq<int>)
    requires 1 <= k <= |v|
    ensures |r| == |v| && forall c :: 0 <= c < |v| ==> r[c] == if c < k then v[c] - v[k - 1] else 0
  {
    seq(|v|, c requires 0 <= c < |v| => if c < k then v[c] - v[k - 1] else 0)
  }

  /** On a ladder the first k rows are best paired along the diagonal, too. */
  lemma {:induction false} PrefixCertified(a: Matrix, n: nat, m: nat, u: seq<int>, v: seq<int>, k: nat)
    requires Ladder(a, n, m, u, v) && 1 <= k <= n
    ensures Certifies(a[..k], k, m, RowsUpTo(u, v, k), ColumnsUpTo(v, k), Diagonal(k))
  {
    var u', v' := RowsUpTo(u, v, k), ColumnsUpTo(v, k);
    forall r, c | 0 <= r < k && 0 <= c < m ensures u'[r] + v'[c] <= CostOf(a[..k])(r, c) {
      assert CostOf(a[..k])(r, c) == CostOf(a)(r, c);
      assert u[r] + v[c] <= CostOf(a)(r, c);
    }
    forall i | 0 <= i < k ensures u'[i] + v'[i] == CostOf(a[..k])(i, i) {
      assert CostOf(a[..k])(i, i) == CostOf(a)(i, i);
    }
    forall c: nat | c < k ensures c in Rights(Diagonal(k)) { assert Rights(Diagonal(k))[c] == c; }
  }

  // ----- the potentials after k rows are tight on the diagonal -----

  lemma {:induction false} PairsToWithout(p: seq<nat>, x: nat, k: nat)
    requires k < |p|
    ensures PairsTo(p[0 := x], k) == PairsTo(p, k)
  {
    if k > 0 { PairsToWithout(p, x, k - 1); }
  }

  /** The first k rows alone. */
  function FirstRows(t: Tables, k: nat): Tables
    requires k < |t.u| && t.p != []
  {
    t.(u := t.u[..k + 1], p := t.p[0 := 0])
  }

  lemma FirstRowsInserted(a: Matrix, n: nat, m: nat, t: Tables, k: nat)
    requires Rectangular(a, n, m) && Inserted(a, n, m, t, k)
    ensures Inserted(a[..k], k, m, FirstRows(t, k), k)
  {
    var t' := FirstRows(t, k);
    forall r: nat | 1 <= r <= k ensures HeldBy(t'.p, m, r, 1, 0) {
      assert HeldBy(t.p, m, r, 1, 0);
      var c: nat :| 1 <= c <= m && c != 0 && t.p[c] == r;
      assert t'.p[c] == r;
    }
    assert TablesSized(t', k, m);
    forall r: nat, c: nat | 1 <= r <= k && 1 <= c <= m ensures Gap(a[..k], t'.u, t'.v, r, c) >= 0 {
      assert Gap(a, t.u, t.v, r, c) >= 0;
    }
    forall c: nat | 1 <= c <= m && t'.p[c] != 0 ensures Gap(a[..k], t'.u, t'.v, t'.p[c], c) == 0 {
      assert Gap(a, t.u, t.v, t.p[c], c) == 0;
    }
  }

  /** After k rows of a ladder the potentials are tight on the first k diagonal entries. */
  lemma {:induction false} DiagonalIsTight(a: Matrix, n: nat, m: nat, u: seq<int>, v: seq<int>, t: Tables, k: nat)
    requires Rectangular(a, n, m) && Ladder(a, n, m, u, v) && 1 <= k <= n && Inserted(a, n, m, t, k)
    ensures Gap(a, t.u, t.v, k, k) == 0
  {
    var b, t' := a[..k], FirstRows(t, k);
    FirstRowsInserted(a, n, m, t, k);
    PrefixCertified(a, n, m, u, v, k);
    assert t'.u[1..][k - 1] == t.u[k] && t'.v[1..][k - 1] == t.v[k] && CostOf(b)(k - 1, k - 1) == a[k - 1][k - 1];
    hide Inserted, Certifies, PairsTo, Ladder, FirstRows;
    OneCertifiesTheOther(b, k, m, RowsUpTo(u, v, k), ColumnsUpTo(v, k), Diagonal(k), t');
    assert Diagonal(k)[k - 1] == (k - 1, k - 1);
    CertifiedAt(b, k, m, t'.u[1..], t'.v[1..], Diagonal(k), k - 1);
  }

  lemma {:induction false} CertifiedAt(a: Matrix, n: nat, m: nat, u: seq<int>, v: seq<int>, pairs: seq<Pair>, k: nat)
    requires Certifies(a, n, m, u, v, pairs) && k < n
    ensures pairs[k].0 < |u| && pairs[k].1 < |v| && u[pairs[k].0] + v[pairs[k].1] == CostOf(a)(pairs[k].0, pairs[k].1)
  {
  }

  /** The potentials after all n rows certify every certified pairing. */
  lemma {:induction false} OneCertifiesTheOther(a: Matrix, n: nat, m: nat, u: seq<int>, v: seq<int>, pairs: seq<Pair>, t: Tables)
    requires Rectangular(a, n, m) && Inserted(a, n, m, t, n) && Certifies(a, n, m, u, v, pairs)
    ensures Certifies(a, n, m, t.u[1..], t.v[1..], pairs)
  {
    PairsArePairing(t.p, n, m);
    PairsCoverRows(t.p, n, m);
    hide PairsTo;
    InsertedCertifies(a, n, m, t);
    CertifiedIsOptimal(a, n, m, u, v, pairs, PairsTo(t.p, m));
    OptimalIsCertified(a, n, m, t.u[1..], t.v[1..], PairsTo(t.p, m), pairs);
  }

  // ----- which column the search ends at, and how it got there -----

  /** Of the columns with the least slack the scan finds the first. */
  lemma {:induction false} ScanFindsFirst(a: Matrix, n: nat, m: nat, s: Search, p: seq<nat>, k: nat)
    requires Rectangular(a, n, m) && Entries(p, n, m) && Sized(s, n, m) && p[s.column] >= 1 && k <= m
    ensures var r := ScanTo(a, n, m, s, p, k);
      forall c: nat :: 1 <= c <= k && c < r.next && !s.used[c] ==> Less(r.delta, r.minimum[c])
  {
    if k > 0 {
      ScanFindsFirst(a, n, m, s, p, k - 1);
      ScanFinds(a, n, m, s, p, k - 1);
      ScanKeeps(a, n, m, s, p, k - 1);
      ScanKeeps(a, n, m, s, p, k);
    }
  }

  /** Unmarked columns before the one reached are farther away. */
  ghost predicate First(m: nat, s: Search)
    requires |s.minimum| == m + 1 && |s.used| == m + 1
  {
    forall c: nat :: 1 <= c <= m && c < s.column && !s.used[c] ==> s.minimum[c].Finite? && s.minimum[c].value > 0
  }

  /** A column as near to the new row as to any marked row is reached directly. */
  ghost predicate Direct(a: Matrix, n: nat, m: nat, s: Search, p: seq<nat>)
    requires Rectangular(a, n, m) && Sized(s, n, m) && Entries(p, n, m) && p[0] >= 1
  {
    forall c: nat :: 1 <= c <= m && !s.used[c] && s.minimum[c] == Finite(Gap(a, s.u, s.v, p[0], c)) ==> s.way[c] == 0
  }

  lemma TurnIsFirst(a: Matrix, n: nat, m: nat, row: nat, s: Search, p: seq<nat>, marked: seq<nat>)
    requires Rectangular(a, n, m) && n <= m && Searching(a, n, m, row, s, p, marked) && p[s.column] >= 1
    ensures First(m, Turn(a, n, m, s, p))
  {
    hide Feasible, Tight, Signs, Edges, Edge, Nearest, Turn, ScanTo, RelaxTo, Holds;
    var r, scan, all := Turn(a, n, m, s, p), AfterScan(a, n, m, s, p), marked + [s.column];
    ScanSucceeds(a, n, m, row, s, p, marked);
    ScanFindsFirst(a, n, m, Start(s), p, m);
    TurnShifts(a, n, m, row, s, p, marked);
    assert r.column == scan.next by { TurnParts(a, n, m, s, p); }
    forall c: nat | 1 <= c <= m && c < r.column && !r.used[c] ensures r.minimum[c].Finite? && r.minimum[c].value > 0 {
      assert !Start(s).used[c] && c !in all;
      assert Less(scan.delta, scan.minimum[c]);
    }
  }

  lemma TurnIsDirect(a: Matrix, n: nat, m: nat, row: nat, s: Search, p: seq<nat>, marked: seq<nat>)
    requires Rectangular(a, n, m) && n <= m && Searching(a, n, m, row, s, p, marked) && p[s.column] >= 1
    requires marked != [] ==> Direct(a, n, m, s, p)
    ensures Direct(a, n, m, Turn(a, n, m, s, p), p)
  {
    hide Feasible, Tight, Signs, Edges, Edge, Turn, ScanTo, RelaxTo, Direct;
    var r, scan, all := Turn(a, n, m, s, p), AfterScan(a, n, m, s, p), marked + [s.column];
    ScanSucceeds(a, n, m, row, s, p, marked);
    TurnShifts(a, n, m, row, s, p, marked);
    assert r.way == scan.way && r.used == s.used[s.column := true] by { TurnParts(a, n, m, s, p); }
    forall c: nat | 1 <= c <= m && !r.used[c] && r.minimum[c] == Finite(Gap(a, r.u, r.v, p[0], c)) ensures r.way[c] == 0 {
      DirectAt(a, n, m, row, s, r, p, marked, c);
    }
    assert Direct(a, n, m, r, p) by { DirectIs(a, n, m, r, p); }
  }

  lemma DirectIs(a: Matrix, n: nat, m: nat, s: Search, p: seq<nat>)
    requires Rectangular(a, n, m) && Sized(s, n, m) && Entries(p, n, m) && p[0] >= 1
    requires forall c: nat :: 1 <= c <= m && !s.used[c] && s.minimum[c] == Finite(Gap(a, s.u, s.v, p[0], c)) ==> s.way[c] == 0
    ensures Direct(a, n, m, s, p)
  {
  }

  lemma TurnParts(a: Matrix, n: nat, m: nat, s: Search, p: seq<nat>)
    requires Rectangular(a, n, m) && Entries(p, n, m) && Sized(s, n, m) && p[s.column] >= 1
    ensures Turn(a, n, m, s, p).way == AfterScan(a, n, m, s, p).way
    ensures Turn(a, n, m, s, p).column == AfterScan(a, n, m, s, p).next
  {
  }

  lemma DirectAt(a: Matrix, n: nat, m: nat, row: nat, s: Search, r: Search, p: seq<nat>, marked: seq<nat>, c: nat)
    requires Rectangular(a, n, m) && n <= m && Searching(a, n, m, row, s, p, marked) && p[s.column] >= 1
    requires marked != [] ==> Direct(a, n, m, s, p)
    requires Sized(r, n, m) && r.way == AfterScan(a, n, m, s, p).way && AfterScan(a, n, m, s, p).delta.Finite?
    requires Shifted(n, m, s, r, p, marked + [s.column], AfterScan(a, n, m, s, p).minimum, AfterScan(a, n, m, s, p).delta.value)
    requires 1 <= c <= m && !s.used[c] && c != s.column && r.minimum[c] == Finite(Gap(a, r.u, r.v, p[0], c))
    ensures r.way[c] == 0
  {
    hide Feasible, Tight, Signs, Edges, Edge, ScanTo;
    var scan, all := AfterScan(a, n, m, s, p), marked + [s.column];
    ScanKeeps(a, n, m, Start(s), p, m);
    assert ScannedAt(a, n, m, Start(s), p, scan, c);
    assert Nearest(a, n, m, s.u, s.v, s.minimum, s.way, p, marked, c);
    assert c !in all && 0 in all;
    GapKept(a, n, m, s, r, p, all, scan.minimum, scan.delta.value, row, 0, c);
    TurnNearest(a, n, m, row, s, p, marked, c);
    if marked != [] { assert 0 in marked && s.column != 0; }
  }

  /** The search ends at the first of the nearest columns, reached directly if the new row is as near as any. */
  lemma {:induction false} SearchEnds(a: Matrix, n: nat, m: nat, row: nat, s: Search, p: seq<nat>, marked: seq<nat>)
    requires Rectangular(a, n, m) && n <= m && Searching(a, n, m, row, s, p, marked) && p[s.column] >= 1
    requires marked != [] ==> Direct(a, n, m, s, p)
    ensures var r := SearchFrom(a, n, m, s, p);
      First(m, r) && Direct(a, n, m, r, p)
    decreases Unmarked(s.used)
  {
    hide First, Direct, Turn, Unmarked;
    TurnKeeps(a, n, m, row, s, p, marked);
    TurnIsFirst(a, n, m, row, s, p, marked);
    TurnIsDirect(a, n, m, row, s, p, marked);
    var next := Turn(a, n, m, s, p);
    if p[next.column] != 0 {
      UnmarkedUpdate(s.used, s.column);
      SearchEnds(a, n, m, row, next, p, marked + [s.column]);
    }
  }

  // ----- inserting row by row -----

  /** The first k columns hold the first k rows, and the others none. */
  ghost predicate OnDiagonal(p: seq<nat>, m: nat, k: nat) {
    |p| == m + 1 && forall c: nat :: 1 <= c <= m ==> p[c] == if c <= k then c else 0
  }

  /** The search for the next row of a ladder ends at its diagonal column and comes there directly. */
  lemma NextColumn(a: Matrix, n: nat, m: nat, row: nat, r: Search, p: seq<nat>, marked: seq<nat>)
    requires Rectangular(a, n, m) && n <= m && Searching(a, n, m, row, r, p, marked) && marked != []
    requires First(m, r) && Direct(a, n, m, r, p) && p[r.column] == 0
    requires p[0] == row && OnDiagonal(p, m, row - 1) && Gap(a, r.u, r.v, row, row) == 0
    ensures r.column == row && r.way[row] == 0
  {
    assert !r.used[row] && !r.used[r.column];
    assert Nearest(a, n, m, r.u, r.v, r.minimum, r.way, p, marked, row);
    var w := r.way[row];
    assert HeldAtMost(p, m, row, w) by { assert Holds(p, m, row, 0, m + 1); }
    assert Gap(a, r.u, r.v, p[w], row) >= 0;
    assert r.minimum[row] == Finite(0);
    assert r.column != 0;
  }

  ghost predicate HeldAtMost(p: seq<nat>, m: nat, row: nat, w: nat)
    requires |p| == m + 1
  {
    w <= m ==> p[w] <= row
  }

  lemma NextOnDiagonal(a: Matrix, n: nat, m: nat, u: seq<int>, v: seq<int>, t: Tables, row: nat)
    requires Rectangular(a, n, m) && Ladder(a, n, m, u, v) && 1 <= row <= n && Inserted(a, n, m, t, row - 1)
    requires OnDiagonal(t.p, m, row - 1)
    ensures OnDiagonal(InsertRow(a, n, m, t, row).p, m, row)
  {
    assert n <= m;
    hide Ladder, First, Direct, Feasible, Tight, Signs, Holds, SearchFrom;
    var p := t.p[0 := row];
    StartSearches(a, n, m, t, row);
    var marked := SearchSucceeds(a, n, m, row, StartSearch(t, m), p, []);
    SearchEnds(a, n, m, row, StartSearch(t, m), p, []);
    var r := SearchFrom(a, n, m, StartSearch(t, m), p);
    InsertRowKeeps(a, n, m, t, row);
    DiagonalIsTight(a, n, m, u, v, InsertRow(a, n, m, t, row), row);
    NextColumn(a, n, m, row, r, p, marked);
    assert Walk(n, m, p, r.way, row, m + 1) == p[row := p[0]];
  }

  lemma {:induction false} DiagonalInserted(a: Matrix, n: nat, m: nat, u: seq<int>, v: seq<int>, k: nat)
    requires Rectangular(a, n, m) && Ladder(a, n, m, u, v) && k <= n
    ensures OnDiagonal(Insert(a, n, m, k).p, m, k)
  {
    hide Ladder, Inserted;
    if k > 0 {
      assert n <= m by { LadderFits(a, n, m, u, v); }
      DiagonalInserted(a, n, m, u, v, k - 1);
      InsertKeeps(a, n, m, k - 1);
      NextOnDiagonal(a, n, m, u, v, Insert(a, n, m, k - 1), k);
    }
  }

  lemma LadderFits(a: Matrix, n: nat, m: nat, u: seq<int>, v: seq<int>)
    requires Ladder(a, n, m, u, v)
    ensures n <= m
  {
  }

  lemma {:induction false} DiagonalPairs(p: seq<nat>, m: nat, n: nat, k: nat)
    requires OnDiagonal(p, m, n) && k <= m && n <= m
    ensures PairsTo(p, k) == Diagonal(Min(k, n))
  {
    if k > 0 { DiagonalPairs(p, m, n, k - 1); }
  }

  /** On a ladder the algorithm returns the diagonal. */
  lemma {:induction false} LadderIsAssigned(a: Matrix, n: nat, m: nat, u: seq<int>, v: seq<int>)
    requires Rectangular(a, n, m) && Ladder(a, n, m, u, v)
    ensures Assign(a, n, m) == Diagonal(n)
  {
    DiagonalInserted(a, n, m, u, v, n);
    DiagonalPairs(Insert(a, n, m, n).p, m, n, m);
  }
}
