/**
  What each loop of the algorithm keeps: dual feasibility on the inserted rows, tightness on
  the pairs and along the search tree, and the signs of the column potentials.
 */
module HungarianProof {
  import opened Pairings
  import opened Hungarian

  ghost predicate Feasible(a: Matrix, n: nat, m: nat, u: seq<int>, v: seq<int>, rows: nat)
    requires Rectangular(a, n, m) && |u| == n + 1 && |v| == m + 1 && rows <= n
  {
    forall r: nat, c: nat :: 1 <= r <= rows && 1 <= c <= m ==> Gap(a, u, v, r, c) >= 0
  }

  ghost predicate Tight(a: Matrix, n: nat, m: nat, u: seq<int>, v: seq<int>, p: seq<nat>)
    requires Rectangular(a, n, m) && |u| == n + 1 && |v| == m + 1 && Entries(p, n, m)
  {
    forall c: nat :: 1 <= c <= m && p[c] != 0 ==> Gap(a, u, v, p[c], c) == 0
  }

  ghost predicate Signs(m: nat, v: seq<int>, p: seq<nat>)
    requires |v| == m + 1 && |p| == m + 1
  {
    forall c: nat :: 1 <= c <= m ==> v[c] <= 0 && (p[c] == 0 ==> v[c] == 0)
  }

  ghost predicate HeldBy(p: seq<nat>, m: nat, r: nat, from: nat, hole: nat)
    requires |p| == m + 1
  {
    exists c: nat :: from <= c <= m && c != hole && p[c] == r
  }

  /** Leaving out one column, the columns from `from` on hold every row 1..rows exactly once. */
  ghost predicate Holds(p: seq<nat>, m: nat, rows: nat, from: nat, hole: nat)
    requires |p| == m + 1
  {
    && (forall c: nat :: from <= c <= m && c != hole ==> p[c] <= rows)
    && (forall c: nat, d: nat :: from <= c < d <= m && c != hole && d != hole && p[c] == p[d] ==> p[c] == 0)
    && forall r: nat :: 1 <= r <= rows ==> HeldBy(p, m, r, from, hole)
  }

  /** Between insertions: the first rows are paired and the potentials certify them. */
  ghost predicate Inserted(a: Matrix, n: nat, m: nat, t: Tables, rows: nat)
    requires Rectangular(a, n, m)
  {
    && rows <= n && TablesSized(t, n, m)
    && Holds(t.p, m, rows, 1, 0)
    && Feasible(a, n, m, t.u, t.v, rows) && Tight(a, n, m, t.u, t.v, t.p) && Signs(m, t.v, t.p)
  }

  /** The columns marked so far, in order; s.column is still to be marked. */
  ghost predicate Reached(m: nat, s: Search, p: seq<nat>, marked: seq<nat>)
    requires |p| == m + 1 && |s.used| == m + 1
  {
    && (if marked == [] then s.column == 0 else marked[0] == 0)
    && s.column <= m && s.column !in marked && Distinct(marked)
    && (forall c: nat :: c in marked ==> c <= m && p[c] >= 1)
    && forall c: nat :: c <= m ==> (s.used[c] <==> c in marked)
  }

  /** way leads from column c to an earlier one, along a tight edge. */
  ghost predicate Edge(a: Matrix, n: nat, m: nat, u: seq<int>, v: seq<int>, way: seq<nat>, p: seq<nat>, c: nat, earlier: seq<nat>)
    requires Rectangular(a, n, m) && |u| == n + 1 && |v| == m + 1 && |way| == m + 1 && Entries(p, n, m)
  {
    && 1 <= c <= m && way[c] in earlier && way[c] <= m
    && p[way[c]] >= 1 && Gap(a, u, v, p[way[c]], c) == 0
  }

  ghost predicate Edges(a: Matrix, n: nat, m: nat, u: seq<int>, v: seq<int>, way: seq<nat>, p: seq<nat>, marked: seq<nat>)
    requires Rectangular(a, n, m) && |u| == n + 1 && |v| == m + 1 && |way| == m + 1 && Entries(p, n, m)
  {
    forall k :: 1 <= k < |marked| ==> Edge(a, n, m, u, v, way, p, marked[k], marked[..k])
  }

  /** minimum[c] is the least gap between the marked columns' rows and c, reached at way[c]. */
  ghost predicate Nearest(a: Matrix, n: nat, m: nat, u: seq<int>, v: seq<int>, minimum: seq<Slack>, way: seq<nat>,
                          p: seq<nat>, marked: seq<nat>, c: nat)
    requires Rectangular(a, n, m) && |u| == n + 1 && |v| == m + 1 && |minimum| == m + 1 && |way| == m + 1
    requires Entries(p, n, m) && 1 <= c <= m
  {
    if marked == [] then minimum[c] == Infinite
    else
      && minimum[c].Finite? && way[c] in marked && way[c] <= m && p[way[c]] >= 1
      && minimum[c].value == Gap(a, u, v, p[way[c]], c)
      && forall d: nat :: d in marked && d <= m && p[d] >= 1 ==> minimum[c].value <= Gap(a, u, v, p[d], c)
  }

  /** At the head of the search loop. */
  ghost predicate Searching(a: Matrix, n: nat, m: nat, row: nat, s: Search, p: seq<nat>, marked: seq<nat>)
    requires Rectangular(a, n, m)
  {
    && 1 <= row <= n && Sized(s, n, m) && Entries(p, n, m)
    && p[0] == row && Holds(p, m, row, 0, m + 1)
    && Reached(m, s, p, marked)
    && Feasible(a, n, m, s.u, s.v, if marked == [] then row - 1 else row)
    && Tight(a, n, m, s.u, s.v, p) && Signs(m, s.v, p)
    && Edges(a, n, m, s.u, s.v, s.way, p, marked)
    && (marked != [] ==> Edge(a, n, m, s.u, s.v, s.way, p, s.column, marked))
    && forall c: nat :: 1 <= c <= m && !s.used[c] ==>
         Nearest(a, n, m, s.u, s.v, s.minimum, s.way, p, marked, c)
  }

  // ----- one scan over the columns -----

  /** What the scan leaves at column c once it has passed it. */
  ghost predicate ScannedAt(a: Matrix, n: nat, m: nat, s: Search, p: seq<nat>, r: Scanned, c: nat)
    requires Rectangular(a, n, m) && Entries(p, n, m) && Sized(s, n, m) && p[s.column] >= 1
    requires |r.minimum| == m + 1 && |r.way| == m + 1 && 1 <= c <= m
  {
    var current := Finite(Gap(a, s.u, s.v, p[s.column], c));
    if Less(current, s.minimum[c]) then r.minimum[c] == current && r.way[c] == s.column
    else r.minimum[c] == s.minimum[c] && r.way[c] == s.way[c]
  }

  lemma {:induction false} ScanKeeps(a: Matrix, n: nat, m: nat, s: Search, p: seq<nat>, k: nat)
    requires Rectangular(a, n, m) && Entries(p, n, m) && Sized(s, n, m) && p[s.column] >= 1 && k <= m
    ensures var r := ScanTo(a, n, m, s, p, k);
      && (forall c: nat :: 1 <= c <= k && !s.used[c] ==> ScannedAt(a, n, m, s, p, r, c))
      && (forall c: nat :: c <= m && (c == 0 || c > k || s.used[c]) ==>
            r.minimum[c] == s.minimum[c] && r.way[c] == s.way[c])
  {
    if k > 0 { ScanKeeps(a, n, m, s, p, k - 1); }
  }

  /** delta is the least slack of an unmarked column, found at next. */
  lemma {:induction false} ScanFinds(a: Matrix, n: nat, m: nat, s: Search, p: seq<nat>, k: nat)
    requires Rectangular(a, n, m) && Entries(p, n, m) && Sized(s, n, m) && p[s.column] >= 1 && k <= m
    ensures var r := ScanTo(a, n, m, s, p, k);
      && (forall c: nat :: 1 <= c <= k && !s.used[c] ==> r.minimum[c].Finite? && !Less(r.minimum[c], r.delta))
      && (r.delta.Finite? ==> 1 <= r.next <= k && !s.used[r.next] && r.minimum[r.next] == r.delta)
  {
    if k > 0 {
      ScanFinds(a, n, m, s, p, k - 1);
      ScanKeeps(a, n, m, s, p, k - 1);
      ScanKeeps(a, n, m, s, p, k);
    }
  }

  // ----- shifting the potentials -----

  /** No two of the marked columns hold the same row. */
  ghost predicate HeldOnce(m: nat, p: seq<nat>, used: seq<bool>)
    requires |p| == m + 1 == |used|
  {
    forall c: nat, e: nat :: c < e <= m && used[c] && used[e] ==> p[c] != p[e]
  }

  lemma {:induction false} RelaxKeepsColumns(n: nat, m: nat, start: Relaxed, p: seq<nat>, used: seq<bool>, d: int, k: nat)
    requires Entries(p, n, m) && |used| == m + 1 && k <= m + 1
    requires |start.u| == n + 1 && |start.v| == m + 1 && |start.minimum| == m + 1
    ensures var r := RelaxTo(n, m, start, p, used, Finite(d), k);
      && (forall c: nat :: c <= m ==> r.v[c] == if c < k && used[c] then start.v[c] - d else start.v[c])
      && (forall c: nat :: c <= m ==>
            r.minimum[c] == if c < k && !used[c] then Minus(start.minimum[c], Finite(d)) else start.minimum[c])
  {
    hide Minus;
    if k > 0 { RelaxKeepsColumns(n, m, start, p, used, d, k - 1); }
  }

  lemma {:induction false} RelaxKeepsRows(n: nat, m: nat, start: Relaxed, p: seq<nat>, used: seq<bool>, d: int, k: nat)
    requires Entries(p, n, m) && |used| == m + 1 && k <= m + 1
    requires |start.u| == n + 1 && |start.v| == m + 1 && |start.minimum| == m + 1
    requires HeldOnce(m, p, used)
    ensures var r := RelaxTo(n, m, start, p, used, Finite(d), k);
      && (forall c: nat :: c < k && used[c] ==> r.u[p[c]] == start.u[p[c]] + d)
      && (forall i: nat :: i <= n && (forall c: nat :: c < k && used[c] ==> p[c] != i) ==> r.u[i] == start.u[i])
  {
    hide Minus;
    if k > 0 { RelaxKeepsRows(n, m, start, p, used, d, k - 1); }
  }

  lemma {:induction false} RelaxKeeps(n: nat, m: nat, start: Relaxed, p: seq<nat>, used: seq<bool>, d: int, k: nat)
    requires Entries(p, n, m) && |used| == m + 1 && k <= m + 1
    requires |start.u| == n + 1 && |start.v| == m + 1 && |start.minimum| == m + 1
    requires HeldOnce(m, p, used)
    ensures var r := RelaxTo(n, m, start, p, used, Finite(d), k);
      && (forall c: nat :: c < k && used[c] ==> r.v[c] == start.v[c] - d && r.u[p[c]] == start.u[p[c]] + d)
      && (forall c: nat :: c <= m && (c >= k || !used[c]) ==> r.v[c] == start.v[c])
      && (forall i: nat :: i <= n && (forall c: nat :: c < k && used[c] ==> p[c] != i) ==> r.u[i] == start.u[i])
      && (forall c: nat :: c < k && !used[c] ==> r.minimum[c] == Minus(start.minimum[c], Finite(d)))
      && (forall c: nat :: c <= m && (c >= k || used[c]) ==> r.minimum[c] == start.minimum[c])
  {
    hide RelaxTo, Minus, HeldOnce;
    RelaxKeepsColumns(n, m, start, p, used, d, k);
    RelaxKeepsRows(n, m, start, p, used, d, k);
  }

  // ----- one turn of the search -----

  ghost function Start(s: Search): Search
    requires s.column < |s.used|
  {
    s.(used := s.used[s.column := true])
  }

  ghost function AfterScan(a: Matrix, n: nat, m: nat, s: Search, p: seq<nat>): Scanned
    requires Rectangular(a, n, m) && Entries(p, n, m) && Sized(s, n, m) && p[s.column] >= 1
  {
    ScanTo(a, n, m, Start(s), p, m)
  }

  lemma FreeColumn(p: seq<nat>, m: nat, rows: nat) returns (c: nat)
    requires |p| == m + 1 && Holds(p, m, rows, 0, m + 1) && rows <= m && p[0] != 0
    ensures 1 <= c <= m && p[c] == 0
  {
    if forall c: nat :: 1 <= c <= m ==> p[c] != 0 {
      var held := seq(m + 1, c requires 0 <= c <= m => if p[c] == 0 then 0 else p[c] - 1);
      assert Distinct(held);
      Pigeonhole(held, rows);
      assert false;
    }
    c :| 1 <= c <= m && p[c] == 0;
  }

  /** While a column is free, the scan finds a finite slack at an unmarked column. */
  lemma ScanSucceeds(a: Matrix, n: nat, m: nat, row: nat, s: Search, p: seq<nat>, marked: seq<nat>)
    requires Rectangular(a, n, m) && Sized(s, n, m) && Entries(p, n, m)
    requires 1 <= row <= m && p[0] == row && Holds(p, m, row, 0, m + 1)
    requires Reached(m, s, p, marked) && p[s.column] >= 1
    ensures var scan := AfterScan(a, n, m, s, p);
      && scan.delta.Finite? && 1 <= scan.next && scan.next !in marked && scan.next != s.column
      && scan.minimum[scan.next] == scan.delta
      && forall c: nat :: 1 <= c <= m && c !in marked && c != s.column ==>
           scan.minimum[c].Finite? && scan.delta.value <= scan.minimum[c].value
  {
    var free := FreeColumn(p, m, row);
    assert !Start(s).used[free];
    ScanFinds(a, n, m, Start(s), p, m);
  }

  lemma NearestAfterScan(a: Matrix, n: nat, m: nat, s: Search, p: seq<nat>, marked: seq<nat>, c: nat)
    requires Rectangular(a, n, m) && Sized(s, n, m) && Entries(p, n, m)
    requires p[s.column] >= 1 && 1 <= c <= m && !s.used[c] && c != s.column
    requires Nearest(a, n, m, s.u, s.v, s.minimum, s.way, p, marked, c)
    ensures var scan := AfterScan(a, n, m, s, p);
      Nearest(a, n, m, s.u, s.v, scan.minimum, scan.way, p, marked + [s.column], c)
  {
    ScanKeeps(a, n, m, Start(s), p, m);
    assert ScannedAt(a, n, m, Start(s), p, AfterScan(a, n, m, s, p), c);
  }

  /** The scan shifted the marked columns, and the rows they hold, by d. */
  ghost predicate Shifted(n: nat, m: nat, s: Search, r: Search, p: seq<nat>, marked: seq<nat>, minimum: seq<Slack>, d: int)
    requires Entries(p, n, m) && Sized(s, n, m) && Sized(r, n, m) && |minimum| == m + 1
  {
    && (forall c: nat :: c in marked && c <= m ==> r.v[c] == s.v[c] - d && r.u[p[c]] == s.u[p[c]] + d)
    && (forall c: nat :: c <= m && c !in marked ==> r.v[c] == s.v[c] && r.minimum[c] == Minus(minimum[c], Finite(d)))
    && forall i: nat :: i <= n && (forall c: nat :: c in marked && c <= m ==> p[c] != i) ==> r.u[i] == s.u[i]
  }

  lemma TurnShifts(a: Matrix, n: nat, m: nat, row: nat, s: Search, p: seq<nat>, marked: seq<nat>)
    requires Rectangular(a, n, m) && Sized(s, n, m) && Entries(p, n, m)
    requires Holds(p, m, row, 0, m + 1) && Reached(m, s, p, marked) && p[s.column] >= 1
    requires AfterScan(a, n, m, s, p).delta.Finite?
    ensures var scan := AfterScan(a, n, m, s, p);
      Shifted(n, m, s, Turn(a, n, m, s, p), p, marked + [s.column], scan.minimum, scan.delta.value)
  {
    var scan, used, now := AfterScan(a, n, m, s, p), Start(s).used, marked + [s.column];
    assert (forall c: nat :: c <= m ==> (used[c] <==> c in now))
      && HeldOnce(m, p, used);
    hide Holds, Reached, RelaxTo, ScanTo, Minus, Shifted, HeldOnce;
    RelaxIsShift(n, m, s, Turn(a, n, m, s, p), p, used, now, scan.minimum, scan.delta.value);
  }

  lemma {:induction false} RelaxIsShift(n: nat, m: nat, s: Search, r: Search, p: seq<nat>, used: seq<bool>, marked: seq<nat>, minimum: seq<Slack>, d: int)
    requires Entries(p, n, m) && Sized(s, n, m) && Sized(r, n, m) && |minimum| == m + 1 == |used|
    requires forall c: nat :: c <= m ==> (used[c] <==> c in marked)
    requires HeldOnce(m, p, used)
    requires Relaxed(r.u, r.v, r.minimum) == RelaxTo(n, m, Relaxed(s.u, s.v, minimum), p, used, Finite(d), m + 1)
    ensures Shifted(n, m, s, r, p, marked, minimum, d)
  {
    hide RelaxTo, Minus, HeldOnce;
    RelaxKeeps(n, m, Relaxed(s.u, s.v, minimum), p, used, d, m + 1);
  }

  /** A gap between a marked row and a marked column, or between an unmarked row and an unmarked column. */
  lemma GapKept(a: Matrix, n: nat, m: nat, s: Search, r: Search, p: seq<nat>, marked: seq<nat>, minimum: seq<Slack>, d: int,
                row: nat, e: nat, c: nat)
    requires Rectangular(a, n, m) && Entries(p, n, m) && Sized(s, n, m) && Sized(r, n, m) && |minimum| == m + 1
    requires Shifted(n, m, s, r, p, marked, minimum, d) && Holds(p, m, row, 0, m + 1)
    requires e <= m && 1 <= c <= m && p[e] >= 1
    ensures Gap(a, r.u, r.v, p[e], c) == Gap(a, s.u, s.v, p[e], c)
              - (if e in marked then d else 0) + (if c in marked then d else 0)
  {
    if e !in marked { assert forall k: nat :: k in marked && k <= m ==> p[k] != p[e]; }
  }

  lemma TurnFeasible(a: Matrix, n: nat, m: nat, row: nat, s: Search, r: Search, p: seq<nat>, marked: seq<nat>,
                     scan: Scanned, d: int)
    requires Rectangular(a, n, m) && Entries(p, n, m) && Sized(s, n, m) && Sized(r, n, m)
    requires |scan.minimum| == m + 1 && |scan.way| == m + 1 && 1 <= row <= n
    requires Shifted(n, m, s, r, p, marked + [s.column], scan.minimum, d)
    requires p[0] == row && Holds(p, m, row, 0, m + 1) && Reached(m, s, p, marked) && p[s.column] >= 1
    requires Feasible(a, n, m, s.u, s.v, if marked == [] then row - 1 else row)
    requires marked != [] ==> d >= 0
    requires forall c: nat :: 1 <= c <= m && c !in marked + [s.column] ==>
      && Nearest(a, n, m, s.u, s.v, scan.minimum, scan.way, p, marked + [s.column], c)
      && d <= scan.minimum[c].value
    ensures Feasible(a, n, m, r.u, r.v, row)
  {
    var all := marked + [s.column];
    forall i: nat, c: nat | 1 <= i <= row && 1 <= c <= m ensures Gap(a, r.u, r.v, i, c) >= 0 {
      assert HeldBy(p, m, i, 0, m + 1);
      var e: nat :| e <= m && p[e] == i;
      GapKept(a, n, m, s, r, p, all, scan.minimum, d, row, e, c);
      if e in all && c !in all {
        assert Nearest(a, n, m, s.u, s.v, scan.minimum, scan.way, p, all, c);
      } else {
        assert marked == [] ==> e != 0 && i != row;
        assert Gap(a, s.u, s.v, i, c) >= 0;
      }
    }
  }

  lemma TurnTight(a: Matrix, n: nat, m: nat, row: nat, s: Search, r: Search, p: seq<nat>, marked: seq<nat>,
                  minimum: seq<Slack>, d: int)
    requires Rectangular(a, n, m) && Entries(p, n, m) && Sized(s, n, m) && Sized(r, n, m) && |minimum| == m + 1
    requires Shifted(n, m, s, r, p, marked + [s.column], minimum, d)
    requires Holds(p, m, row, 0, m + 1) && Reached(m, s, p, marked) && p[s.column] >= 1
    requires Tight(a, n, m, s.u, s.v, p) && Signs(m, s.v, p) && (marked != [] ==> d >= 0)
    ensures Tight(a, n, m, r.u, r.v, p) && Signs(m, r.v, p)
  {
    var all := marked + [s.column];
    forall c: nat | 1 <= c <= m && p[c] != 0 ensures Gap(a, r.u, r.v, p[c], c) == 0 {
      GapKept(a, n, m, s, r, p, all, minimum, d, row, c, c);
    }
    forall c: nat | 1 <= c <= m ensures r.v[c] <= 0 && (p[c] == 0 ==> r.v[c] == 0) {
      assert c in all ==> marked != [] && p[c] >= 1;
    }
  }

  lemma EdgeKept(a: Matrix, n: nat, m: nat, row: nat, s: Search, r: Search, p: seq<nat>, all: seq<nat>,
                 minimum: seq<Slack>, d: int, c: nat, earlier: seq<nat>)
    requires Rectangular(a, n, m) && Entries(p, n, m) && Sized(s, n, m) && Sized(r, n, m) && |minimum| == m + 1
    requires Shifted(n, m, s, r, p, all, minimum, d) && Holds(p, m, row, 0, m + 1)
    requires Edge(a, n, m, s.u, s.v, s.way, p, c, earlier) && r.way[c] == s.way[c]
    requires c in all && forall e :: e in earlier ==> e in all
    ensures Edge(a, n, m, r.u, r.v, r.way, p, c, earlier)
  {
    GapKept(a, n, m, s, r, p, all, minimum, d, row, s.way[c], c);
  }

  lemma TurnEdges(a: Matrix, n: nat, m: nat, row: nat, s: Search, r: Search, p: seq<nat>, marked: seq<nat>,
                  minimum: seq<Slack>, d: int)
    requires Rectangular(a, n, m) && Entries(p, n, m) && Sized(s, n, m) && Sized(r, n, m) && |minimum| == m + 1
    requires Shifted(n, m, s, r, p, marked + [s.column], minimum, d) && Holds(p, m, row, 0, m + 1)
    requires Edges(a, n, m, s.u, s.v, s.way, p, marked)
    requires marked != [] ==> Edge(a, n, m, s.u, s.v, s.way, p, s.column, marked)
    requires forall c: nat :: c <= m && c in marked + [s.column] ==> r.way[c] == s.way[c]
    ensures Edges(a, n, m, r.u, r.v, r.way, p, marked + [s.column])
  {
    var all := marked + [s.column];
    forall k | 1 <= k < |all| ensures Edge(a, n, m, r.u, r.v, r.way, p, all[k], all[..k]) {
      if k < |marked| { assert all[..k] == marked[..k]; } else { assert all[..k] == marked; }
      EdgeKept(a, n, m, row, s, r, p, all, minimum, d, all[k], all[..k]);
    }
  }

  /** Unmarked columns keep their nearest marked row, at a slack smaller by d. */
  lemma NearestShifted(a: Matrix, n: nat, m: nat, row: nat, s: Search, r: Search, p: seq<nat>, all: seq<nat>,
                       scan: Scanned, d: int, c: nat)
    requires Rectangular(a, n, m) && Entries(p, n, m) && Sized(s, n, m) && Sized(r, n, m)
    requires |scan.minimum| == m + 1 && |scan.way| == m + 1 && all != [] && 1 <= c <= m && c !in all
    requires Shifted(n, m, s, r, p, all, scan.minimum, d) && Holds(p, m, row, 0, m + 1)
    requires Nearest(a, n, m, s.u, s.v, scan.minimum, scan.way, p, all, c) && r.way == scan.way
    ensures Nearest(a, n, m, r.u, r.v, r.minimum, r.way, p, all, c)
    ensures scan.minimum[c].Finite? && r.minimum[c] == Finite(scan.minimum[c].value - d)
  {
    GapKept(a, n, m, s, r, p, all, scan.minimum, d, row, scan.way[c], c);
    forall e: nat | e in all && e <= m && p[e] >= 1 ensures r.minimum[c].value <= Gap(a, r.u, r.v, p[e], c) {
      GapKept(a, n, m, s, r, p, all, scan.minimum, d, row, e, c);
    }
  }

  lemma TurnReaches(a: Matrix, n: nat, m: nat, s: Search, p: seq<nat>, marked: seq<nat>)
    requires Rectangular(a, n, m) && Sized(s, n, m) && Entries(p, n, m)
    requires Reached(m, s, p, marked) && p[s.column] >= 1
    requires var next := AfterScan(a, n, m, s, p).next; next !in marked && next != s.column
    ensures Reached(m, Turn(a, n, m, s, p), p, marked + [s.column])
  {
    var all := marked + [s.column];
    assert marked != [] ==> all[0] == marked[0];
  }

  lemma TurnNearest(a: Matrix, n: nat, m: nat, row: nat, s: Search, p: seq<nat>, marked: seq<nat>, c: nat)
    requires Rectangular(a, n, m) && n <= m && Searching(a, n, m, row, s, p, marked) && p[s.column] >= 1
    requires 1 <= c <= m && c !in marked && c != s.column
    ensures var scan := AfterScan(a, n, m, s, p);
      && scan.delta.Finite?
      && Nearest(a, n, m, s.u, s.v, scan.minimum, scan.way, p, marked + [s.column], c)
      && scan.delta.value <= scan.minimum[c].value
  {
    ScanSucceeds(a, n, m, row, s, p, marked);
    NearestAfterScan(a, n, m, s, p, marked, c);
  }

  /** Only the first shift of a row can be negative: later ones are slacks of feasible rows. */
  lemma ShiftSign(a: Matrix, n: nat, m: nat, row: nat, s: Search, p: seq<nat>, marked: seq<nat>)
    requires Rectangular(a, n, m) && n <= m && Searching(a, n, m, row, s, p, marked) && p[s.column] >= 1
    requires marked != []
    ensures var delta := AfterScan(a, n, m, s, p).delta; delta.Finite? && delta.value >= 0
  {
    ScanSucceeds(a, n, m, row, s, p, marked);
    var scan := AfterScan(a, n, m, s, p);
    TurnNearest(a, n, m, row, s, p, marked, scan.next);
    assert Gap(a, s.u, s.v, p[scan.way[scan.next]], scan.next) >= 0;
  }

  lemma NearestIsEdge(a: Matrix, n: nat, m: nat, u: seq<int>, v: seq<int>, minimum: seq<Slack>, way: seq<nat>,
                      p: seq<nat>, marked: seq<nat>, c: nat)
    requires Rectangular(a, n, m) && |u| == n + 1 && |v| == m + 1 && |minimum| == m + 1 && |way| == m + 1
    requires Entries(p, n, m) && 1 <= c <= m && marked != []
    requires Nearest(a, n, m, u, v, minimum, way, p, marked, c) && minimum[c] == Finite(0)
    ensures Edge(a, n, m, u, v, way, p, c, marked)
  {
  }

  /** One turn marks a fresh column and keeps the search invariant. */
  lemma TurnKeeps(a: Matrix, n: nat, m: nat, row: nat, s: Search, p: seq<nat>, marked: seq<nat>)
    requires Rectangular(a, n, m) && n <= m && Searching(a, n, m, row, s, p, marked) && p[s.column] >= 1
    ensures Searching(a, n, m, row, Turn(a, n, m, s, p), p, marked + [s.column])
  {
    hide Feasible, Tight, Signs, Edges, Edge, Nearest, Shifted;
    var all, scan, r := marked + [s.column], AfterScan(a, n, m, s, p), Turn(a, n, m, s, p);
    ScanSucceeds(a, n, m, row, s, p, marked);
    var d := scan.delta.value;
    TurnShifts(a, n, m, row, s, p, marked);
    if marked != [] { ShiftSign(a, n, m, row, s, p, marked); }
    forall c: nat | 1 <= c <= m && c !in all
      ensures Nearest(a, n, m, s.u, s.v, scan.minimum, scan.way, p, all, c) && d <= scan.minimum[c].value
    {
      TurnNearest(a, n, m, row, s, p, marked, c);
    }
    TurnReaches(a, n, m, s, p, marked);
    TurnFeasible(a, n, m, row, s, r, p, marked, scan, d);
    TurnTight(a, n, m, row, s, r, p, marked, scan.minimum, d);
    ScanKeeps(a, n, m, Start(s), p, m);
    TurnEdges(a, n, m, row, s, r, p, marked, scan.minimum, d);
    forall c: nat | 1 <= c <= m && !r.used[c]
      ensures Nearest(a, n, m, r.u, r.v, r.minimum, r.way, p, all, c)
    {
      NearestShifted(a, n, m, row, s, r, p, all, scan, d, c);
    }
    NearestShifted(a, n, m, row, s, r, p, all, scan, d, scan.next);
    NearestIsEdge(a, n, m, r.u, r.v, r.minimum, r.way, p, all, scan.next);
  }

  /** The search ends at a free column, within one turn for each column. */
  lemma {:induction false} SearchSucceeds(a: Matrix, n: nat, m: nat, row: nat, s: Search, p: seq<nat>, marked: seq<nat>)
    returns (final: seq<nat>)
    requires Rectangular(a, n, m) && n <= m && Searching(a, n, m, row, s, p, marked) && p[s.column] >= 1
    ensures var r := SearchFrom(a, n, m, s, p);
      Searching(a, n, m, row, r, p, final) && final != [] && p[r.column] == 0 && |final| <= m + 1
    decreases Unmarked(s.used)
  {
    TurnKeeps(a, n, m, row, s, p, marked);
    var next := Turn(a, n, m, s, p);
    final := marked + [s.column];
    if p[next.column] != 0 {
      UnmarkedUpdate(s.used, s.column);
      final := SearchSucceeds(a, n, m, row, next, p, final);
    } else {
      Pigeonhole(final, m + 1);
    }
  }

  // ----- shifting rows back along way -----

  /** While rows are shifted back: column c is the hole, and way leads from it into the given prefix. */
  ghost predicate Walking(a: Matrix, n: nat, m: nat, row: nat, u: seq<int>, v: seq<int>, way: seq<nat>,
                          p: seq<nat>, c: nat, earlier: seq<nat>)
    requires Rectangular(a, n, m) && |u| == n + 1 && |v| == m + 1 && |way| == m + 1 && Entries(p, n, m)
  {
    && 1 <= c <= m && c !in earlier && earlier != [] && earlier[0] == 0 && Distinct(earlier)
    && Holds(p, m, row, 0, c)
    && (forall j: nat :: 1 <= j <= m && j != c && p[j] != 0 ==> Gap(a, u, v, p[j], j) == 0)
    && Edge(a, n, m, u, v, way, p, c, earlier) && Edges(a, n, m, u, v, way, p, earlier)
  }

  /** The hole moves to w, and every row is still held once. */
  lemma HoleMoves(p: seq<nat>, m: nat, row: nat, c: nat, w: nat)
    requires |p| == m + 1 && c <= m && w <= m && c != w && Holds(p, m, row, 0, c)
    ensures Holds(p[c := p[w]], m, row, 0, w)
  {
    var q := p[c := p[w]];
    forall r: nat | 1 <= r <= row ensures HeldBy(q, m, r, 0, w) {
      assert HeldBy(p, m, r, 0, c);
      var d: nat :| d <= m && d != c && p[d] == r;
      if d == w { assert q[c] == r; } else { assert q[d] == r; }
    }
  }

  /** The way of an earlier column does not lead through the hole. */
  lemma EdgesBeforeHole(a: Matrix, n: nat, m: nat, u: seq<int>, v: seq<int>, way: seq<nat>,
                        p: seq<nat>, q: seq<nat>, c: nat, earlier: seq<nat>, k: nat)
    requires Rectangular(a, n, m) && |u| == n + 1 && |v| == m + 1 && |way| == m + 1
    requires Entries(p, n, m) && Entries(q, n, m) && k < |earlier| && c !in earlier
    requires forall j: nat :: j <= m && j != c ==> q[j] == p[j]
    requires Edges(a, n, m, u, v, way, p, earlier)
    ensures Edges(a, n, m, u, v, way, q, earlier[..k])
    ensures k >= 1 ==> Edge(a, n, m, u, v, way, q, earlier[k], earlier[..k])
  {
    var prefix := earlier[..k];
    forall i | 1 <= i < k ensures Edge(a, n, m, u, v, way, q, prefix[i], prefix[..i]) {
      assert prefix[..i] == earlier[..i];
      assert Edge(a, n, m, u, v, way, p, earlier[i], earlier[..i]);
    }
    if k >= 1 { assert Edge(a, n, m, u, v, way, p, earlier[k], earlier[..k]); }
  }

  lemma WalkStep(a: Matrix, n: nat, m: nat, row: nat, u: seq<int>, v: seq<int>, way: seq<nat>,
                 p: seq<nat>, c: nat, earlier: seq<nat>) returns (shorter: seq<nat>)
    requires Rectangular(a, n, m) && |u| == n + 1 && |v| == m + 1 && |way| == m + 1 && Entries(p, n, m)
    requires Walking(a, n, m, row, u, v, way, p, c, earlier) && way[c] != 0
    ensures way[c] <= m && |shorter| < |earlier|
    ensures Walking(a, n, m, row, u, v, way, p[c := p[way[c]]], way[c], shorter)
  {
    var k :| 0 <= k < |earlier| && earlier[k] == way[c];
    shorter := earlier[..k];
    HoleMoves(p, m, row, c, way[c]);
    EdgesBeforeHole(a, n, m, u, v, way, p, p[c := p[way[c]]], c, earlier, k);
  }

  lemma WalkEnds(a: Matrix, n: nat, m: nat, row: nat, u: seq<int>, v: seq<int>, way: seq<nat>,
                 p: seq<nat>, c: nat, earlier: seq<nat>)
    requires Rectangular(a, n, m) && |u| == n + 1 && |v| == m + 1 && |way| == m + 1 && Entries(p, n, m)
    requires Walking(a, n, m, row, u, v, way, p, c, earlier) && way[c] == 0
    ensures var q := p[c := p[0]]; Holds(q, m, row, 1, 0) && Tight(a, n, m, u, v, q)
  {
    var q := p[c := p[0]];
    HoleMoves(p, m, row, c, 0);
    forall i: nat | 1 <= i <= row ensures HeldBy(q, m, i, 1, 0) {
      assert HeldBy(q, m, i, 0, 0);
    }
  }

  /** Walking back to column 0 takes at most one step for each marked column, and pairs the new row. */
  lemma {:induction false} WalkAugments(a: Matrix, n: nat, m: nat, row: nat, u: seq<int>, v: seq<int>, way: seq<nat>,
                                        p: seq<nat>, c: nat, earlier: seq<nat>, steps: nat)
    requires Rectangular(a, n, m) && |u| == n + 1 && |v| == m + 1 && |way| == m + 1 && Entries(p, n, m)
    requires forall k :: 0 <= k <= m ==> way[k] <= m
    requires Walking(a, n, m, row, u, v, way, p, c, earlier) && |earlier| <= steps
    ensures var r := Walk(n, m, p, way, c, steps); Holds(r, m, row, 1, 0) && Tight(a, n, m, u, v, r)
    decreases steps
  {
    hide Holds, Edges, Distinct, Tight;
    if way[c] == 0 {
      WalkEnds(a, n, m, row, u, v, way, p, c, earlier);
    } else {
      var shorter := WalkStep(a, n, m, row, u, v, way, p, c, earlier);
      WalkAugments(a, n, m, row, u, v, way, p[c := p[way[c]]], way[c], shorter, steps - 1);
    }
  }

  /** A column once paired stays paired. */
  lemma {:induction false} WalkKeepsPaired(a: Matrix, n: nat, m: nat, row: nat, u: seq<int>, v: seq<int>, way: seq<nat>,
                                           p: seq<nat>, c: nat, earlier: seq<nat>, steps: nat, j: nat)
    requires Rectangular(a, n, m) && |u| == n + 1 && |v| == m + 1 && |way| == m + 1 && Entries(p, n, m)
    requires forall k :: 0 <= k <= m ==> way[k] <= m
    requires Walking(a, n, m, row, u, v, way, p, c, earlier)
    requires 1 <= j <= m && p[j] != 0
    ensures Walk(n, m, p, way, c, steps)[j] != 0
    decreases steps
  {
    hide Holds, Edges, Distinct;
    if steps != 0 && way[c] != 0 {
      var shorter := WalkStep(a, n, m, row, u, v, way, p, c, earlier);
      WalkKeepsPaired(a, n, m, row, u, v, way, p[c := p[way[c]]], way[c], shorter, steps - 1, j);
    }
  }

  lemma SearchToWalk(a: Matrix, n: nat, m: nat, row: nat, s: Search, p: seq<nat>, marked: seq<nat>)
    requires Rectangular(a, n, m) && Searching(a, n, m, row, s, p, marked)
    requires marked != [] && p[s.column] == 0
    ensures Walking(a, n, m, row, s.u, s.v, s.way, p, s.column, marked) && |marked| <= m + 1
  {
    Pigeonhole(marked, m + 1);
    forall r: nat | 1 <= r <= row ensures HeldBy(p, m, r, 0, s.column) {
      assert HeldBy(p, m, r, 0, m + 1);
    }
  }

  lemma StartSearches(a: Matrix, n: nat, m: nat, t: Tables, row: nat)
    requires Rectangular(a, n, m) && 1 <= row <= n && Inserted(a, n, m, t, row - 1)
    ensures Searching(a, n, m, row, StartSearch(t, m), t.p[0 := row], [])
  {
    var p := t.p[0 := row];
    var none := m + 1;
    forall r: nat | 1 <= r <= row ensures HeldBy(p, m, r, 0, none) {
      if r < row {
        assert HeldBy(t.p, m, r, 1, 0);
        var c: nat :| 1 <= c <= m && t.p[c] == r;
        assert p[c] == r;
      } else {
        assert p[0] == r;
      }
    }
  }

  lemma {:induction false} WalkSigns(a: Matrix, n: nat, m: nat, row: nat, u: seq<int>, v: seq<int>, way: seq<nat>,
                  p: seq<nat>, c: nat, earlier: seq<nat>, steps: nat)
    requires Rectangular(a, n, m) && |u| == n + 1 && |v| == m + 1 && |way| == m + 1 && Entries(p, n, m)
    requires forall k :: 0 <= k <= m ==> way[k] <= m
    requires Walking(a, n, m, row, u, v, way, p, c, earlier) && Signs(m, v, p)
    ensures Signs(m, v, Walk(n, m, p, way, c, steps))
  {
    var q := Walk(n, m, p, way, c, steps);
    forall j: nat | 1 <= j <= m ensures v[j] <= 0 && (q[j] == 0 ==> v[j] == 0) {
      if p[j] != 0 { WalkKeepsPaired(a, n, m, row, u, v, way, p, c, earlier, steps, j); }
    }
  }

  lemma {:induction false} WalkFinishes(a: Matrix, n: nat, m: nat, row: nat, u: seq<int>, v: seq<int>, way: seq<nat>,
                     p: seq<nat>, c: nat, earlier: seq<nat>)
    requires Rectangular(a, n, m) && |u| == n + 1 && |v| == m + 1 && |way| == m + 1 && Entries(p, n, m)
    requires forall k :: 0 <= k <= m ==> way[k] <= m
    requires Walking(a, n, m, row, u, v, way, p, c, earlier) && Signs(m, v, p) && |earlier| <= m + 1
    ensures var q := Walk(n, m, p, way, c, m + 1);
      Holds(q, m, row, 1, 0) && Tight(a, n, m, u, v, q) && Signs(m, v, q)
  {
    hide Walk, Walking, Holds, Tight, Signs;
    WalkAugments(a, n, m, row, u, v, way, p, c, earlier, m + 1);
    WalkSigns(a, n, m, row, u, v, way, p, c, earlier, m + 1);
  }

  /** Inserting a row keeps the earlier rows paired and pairs the new one. */
  lemma InsertRowKeeps(a: Matrix, n: nat, m: nat, t: Tables, row: nat)
    requires Rectangular(a, n, m) && n <= m && 1 <= row <= n && Inserted(a, n, m, t, row - 1)
    ensures Inserted(a, n, m, InsertRow(a, n, m, t, row), row)
  {
    StartSearches(a, n, m, t, row);
    var p := t.p[0 := row];
    var marked := SearchSucceeds(a, n, m, row, StartSearch(t, m), p, []);
    var s := SearchFrom(a, n, m, StartSearch(t, m), p);
    SearchToWalk(a, n, m, row, s, p, marked);
    WalkFinishes(a, n, m, row, s.u, s.v, s.way, p, s.column, marked);
  }

  lemma {:induction false} InsertKeeps(a: Matrix, n: nat, m: nat, rows: nat)
    requires Rectangular(a, n, m) && rows <= n <= m
    ensures Inserted(a, n, m, Insert(a, n, m, rows), rows)
  {
    if rows > 0 {
      InsertKeeps(a, n, m, rows - 1);
      InsertRowKeeps(a, n, m, Insert(a, n, m, rows - 1), rows);
    }
  }

  // ----- the pairing -----

  /** Pairs are listed in column order, each as p holds it. */
  lemma {:induction false} PairsAreHeld(p: seq<nat>, k: nat)
    requires k < |p|
    ensures forall x :: x in PairsTo(p, k) ==> x.1 < k && p[x.1 + 1] == x.0 + 1
    ensures forall i, j :: 0 <= i < j < |PairsTo(p, k)| ==> PairsTo(p, k)[i].1 < PairsTo(p, k)[j].1
  {
    if k > 0 { PairsAreHeld(p, k - 1); }
  }

  lemma {:induction false} HeldArePaired(p: seq<nat>, k: nat, c: nat)
    requires k < |p| && 1 <= c <= k && p[c] != 0
    ensures (p[c] - 1, c - 1) in PairsTo(p, k)
  {
    if c < k { HeldArePaired(p, k - 1, c); }
  }

  lemma {:induction false} PairsArePairing(p: seq<nat>, n: nat, m: nat)
    requires |p| == m + 1 && Holds(p, m, n, 1, 0)
    ensures IsPairing(PairsTo(p, m), n, m)
  {
    PairsAreHeld(p, m);
    var pairs := PairsTo(p, m);
    forall i | 0 <= i < |pairs| ensures pairs[i].0 < n && pairs[i].1 < m {
      assert pairs[i] in pairs;
    }
    forall i, j | 0 <= i < j < |pairs| ensures pairs[i].0 != pairs[j].0 && pairs[i].1 != pairs[j].1 {
      assert pairs[i] in pairs && pairs[j] in pairs;
    }
  }

  /** All n rows are paired: the left sides are distinct and none is missing. */
  lemma {:induction false} PairsCoverRows(p: seq<nat>, n: nat, m: nat)
    requires |p| == m + 1 && Holds(p, m, n, 1, 0) && IsPairing(PairsTo(p, m), n, m)
    ensures |PairsTo(p, m)| == n
  {
    var pairs := PairsTo(p, m);
    var lefts := Lefts(pairs);
    Pigeonhole(lefts, n);
    forall r: nat | r < n ensures r in lefts {
      assert HeldBy(p, m, r + 1, 1, 0);
      var c: nat :| 1 <= c <= m && p[c] == r + 1;
      HeldArePaired(p, m, c);
      InSides(pairs, (r, c - 1));
    }
    CoveringCount(lefts, n);
  }

  lemma {:induction false} HeldColumnPaired(p: seq<nat>, k: nat, c: nat)
    requires k < |p| && 1 <= c <= k && p[c] != 0
    ensures c - 1 in Rights(PairsTo(p, k))
  {
    HeldArePaired(p, k, c);
    InSides(PairsTo(p, k), (p[c] - 1, c - 1));
  }

  lemma InsertedFeasible(a: Matrix, n: nat, m: nat, u: seq<int>, v: seq<int>, p: seq<nat>)
    requires Rectangular(a, n, m) && |u| == n + 1 && |v| == m + 1 && |p| == m + 1
    requires Feasible(a, n, m, u, v, n) && Signs(m, v, p)
    ensures DualFeasible(a, n, m, u[1..], v[1..])
  {
    forall r, c | 0 <= r < n && 0 <= c < m ensures u[1..][r] + v[1..][c] <= CostOf(a)(r, c) {
      assert Gap(a, u, v, r + 1, c + 1) >= 0;
    }
  }

  lemma {:induction false} InsertedTight(a: Matrix, n: nat, m: nat, u: seq<int>, v: seq<int>, p: seq<nat>, k: nat)
    requires Rectangular(a, n, m) && |u| == n + 1 && |v| == m + 1 && Entries(p, n, m) && Tight(a, n, m, u, v, p)
    requires IsPairing(PairsTo(p, m), n, m) && k < |PairsTo(p, m)|
    ensures var x := PairsTo(p, m)[k]; u[1..][x.0] + v[1..][x.1] == CostOf(a)(x.0, x.1)
  {
    PairsAreHeld(p, m);
    var x := PairsTo(p, m)[k];
    assert x in PairsTo(p, m);
    assert Gap(a, u, v, p[x.1 + 1], x.1 + 1) == 0;
  }

  /** The potentials after the last row certify whatever pairing p then holds. */
  lemma {:induction false} InsertedCertifies(a: Matrix, n: nat, m: nat, t: Tables)
    requires Rectangular(a, n, m) && Inserted(a, n, m, t, n)
    requires IsPairing(PairsTo(t.p, m), n, m) && |PairsTo(t.p, m)| == n
    ensures Certifies(a, n, m, t.u[1..], t.v[1..], PairsTo(t.p, m))
  {
    var u, v, pairs := t.u[1..], t.v[1..], PairsTo(t.p, m);
    InsertedFeasible(a, n, m, t.u, t.v, t.p);
    forall k | 0 <= k < n ensures u[pairs[k].0] + v[pairs[k].1] == CostOf(a)(pairs[k].0, pairs[k].1) {
      InsertedTight(a, n, m, t.u, t.v, t.p, k);
    }
    forall c: nat | c < m && c !in Rights(pairs) ensures v[c] == 0 {
      if t.p[c + 1] != 0 {
        HeldColumnPaired(t.p, m, c + 1);
      }
    }
  }

  /** The final potentials certify the pairing, for every rectangular matrix with n <= m. */
  lemma {:induction false} AssignCertified(a: Matrix, n: nat, m: nat)
    requires Rectangular(a, n, m) && n <= m
    ensures var t := Insert(a, n, m, n); Certifies(a, n, m, t.u[1..], t.v[1..], Assign(a, n, m))
  {
    InsertKeeps(a, n, m, n);
    var t := Insert(a, n, m, n);
    PairsArePairing(t.p, n, m);
    PairsCoverRows(t.p, n, m);
    InsertedCertifies(a, n, m, t);
  }

  /** No pairing of all rows costs less than the one the algorithm returns. */
  lemma {:induction false} AssignOptimal(a: Matrix, n: nat, m: nat, other: seq<Pair>)
    requires Rectangular(a, n, m) && n <= m
    requires IsPairing(other, n, m) && |other| == n
    ensures IsPairing(Assign(a, n, m), n, m) && |Assign(a, n, m)| == n
    ensures Total(CostOf(a), Assign(a, n, m)) <= Total(CostOf(a), other)
  {
    AssignCertified(a, n, m);
    var t := Insert(a, n, m, n);
    CertifiedIsOptimal(a, n, m, t.u[1..], t.v[1..], Assign(a, n, m), other);
  }
}
