/**
  The rectangular Hungarian algorithm shared by the operation evaluator and the external
  benchmark.  Rows 1..n and columns 1..m are numbered as in the source: p[j] is the row held
  by column j (0 for none), way[j] the column from which j was reached, column 0 a virtual
  column that holds the row being inserted.

  The first half gives the algorithm as functions on the values of its lists, one function
  for each loop.  HungarianInPlace runs the same loops in place and is proved equal to them.
 */
module Hungarian {
  import opened Pairings

  /** Entries of the slack list: float("inf") until a column has been looked at. */
  datatype Slack = Infinite | Finite(value: int)

  predicate Less(x: Slack, y: Slack) {
    x.Finite? && (y.Infinite? || x.value < y.value)
  }

  function Minus(x: Slack, y: Slack): Slack {
    if x.Finite? && y.Finite? then Finite(x.value - y.value) else x
  }

  /** The lists of one search; p does not change while a search runs. */
  datatype Search = Search(u: seq<int>, v: seq<int>, minimum: seq<Slack>, way: seq<nat>, used: seq<bool>, column: nat)

  datatype Scanned = Scanned(minimum: seq<Slack>, way: seq<nat>, delta: Slack, next: nat)

  datatype Relaxed = Relaxed(u: seq<int>, v: seq<int>, minimum: seq<Slack>)

  datatype Tables = Tables(u: seq<int>, v: seq<int>, p: seq<nat>, way: seq<nat>)

  ghost predicate Entries(p: seq<nat>, n: nat, m: nat) {
    |p| == m + 1 && forall c :: 0 <= c <= m ==> p[c] <= n
  }

  ghost predicate Sized(s: Search, n: nat, m: nat) {
    && |s.u| == n + 1 && |s.v| == m + 1 && |s.minimum| == m + 1
    && |s.way| == m + 1 && |s.used| == m + 1 && s.column <= m
    && forall c :: 0 <= c <= m ==> s.way[c] <= m
  }

  function Gap(a: Matrix, u: seq<int>, v: seq<int>, r: nat, c: nat): int
    requires 1 <= r <= |a| && 1 <= c && |a[r - 1]| == |v| - 1 && c < |v| && r < |u|
  {
    a[r - 1][c - 1] - u[r] - v[c]
  }

  /** Columns 1..k have been compared with the row held by s.column. */
  function ScanTo(a: Matrix, n: nat, m: nat, s: Search, p: seq<nat>, k: nat): (r: Scanned)
    requires Rectangular(a, n, m) && Entries(p, n, m) && Sized(s, n, m)
    requires p[s.column] >= 1 && k <= m
    ensures |r.minimum| == m + 1 && |r.way| == m + 1 && r.next <= m
    ensures forall c :: 0 <= c <= m ==> r.way[c] <= m
  {
    if k == 0 then Scanned(s.minimum, s.way, Infinite, 0)
    else
      var before := ScanTo(a, n, m, s, p, k - 1);
      if s.used[k] then before
      else
        var current := Finite(Gap(a, s.u, s.v, p[s.column], k));
        var closer := Less(current, before.minimum[k]);
        var minimum := if closer then before.minimum[k := current] else before.minimum;
        var way := if closer then before.way[k := s.column] else before.way;
        if Less(minimum[k], before.delta) then Scanned(minimum, way, minimum[k], k)
        else Scanned(minimum, way, before.delta, before.next)
  }

  /** Columns 0..k-1 have been shifted by delta. */
  function RelaxTo(n: nat, m: nat, start: Relaxed, p: seq<nat>, used: seq<bool>, delta: Slack, k: nat): (r: Relaxed)
    requires Entries(p, n, m) && |used| == m + 1 && k <= m + 1
    requires |start.u| == n + 1 && |start.v| == m + 1 && |start.minimum| == m + 1
    ensures |r.u| == n + 1 && |r.v| == m + 1 && |r.minimum| == m + 1
  {
    if k == 0 then start
    else
      var before := RelaxTo(n, m, start, p, used, delta, k - 1);
      var c := k - 1;
      if !used[c] then before.(minimum := before.minimum[c := Minus(before.minimum[c], delta)])
      else
        var d := if delta.Finite? then delta.value else 0;
        before.(u := before.u[p[c] := before.u[p[c]] + d], v := before.v[c := before.v[c] - d])
  }

  /** One turn of the search loop. */
  function Turn(a: Matrix, n: nat, m: nat, s: Search, p: seq<nat>): (r: Search)
    requires Rectangular(a, n, m) && Entries(p, n, m) && Sized(s, n, m) && p[s.column] >= 1
    ensures Sized(r, n, m) && r.used == s.used[s.column := true]
  {
    var marked := s.(used := s.used[s.column := true]);
    var scan := ScanTo(a, n, m, marked, p, m);
    var shifted := RelaxTo(n, m, Relaxed(s.u, s.v, scan.minimum), p, marked.used, scan.delta, m + 1);
    Search(shifted.u, shifted.v, shifted.minimum, scan.way, marked.used, scan.next)
  }

  function Unmarked(used: seq<bool>): nat {
    if used == [] then 0
    else Unmarked(used[..|used| - 1]) + if used[|used| - 1] then 0 else 1
  }

  lemma {:induction false} UnmarkedUpdate(used: seq<bool>, c: nat)
    requires c < |used| && !used[c]
    ensures Unmarked(used[c := true]) == Unmarked(used) - 1
  {
    var last := |used| - 1;
    if c == last {
      assert used[c := true][..last] == used[..last];
    } else {
      UnmarkedUpdate(used[..last], c);
      assert used[c := true][..last] == used[..last][c := true];
    }
  }

  /** The search loop, from the turn that marks s.column until a free column is reached. */
  function SearchFrom(a: Matrix, n: nat, m: nat, s: Search, p: seq<nat>): (r: Search)
    requires Rectangular(a, n, m) && Entries(p, n, m) && Sized(s, n, m) && p[s.column] >= 1
    ensures Sized(r, n, m)
    decreases Unmarked(s.used)
  {
    var next := Turn(a, n, m, s, p);
    if s.used[s.column] || p[next.column] == 0 then next
    else
      UnmarkedUpdate(s.used, s.column);
      SearchFrom(a, n, m, next, p)
  }

  /** At most the given number of steps of the loop that shifts rows back along way. */
  function Walk(n: nat, m: nat, p: seq<nat>, way: seq<nat>, c: nat, steps: nat): (r: seq<nat>)
    requires Entries(p, n, m) && |way| == m + 1 && c <= m && forall k :: 0 <= k <= m ==> way[k] <= m
    ensures Entries(r, n, m)
    decreases steps
  {
    if steps == 0 then p
    else
      var shifted := p[c := p[way[c]]];
      if way[c] == 0 then shifted else Walk(n, m, shifted, way, way[c], steps - 1)
  }

  ghost predicate TablesSized(t: Tables, n: nat, m: nat) {
    && |t.u| == n + 1 && |t.v| == m + 1 && |t.way| == m + 1 && Entries(t.p, n, m)
    && forall c :: 0 <= c <= m ==> t.way[c] <= m
  }

  function StartSearch(t: Tables, m: nat): Search {
    Search(t.u, t.v, seq(m + 1, _ => Infinite), t.way, seq(m + 1, _ => false), 0)
  }

  function InsertRow(a: Matrix, n: nat, m: nat, t: Tables, row: nat): (r: Tables)
    requires Rectangular(a, n, m) && TablesSized(t, n, m) && 1 <= row <= n
    ensures TablesSized(r, n, m)
  {
    var p := t.p[0 := row];
    var s := SearchFrom(a, n, m, StartSearch(t, m), p);
    Tables(s.u, s.v, Walk(n, m, p, s.way, s.column, m + 1), s.way)
  }

  function Insert(a: Matrix, n: nat, m: nat, rows: nat): (r: Tables)
    requires Rectangular(a, n, m) && rows <= n
    ensures TablesSized(r, n, m)
  {
    if rows == 0 then
      Tables(seq(n + 1, _ => 0), seq(m + 1, _ => 0), seq(m + 1, _ => 0), seq(m + 1, _ => 0))
    else InsertRow(a, n, m, Insert(a, n, m, rows - 1), rows)
  }

  /** Rows and columns paired by the final p, in column order, numbered from 0. */
  function PairsTo(p: seq<nat>, k: nat): (r: seq<Pair>)
    requires k < |p|
  {
    if k == 0 then []
    else if p[k] == 0 then PairsTo(p, k - 1)
    else PairsTo(p, k - 1) + [(p[k] - 1, k - 1)]
  }

  function Assign(a: Matrix, n: nat, m: nat): (r: seq<Pair>)
    requires Rectangular(a, n, m)
  {
    PairsTo(Insert(a, n, m, n).p, m)
  }
}
