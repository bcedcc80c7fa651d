/**
  The same loops run in place on the arrays u, v, p, way, minimum and used.
 */
module HungarianInPlace {
  import opened Pairings
  import opened Hungarian
  import opened HungarianProof

  /** The values of the arrays of a search. */
  ghost function Lists(u: array<int>, v: array<int>, minimum: array<Slack>, way: array<nat>, used: array<bool>,
                       column: nat): Search
    reads u, v, minimum, way, used
  {
    Search(u[..], v[..], minimum[..], way[..], used[..], column)
  }

  ghost function TablesOf(u: array<int>, v: array<int>, p: array<nat>, way: array<nat>): Tables
    reads u, v, p, way
  {
    Tables(u[..], v[..], p[..], way[..])
  }

  method ScanColumns(a: Matrix, n: nat, m: nat, u: array<int>, v: array<int>, p: array<nat>,
                     way: array<nat>, minimum: array<Slack>, used: array<bool>, column: nat)
    returns (delta: Slack, next: nat)
    requires Rectangular(a, n, m) && Entries(p[..], n, m) && p != way
    requires Sized(Lists(u, v, minimum, way, used, column), n, m)
    requires p[..][column] >= 1
    modifies way, minimum
    ensures Scanned(minimum[..], way[..], delta, next)
         == ScanTo(a, n, m, Search(u[..], v[..], old(minimum[..]), old(way[..]), used[..], column), p[..], m)
  {
    ghost var s := Lists(u, v, minimum, way, used, column);
    var row := p[column];
    delta, next := Infinite, 0;
    for c := 1 to m + 1
      invariant u[..] == s.u && v[..] == s.v && used[..] == s.used && p[..] == old(p[..])
      invariant Scanned(minimum[..], way[..], delta, next) == ScanTo(a, n, m, s, old(p[..]), c - 1)
    {
      if used[c] { continue; }
      var current := Finite(a[row - 1][c - 1] - u[row] - v[c]);
      if Less(current, minimum[c]) {
        minimum[c] := current;
        way[c] := column;
      }
      if Less(minimum[c], delta) {
        delta, next := minimum[c], c;
      }
    }
  }

  method RelaxColumns(n: nat, m: nat, u: array<int>, v: array<int>, p: array<nat>,
                      minimum: array<Slack>, used: array<bool>, delta: Slack)
    requires Entries(p[..], n, m) && used.Length == m + 1 && u != v
    requires u.Length == n + 1 && v.Length == m + 1 && minimum.Length == m + 1 && delta.Finite?
    modifies u, v, minimum
    ensures Relaxed(u[..], v[..], minimum[..])
         == RelaxTo(n, m, Relaxed(old(u[..]), old(v[..]), old(minimum[..])), p[..], used[..], delta, m + 1)
  {
    ghost var start := Relaxed(u[..], v[..], minimum[..]);
    for c := 0 to m + 1
      invariant used[..] == old(used[..]) && p[..] == old(p[..])
      invariant Relaxed(u[..], v[..], minimum[..]) == RelaxTo(n, m, start, old(p[..]), old(used[..]), delta, c)
    {
      if used[c] {
        u[p[c]] := u[p[c]] + delta.value;
        v[c] := v[c] - delta.value;
      } else {
        minimum[c] := Minus(minimum[c], delta);
      }
    }
  }

  /** One step back: there is one to make, it is the first of Walk, and unless it is the last the walk goes on. */
  lemma WalkMoves(a: Matrix, n: nat, m: nat, row: nat, u: seq<int>, v: seq<int>, way: seq<nat>,
                  p: seq<nat>, c: nat, earlier: seq<nat>, steps: nat) returns (shorter: seq<nat>)
    requires Rectangular(a, n, m) && |u| == n + 1 && |v| == m + 1 && |way| == m + 1 && Entries(p, n, m)
    requires c <= m && forall k :: 0 <= k <= m ==> way[k] <= m
    requires Walking(a, n, m, row, u, v, way, p, c, earlier) && |earlier| <= steps
    ensures steps > 0 && Entries(p[c := p[way[c]]], n, m)
    ensures way[c] == 0 ==> Walk(n, m, p, way, c, steps) == p[c := p[0]]
    ensures way[c] != 0 ==>
      && Walking(a, n, m, row, u, v, way, p[c := p[way[c]]], way[c], shorter) && |shorter| <= steps - 1
      && Walk(n, m, p, way, c, steps) == Walk(n, m, p[c := p[way[c]]], way, way[c], steps - 1)
  {
    shorter := [];
    if way[c] != 0 { shorter := WalkStep(a, n, m, row, u, v, way, p, c, earlier); }
  }

  /** The loop that shifts rows back; the ghost arguments say why it reaches column 0. */
  method WalkBack(ghost a: Matrix, ghost n: nat, ghost m: nat, ghost row: nat, ghost u: seq<int>, ghost v: seq<int>,
                  p: array<nat>, way: array<nat>, start: nat, ghost marked: seq<nat>)
    requires Rectangular(a, n, m) && |u| == n + 1 && |v| == m + 1 && way.Length == m + 1 && p != way
    requires Entries(p[..], n, m) && (forall k :: 0 <= k <= m ==> way[..][k] <= m)
    requires Walking(a, n, m, row, u, v, way[..], p[..], start, marked) && |marked| <= m + 1
    modifies p
    ensures p[..] == Walk(n, m, old(p[..]), way[..], start, m + 1)
  {
    ghost var back, final := way[..], Walk(n, m, p[..], way[..], start, m + 1);
    ghost var held: seq<nat>, earlier: seq<nat>, steps: nat := p[..], marked, m + 1;
    var column: nat := start;
    assert column <= m;
    hide Walking, Walk, Rectangular;
    while true
      invariant way[..] == back && p[..] == held && Entries(held, n, m) && column <= m
      invariant Walking(a, n, m, row, u, v, back, held, column, earlier) && |earlier| <= steps
      invariant Walk(n, m, held, back, column, steps) == final
      decreases steps
    {
      earlier := WalkMoves(a, n, m, row, u, v, back, held, column, earlier, steps);
      held := held[column := held[back[column]]];
      var next := way[column];
      p[column] := p[next];
      column := next;
      steps := steps - 1;
      if column == 0 { break; }
    }
  }

  /** One turn of the search loop. */
  method TurnInPlace(a: Matrix, n: nat, m: nat, u: array<int>, v: array<int>, p: array<nat>,
                     way: array<nat>, minimum: array<Slack>, used: array<bool>, column: nat)
    returns (next: nat)
    requires Rectangular(a, n, m) && Entries(p[..], n, m) && p != way && u != v
    requires Sized(Lists(u, v, minimum, way, used, column), n, m) && p[..][column] >= 1
    requires AfterScan(a, n, m, Lists(u, v, minimum, way, used, column), p[..]).delta.Finite?
    modifies u, v, way, minimum, used
    ensures Lists(u, v, minimum, way, used, next)
         == Turn(a, n, m, old(Lists(u, v, minimum, way, used, column)), p[..])
  {
    used[column] := true;
    var delta, found := ScanColumns(a, n, m, u, v, p, way, minimum, used, column);
    RelaxColumns(n, m, u, v, p, minimum, used, delta);
    next := found;
  }

  /** What the search loop needs of one turn. */
  lemma {:induction false} TurnAdvances(a: Matrix, n: nat, m: nat, row: nat, s: Search, p: seq<nat>, marked: seq<nat>)
    requires Rectangular(a, n, m) && n <= m && Entries(p, n, m) && Sized(s, n, m)
    requires Searching(a, n, m, row, s, p, marked) && p[s.column] >= 1
    ensures AfterScan(a, n, m, s, p).delta.Finite? && !s.used[s.column]
    ensures Unmarked(Turn(a, n, m, s, p).used) < Unmarked(s.used)
    ensures Searching(a, n, m, row, Turn(a, n, m, s, p), p, marked + [s.column])
    ensures var next := Turn(a, n, m, s, p);
      SearchFrom(a, n, m, s, p) == if p[next.column] == 0 then next else SearchFrom(a, n, m, next, p)
  {
    TurnKeeps(a, n, m, row, s, p, marked);
    ScanSucceeds(a, n, m, row, s, p, marked);
    UnmarkedUpdate(s.used, s.column);
  }

  /** The search loop, started at column 0 with nothing marked. */
  method SearchInPlace(a: Matrix, n: nat, m: nat, ghost row: nat, u: array<int>, v: array<int>, p: array<nat>,
                       way: array<nat>, minimum: array<Slack>, used: array<bool>)
    returns (column: nat, ghost marked: seq<nat>)
    requires Rectangular(a, n, m) && n <= m && p != way && u != v
    requires Searching(a, n, m, row, Lists(u, v, minimum, way, used, 0), p[..], [])
    modifies u, v, way, minimum, used
    ensures var s := Lists(u, v, minimum, way, used, column);
      && Entries(p[..], n, m)
      && s == SearchFrom(a, n, m, old(Lists(u, v, minimum, way, used, 0)), p[..])
      && Searching(a, n, m, row, s, p[..], marked) && marked != [] && p[..][column] == 0
  {
    column, marked := 0, [];
    ghost var s, held := Lists(u, v, minimum, way, used, column), p[..];
    ghost var final := SearchFrom(a, n, m, s, held);
    while true
      invariant p[..] == held && Entries(held, n, m) && Sized(s, n, m)
      invariant s == Lists(u, v, minimum, way, used, column)
      invariant Searching(a, n, m, row, s, held, marked) && held[column] >= 1
      invariant SearchFrom(a, n, m, s, held) == final
      decreases Unmarked(s.used)
    {
      hide Searching, SearchFrom, Turn, AfterScan, Unmarked, Rectangular;
      TurnAdvances(a, n, m, row, s, held, marked);
      marked := marked + [column];
      column := TurnInPlace(a, n, m, u, v, p, way, minimum, used, column);
      s := Lists(u, v, minimum, way, used, column);
      if p[column] == 0 { break; }
    }
  }

  /** The body of the outer loop: search from column 0, then shift rows back. */
  method InsertRowInPlace(a: Matrix, n: nat, m: nat, row: nat, u: array<int>, v: array<int>, p: array<nat>, way: array<nat>)
    requires Rectangular(a, n, m) && n <= m && 1 <= row <= n && u != v && p != way
    requires Inserted(a, n, m, TablesOf(u, v, p, way), row - 1)
    modifies u, v, p, way
    ensures TablesOf(u, v, p, way)
         == InsertRow(a, n, m, old(TablesOf(u, v, p, way)), row)
  {
    hide Walking;
    ghost var t := TablesOf(u, v, p, way);
    StartSearches(a, n, m, t, row);
    p[0] := row;
    var minimum := new Slack[m + 1](_ => Infinite);
    var used := new bool[m + 1](_ => false);
    assert p[..] == t.p[0 := row];
    assert Lists(u, v, minimum, way, used, 0) == StartSearch(t, m);
    var column, marked := SearchInPlace(a, n, m, row, u, v, p, way, minimum, used);
    SearchToWalk(a, n, m, row, Lists(u, v, minimum, way, used, column), p[..], marked);
    WalkBack(a, n, m, row, u[..], v[..], p, way, column, marked);
  }

  method PairsInPlace(p: array<nat>) returns (pairs: seq<Pair>)
    requires p.Length >= 1
    ensures pairs == PairsTo(p[..], p.Length - 1)
  {
    pairs := [];
    for c := 1 to p.Length
      invariant pairs == PairsTo(p[..], c - 1)
    {
      if p[c] == 0 { continue; }
      pairs := pairs + [(p[c] - 1, c - 1)];
    }
  }

  method InsertRows(a: Matrix, n: nat, m: nat, u: array<int>, v: array<int>, p: array<nat>, way: array<nat>)
    requires Rectangular(a, n, m) && n <= m && u != v && p != way
    requires TablesOf(u, v, p, way) == Insert(a, n, m, 0)
    modifies u, v, p, way
    ensures TablesOf(u, v, p, way) == Insert(a, n, m, n)
  {
    hide Insert, InsertRow, Inserted, Rectangular;
    for row := 1 to n + 1
      invariant TablesOf(u, v, p, way) == Insert(a, n, m, row - 1)
    {
      InsertKeeps(a, n, m, row - 1);
      InsertNext(a, n, m, row);
      InsertRowInPlace(a, n, m, row, u, v, p, way);
    }
  }

  lemma InsertNext(a: Matrix, n: nat, m: nat, row: nat)
    requires Rectangular(a, n, m) && 1 <= row <= n
    ensures Insert(a, n, m, row) == InsertRow(a, n, m, Insert(a, n, m, row - 1), row)
  {
  }

  method FillTables(a: Matrix, n: nat, m: nat) returns (p: array<nat>)
    requires Rectangular(a, n, m) && n <= m
    ensures p[..] == Insert(a, n, m, n).p
  {
    var u := new int[n + 1](_ => 0);
    var v := new int[m + 1](_ => 0);
    p := new nat[m + 1](_ => 0);
    var way := new nat[m + 1](_ => 0);
    InsertRows(a, n, m, u, v, p, way);
  }

  /** The minimum-cost assignment of all rows; row and column numbers start at 0. */
  method AssignInPlace(a: Matrix, n: nat, m: nat) returns (pairs: seq<Pair>)
    requires Rectangular(a, n, m) && n <= m
    ensures pairs == Assign(a, n, m)
  {
    var p := FillTables(a, n, m);
    pairs := PairsInPlace(p);
  }
}
