/**
  The algorithm followed by hand on two rows and three columns whose first column is cheapest for
  both rows.  It decides the ties that depend on the order of the lists.
 */
module TwoRows {
  import opened Pairings
  import opened Hungarian

  /** Column 1 is a cheapest one for both rows. */
  ghost predicate FirstIsCheapest(a: Matrix) {
    && Rectangular(a, 2, 3)
    && forall r, c :: 0 <= r < 2 && 0 <= c < 3 ==> a[r][0] <= a[r][c]
  }

  /** Column 2 is the next best for one of the rows. */
  ghost predicate SecondIsNext(a: Matrix)
    requires Rectangular(a, 2, 3)
  {
    && (a[1][1] - a[1][0] <= a[1][2] - a[1][0] || a[0][1] - a[0][0] <= a[1][2] - a[1][0])
    && (a[1][1] - a[1][0] <= a[0][2] - a[0][0] || a[0][1] - a[0][0] <= a[0][2] - a[0][0])
  }

  const NO_TABLES := Tables([0, 0, 0], [0, 0, 0, 0], [0, 0, 0, 0], [0, 0, 0, 0])

  /** A scan from column 0 over columns not looked at before: the first one is nearest. */
  lemma ScanFromStart(a: Matrix, t: Tables, p: seq<nat>, row: nat)
    requires FirstIsCheapest(a) && TablesSized(t, 2, 3) && t.way == [0, 0, 0, 0]
    requires Entries(p, 2, 3) && p[0] == row && 1 <= row <= 2 && t.u[row] == 0 && t.v[1..] == [0, 0, 0]
    ensures var s := StartSearch(t, 3);
      var x := a[row - 1];
      ScanTo(a, 2, 3, s.(used := s.used[0 := true]), p, 3)
        == Scanned([Infinite, Finite(x[0]), Finite(x[1]), Finite(x[2])], [0, 0, 0, 0], Finite(x[0]), 1)
  {
    var x, s := a[row - 1], StartSearch(t, 3);
    var marked := s.(used := s.used[0 := true]);
    assert marked.used == [true, false, false, false] && t.v[1..][0] == 0 && t.v[1..][1] == 0 && t.v[1..][2] == 0;
    assert ScanTo(a, 2, 3, marked, p, 0) == Scanned([Infinite, Infinite, Infinite, Infinite], [0, 0, 0, 0], Infinite, 0);
    assert Gap(a, s.u, s.v, row, 1) == x[0] && Gap(a, s.u, s.v, row, 2) == x[1] && Gap(a, s.u, s.v, row, 3) == x[2];
    assert ScanTo(a, 2, 3, marked, p, 1)
        == Scanned([Infinite, Finite(x[0]), Infinite, Infinite], [0, 0, 0, 0], Finite(x[0]), 1);
    assert ScanTo(a, 2, 3, marked, p, 2)
        == Scanned([Infinite, Finite(x[0]), Finite(x[1]), Infinite], [0, 0, 0, 0], Finite(x[0]), 1);
  }

  /** The shift after that scan touches the row being inserted and column 0 only. */
  lemma {:induction false} ShiftFromStart(t: Tables, p: seq<nat>, row: nat, minimum: seq<Slack>, used: seq<bool>, d: int)
    requires TablesSized(t, 2, 3) && Entries(p, 2, 3) && p[0] == row && |minimum| == 4 && minimum[0].Infinite?
    requires used == [true, false, false, false]
    ensures RelaxTo(2, 3, Relaxed(t.u, t.v, minimum), p, used, Finite(d), 4)
         == Relaxed(t.u[row := t.u[row] + d], t.v[0 := t.v[0] - d],
                    [Infinite, Minus(minimum[1], Finite(d)), Minus(minimum[2], Finite(d)), Minus(minimum[3], Finite(d))])
  {
    var start := Relaxed(t.u, t.v, minimum);
    var u, v := t.u[row := t.u[row] + d], t.v[0 := t.v[0] - d];
    hide Minus;
    assert RelaxTo(2, 3, start, p, used, Finite(d), 0) == start;
    assert RelaxTo(2, 3, start, p, used, Finite(d), 1) == Relaxed(u, v, minimum);
    var m1 := minimum[1 := Minus(minimum[1], Finite(d))];
    assert RelaxTo(2, 3, start, p, used, Finite(d), 2) == Relaxed(u, v, m1);
    var m2 := m1[2 := Minus(minimum[2], Finite(d))];
    assert RelaxTo(2, 3, start, p, used, Finite(d), 3) == Relaxed(u, v, m2);
    var m3 := m2[3 := Minus(minimum[3], Finite(d))];
    assert RelaxTo(2, 3, start, p, used, Finite(d), 4) == Relaxed(u, v, m3);
  }

  lemma FirstTurn(a: Matrix, t: Tables, p: seq<nat>, row: nat)
    requires FirstIsCheapest(a) && TablesSized(t, 2, 3) && t.way == [0, 0, 0, 0]
    requires Entries(p, 2, 3) && p[0] == row && 1 <= row <= 2 && t.u[row] == 0 && t.v[1..] == [0, 0, 0]
    ensures var x := a[row - 1];
      Turn(a, 2, 3, StartSearch(t, 3), p)
        == Search(t.u[row := x[0]], t.v[0 := t.v[0] - x[0]], [Infinite, Finite(0), Finite(x[1] - x[0]), Finite(x[2] - x[0])],
                  [0, 0, 0, 0], [true, false, false, false], 1)
  {
    var x, s := a[row - 1], StartSearch(t, 3);
    ScanFromStart(a, t, p, row);
    ShiftFromStart(t, p, row, [Infinite, Finite(x[0]), Finite(x[1]), Finite(x[2])], [true, false, false, false], x[0]);
    assert s.used[0 := true] == [true, false, false, false];
  }

  /** The first row takes column 1. */
  lemma {:induction false} FirstRow(a: Matrix)
    requires FirstIsCheapest(a)
    ensures Insert(a, 2, 3, 1) == Tables([0, a[0][0], 0], [-a[0][0], 0, 0, 0], [1, 1, 0, 0], [0, 0, 0, 0])
  {
    var p := [1, 0, 0, 0];
    assert Insert(a, 2, 3, 0) == NO_TABLES;
    assert NO_TABLES.p[0 := 1] == p;
    hide Turn;
    FirstTurn(a, NO_TABLES, p, 1);
    var s := SearchFrom(a, 2, 3, StartSearch(NO_TABLES, 3), p);
    assert s == Turn(a, 2, 3, StartSearch(NO_TABLES, 3), p);
    assert Walk(2, 3, p, s.way, 1, 4) == [1, 1, 0, 0];
    assert Insert(a, 2, 3, 1) == InsertRow(a, 2, 3, Insert(a, 2, 3, 0), 1);
  }

  /** The second row's search, which comes by column 1 and the first row. */
  lemma SecondTurn(a: Matrix, s: Search, p: seq<nat>)
    requires FirstIsCheapest(a) && p == [2, 1, 0, 0]
    requires s.u == [0, a[0][0], a[1][0]] && |s.v| == 4 && s.v[1..] == [0, 0, 0]
    requires s.minimum == [Infinite, Finite(0), Finite(a[1][1] - a[1][0]), Finite(a[1][2] - a[1][0])]
    requires s.way == [0, 0, 0, 0] && s.used == [true, false, false, false] && s.column == 1
    requires SecondIsNext(a)
    ensures var r := Turn(a, 2, 3, s, p);
      r.column == 2 && r.way[1] == 0 && r.way[2] == if a[0][1] - a[0][0] < a[1][1] - a[1][0] then 1 else 0
  {
    var marked := s.(used := s.used[1 := true]);
    assert marked.used == [true, true, false, false] && s.v[1..][1] == 0 && s.v[1..][2] == 0;
    var start := Scanned(s.minimum, s.way, Infinite, 0);
    assert ScanTo(a, 2, 3, marked, p, 0) == start;
    assert ScanTo(a, 2, 3, marked, p, 1) == start;
    var h, k := a[0][1] - a[0][0], a[0][2] - a[0][0];
    assert Gap(a, s.u, s.v, 1, 2) == h && Gap(a, s.u, s.v, 1, 3) == k;
    var second := ScanTo(a, 2, 3, marked, p, 2);
    assert second.next == 2 && second.way[1] == 0 && second.minimum[3] == s.minimum[3];
    assert second.way[2] == if h < a[1][1] - a[1][0] then 1 else 0;
    assert ScanTo(a, 2, 3, marked, p, 3).next == 2;
  }

  lemma {:induction false} SecondSearch(a: Matrix, t: Tables, p: seq<nat>)
    requires FirstIsCheapest(a) && SecondIsNext(a) && p == [2, 1, 0, 0]
    requires t == Tables([0, a[0][0], 0], [-a[0][0], 0, 0, 0], [1, 1, 0, 0], [0, 0, 0, 0])
    ensures var r := SearchFrom(a, 2, 3, StartSearch(t, 3), p);
      r.column == 2 && r.way[1] == 0 && r.way[2] == if a[0][1] - a[0][0] < a[1][1] - a[1][0] then 1 else 0
  {
    assert t.v[1..] == [0, 0, 0];
    hide Turn;
    var s := Turn(a, 2, 3, StartSearch(t, 3), p);
    FirstTurn(a, t, p, 2);
    assert s.v[1..] == [0, 0, 0] && s.u == [0, a[0][0], a[1][0]];
    SecondTurn(a, s, p);
    assert SearchFrom(a, 2, 3, s, p) == Turn(a, 2, 3, s, p);
  }

  /** The second row goes to column 2, or takes column 1 from the first row, whatever costs less; ties keep the first row. */
  lemma TwoRowsAssigned(a: Matrix)
    requires FirstIsCheapest(a) && SecondIsNext(a)
    ensures Assign(a, 2, 3) == if a[0][1] - a[0][0] < a[1][1] - a[1][0] then [(1, 0), (0, 1)] else [(0, 0), (1, 1)]
  {
    var t, p := Insert(a, 2, 3, 1), [2, 1, 0, 0];
    FirstRow(a);
    assert t.p[0 := 2] == p;
    hide SearchFrom;
    SecondSearch(a, t, p);
    SecondWalk(p, SearchFrom(a, 2, 3, StartSearch(t, 3), p).way);
    assert Insert(a, 2, 3, 2) == InsertRow(a, 2, 3, t, 2);
  }

  lemma {:induction false} SecondWalk(p: seq<nat>, way: seq<nat>)
    requires p == [2, 1, 0, 0] && |way| == 4 && way[0] <= 3 && way[1] == 0 && way[2] <= 1 && way[3] <= 3
    ensures var q := Walk(2, 3, p, way, 2, 4);
      |q| == 4 && PairsTo(q, 3) == if way[2] == 1 then [(1, 0), (0, 1)] else [(0, 0), (1, 1)]
  {
    var q := Walk(2, 3, p, way, 2, 4);
    if way[2] == 1 {
      assert Walk(2, 3, [2, 1, 1, 0], way, 1, 3) == [2, 2, 1, 0];
      assert q == [2, 2, 1, 0];
    } else {
      assert q == [2, 1, 2, 0];
    }
    assert PairsTo(q, 0) == [];
    assert PairsTo(q, 1) == [(q[1] - 1, 0)];
    assert PairsTo(q, 2) == [(q[1] - 1, 0), (q[2] - 1, 1)];
  }
}
