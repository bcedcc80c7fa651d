/**
  The total weight of a list of pairs does not depend on their order.
 */
module Totals {
  import opened Pairings
  import opened Sorting

  function ByPosition(x: Pair, y: Pair): bool {
    x.0 < y.0 || (x.0 == y.0 && x.1 <= y.1)
  }

  lemma {:induction false} TotalConcat(w: (nat, nat) -> int, a: seq<Pair>, b: seq<Pair>)
    ensures Total(w, a + b) == Total(w, a) + Total(w, b)
  {
    if b == [] {
      assert a + b == a;
    } else {
      TotalConcat(w, a, b[..|b| - 1]);
      assert (a + b)[..|a + b| - 1] == a + b[..|b| - 1];
    }
  }

  lemma TotalOne(w: (nat, nat) -> int, x: Pair)
    ensures Total(w, [x]) == w(x.0, x.1)
  {
    assert [x][..0] == [];
  }

  lemma {:induction false} TotalInsert(w: (nat, nat) -> int, le: (Pair, Pair) -> bool, x: Pair, s: seq<Pair>)
    ensures Total(w, Insert(le, x, s)) == Total(w, s) + w(x.0, x.1)
  {
    TotalOne(w, x);
    if s != [] {
      TotalConcat(w, [x], s);
      TotalConcat(w, [s[0]], s[1..]);
      assert s == [s[0]] + s[1..];
      TotalInsert(w, le, x, s[1..]);
      TotalConcat(w, [s[0]], Insert(le, x, s[1..]));
    }
  }

  lemma {:induction false} TotalSort(w: (nat, nat) -> int, le: (Pair, Pair) -> bool, s: seq<Pair>)
    ensures Total(w, Sort(le, s)) == Total(w, s)
  {
    if s != [] {
      TotalSort(w, le, s[1..]);
      TotalInsert(w, le, s[0], Sort(le, s[1..]));
      TotalOne(w, s[0]);
      TotalConcat(w, [s[0]], s[1..]);
      assert s == [s[0]] + s[1..];
    }
  }

  lemma {:induction false} TotalPermuted(w: (nat, nat) -> int, s: seq<Pair>, t: seq<Pair>)
    requires multiset(s) == multiset(t)
    ensures Total(w, s) == Total(w, t)
  {
    assert TotalOrder(ByPosition);
    SortCanonical(ByPosition, s, t);
    TotalSort(w, ByPosition, s);
    TotalSort(w, ByPosition, t);
  }

  lemma {:induction false} TotalMatches(f: (nat, nat) -> int, g: (nat, nat) -> int, pairs: seq<Pair>, other: seq<Pair>)
    requires |pairs| == |other|
    requires forall k :: 0 <= k < |pairs| ==> f(pairs[k].0, pairs[k].1) == g(other[k].0, other[k].1)
    ensures Total(f, pairs) == Total(g, other)
  {
    if pairs != [] { TotalMatches(f, g, pairs[..|pairs| - 1], other[..|other| - 1]); }
  }
}
