/**
  Lists with the same entries in another order, and pairings carried from one to the other.
 */
module Rearranging {
  import opened Pairings

  lemma MultisetWithout<T>(t: seq<T>, j: nat)
    requires j < |t|
    ensures multiset(t[..j] + t[j + 1..]) == multiset(t) - multiset{t[j]}
  {
    assert t == t[..j] + [t[j]] + t[j + 1..];
    assert multiset(t) == multiset(t[..j] + t[j + 1..]) + multiset{t[j]};
  }

  /** Positions in a list without its entry j, as positions in the list itself, followed by j. */
  function Spread(g: seq<nat>, j: nat): (f: seq<nat>)
    ensures |f| == |g| + 1 && f[|g|] == j
    ensures forall i :: 0 <= i < |g| ==> f[i] == if g[i] < j then g[i] else g[i] + 1
  {
    seq(|g|, i requires 0 <= i < |g| => if g[i] < j then g[i] else g[i] + 1) + [j]
  }

  /** f[i] is where the entry i of s stands in t. */
  ghost predicate Rearranges<T>(f: seq<nat>, s: seq<T>, t: seq<T>) {
    && |f| == |s| == |t| && Distinct(f) && Below(f, |t|)
    && forall i :: 0 <= i < |s| ==> s[i] == t[f[i]]
  }

  lemma SpreadRearranges<T>(g: seq<nat>, s: seq<T>, x: T, t: seq<T>, j: nat)
    requires j < |t| && t[j] == x && Rearranges(g, s, t[..j] + t[j + 1..])
    ensures Rearranges(Spread(g, j), s + [x], t)
  {
    var others, f := t[..j] + t[j + 1..], Spread(g, j);
    forall i | 0 <= i < |s| ensures s[i] == t[f[i]] {
      assert s[i] == others[g[i]];
    }
  }

  lemma {:induction false} Rearranged<T>(s: seq<T>, t: seq<T>) returns (f: seq<nat>)
    requires multiset(s) == multiset(t)
    ensures Rearranges(f, s, t)
    decreases |s|
  {
    assert |multiset(s)| == |multiset(t)|;
    if s == [] {
      f := [];
    } else {
      var last := |s| - 1;
      assert s[last] in multiset(t);
      var j: nat :| j < |t| && t[j] == s[last];
      MultisetWithout(s, last);
      assert s[..last] + s[last + 1..] == s[..last];
      MultisetWithout(t, j);
      var g := Rearranged(s[..last], t[..j] + t[j + 1..]);
      SpreadRearranges(g, s[..last], s[last], t, j);
      SplitLast(s);
      f := Spread(g, j);
    }
  }

  /** The pairing moved to rearranged lists. */
  function Moved(pairs: seq<Pair>, f: seq<nat>, g: seq<nat>): (r: seq<Pair>)
    requires forall k :: 0 <= k < |pairs| ==> pairs[k].0 < |f| && pairs[k].1 < |g|
    ensures |r| == |pairs| && forall k :: 0 <= k < |r| ==> r[k] == (f[pairs[k].0], g[pairs[k].1])
  {
    seq(|pairs|, k requires 0 <= k < |pairs| => (f[pairs[k].0], g[pairs[k].1]))
  }

  lemma {:induction false} MovedTotal(w: (nat, nat) -> int, w': (nat, nat) -> int, f: seq<nat>, g: seq<nat>, pairs: seq<Pair>)
    requires forall k :: 0 <= k < |pairs| ==> pairs[k].0 < |f| && pairs[k].1 < |g|
    requires forall k :: 0 <= k < |pairs| ==> w'(f[pairs[k].0], g[pairs[k].1]) == w(pairs[k].0, pairs[k].1)
    ensures Total(w', Moved(pairs, f, g)) == Total(w, pairs)
  {
    if pairs != [] {
      var before := pairs[..|pairs| - 1];
      MovedTotal(w, w', f, g, before);
      assert Moved(pairs, f, g)[..|pairs| - 1] == Moved(before, f, g);
    }
  }

  lemma MovedIsPairing(f: seq<nat>, g: seq<nat>, n: nat, m: nat, pairs: seq<Pair>)
    requires IsPairing(pairs, |f|, |g|) && Distinct(f) && Distinct(g) && Below(f, n) && Below(g, m)
    ensures IsPairing(Moved(pairs, f, g), n, m)
  {
    var moved := Moved(pairs, f, g);
    forall i, j | 0 <= i < j < |moved| ensures moved[i].0 != moved[j].0 && moved[i].1 != moved[j].1 {
      assert pairs[i].0 != pairs[j].0 && pairs[i].1 != pairs[j].1;
    }
  }

  /** Where the number i stands in a permutation. */
  ghost function IndexOf(f: seq<nat>, i: nat): (k: nat)
    requires i in f
    ensures k < |f| && f[k] == i
  {
    var k: nat :| k < |f| && f[k] == i;
    k
  }

  /** A permutation of 0..n-1 and its inverse. */
  lemma Inverse(f: seq<nat>) returns (g: seq<nat>)
    requires Distinct(f) && Below(f, |f|)
    ensures |g| == |f| && Distinct(g) && Below(g, |f|)
    ensures forall i :: 0 <= i < |f| ==> f[g[i]] == i
  {
    Pigeonhole(f, |f|);
    g := seq(|f|, i requires 0 <= i < |f| => IndexOf(f, i));
  }

  lemma {:induction false} SumIsPickSum(s: seq<int>, t: seq<int>, f: seq<nat>)
    requires |f| == |s| && Below(f, |t|) && forall i :: 0 <= i < |s| ==> s[i] == t[f[i]]
    ensures Sum(s) == PickSum(t, f)
  {
    if s != [] { SumIsPickSum(s[..|s| - 1], t, f[..|f| - 1]); }
  }

  lemma {:induction false} SumRearranged(s: seq<int>, t: seq<int>, f: seq<nat>)
    requires Rearranges(f, s, t)
    ensures Sum(s) == Sum(t)
  {
    Pigeonhole(f, |t|);
    SumIsPickSum(s, t, f);
    PickSumAll(t, f);
  }

  lemma PairingReordered(pairs: seq<Pair>, other: seq<Pair>, n: nat, m: nat)
    requires IsPairing(pairs, n, m) && multiset(pairs) == multiset(other)
    ensures IsPairing(other, n, m) && |other| == |pairs|
  {
    var f := Rearranged(other, pairs);
    forall i, j | 0 <= i < j < |other| ensures other[i].0 != other[j].0 && other[i].1 != other[j].1 {
      assert f[i] != f[j];
    }
  }

  lemma InverseRearranges<T>(f: seq<nat>, s: seq<T>, t: seq<T>) returns (g: seq<nat>)
    requires Rearranges(f, s, t)
    ensures Rearranges(g, t, s)
  {
    g := Inverse(f);
  }

  // ----- a permutation of positions keeps the entries -----

  /** The entries of s at the given positions. */
  function At<T>(s: seq<T>, positions: seq<nat>): (r: seq<T>)
    requires Below(positions, |s|)
    ensures |r| == |positions| && forall k :: 0 <= k < |r| ==> r[k] == s[positions[k]]
  {
    seq(|positions|, k requires 0 <= k < |positions| => s[positions[k]])
  }

  function Marks<T(==)>(s: seq<T>, x: T): (r: seq<int>)
    ensures |r| == |s| && forall i :: 0 <= i < |s| ==> r[i] == if s[i] == x then 1 else 0
  {
    seq(|s|, i requires 0 <= i < |s| => if s[i] == x then 1 else 0)
  }

  lemma {:induction false} MarksCount<T>(s: seq<T>, x: T)
    ensures Sum(Marks(s, x)) == multiset(s)[x]
  {
    if s != [] {
      var front := s[..|s| - 1];
      MarksCount(front, x);
      SplitLast(s);
      assert Marks(s, x)[..|s| - 1] == Marks(front, x);
    }
  }

  lemma {:induction false} SameMultiset<T>(f: seq<nat>, s: seq<T>, t: seq<T>)
    requires Rearranges(f, s, t)
    ensures multiset(s) == multiset(t)
  {
    forall x ensures multiset(s)[x] == multiset(t)[x] {
      MarksCount(s, x);
      MarksCount(t, x);
      SumRearranged(Marks(s, x), Marks(t, x), f);
    }
  }
}
