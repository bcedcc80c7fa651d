/**
  The external benchmark's pairing of the labels and findings of one identity.
 */
module JointPairing {
  import opened Options
  import opened Pairings
  import opened Rearranging
  import opened Sorting
  import opened Totals
  import opened Matching

  datatype Item = Item(file: string, line: Option<int>, algorithm: string, usage: string, keySize: Option<int>)

  /** The order of the items' serialised form, which the benchmark sorts by. */
  type ItemOrder = (Item, Item) -> bool

  type Indexed = (nat, Item)

  function Enumerate(items: seq<Item>): (r: seq<Indexed>)
    ensures |r| == |items| && forall i :: 0 <= i < |items| ==> r[i] == (i, items[i])
  {
    seq(|items|, i requires 0 <= i < |items| => (i, items[i]))
  }

  function ByItem(le: ItemOrder): (Indexed, Indexed) -> bool {
    (x: Indexed, y: Indexed) => le(x.1, y.1)
  }

  function ItemsOf(s: seq<Indexed>): (r: seq<Item>)
    ensures |r| == |s| && forall i :: 0 <= i < |s| ==> r[i] == s[i].1
  {
    seq(|s|, i requires 0 <= i < |s| => s[i].1)
  }

  function PositionsOf(s: seq<Indexed>): (r: seq<nat>)
    ensures |r| == |s| && forall i :: 0 <= i < |s| ==> r[i] == s[i].0
  {
    seq(|s|, i requires 0 <= i < |s| => s[i].0)
  }

  function UsageHit(x: Item, y: Item): nat { if x.usage == y.usage then 1 else 0 }

  function KeySizeHit(x: Item, y: Item): nat { if x.keySize == y.keySize then 1 else 0 }

  /** One extra metadata match outweighs every possible usage tie-break. */
  function JointScore(matched: nat): (Item, Item) -> int {
    (x: Item, y: Item) => (UsageHit(x, y) + KeySizeHit(x, y)) * (matched + 1) + UsageHit(x, y)
  }

  /** The pairs of the sorted lists. */
  function SortedPairs(labels: seq<Item>, findings: seq<Item>): seq<Pair> {
    MatchPairs(labels, findings, JointScore(Min(|labels|, |findings|)))
  }

  function JointPairs(le: ItemOrder, labels: seq<Item>, findings: seq<Item>): seq<Pair> {
    var left, right := Sort(ByItem(le), Enumerate(labels)), Sort(ByItem(le), Enumerate(findings));
    MatchIsPairing(ItemsOf(left), ItemsOf(right), JointScore(Min(|labels|, |findings|)));
    Sort(ByPosition, Moved(SortedPairs(ItemsOf(left), ItemsOf(right)), PositionsOf(left), PositionsOf(right)))
  }

  method JointPairsOf(le: ItemOrder, labels: seq<Item>, findings: seq<Item>)
    returns (pairs: seq<Pair>, missed: set<nat>, unexpected: set<nat>)
    ensures pairs == JointPairs(le, labels, findings)
    ensures missed == Unpaired(Lefts(pairs), |labels|) && unexpected == Unpaired(Rights(pairs), |findings|)
    ensures forall i: nat :: i in missed <==> i < |labels| && forall k :: 0 <= k < |pairs| ==> pairs[k].0 != i
    ensures forall j: nat :: j in unexpected <==> j < |findings| && forall k :: 0 <= k < |pairs| ==> pairs[k].1 != j
  {
    var left, right := Sort(ByItem(le), Enumerate(labels)), Sort(ByItem(le), Enumerate(findings));
    MatchIsPairing(ItemsOf(left), ItemsOf(right), JointScore(Min(|labels|, |findings|)));
    var sorted, l, r := HungarianMatch(ItemsOf(left), ItemsOf(right), JointScore(Min(|labels|, |findings|)));
    pairs := Sort(ByPosition, Moved(sorted, PositionsOf(left), PositionsOf(right)));
    missed, unexpected := Unpaired(Lefts(pairs), |labels|), Unpaired(Rights(pairs), |findings|);
    UnpairedAre(pairs, |labels|, |findings|);
  }

  // ----- totals do not depend on where the items stand -----

  /** Sorting moves each item to a position of its own. */
  lemma PositionsRearrange(le: ItemOrder, items: seq<Item>)
    ensures var s := Sort(ByItem(le), Enumerate(items)); Rearranges(PositionsOf(s), ItemsOf(s), items)
  {
    var s := Sort(ByItem(le), Enumerate(items));
    var f := Rearranged(s, Enumerate(items));
    assert f == PositionsOf(s);
  }

  /** Usage matches plus key-size matches of a pairing; usage matches alone. */
  function MetadataHits(labels: seq<Item>, findings: seq<Item>): (nat, nat) -> int {
    (i: nat, j: nat) => if i < |labels| && j < |findings| then
      UsageHit(labels[i], findings[j]) + KeySizeHit(labels[i], findings[j]) else 0
  }

  function UsageHits(labels: seq<Item>, findings: seq<Item>): (nat, nat) -> int {
    (i: nat, j: nat) => if i < |labels| && j < |findings| then UsageHit(labels[i], findings[j]) else 0
  }

  lemma {:induction false} JointTotal(labels: seq<Item>, findings: seq<Item>, matched: nat, pairs: seq<Pair>)
    requires IsPairing(pairs, |labels|, |findings|)
    ensures Total(ScoreOf(labels, findings, JointScore(matched)), pairs)
         == Total(MetadataHits(labels, findings), pairs) * (matched + 1) + Total(UsageHits(labels, findings), pairs)
    ensures 0 <= Total(UsageHits(labels, findings), pairs) <= |pairs|
  {
    if pairs != [] {
      var x := pairs[|pairs| - 1];
      JointTotal(labels, findings, matched, pairs[..|pairs| - 1]);
      var before := Total(MetadataHits(labels, findings), pairs[..|pairs| - 1]);
      var here := MetadataHits(labels, findings)(x.0, x.1);
      Distribute(before, here, matched + 1);
      assert UsageHits(labels, findings)(x.0, x.1) == UsageHit(labels[x.0], findings[x.1]);
    }
  }

  lemma Distribute(x: int, y: int, c: int)
    ensures (x + y) * c == x * c + y * c
  {
  }

  lemma {:induction false} Multiple(k: int, b: nat)
    requires k >= 1
    ensures k * b >= b
    decreases k
  {
    if k > 1 { Multiple(k - 1, b); assert k * b == (k - 1) * b + b; }
  }

  lemma Lexicographic(s: int, u: int, s': int, u': int, b: nat)
    requires 0 <= u < b && 0 <= u' < b && s' * b + u' <= s * b + u
    ensures s' <= s && (s' == s ==> u' <= u)
  {
    if s' > s {
      assert (s' - s) * b == s' * b - s * b;
      Multiple(s' - s, b);
    }
  }

  /** On the sorted lists: metadata matches first, usage matches second. */
  lemma {:induction false} SortedPairsBest(labels: seq<Item>, findings: seq<Item>, other: seq<Pair>)
    requires IsPairing(other, |labels|, |findings|) && |other| == Min(|labels|, |findings|)
    ensures var pairs := SortedPairs(labels, findings);
      && IsPairing(pairs, |labels|, |findings|) && |pairs| == Min(|labels|, |findings|)
      && Total(MetadataHits(labels, findings), other) <= Total(MetadataHits(labels, findings), pairs)
      && (Total(MetadataHits(labels, findings), other) == Total(MetadataHits(labels, findings), pairs) ==>
            Total(UsageHits(labels, findings), other) <= Total(UsageHits(labels, findings), pairs))
  {
    var matched, pairs := Min(|labels|, |findings|), SortedPairs(labels, findings);
    MatchIsPairing(labels, findings, JointScore(matched));
    MatchMaximisesScore(labels, findings, JointScore(matched), other);
    JointTotal(labels, findings, matched, pairs);
    JointTotal(labels, findings, matched, other);
    Lexicographic(Total(MetadataHits(labels, findings), pairs), Total(UsageHits(labels, findings), pairs),
                  Total(MetadataHits(labels, findings), other), Total(UsageHits(labels, findings), other), matched + 1);
  }

  /** Moving a pairing back to the lists as given keeps its hits. */
  lemma {:induction false} MovedHits(left: seq<Item>, right: seq<Item>, labels: seq<Item>, findings: seq<Item>, f: seq<nat>, g: seq<nat>, pairs: seq<Pair>)
    requires Rearranges(f, left, labels) && Rearranges(g, right, findings)
    requires IsPairing(pairs, |left|, |right|)
    ensures IsPairing(Moved(pairs, f, g), |labels|, |findings|)
    ensures Total(MetadataHits(labels, findings), Moved(pairs, f, g)) == Total(MetadataHits(left, right), pairs)
    ensures Total(UsageHits(labels, findings), Moved(pairs, f, g)) == Total(UsageHits(left, right), pairs)
  {
    MovedIsPairing(f, g, |labels|, |findings|, pairs);
    MovedTotal(MetadataHits(left, right), MetadataHits(labels, findings), f, g, pairs);
    MovedTotal(UsageHits(left, right), UsageHits(labels, findings), f, g, pairs);
  }

  lemma JointIsPairing(le: ItemOrder, labels: seq<Item>, findings: seq<Item>)
    ensures IsPairing(JointPairs(le, labels, findings), |labels|, |findings|)
    ensures |JointPairs(le, labels, findings)| == Min(|labels|, |findings|)
    ensures Sorted(ByPosition, JointPairs(le, labels, findings))
  {
    var left, right := Sort(ByItem(le), Enumerate(labels)), Sort(ByItem(le), Enumerate(findings));
    var f, g := PositionsOf(left), PositionsOf(right);
    PositionsRearrange(le, labels);
    PositionsRearrange(le, findings);
    MatchIsPairing(ItemsOf(left), ItemsOf(right), JointScore(Min(|labels|, |findings|)));
    var moved := Moved(SortedPairs(ItemsOf(left), ItemsOf(right)), f, g);
    MovedIsPairing(f, g, |labels|, |findings|, SortedPairs(ItemsOf(left), ItemsOf(right)));
    PairingReordered(moved, Sort(ByPosition, moved), |labels|, |findings|);
    SortSorted(ByPosition, moved);
  }

  lemma JointHits(le: ItemOrder, labels: seq<Item>, findings: seq<Item>)
    ensures var left, right := ItemsOf(Sort(ByItem(le), Enumerate(labels))), ItemsOf(Sort(ByItem(le), Enumerate(findings)));
      && Total(MetadataHits(labels, findings), JointPairs(le, labels, findings))
         == Total(MetadataHits(left, right), SortedPairs(left, right))
      && Total(UsageHits(labels, findings), JointPairs(le, labels, findings))
         == Total(UsageHits(left, right), SortedPairs(left, right))
  {
    var l, r := Sort(ByItem(le), Enumerate(labels)), Sort(ByItem(le), Enumerate(findings));
    var left, right, f, g := ItemsOf(l), ItemsOf(r), PositionsOf(l), PositionsOf(r);
    PositionsRearrange(le, labels);
    PositionsRearrange(le, findings);
    MatchIsPairing(left, right, JointScore(Min(|labels|, |findings|)));
    MovedHits(left, right, labels, findings, f, g, SortedPairs(left, right));
    TotalSort(MetadataHits(labels, findings), ByPosition, Moved(SortedPairs(left, right), f, g));
    TotalSort(UsageHits(labels, findings), ByPosition, Moved(SortedPairs(left, right), f, g));
  }

  /**
    The joint pairing is the lexicographic optimum among all pairings of full size, for lists of any
    length and any sort order: most metadata matches, and among those most usage matches.
   */
  lemma {:induction false} JointLexicographic(le: ItemOrder, labels: seq<Item>, findings: seq<Item>, other: seq<Pair>)
    requires IsPairing(other, |labels|, |findings|) && |other| == Min(|labels|, |findings|)
    ensures var pairs := JointPairs(le, labels, findings);
      && Total(MetadataHits(labels, findings), other) <= Total(MetadataHits(labels, findings), pairs)
      && (Total(MetadataHits(labels, findings), other) == Total(MetadataHits(labels, findings), pairs) ==>
            Total(UsageHits(labels, findings), other) <= Total(UsageHits(labels, findings), pairs))
  {
    var l, r := Sort(ByItem(le), Enumerate(labels)), Sort(ByItem(le), Enumerate(findings));
    PositionsRearrange(le, labels);
    PositionsRearrange(le, findings);
    var f := InverseRearranges(PositionsOf(l), ItemsOf(l), labels);
    var g := InverseRearranges(PositionsOf(r), ItemsOf(r), findings);
    MovedHits(labels, findings, ItemsOf(l), ItemsOf(r), f, g, other);
    SortedPairsBest(ItemsOf(l), ItemsOf(r), Moved(other, f, g));
    JointHits(le, labels, findings);
  }

  /** Lists that are sorted already are paired as they stand. */
  lemma {:induction false} SortedAlready(le: ItemOrder, labels: seq<Item>, findings: seq<Item>)
    requires Sorted(le, labels) && Sorted(le, findings)
    ensures IsPairing(SortedPairs(labels, findings), |labels|, |findings|)
    ensures multiset(JointPairs(le, labels, findings)) == multiset(SortedPairs(labels, findings))
  {
    hide Sort;
    var left, right := Enumerate(labels), Enumerate(findings);
    EnumeratedStays(le, labels);
    EnumeratedStays(le, findings);
    MatchIsPairing(labels, findings, JointScore(Min(|labels|, |findings|)));
    assert ItemsOf(left) == labels && ItemsOf(right) == findings;
    var pairs := SortedPairs(labels, findings);
    PairsStay(pairs, |labels|, |findings|, PositionsOf(left), PositionsOf(right));
  }

  lemma {:induction false} EnumeratedStays(le: ItemOrder, items: seq<Item>)
    requires Sorted(le, items)
    ensures Sort(ByItem(le), Enumerate(items)) == Enumerate(items)
  {
    SortOfSorted(ByItem(le), Enumerate(items));
  }

  lemma PairsStay(pairs: seq<Pair>, n: nat, m: nat, f: seq<nat>, g: seq<nat>)
    requires IsPairing(pairs, n, m) && |f| == n && |g| == m
    requires (forall i :: 0 <= i < n ==> f[i] == i) && (forall j :: 0 <= j < m ==> g[j] == j)
    ensures Moved(pairs, f, g) == pairs
  {
  }
}
