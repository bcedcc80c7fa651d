/**
  Lexicographic comparison of tuples whose numbers may be missing, and sorting by it: a missing
  number cannot be compared with a present one.
 */
module Ordering {
  import opened Options
  import opened Sorting

  /** Lexicographic order of lists. */
  predicate ListLe<T(==)>(le: (T, T) -> bool, a: seq<T>, b: seq<T>) {
    a == [] || (b != [] && if a[0] == b[0] then ListLe(le, a[1..], b[1..]) else le(a[0], b[0]))
  }

  lemma {:induction false} ListLeAntisymmetric<T(!new)>(le: (T, T) -> bool, a: seq<T>, b: seq<T>)
    requires TotalOrder(le) && ListLe(le, a, b) && ListLe(le, b, a)
    ensures a == b
  {
    if a != [] && b != [] && a[0] == b[0] {
      ListLeAntisymmetric(le, a[1..], b[1..]);
      assert a == [a[0]] + a[1..] && b == [b[0]] + b[1..];
    }
  }

  lemma {:induction false} ListLeTransitive<T(!new)>(le: (T, T) -> bool, a: seq<T>, b: seq<T>, c: seq<T>)
    requires TotalOrder(le) && ListLe(le, a, b) && ListLe(le, b, c)
    ensures ListLe(le, a, c)
  {
    if a != [] && b != [] && c != [] && a[0] == b[0] == c[0] {
      ListLeTransitive(le, a[1..], b[1..], c[1..]);
    }
  }

  lemma {:induction false} ListLeTotal<T(!new)>(le: (T, T) -> bool, a: seq<T>, b: seq<T>)
    requires TotalOrder(le)
    ensures ListLe(le, a, b) || ListLe(le, b, a)
  {
    if a != [] && b != [] && a[0] == b[0] { ListLeTotal(le, a[1..], b[1..]); }
  }

  // ----- tuple entries -----

  datatype Item = Text(text: string) | Number(number: Option<int>)

  type Tuple = seq<Item>

  predicate CharLe(x: char, y: char) { x <= y }

  predicate TextLe(a: string, b: string) { ListLe(CharLe, a, b) }

  /** A total extension of the order: a missing number goes first. */
  predicate ItemLe(x: Item, y: Item) {
    match x
    case Text(a) => y.Number? || TextLe(a, y.text)
    case Number(a) => y.Number? && (a.None? || (y.number.Some? && a.value <= y.number.value))
  }

  lemma ItemOrder()
    ensures TotalOrder(ItemLe)
  {
    assert TotalOrder(CharLe);
    forall x, y ensures ItemLe(x, y) || ItemLe(y, x) {
      if x.Text? && y.Text? { ListLeTotal(CharLe, x.text, y.text); }
    }
    forall x, y, z | ItemLe(x, y) && ItemLe(y, z) ensures ItemLe(x, z) {
      if x.Text? && y.Text? && z.Text? { ListLeTransitive(CharLe, x.text, y.text, z.text); }
    }
    forall x, y | ItemLe(x, y) && ItemLe(y, x) ensures x == y {
      if x.Text? && y.Text? { ListLeAntisymmetric(CharLe, x.text, y.text); }
    }
  }

  predicate TupleLe(a: Tuple, b: Tuple) { ListLe(ItemLe, a, b) }

  lemma TupleOrder()
    ensures TotalOrder(TupleLe)
  {
    ItemOrder();
    forall a, b ensures TupleLe(a, b) || TupleLe(b, a) { ListLeTotal(ItemLe, a, b); }
    forall a, b, c | TupleLe(a, b) && TupleLe(b, c) ensures TupleLe(a, c) { ListLeTransitive(ItemLe, a, b, c); }
    forall a, b | TupleLe(a, b) && TupleLe(b, a) ensures a == b { ListLeAntisymmetric(ItemLe, a, b); }
  }

  // ----- comparing and sorting as the language does -----

  datatype Comparison = Before | NotBefore | TypeError

  /** Is x less than y?  Comparing a missing number with a present one is an error. */
  function LessItem(x: Item, y: Item): Comparison {
    if x.Number? && y.Number? && x.number.None? != y.number.None? then TypeError
    else if ItemLe(x, y) then Before else NotBefore
  }

  /** Is a less than b?  The first entries that differ decide. */
  function Less(a: Tuple, b: Tuple): Comparison {
    if a == [] || b == [] then if b == [] then NotBefore else Before
    else if a[0] == b[0] then Less(a[1..], b[1..])
    else LessItem(a[0], b[0])
  }

  /** The first entries that differ are a missing and a present number. */
  predicate Mixed(a: Tuple, b: Tuple) {
    a != [] && b != [] &&
    if a[0] == b[0] then Mixed(a[1..], b[1..])
    else a[0].Number? && b[0].Number? && a[0].number.None? != b[0].number.None?
  }

  lemma {:induction false} LessIs(a: Tuple, b: Tuple)
    ensures Less(a, b).TypeError? <==> Mixed(a, b)
    ensures !Mixed(a, b) ==> (Less(a, b).Before? <==> TupleLe(a, b) && a != b)
  {
    if a != [] && b != [] {
      if a[0] == b[0] {
        LessIs(a[1..], b[1..]);
        assert a == [a[0]] + a[1..] && b == [b[0]] + b[1..];
      }
    }
  }

  lemma {:induction false} MixedSymmetric(a: Tuple, b: Tuple)
    ensures Mixed(a, b) <==> Mixed(b, a)
  {
    if a != [] && b != [] && a[0] == b[0] { MixedSymmetric(a[1..], b[1..]); }
  }

  /** What lies between two tuples that cannot be compared cannot be compared with both of them. */
  lemma {:induction false} MixedBetween(a: Tuple, c: Tuple, b: Tuple)
    requires TupleLe(a, c) && TupleLe(c, b) && Mixed(a, b)
    ensures Mixed(a, c) || Mixed(c, b)
  {
    ItemOrder();
    if a[0] == b[0] {
      MixedBetween(a[1..], c[1..], b[1..]);
    }
  }

  /** The total order on entries that have tuples. */
  function By<T>(tuple: T -> Tuple): (T, T) -> bool { (x, y) => TupleLe(tuple(x), tuple(y)) }

  lemma ByIsPreorder<T(!new)>(tuple: T -> Tuple)
    ensures TotalPreorder(By(tuple))
    ensures (forall x, y :: tuple(x) == tuple(y) ==> x == y) ==> TotalOrder(By(tuple))
  {
    TupleOrder();
  }

  ghost predicate AllComparable<T>(tuple: T -> Tuple, s: seq<T>) {
    forall i, j :: 0 <= i < j < |s| ==> !Mixed(tuple(s[i]), tuple(s[j]))
  }

  /** Insertion from the front; None is a type error. */
  function Place<T>(tuple: T -> Tuple, x: T, s: seq<T>): Option<seq<T>> {
    if s == [] then Some([x])
    else
      match Less(tuple(s[0]), tuple(x))
      case TypeError => None
      case NotBefore => Some([x] + s)
      case Before => (match Place(tuple, x, s[1..])
                      case None => None
                      case Some(rest) => Some([s[0]] + rest))
  }

  function SortBy<T>(tuple: T -> Tuple, s: seq<T>): Option<seq<T>> {
    if s == [] then Some([])
    else
      match SortBy(tuple, s[1..])
      case None => None
      case Some(rest) => Place(tuple, s[0], rest)
  }

  lemma {:induction false} PlaceIs<T(!new)>(tuple: T -> Tuple, x: T, s: seq<T>)
    requires Sorted(By(tuple), s) && AllComparable(tuple, s)
    ensures Place(tuple, x, s).Some? <==> forall i :: 0 <= i < |s| ==> !Mixed(tuple(x), tuple(s[i]))
    ensures Place(tuple, x, s).Some? ==> Place(tuple, x, s).value == Insert(By(tuple), x, s)
  {
    TupleOrder();
    if s != [] {
      LessIs(tuple(s[0]), tuple(x));
      MixedSymmetric(tuple(s[0]), tuple(x));
      assert forall i :: 0 < i < |s| ==> s[i] == s[1..][i - 1];
      PlaceIs(tuple, x, s[1..]);
      if !Mixed(tuple(x), tuple(s[0])) && TupleLe(tuple(x), tuple(s[0])) {
        forall i | 0 <= i < |s| ensures !Mixed(tuple(x), tuple(s[i])) {
          if i > 0 && Mixed(tuple(x), tuple(s[i])) {
            assert By(tuple)(s[0], s[i]);
            MixedBetween(tuple(x), tuple(s[0]), tuple(s[i]));
          }
        }
      }
    }
  }

  /** Sorting succeeds exactly when no two entries are mixed, and then it is sorting by the total order. */
  lemma {:induction false} SortByIs<T(!new)>(tuple: T -> Tuple, s: seq<T>)
    ensures SortBy(tuple, s).Some? <==> AllComparable(tuple, s)
    ensures AllComparable(tuple, s) ==> SortBy(tuple, s).value == Sort(By(tuple), s)
  {
    if s != [] {
      var rest := s[1..];
      SortByIs(tuple, rest);
      assert forall i :: 0 < i < |s| ==> s[i] == rest[i - 1];
      if AllComparable(tuple, rest) {
        ByIsPreorder(tuple);
        SortSorted(By(tuple), rest);
        SortedComparable(tuple, rest);
        PlaceIs(tuple, s[0], Sort(By(tuple), rest));
        SameMixed(tuple, s[0], rest, Sort(By(tuple), rest));
      }
    }
  }

  lemma SameMixed<T(!new)>(tuple: T -> Tuple, x: T, s: seq<T>, t: seq<T>)
    requires multiset(s) == multiset(t)
    ensures (forall i :: 0 <= i < |s| ==> !Mixed(tuple(x), tuple(s[i]))) <==> (forall i :: 0 <= i < |t| ==> !Mixed(tuple(x), tuple(t[i])))
  {
    SameEntries(s, t);
    assert forall i :: 0 <= i < |s| ==> s[i] in t;
    assert forall i :: 0 <= i < |t| ==> t[i] in s;
  }

  lemma {:induction false} NeverMixedWithItself(a: Tuple)
    ensures !Mixed(a, a)
  {
    if a != [] { NeverMixedWithItself(a[1..]); }
  }

  lemma {:induction false} SortedComparable<T(!new)>(tuple: T -> Tuple, s: seq<T>)
    requires AllComparable(tuple, s)
    ensures AllComparable(tuple, Sort(By(tuple), s))
  {
    hide Mixed, Sort;
    var t := Sort(By(tuple), s);
    SameEntries(s, t);
    forall i, j | 0 <= i < j < |t| ensures !Mixed(tuple(t[i]), tuple(t[j])) {
      assert t[i] in s && t[j] in s;
      var a :| 0 <= a < |s| && s[a] == t[i];
      var b :| 0 <= b < |s| && s[b] == t[j];
      NeverMixedWithItself(tuple(t[i]));
      MixedSymmetric(tuple(t[i]), tuple(t[j]));
    }
  }
}
