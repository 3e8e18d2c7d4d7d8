/**
  Orders and sorting: sequences of pairs of strings, compared lexicographically, which slots are
  sorted by, and a stable sort for any order.
 */
module Ordering {

  ghost predicate TotalOrder<T(!new)>(le: (T, T) -> bool) {
    && (forall x :: le(x, x))
    && (forall x, y :: le(x, y) || le(y, x))
    && (forall x, y :: le(x, y) && le(y, x) ==> x == y)
    && (forall x, y, z :: le(x, y) && le(y, z) ==> le(x, z))
  }

  /** A sequence comes before its extensions, and otherwise the first difference decides. */
  predicate Lexicographic<T(==)>(le: (T, T) -> bool, a: seq<T>, b: seq<T>) {
    if a == [] then true
    else if b == [] then false
    else if a[0] == b[0] then Lexicographic(le, a[1..], b[1..])
    else le(a[0], b[0])
  }

  predicate CharOrder(a: char, b: char) {
    a <= b
  }

  predicate StringOrder(a: string, b: string) {
    Lexicographic(CharOrder, a, b)
  }

  predicate PairOrder(a: (string, string), b: (string, string)) {
    if a.0 == b.0 then StringOrder(a.1, b.1) else StringOrder(a.0, b.0)
  }

  predicate ItemsOrder(a: seq<(string, string)>, b: seq<(string, string)>) {
    Lexicographic(PairOrder, a, b)
  }

  /** The first difference decides. */
  lemma {:induction false} LexicographicIff<T>(le: (T, T) -> bool, a: seq<T>, b: seq<T>)
    ensures Lexicographic(le, a, b)
            <==> a <= b || exists k :: 0 <= k < |a| && k < |b| && a[..k] == b[..k] && a[k] != b[k] && le(a[k], b[k])
  {
    if a == [] || b == [] {
    } else if a[0] != b[0] {
      assert a[..0] == b[..0];
      assert forall k :: 0 < k < |a| && k < |b| ==> a[..k][0] != b[..k][0];
    } else {
      LexicographicIff(le, a[1..], b[1..]);
      assert a <= b <==> a[1..] <= b[1..];
      if k :| 0 <= k < |a| && k < |b| && a[..k] == b[..k] && a[k] != b[k] && le(a[k], b[k]) {
        assert k > 0 && a[1..][..k - 1] == a[..k][1..] && b[1..][..k - 1] == b[..k][1..];
      }
      if k :| 0 <= k < |a| - 1 && k < |b| - 1 && a[1..][..k] == b[1..][..k] && a[1..][k] != b[1..][k]
              && le(a[1..][k], b[1..][k]) {
        assert a[..k + 1] == [a[0]] + a[1..][..k] && b[..k + 1] == [b[0]] + b[1..][..k];
      }
    }
  }

  /** Strings are ordered by the first character in which they differ. */
  lemma StringOrderIff(a: string, b: string)
    ensures StringOrder(a, b)
            <==> a <= b || exists k :: 0 <= k < |a| && k < |b| && a[..k] == b[..k] && a[k] < b[k]
  {
    LexicographicIff(CharOrder, a, b);
  }

  /** The pair comes first: its name does, or the names are the same and its value does. */
  ghost predicate PairFirst(a: (string, string), b: (string, string)) {
    if a.0 != b.0 then FirstString(a.0, b.0) else FirstString(a.1, b.1)
  }

  ghost predicate FirstString(a: string, b: string) {
    a != b && (a <= b || exists k :: 0 <= k < |a| && k < |b| && a[..k] == b[..k] && a[k] < b[k])
  }

  /** Lists of pairs are ordered by the first pair in which they differ. */
  lemma ItemsOrderIff(a: seq<(string, string)>, b: seq<(string, string)>)
    ensures ItemsOrder(a, b)
            <==> a <= b || exists k :: 0 <= k < |a| && k < |b| && a[..k] == b[..k] && PairFirst(a[k], b[k])
  {
    hide StringOrder, FirstString;
    LexicographicIff(PairOrder, a, b);
    forall p, q: (string, string) ensures p != q && PairOrder(p, q) <==> PairFirst(p, q) { PairOrderIff(p, q); }
  }

  lemma PairOrderIff(p: (string, string), q: (string, string))
    ensures p != q && PairOrder(p, q) <==> PairFirst(p, q)
  {
    StringOrderIff(p.0, q.0);
    StringOrderIff(p.1, q.1);
    hide StringOrder;
    assert !FirstString(p.0, p.0) && !FirstString(p.1, p.1);
  }

  lemma {:induction false} LexicographicReflexive<T(!new)>(le: (T, T) -> bool, a: seq<T>)
    ensures Lexicographic(le, a, a)
  {
    if a != [] { LexicographicReflexive(le, a[1..]); }
  }

  lemma {:induction false} LexicographicTotal<T(!new)>(le: (T, T) -> bool, a: seq<T>, b: seq<T>)
    requires TotalOrder(le)
    ensures Lexicographic(le, a, b) || Lexicographic(le, b, a)
    ensures Lexicographic(le, a, b) && Lexicographic(le, b, a) ==> a == b
  {
    if a != [] && b != [] {
      LexicographicTotal(le, a[1..], b[1..]);
      assert a == [a[0]] + a[1..] && b == [b[0]] + b[1..];
    }
  }

  lemma {:induction false} LexicographicTransitive<T(!new)>(le: (T, T) -> bool, a: seq<T>, b: seq<T>, c: seq<T>)
    requires TotalOrder(le) && Lexicographic(le, a, b) && Lexicographic(le, b, c)
    ensures Lexicographic(le, a, c)
  {
    if a != [] && b != [] && c != [] && a[0] == b[0] && b[0] == c[0] {
      LexicographicTransitive(le, a[1..], b[1..], c[1..]);
    }
  }

  lemma LexicographicIsTotalOrder<T(!new)>(le: (T, T) -> bool)
    requires TotalOrder(le)
    ensures forall a :: Lexicographic(le, a, a)
    ensures forall a, b :: Lexicographic(le, a, b) || Lexicographic(le, b, a)
    ensures forall a, b :: Lexicographic(le, a, b) && Lexicographic(le, b, a) ==> a == b
    ensures forall a, b, c :: Lexicographic(le, a, b) && Lexicographic(le, b, c) ==> Lexicographic(le, a, c)
  {
    forall a ensures Lexicographic(le, a, a) { LexicographicReflexive(le, a); }
    forall a, b ensures (Lexicographic(le, a, b) || Lexicographic(le, b, a))
                        && (Lexicographic(le, a, b) && Lexicographic(le, b, a) ==> a == b) {
      LexicographicTotal(le, a, b);
    }
    forall a, b, c | Lexicographic(le, a, b) && Lexicographic(le, b, c) ensures Lexicographic(le, a, c) {
      LexicographicTransitive(le, a, b, c);
    }
  }

  lemma StringsAreOrdered()
    ensures TotalOrder(StringOrder)
  {
    assert TotalOrder(CharOrder);
    LexicographicIsTotalOrder(CharOrder);
  }

  lemma PairsAreOrdered()
    ensures TotalOrder(PairOrder)
  {
    StringsAreOrdered();
    hide StringOrder;
    forall x, y, z | PairOrder(x, y) && PairOrder(y, z) ensures PairOrder(x, z) {
      if x.0 == y.0 && y.0 == z.0 {
        assert StringOrder(x.1, y.1) && StringOrder(y.1, z.1);
      } else {
        assert StringOrder(x.0, y.0) && StringOrder(y.0, z.0);
      }
    }
  }

  lemma ItemsAreOrdered()
    ensures TotalOrder(ItemsOrder)
  {
    PairsAreOrdered();
    hide PairOrder;
    LexicographicIsTotalOrder(PairOrder);
  }

  // ------------------------------------------------------------------ the sort

  /** An order in which different elements may rank alike. */
  ghost predicate Preorder<T(!new)>(le: (T, T) -> bool) {
    && (forall x, y :: le(x, y) || le(y, x))
    && (forall x, y, z :: le(x, y) && le(y, z) ==> le(x, z))
  }

  ghost predicate IsSorted<T>(le: (T, T) -> bool, list: seq<T>) {
    forall i, j :: 0 <= i < j < |list| ==> le(list[i], list[j])
  }

  /** Puts an element behind all elements that do not rank after it. */
  function Insert<T>(le: (T, T) -> bool, sorted: seq<T>, x: T): (r: seq<T>)
    ensures |r| == |sorted| + 1
  {
    if sorted == [] then [x]
    else
      var last := |sorted| - 1;
      if le(sorted[last], x) then sorted + [x] else Insert(le, sorted[..last], x) + [sorted[last]]
  }

  /** The stable sort that all the sorted listings use. */
  function Sort<T>(le: (T, T) -> bool, list: seq<T>): (r: seq<T>)
    ensures |r| == |list|
  {
    if list == [] then [] else Insert(le, Sort(le, list[..|list| - 1]), list[|list| - 1])
  }

  lemma {:induction false} InsertKeepsElements<T>(le: (T, T) -> bool, sorted: seq<T>, x: T)
    ensures multiset(Insert(le, sorted, x)) == multiset(sorted) + multiset{x}
  {
    if sorted != [] {
      var last := |sorted| - 1;
      assert sorted == sorted[..last] + [sorted[last]];
      InsertKeepsElements(le, sorted[..last], x);
    }
  }

  lemma InsertedAreOld<T>(le: (T, T) -> bool, sorted: seq<T>, x: T)
    ensures forall y :: y in Insert(le, sorted, x) <==> y in sorted || y == x
  {
    InsertKeepsElements(le, sorted, x);
    forall y ensures y in Insert(le, sorted, x) <==> y in sorted || y == x {
      assert y in Insert(le, sorted, x) <==> y in multiset(Insert(le, sorted, x));
      assert y in sorted <==> y in multiset(sorted);
    }
  }

  lemma {:induction false} InsertKeepsSorted<T(!new)>(le: (T, T) -> bool, sorted: seq<T>, x: T)
    requires Preorder(le) && IsSorted(le, sorted)
    ensures IsSorted(le, Insert(le, sorted, x))
  {
    if sorted != [] {
      var last := |sorted| - 1;
      var r := Insert(le, sorted, x);
      if le(sorted[last], x) {
        forall i | 0 <= i < |sorted| ensures le(sorted[i], x) {
          assert i < last ==> le(sorted[i], sorted[last]);
        }
      } else {
        InsertKeepsSorted(le, sorted[..last], x);
        InsertedAreOld(le, sorted[..last], x);
        forall i | 0 <= i < last + 1 ensures le(r[i], sorted[last]) {
          assert r[i] in Insert(le, sorted[..last], x);
        }
      }
    }
  }

  /** The sort puts just the given elements in order. */
  lemma {:induction false} SortSorts<T(!new)>(le: (T, T) -> bool, list: seq<T>)
    requires Preorder(le)
    ensures IsSorted(le, Sort(le, list)) && multiset(Sort(le, list)) == multiset(list)
  {
    if list != [] {
      var last := |list| - 1;
      SortSorts(le, list[..last]);
      InsertKeepsSorted(le, Sort(le, list[..last]), list[last]);
      InsertKeepsElements(le, Sort(le, list[..last]), list[last]);
      assert list == list[..last] + [list[last]];
    }
  }

  lemma SortKeepsElements<T(!new)>(le: (T, T) -> bool, list: seq<T>)
    requires Preorder(le)
    ensures forall x :: x in Sort(le, list) <==> x in list
  {
    SortSorts(le, list);
    forall x ensures x in Sort(le, list) <==> x in list {
      assert x in Sort(le, list) <==> x in multiset(Sort(le, list));
      assert x in list <==> x in multiset(list);
    }
  }
}
