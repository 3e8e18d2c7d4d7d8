/**
  The deterministic order of the slots of a group: a stable sort by what the slots contain,
  whatever keys and prefixes they were written with.
 */
module SlotSort {
  import opened Ordering
  import opened SlotTables

  /** The settings of a slot and their values. */
  type Content = map<string, string>

  function ContentOf(slot: Slot): Content {
    map b | b in slot :: slot[b].value
  }

  // ------------------------------------------------------------------ the sort key

  predicate IsLeast(keys: set<string>, k: string) {
    k in keys && forall x :: x in keys ==> StringOrder(k, x)
  }

  lemma {:induction false} SomeLeast(keys: set<string>)
    requires keys != {}
    ensures exists k :: IsLeast(keys, k)
  {
    StringsAreOrdered();
    hide StringOrder;
    var x :| x in keys;
    var rest := keys - {x};
    if rest == {} {
      assert keys == {x};
      assert IsLeast(keys, x);
    } else {
      SomeLeast(rest);
      var y :| IsLeast(rest, y);
      var k := if StringOrder(x, y) then x else y;
      forall z | z in keys ensures StringOrder(k, z) {
        assert z == x || z in rest;
      }
      assert IsLeast(keys, k);
    }
  }

  function LeastKey(keys: set<string>): (k: string)
    requires keys != {}
    ensures IsLeast(keys, k)
  {
    SomeLeast(keys);
    StringsAreOrdered();
    assert forall x, y :: IsLeast(keys, x) && IsLeast(keys, y) ==> StringOrder(x, y) && StringOrder(y, x);
    var k :| IsLeast(keys, k);
    k
  }

  /** The pairs of a slot in ascending order: what two slots are compared by. */
  function SortedItems(c: Content): (items: seq<(string, string)>)
    decreases |c|
  {
    if c == map[] then []
    else
      var k := LeastKey(c.Keys);
      [(k, c[k])] + SortedItems(c - {k})
  }

  lemma {:induction false} ItemsOfContent(c: Content, k: string, v: string)
    ensures (k, v) in SortedItems(c) <==> k in c && c[k] == v
    decreases |c|
  {
    if c != map[] {
      assert IsLeast(c.Keys, LeastKey(c.Keys));
      ItemsOfContent(c - {LeastKey(c.Keys)}, k, v);
    }
  }

  /** The items are in strictly ascending order, so they are the one sorted listing of the slot. */
  lemma {:induction false} ItemsAscend(c: Content, i: nat, j: nat)
    requires i < j < |SortedItems(c)|
    ensures PairOrder(SortedItems(c)[i], SortedItems(c)[j]) && SortedItems(c)[i].0 != SortedItems(c)[j].0
    decreases |c|
  {
    hide StringOrder;
    var k := LeastKey(c.Keys);
    var rest := c - {k};
    if i > 0 {
      ItemsAscend(rest, i - 1, j - 1);
    } else {
      var item := SortedItems(rest)[j - 1];
      assert item in SortedItems(rest);
      ItemsOfContent(rest, item.0, item.1);
    }
  }

  lemma SameItemsSameContent(c1: Content, c2: Content)
    requires SortedItems(c1) == SortedItems(c2)
    ensures c1 == c2
  {
    forall k ensures k in c1 <==> k in c2
             ensures k in c1 && k in c2 ==> c1[k] == c2[k] {
      if k in c1 { ItemsOfContent(c1, k, c1[k]); ItemsOfContent(c2, k, c1[k]); }
      if k in c2 { ItemsOfContent(c1, k, c2[k]); ItemsOfContent(c2, k, c2[k]); }
    }
  }

  predicate ContentOrder(a: Content, b: Content) {
    ItemsOrder(SortedItems(a), SortedItems(b))
  }

  lemma ContentsAreOrdered()
    ensures TotalOrder(ContentOrder)
  {
    hide ItemsOrder, SortedItems;
    ItemsAreOrdered();
    forall a, b | ContentOrder(a, b) && ContentOrder(b, a) ensures a == b {
      SameItemsSameContent(a, b);
    }
  }

  // ------------------------------------------------------------------ the sort

  predicate Before(a: Slot, b: Slot) {
    ContentOrder(ContentOf(a), ContentOf(b))
  }

  function StableSort(list: seq<Slot>): (r: seq<Slot>)
    ensures |r| == |list|
  {
    Sort(Before, list)
  }

  /** The slots with the given content, in the order they are listed. */
  function Alike(list: seq<Slot>, c: Content): seq<Slot> {
    if list == [] then []
    else
      var last := |list| - 1;
      Alike(list[..last], c) + (if ContentOf(list[last]) == c then [list[last]] else [])
  }

  lemma AlikeOfExtended(list: seq<Slot>, slot: Slot, c: Content)
    ensures Alike(list + [slot], c) == Alike(list, c) + (if ContentOf(slot) == c then [slot] else [])
  {
    assert (list + [slot])[..|list|] == list;
  }

  lemma {:induction false} AlikeOfJoined(a: seq<Slot>, b: seq<Slot>, c: Content)
    ensures Alike(a + b, c) == Alike(a, c) + Alike(b, c)
  {
    if b == [] {
      assert a + b == a;
    } else {
      var last := |b| - 1;
      assert a + b == (a + b[..last]) + [b[last]];
      AlikeOfJoined(a, b[..last], c);
      AlikeOfExtended(a + b[..last], b[last], c);
    }
  }

  lemma SlotsArePreordered()
    ensures Preorder(Before)
  {
    hide ContentOrder;
    ContentsAreOrdered();
  }

  lemma AlikeAreInOrder(a: Slot, b: Slot)
    requires ContentOf(a) == ContentOf(b)
    ensures Before(a, b)
  {
    hide ContentOrder, ContentOf;
    ContentsAreOrdered();
  }

  lemma {:induction false} InsertKeepsAlike(list: seq<Slot>, slot: Slot, c: Content)
    ensures Alike(Insert(Before, list, slot), c) == Alike(list, c) + (if ContentOf(slot) == c then [slot] else [])
  {
    hide Before, ContentOf, Alike;
    AlikeOfExtended(list, slot, c);
    if list != [] {
      var last := |list| - 1;
      if !Before(list[last], slot) {
        InsertKeepsAlike(list[..last], slot, c);
        AlikeOfExtended(Insert(Before, list[..last], slot), list[last], c);
        AlikeOfExtended(list[..last], list[last], c);
        assert list == list[..last] + [list[last]];
        if ContentOf(list[last]) == ContentOf(slot) { AlikeAreInOrder(list[last], slot); }
      }
    } else {
      assert [] + [slot] == [slot];
    }
  }

  /** The sort is a sort: the result is in order, and slots with the same content keep their order. */
  lemma SortIsStable(list: seq<Slot>, c: Content)
    ensures IsSorted(Before, StableSort(list))
    ensures Alike(StableSort(list), c) == Alike(list, c)
  {
    hide Before;
    SlotsArePreordered();
    SortSorts(Before, list);
    SortKeepsAlike(list, c);
  }

  lemma {:induction false} SortKeepsAlike(list: seq<Slot>, c: Content)
    ensures Alike(Sort(Before, list), c) == Alike(list, c)
  {
    hide Before, Insert;
    if list != [] {
      var last := |list| - 1;
      SortKeepsAlike(list[..last], c);
      InsertKeepsAlike(Sort(Before, list[..last]), list[last], c);
    }
  }

  lemma SortKeepsMembers(list: seq<Slot>)
    ensures forall x :: x in StableSort(list) <==> x in list
  {
    hide Before;
    SlotsArePreordered();
    SortKeepsElements(Before, list);
  }

  lemma {:induction false} SomeAlike(list: seq<Slot>, i: nat)
    requires i < |list|
    ensures Alike(list, ContentOf(list[i])) != []
  {
    hide ContentOf;
    if i < |list| - 1 { SomeAlike(list[..|list| - 1], i); }
  }

  lemma {:induction false} AlikeAreAlike(list: seq<Slot>, c: Content)
    requires Alike(list, c) != []
    ensures exists i :: 0 <= i < |list| && ContentOf(list[i]) == c
  {
    hide ContentOf;
    var last := |list| - 1;
    if ContentOf(list[last]) != c {
      AlikeAreAlike(list[..last], c);
      var i :| 0 <= i < last && ContentOf(list[..last][i]) == c;
      assert ContentOf(list[i]) == c;
    }
  }

  ghost predicate SameCounts(a: seq<Slot>, b: seq<Slot>) {
    forall c :: |Alike(a, c)| == |Alike(b, c)|
  }

  lemma LastIsGreatest(a: seq<Slot>, b: seq<Slot>)
    requires IsSorted(Before, a) && IsSorted(Before, b) && SameCounts(a, b) && a != []
    ensures b != [] && Before(a[|a| - 1], b[|b| - 1])
  {
    hide ContentOrder, ContentOf;
    ContentsAreOrdered();
    var c := ContentOf(a[|a| - 1]);
    SomeAlike(a, |a| - 1);
    assert |Alike(b, c)| == |Alike(a, c)| > 0;
    AlikeAreAlike(b, c);
    var i :| 0 <= i < |b| && ContentOf(b[i]) == c;
    assert i < |b| - 1 ==> Before(b[i], b[|b| - 1]);
  }

  /** Two sorted lists that hold every content equally often list the same contents. */
  lemma {:induction false} SortedListsAgree(a: seq<Slot>, b: seq<Slot>)
    requires IsSorted(Before, a) && IsSorted(Before, b) && SameCounts(a, b)
    ensures |a| == |b|
    ensures forall i :: 0 <= i < |a| ==> ContentOf(a[i]) == ContentOf(b[i])
  {
    hide ContentOrder, ContentOf;
    if a != [] {
      LastIsGreatest(a, b);
      LastIsGreatest(b, a);
      ContentsAreOrdered();
      var x, y := a[|a| - 1], b[|b| - 1];
      var a', b' := a[..|a| - 1], b[..|b| - 1];
      assert ContentOf(x) == ContentOf(y);
      forall c ensures |Alike(a', c)| == |Alike(b', c)| {
        assert |Alike(a, c)| == |Alike(b, c)|;
      }
      SortedListsAgree(a', b');
      assert forall i :: 0 <= i < |a'| ==> a[i] == a'[i] && b[i] == b'[i];
    } else if b != [] {
      LastIsGreatest(b, a);
    }
  }

  /** Sorting forgets the order it was given: only how often each content occurs matters. */
  lemma SortForgetsOrder(a: seq<Slot>, b: seq<Slot>)
    requires SameCounts(a, b)
    ensures |StableSort(a)| == |StableSort(b)|
    ensures forall i :: 0 <= i < |a| ==> ContentOf(StableSort(a)[i]) == ContentOf(StableSort(b)[i])
  {
    hide Before, ContentOf, StableSort;
    SortIsStable(a, map[]);
    SortIsStable(b, map[]);
    forall c ensures |Alike(StableSort(a), c)| == |Alike(StableSort(b), c)| {
      SortIsStable(a, c);
      SortIsStable(b, c);
      assert |Alike(a, c)| == |Alike(b, c)|;
    }
    SortedListsAgree(StableSort(a), StableSort(b));
  }
}
