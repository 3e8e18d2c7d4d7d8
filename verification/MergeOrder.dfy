/**
  When the keys of a merged service do not depend on the order of the services either: which of
  two slots with equal content is written with the server prefix follows that order.
 */
module MergeOrder {
  import opened SlotKeys
  import opened SlotTables
  import opened SlotSort
  import opened ServiceMerge
  import opened MergeLaws

  /** Which settings of a slot are written with the server prefix. */
  type Flags = map<string, bool>

  function FlagsOf(slot: Slot): Flags {
    map b | b in slot :: slot[b].prefixed
  }

  function AllFlags(list: seq<Slot>): (fs: seq<Flags>)
    ensures |fs| == |list| && forall i :: 0 <= i < |list| ==> fs[i] == FlagsOf(list[i])
  {
    seq(|list|, i requires 0 <= i < |list| => FlagsOf(list[i]))
  }

  /** The flags of the slots of a service that have the given content, in their order. */
  function Word(d: Dict, site: Site, g: string, c: Content): seq<Flags> {
    AllFlags(Alike(Found(SlotsOf(d, site.lookup, site.host), g), c))
  }

  function WordOfAll(ds: seq<Dict>, site: Site, g: string, c: Content): seq<Flags> {
    if ds == [] then []
    else
      var last := |ds| - 1;
      WordOfAll(ds[..last], site, g, c) + Word(ds[last], site, g, c)
  }

  ghost predicate Commute(d: Dict, e: Dict, site: Site, g: string, c: Content) {
    Word(d, site, g, c) + Word(e, site, g, c) == Word(e, site, g, c) + Word(d, site, g, c)
  }

  /** For every content, it does not matter which of two services comes first. */
  ghost predicate FlagsCommute(ds: seq<Dict>, site: Site) {
    forall d, e, g, c :: d in ds && e in ds ==> Commute(d, e, site, g, c)
  }

  // ------------------------------------------------------------------ the words of the pool

  lemma {:induction false} CollectedWord(ds: seq<Dict>, site: Site, g: string, c: Content)
    ensures AllFlags(Alike(Listed(Collected(ds, site), g), c)) == WordOfAll(ds, site, g, c)
  {
    hide SlotsOf, InOrder, ContentOf, FlagsOf, Alike;
    if ds != [] {
      var last := |ds| - 1;
      var front, slots := Collected(ds[..last], site), SlotsOf(ds[last], site.lookup, site.host);
      CollectedWord(ds[..last], site, g, c);
      AlikeOfJoined(Listed(front, g), Found(slots, g), c);
      assert Listed(Pooled(front, slots), g) == Listed(front, g) + Found(slots, g);
    } else {
      NoneAlike(c);
    }
  }

  lemma NoneAlike(c: Content)
    ensures Alike([], c) == []
  {
  }

  lemma {:induction false} WordOfJoined(a: seq<Dict>, b: seq<Dict>, site: Site, g: string, c: Content)
    ensures WordOfAll(a + b, site, g, c) == WordOfAll(a, site, g, c) + WordOfAll(b, site, g, c)
  {
    hide Word;
    if b == [] {
      assert a + b == a;
    } else {
      var last := |b| - 1;
      assert (a + b)[..|a + b| - 1] == a + b[..last];
      WordOfJoined(a, b[..last], site, g, c);
    }
  }

  lemma MiddleMovesBack<T>(w: seq<T>, y: seq<T>, x: seq<T>)
    requires y + x == x + y
    ensures (w + y) + x == (w + x) + y
  {
    assert (w + y) + x == w + (y + x) && w + (x + y) == (w + x) + y;
  }

  /** A service whose flags commute with those of the others can be moved behind them. */
  lemma {:induction false} WordPasses(d: Dict, ds: seq<Dict>, site: Site, g: string, c: Content)
    requires forall e :: e in ds ==> Commute(d, e, site, g, c)
    ensures Word(d, site, g, c) + WordOfAll(ds, site, g, c) == WordOfAll(ds, site, g, c) + Word(d, site, g, c)
  {
    hide Word;
    if ds != [] {
      var last := |ds| - 1;
      WordPasses(d, ds[..last], site, g, c);
      var v, w, x := Word(d, site, g, c), WordOfAll(ds[..last], site, g, c), Word(ds[last], site, g, c);
      assert Commute(d, ds[last], site, g, c);
      MiddleMovesBack(w, v, x);
      assert v + (w + x) == (v + w) + x;
    }
  }

  lemma WordAfterRemoval(b: seq<Dict>, i: nat, site: Site, g: string, c: Content)
    requires i < |b| && forall e :: e in b ==> Commute(b[i], e, site, g, c)
    ensures WordOfAll(b, site, g, c) == WordOfAll(b[..i] + b[i + 1..], site, g, c) + Word(b[i], site, g, c)
  {
    hide Word, Commute;
    var head, tail := b[..i + 1], b[i + 1..];
    assert b == head + tail && head[..i] == b[..i];
    WordOfJoined(head, tail, site, g, c);
    WordOfJoined(b[..i], tail, site, g, c);
    WordPasses(b[i], tail, site, g, c);
    var w, x, y := WordOfAll(b[..i], site, g, c), WordOfAll(tail, site, g, c), Word(b[i], site, g, c);
    assert WordOfAll(head, site, g, c) == w + y by { assert head[|head| - 1] == b[i]; }
    MiddleMovesBack(w, y, x);
  }

  lemma {:induction false} WordForgetsOrder(a: seq<Dict>, b: seq<Dict>, site: Site, g: string, c: Content)
    requires multiset(a) == multiset(b)
    requires forall d, e :: d in b && e in b ==> Commute(d, e, site, g, c)
    ensures WordOfAll(a, site, g, c) == WordOfAll(b, site, g, c)
  {
    hide Word, Commute;
    SameSize(a, b);
    if a != [] {
      var last := |a| - 1;
      assert a[last] in multiset(b);
      var i :| 0 <= i < |b| && b[i] == a[last];
      RestAfterRemoval(a, b, i);
      WordForgetsOrder(a[..last], b[..i] + b[i + 1..], site, g, c);
      WordAfterRemoval(b, i, site, g, c);
    }
  }

  // ------------------------------------------------------------------ lists with equal words

  ghost predicate SameList(x: seq<Slot>, y: seq<Slot>) {
    |x| == |y| && forall i :: 0 <= i < |x| ==> ContentOf(x[i]) == ContentOf(y[i]) && FlagsOf(x[i]) == FlagsOf(y[i])
  }

  /** Lists with the same contents have the same flags if the flags agree for each content. */
  lemma {:induction false} SameWordsSameList(x: seq<Slot>, y: seq<Slot>)
    requires |x| == |y| && forall i :: 0 <= i < |x| ==> ContentOf(x[i]) == ContentOf(y[i])
    requires forall c :: AllFlags(Alike(x, c)) == AllFlags(Alike(y, c))
    ensures SameList(x, y)
  {
    hide ContentOf, FlagsOf;
    if x != [] {
      var last := |x| - 1;
      forall c ensures AllFlags(Alike(x[..last], c)) == AllFlags(Alike(y[..last], c)) { LastOfWord(x, y, c); }
      LastOfWord(x, y, ContentOf(x[last]));
      SameWordsSameList(x[..last], y[..last]);
      assert forall i :: 0 <= i < last ==> x[..last][i] == x[i] && y[..last][i] == y[i];
    }
  }

  lemma LastOfWord(x: seq<Slot>, y: seq<Slot>, c: Content)
    requires |x| == |y| > 0 && ContentOf(x[|x| - 1]) == ContentOf(y[|y| - 1])
    requires AllFlags(Alike(x, c)) == AllFlags(Alike(y, c))
    ensures AllFlags(Alike(x[..|x| - 1], c)) == AllFlags(Alike(y[..|y| - 1], c))
    ensures c == ContentOf(x[|x| - 1]) ==> FlagsOf(x[|x| - 1]) == FlagsOf(y[|y| - 1])
  {
    hide ContentOf, FlagsOf, AllFlags;
    var last := |x| - 1;
    if c == ContentOf(x[last]) {
      FlagsOfExtended(Alike(x[..last], c), x[last]);
      FlagsOfExtended(Alike(y[..last], c), y[last]);
      SameEnds(AllFlags(Alike(x[..last], c)), FlagsOf(x[last]), AllFlags(Alike(y[..last], c)), FlagsOf(y[last]));
    } else {
      assert Alike(x, c) == Alike(x[..last], c) && Alike(y, c) == Alike(y[..last], c);
    }
  }

  lemma FlagsOfExtended(list: seq<Slot>, x: Slot)
    ensures AllFlags(list + [x]) == AllFlags(list) + [FlagsOf(x)]
  {
    hide FlagsOf;
  }

  lemma SameEnds<T>(a: seq<T>, x: T, b: seq<T>, y: T)
    requires a + [x] == b + [y]
    ensures a == b && x == y
  {
    assert |a| == |b|;
    assert (a + [x])[..|a|] == a && (b + [y])[..|b|] == b;
    assert (a + [x])[|a|] == (b + [y])[|b|];
  }

  lemma {:induction false} SameListSameWords(x: seq<Slot>, y: seq<Slot>, c: Content)
    requires SameList(x, y)
    ensures AllFlags(Alike(x, c)) == AllFlags(Alike(y, c))
  {
    hide ContentOf, FlagsOf;
    if x != [] {
      var last := |x| - 1;
      SameListSameWords(x[..last], y[..last], c);
    }
  }

  lemma RekeyedTells(x: Slot, y: Slot, n: nat, host: string)
    ensures Rekeyed(x, n, host) == Rekeyed(y, n, host) <==> ContentOf(x) == ContentOf(y) && FlagsOf(x) == FlagsOf(y)
  {
    hide Print;
    var p, q := Rekeyed(x, n, host), Rekeyed(y, n, host);
    if p == q {
      assert x.Keys == p.Keys == q.Keys == y.Keys;
      forall b | b in x ensures x[b].value == y[b].value && x[b].prefixed == y[b].prefixed {
        assert p[b] == q[b];
      }
    }
    if ContentOf(x) == ContentOf(y) && FlagsOf(x) == FlagsOf(y) {
      assert x.Keys == ContentOf(x).Keys && y.Keys == ContentOf(y).Keys;
      forall b | b in x ensures p[b] == q[b] {
        assert ContentOf(x)[b] == ContentOf(y)[b] && FlagsOf(x)[b] == FlagsOf(y)[b];
      }
      assert p == q;
    }
  }

  lemma {:induction false} GroupSize(list: seq<Slot>, start: nat, host: string)
    ensures |RenumberedGroup(list, start, host)| == |list|
  {
    hide Rekeyed;
    if list != [] {
      var last := |list| - 1;
      GroupSize(list[..last], start, host);
      RenumberedGroupAt(list[..last], start, host, start + last);
    }
  }

  lemma SameGroupsSameList(x: seq<Slot>, y: seq<Slot>, start: nat, host: string)
    ensures RenumberedGroup(x, start, host) == RenumberedGroup(y, start, host) <==> SameList(x, y)
  {
    hide Rekeyed, ContentOf, FlagsOf, RenumberedGroup;
    var p, q := RenumberedGroup(x, start, host), RenumberedGroup(y, start, host);
    forall n: nat ensures (n in p <==> start <= n < start + |x|) && (n in q <==> start <= n < start + |y|) {
      RenumberedGroupAt(x, start, host, n);
      RenumberedGroupAt(y, start, host, n);
    }
    if p == q {
      GroupSize(x, start, host);
      GroupSize(y, start, host);
      forall i | 0 <= i < |x| ensures ContentOf(x[i]) == ContentOf(y[i]) && FlagsOf(x[i]) == FlagsOf(y[i]) {
        RenumberedGroupAt(x, start, host, start + i);
        RenumberedGroupAt(y, start, host, start + i);
        RekeyedTells(x[i], y[i], start + i, host);
      }
    }
    if SameList(x, y) {
      forall n | n in p ensures p[n] == q[n] {
        RenumberedGroupAt(x, start, host, n);
        RenumberedGroupAt(y, start, host, n);
        RekeyedTells(x[n - start], y[n - start], n, host);
      }
      assert p == q;
    }
  }

  // ------------------------------------------------------------------ tables

  /** What any merge of the services holds in its slots. */
  function Table(ds: seq<Dict>, site: Site): Slots {
    Renumbered(Sorted(Collected(ds, site)), site.start, site.host)
  }

  lemma SortedWord(ds: seq<Dict>, site: Site, g: string, c: Content)
    ensures AllFlags(Alike(StableSort(Listed(Collected(ds, site), g)), c)) == WordOfAll(ds, site, g, c)
  {
    hide Collected, StableSort, Alike;
    SortIsStable(Listed(Collected(ds, site), g), c);
    CollectedWord(ds, site, g, c);
  }

  /** Two orders spell the same words in a group. */
  ghost predicate SameWords(a: seq<Dict>, b: seq<Dict>, site: Site, g: string) {
    forall c :: WordOfAll(a, site, g, c) == WordOfAll(b, site, g, c)
  }

  lemma SortedListsSame(a: seq<Dict>, b: seq<Dict>, site: Site, g: string)
    requires multiset(a) == multiset(b)
    ensures SameList(StableSort(Listed(Collected(a, site), g)), StableSort(Listed(Collected(b, site), g)))
            <==> SameWords(a, b, site, g)
  {
    hide Collected, StableSort, Alike, ContentOf, Word, SameList, AllFlags;
    var x, y := StableSort(Listed(Collected(a, site), g)), StableSort(Listed(Collected(b, site), g));
    SortedGroupsAgree(a, b, site, g);
    forall c ensures AllFlags(Alike(x, c)) == WordOfAll(a, site, g, c)
             ensures AllFlags(Alike(y, c)) == WordOfAll(b, site, g, c) {
      SortedWord(a, site, g, c);
      SortedWord(b, site, g, c);
    }
    if SameWords(a, b, site, g) {
      SameWordsSameList(x, y);
    } else if SameList(x, y) {
      forall c ensures AllFlags(Alike(x, c)) == AllFlags(Alike(y, c)) { SameListSameWords(x, y, c); }
    }
  }

  lemma TableAt(ds: seq<Dict>, site: Site, g: string)
    ensures g in Table(ds, site) <==> g in Collected(ds, site)
    ensures g in Table(ds, site) ==>
              Table(ds, site)[g] == RenumberedGroup(StableSort(Listed(Collected(ds, site), g)), site.start, site.host)
  {
    hide Collected, StableSort, RenumberedGroup;
  }

  /** Two orders of the same services make the same table exactly if they spell the same words. */
  lemma SameTableIff(a: seq<Dict>, b: seq<Dict>, site: Site)
    requires multiset(a) == multiset(b)
    ensures Table(a, site) == Table(b, site)
            <==> forall g :: SameWords(a, b, site, g)
  {
    hide SameWords, Table;
    var p, q := Table(a, site), Table(b, site);
    forall g ensures g in p <==> g in q { SameTableAt(a, b, site, g); }
    if g :| !SameWords(a, b, site, g) {
      SameTableAt(a, b, site, g);
    } else {
      forall g | g in p ensures p[g] == q[g] { SameTableAt(a, b, site, g); }
      assert p == q;
    }
  }

  lemma SameTableAt(a: seq<Dict>, b: seq<Dict>, site: Site, g: string)
    requires multiset(a) == multiset(b)
    ensures g in Table(a, site) <==> g in Table(b, site)
    ensures g in Table(a, site) && g in Table(b, site) ==>
              (Table(a, site)[g] == Table(b, site)[g] <==> SameWords(a, b, site, g))
    ensures g !in Table(a, site) ==> SameWords(a, b, site, g)
  {
    hide Collected, StableSort, RenumberedGroup, SameWords, Table, SameList;
    TableAt(a, site, g);
    TableAt(b, site, g);
    if g in Collected(a, site) { SameGroups(a, b, site, g); }
    if g in Collected(b, site) { SameGroups(b, a, site, g); }
    SortedListsSame(a, b, site, g);
    var x, y := StableSort(Listed(Collected(a, site), g)), StableSort(Listed(Collected(b, site), g));
    SameGroupsSameList(x, y, site.start, site.host);
    if g !in Table(a, site) { SameAsEmpty(x, y); }
  }

  lemma SameAsEmpty(x: seq<Slot>, y: seq<Slot>)
    requires x == [] && y == []
    ensures SameList(x, y)
  {
  }

  // ------------------------------------------------------------------ exactly when

  /** The services with the ones at the two places moved to the front, in this or the other order. */
  lemma TwoInFront(ds: seq<Dict>, i: nat, j: nat) returns (rest: seq<Dict>)
    requires i < j < |ds|
    ensures multiset([ds[i], ds[j]] + rest) == multiset(ds) == multiset([ds[j], ds[i]] + rest)
  {
    rest := ds[..i] + ds[i + 1..j] + ds[j + 1..];
    assert ds == ds[..i] + [ds[i]] + ds[i + 1..j] + [ds[j]] + ds[j + 1..];
  }

  lemma WordOfTwo(d: Dict, e: Dict, rest: seq<Dict>, site: Site, g: string, c: Content)
    ensures WordOfAll([d, e] + rest, site, g, c)
            == Word(d, site, g, c) + Word(e, site, g, c) + WordOfAll(rest, site, g, c)
  {
    hide Word;
    WordOfJoined([d, e], rest, site, g, c);
    assert [d, e][..1] == [d] && [d][..0] == [];
    assert WordOfAll([d], site, g, c) == Word(d, site, g, c);
  }

  /** Any merges of the two orders hold the same slots, under the same keys. */
  ghost predicate MergesAgree(a: seq<Dict>, b: seq<Dict>, site: Site) {
    forall r, s :: MergeOf(a, site, r) && MergeOf(b, site, s) ==>
      SlotsOf(r, site.lookup, site.host) == SlotsOf(s, site.lookup, site.host)
  }

  lemma MergesAgreeIff(a: seq<Dict>, b: seq<Dict>, site: Site)
    requires Clean(site) && AllValid(a) && AllValid(b)
    ensures MergesAgree(a, b, site) <==> Table(a, site) == Table(b, site)
  {
    hide Clean, AllValid, MergeOf, SlotsOf, Renumbered, Sorted, Collected;
    forall r, s | MergeOf(a, site, r) && MergeOf(b, site, s)
      ensures SlotsOf(r, site.lookup, site.host) == Table(a, site)
      ensures SlotsOf(s, site.lookup, site.host) == Table(b, site)
    {
      MergedIs(a, site, r);
      MergedIs(b, site, s);
    }
    var r := SomeMerge(a, site);
    var s := SomeMerge(b, site);
  }

  lemma PermutedValid(a: seq<Dict>, ds: seq<Dict>)
    requires multiset(a) == multiset(ds) && AllValid(ds)
    ensures AllValid(a)
  {
    hide Dict.Valid;
    forall i | 0 <= i < |a| ensures a[i].Valid() { SameMembers(a, ds, i); }
  }

  /**
    Over all orders the accepted services may come in, the slots of the merged service and their
    keys are the same if and only if for every content the flags of any two services commute.
   */
  lemma KeysForgetOrderIff(ds: seq<Dict>, site: Site)
    requires Clean(site) && AllValid(ds)
    ensures (forall a, b :: multiset(a) == multiset(ds) == multiset(b) ==> MergesAgree(a, b, site))
            <==> FlagsCommute(ds, site)
  {
    hide Clean, AllValid, MergesAgree, WordOfAll, Table, Commute;
    if FlagsCommute(ds, site) {
      forall a, b | multiset(a) == multiset(ds) == multiset(b) ensures MergesAgree(a, b, site) {
        CommutingMergesAgree(ds, a, b, site);
      }
    } else {
      var d, e, g, c :| d in ds && e in ds && !Commute(d, e, site, g, c);
      var i :| 0 <= i < |ds| && ds[i] == d;
      var j :| 0 <= j < |ds| && ds[j] == e;
      assert i != j by { if i == j { CommutesWithItself(d, site, g, c); } }
      if i < j {
        OtherOrderDiffers(ds, i, j, site, g, c);
      } else {
        CommutesBack(e, d, site, g, c);
        OtherOrderDiffers(ds, j, i, site, g, c);
      }
    }
  }

  lemma CommutesWithItself(d: Dict, site: Site, g: string, c: Content)
    ensures Commute(d, d, site, g, c)
  {
    hide Word;
  }

  lemma CommutesBack(d: Dict, e: Dict, site: Site, g: string, c: Content)
    ensures Commute(d, e, site, g, c) <==> Commute(e, d, site, g, c)
  {
    hide Word;
  }

  lemma CommutingMergesAgree(ds: seq<Dict>, a: seq<Dict>, b: seq<Dict>, site: Site)
    requires Clean(site) && AllValid(ds) && FlagsCommute(ds, site)
    requires multiset(a) == multiset(ds) == multiset(b)
    ensures MergesAgree(a, b, site)
  {
    hide Clean, AllValid, MergesAgree, WordOfAll, Table, Commute;
    PermutedValid(a, ds);
    PermutedValid(b, ds);
    forall d, e, g, c | d in b && e in b ensures Commute(d, e, site, g, c) {
      assert d in multiset(ds) && e in multiset(ds);
    }
    forall g ensures SameWords(a, b, site, g) {
      forall c ensures WordOfAll(a, site, g, c) == WordOfAll(b, site, g, c) { WordForgetsOrder(a, b, site, g, c); }
    }
    SameTableIff(a, b, site);
    MergesAgreeIff(a, b, site);
  }

  lemma OtherOrderDiffers(ds: seq<Dict>, i: nat, j: nat, site: Site, g: string, c: Content)
    requires Clean(site) && AllValid(ds) && i < j < |ds| && !Commute(ds[i], ds[j], site, g, c)
    ensures exists a, b :: multiset(a) == multiset(ds) == multiset(b) && !MergesAgree(a, b, site)
  {
    hide Clean, AllValid, MergesAgree, WordOfAll, Table, Word;
    var rest := TwoInFront(ds, i, j);
    var a, b := [ds[i], ds[j]] + rest, [ds[j], ds[i]] + rest;
    PermutedValid(a, ds);
    PermutedValid(b, ds);
    WordOfTwo(ds[i], ds[j], rest, site, g, c);
    WordOfTwo(ds[j], ds[i], rest, site, g, c);
    var v, w := Word(ds[i], site, g, c), Word(ds[j], site, g, c);
    assert WordOfAll(a, site, g, c)[..|v| + |w|] == v + w && WordOfAll(b, site, g, c)[..|v| + |w|] == w + v;
    assert !SameWords(a, b, site, g);
    SameTableIff(a, b, site);
    MergesAgreeIff(a, b, site);
  }

  // ------------------------------------------------------------------ one flag for all

  ghost predicate UniformTable(slots: Slots, flag: bool) {
    forall g, n, b :: Holds(slots, g, n, b) ==> CellAt(slots, g, n, b).prefixed == flag
  }

  lemma UniformLetters(d: Dict, site: Site, flag: bool, g: string, c: Content)
    requires UniformTable(SlotsOf(d, site.lookup, site.host), flag)
    ensures forall i :: 0 <= i < |Word(d, site, g, c)| ==> Word(d, site, g, c)[i] == map b | b in c :: flag
  {
    hide SlotsOf, InOrder;
    var slots := SlotsOf(d, site.lookup, site.host);
    var list := Found(slots, g);
    forall x | x in Alike(list, c) ensures FlagsOf(x) == map b | b in c :: flag {
      AlikeIsListed(list, c, x);
      InOrderHolds(slots[g], x);
      var n :| n in slots[g] && slots[g][n] == x;
      assert x.Keys == ContentOf(x).Keys;
      forall b | b in x ensures x[b].prefixed == flag { assert Holds(slots, g, n, b); }
    }
  }

  lemma {:induction false} AlikeIsListed(list: seq<Slot>, c: Content, x: Slot)
    requires x in Alike(list, c)
    ensures x in list && ContentOf(x) == c
  {
    hide ContentOf;
    var last := |list| - 1;
    if x in Alike(list[..last], c) { AlikeIsListed(list[..last], c, x); }
  }

  /** When all services prefix their slots, or none does, the keys do not depend on the order. */
  lemma UniformMergeForgetsOrder(a: seq<Dict>, b: seq<Dict>, site: Site, r: Dict, s: Dict, flag: bool)
    requires Clean(site) && AllValid(a) && AllValid(b) && multiset(a) == multiset(b)
    requires MergeOf(a, site, r) && MergeOf(b, site, s)
    requires forall d :: d in a ==> UniformTable(SlotsOf(d, site.lookup, site.host), flag)
    ensures SlotsOf(r, site.lookup, site.host) == SlotsOf(s, site.lookup, site.host)
  {
    hide Clean, AllValid, MergeOf, SlotsOf, UniformTable, Word;
    forall d, e, g, c | d in a && e in a ensures Commute(d, e, site, g, c) {
      UniformLetters(d, site, flag, g, c);
      UniformLetters(e, site, flag, g, c);
      var v, w := Word(d, site, g, c), Word(e, site, g, c);
      assert v + w == w + v;
    }
    CommutingMergesAgree(a, a, b, site);
    assert MergesAgree(a, b, site);
  }

  // ------------------------------------------------------------------ there is a merge

  lemma {:induction false} SomeWritten(before: map<string, string>, all: SlotLists, start: nat, host: string,
                                       done: set<Place>) returns (after: map<string, string>)
    requires forall p :: p in done ==> IsPlace(all, p)
    ensures WrittenPlaces(before, after, all, start, host, done)
    decreases done
  {
    hide WrittenPlaces, IsPlace, KeyOf, CellOf;
    if done == {} {
      NothingWritten(before, all, start, host);
      after := before;
    } else {
      var p :| p in done;
      after := SomeWritten(before, all, start, host, done - {p});
      WriteOnePlace(before, after, all, start, host, done - {p}, p);
      after := after[KeyOf(all, start, host, p) := CellOf(all, p).value];
      assert done - {p} + {p} == done;
    }
  }

  lemma {:induction false} SomeDict(at: map<string, string>) returns (d: Dict)
    ensures d.Valid() && d.at == at
    decreases |at|
  {
    hide Dict.Valid;
    if at == map[] {
      NewIsValid();
      d := Dict([], map[]);
    } else {
      var k :| k in at;
      d := SomeDict(at - {k});
      PutKeepsValid(d, k, at[k]);
      d := d.Put(k, at[k]);
    }
  }

  /** Services that can be merged have a merge. */
  lemma SomeMerge(ds: seq<Dict>, site: Site) returns (r: Dict)
    ensures MergeOf(ds, site, r)
  {
    hide ScalarsOfAll, Collected, Sorted, SwitchesOf, WrittenPlaces, Dict.Valid;
    var all := Sorted(Collected(ds, site));
    var places := set g, i, b | g in all && 0 <= i < |all[g]| && b in all[g][i] :: Place(g, i, b);
    assert IsEveryPlace(all, places);
    var written := SomeWritten(ScalarsOfAll(ds, site), all, site.start, site.host, places);
    assert Written(ScalarsOfAll(ds, site), written, all, site.start, site.host);
    r := SomeDict(written + Yes(SwitchesOf(ds, site)));
  }
}
