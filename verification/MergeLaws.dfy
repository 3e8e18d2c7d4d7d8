/**
  What merging services by host guarantees: no slot is lost or made up, the order of the services
  does not matter to the slots, merging twice is merging once, and nothing crosses namespaces.
 */
module MergeLaws {
  import opened Ordering
  import opened Text
  import opened SlotKeys
  import opened SlotTables
  import opened SlotSort
  import opened ServiceMerge
  import opened Wrappers

  /** Slots can be told from each other and from the settings the merge handles by name. */
  ghost predicate Clean(site: Site) {
    && Unambiguous(site.lookup, site.host)
    && forall k :: k in SWITCHES + {"SERVER_NAME"} ==> !IsSlotKey(k, site.lookup, site.host)
  }

  ghost predicate AllValid(ds: seq<Dict>) {
    forall i :: 0 <= i < |ds| ==> ds[i].Valid()
  }

  lemma ValidParts(ds: seq<Dict>)
    requires AllValid(ds) && ds != []
    ensures AllValid(ds[..|ds| - 1]) && ds[|ds| - 1].Valid()
  {
  }

  // ------------------------------------------------------------------ the pooled lists

  /** A slot that may be in the list of a group. */
  ghost predicate Belongs(slot: Slot, g: string, lookup: Lookup) {
    slot != map[] && forall b :: b in slot ==> b in lookup && lookup[b] == g
  }

  ghost predicate AllBelong(lists: SlotLists, lookup: Lookup) {
    forall g :: g in lists ==> lists[g] != [] && forall x :: x in lists[g] ==> Belongs(x, g, lookup)
  }

  lemma {:induction false} InOrderHolds(numbered: map<nat, Slot>, x: Slot)
    ensures x in InOrder(numbered) <==> exists n :: n in numbered && numbered[n] == x
    decreases |numbered|
  {
    if numbered != map[] {
      var least := LeastNumber(numbered.Keys);
      InOrderHolds(numbered - {least}, x);
      if n :| n in numbered - {least} && (numbered - {least})[n] == x {
        assert numbered[n] == x;
      }
      if n :| n in numbered && numbered[n] == x {
        assert n == least || n in numbered - {least};
      }
    }
  }

  lemma SlotsBelong(d: Dict, lookup: Lookup, host: string, g: string, n: nat)
    requires d.Valid() && g in SlotsOf(d, lookup, host) && n in SlotsOf(d, lookup, host)[g]
    ensures Belongs(SlotsOf(d, lookup, host)[g][n], g, lookup)
  {
    hide SlotsOf, StandsFor, Dict.Valid;
    var slots := SlotsOf(d, lookup, host);
    assert NoEmptyParts(slots) by { TableHasNoEmptyParts(d, lookup, host); }
    assert NoEmptySlot(slots[g]);
    forall b | b in slots[g][n] ensures b in lookup && lookup[b] == g {
      SlotsOfHolds(d, lookup, host, g, n, b);
      assert Holds(slots, g, n, b);
    }
  }

  lemma TableHasNoEmptyParts(d: Dict, lookup: Lookup, host: string)
    ensures NoEmptyParts(SlotsOf(d, lookup, host))
  {
    ExtractedHasNoEmptyParts(d, |d.keys|, lookup, host);
  }

  lemma FoundBelong(d: Dict, lookup: Lookup, host: string, g: string)
    requires d.Valid()
    ensures var slots := SlotsOf(d, lookup, host);
            && (g in slots ==> Found(slots, g) != [])
            && forall x :: x in Found(slots, g) ==> Belongs(x, g, lookup)
  {
    hide SlotsOf, Belongs, Dict.Valid;
    var slots := SlotsOf(d, lookup, host);
    TableHasNoEmptyParts(d, lookup, host);
    if g in slots {
      assert NoEmptySlot(slots[g]);
      forall x | x in Found(slots, g) ensures Belongs(x, g, lookup) {
        InOrderHolds(slots[g], x);
        var n :| n in slots[g] && slots[g][n] == x;
        SlotsBelong(d, lookup, host, g, n);
      }
    }
  }

  lemma {:induction false} CollectedBelong(ds: seq<Dict>, site: Site)
    requires AllValid(ds)
    ensures AllBelong(Collected(ds, site), site.lookup)
  {
    hide SlotsOf, Belongs, Dict.Valid, Found;
    if ds != [] {
      ValidParts(ds);
      var last := |ds| - 1;
      var front, slots := Collected(ds[..last], site), SlotsOf(ds[last], site.lookup, site.host);
      CollectedBelong(ds[..last], site);
      forall g | g in Pooled(front, slots)
        ensures Pooled(front, slots)[g] != [] && forall x :: x in Pooled(front, slots)[g] ==> Belongs(x, g, site.lookup)
      {
        FoundBelong(ds[last], site.lookup, site.host, g);
      }
    }
  }

  lemma SortedIsWellGrouped(lists: SlotLists, lookup: Lookup)
    requires AllBelong(lists, lookup)
    ensures WellGrouped(Sorted(lists), lookup)
  {
    hide StableSort;
    var sorted := Sorted(lists);
    forall g, i | g in sorted && 0 <= i < |sorted[g]| ensures Belongs(sorted[g][i], g, lookup) {
      SortKeepsMembers(lists[g]);
      assert sorted[g][i] in lists[g];
    }
    forall p | IsPlace(sorted, p) ensures p.base in lookup && lookup[p.base] == p.group {
      assert Belongs(sorted[p.group][p.index], p.group, lookup);
    }
  }

  lemma {:induction false} ScalarsHoldNoSlots(ds: seq<Dict>, site: Site)
    ensures forall k :: k in ScalarsOfAll(ds, site) ==> !IsSlotKey(k, site.lookup, site.host)
  {
    hide IsSlotKey, Copies;
    if ds != [] { ScalarsHoldNoSlots(ds[..|ds| - 1], site); }
  }

  // ------------------------------------------------------------------ the merged service

  /** Switches are no slots, so setting them before or after the slots are written is the same. */
  lemma SwitchesAreApart(before: map<string, string>, written: map<string, string>, all: SlotLists, site: Site,
                         on: set<string>)
    requires Clean(site) && WellGrouped(all, site.lookup) && on <= SWITCHES
    requires Written(before, written, all, site.start, site.host)
    ensures Written(before + Yes(on), written + Yes(on), all, site.start, site.host)
  {
    hide Unambiguous, WellGrouped, IsSlotKey, Print;
    var done :| WrittenPlaces(before, written, all, site.start, site.host, done) && IsEveryPlace(all, done);
    forall key ensures KeyWritten(before + Yes(on), written + Yes(on), all, site.start, site.host, done, key) {
      assert KeyWritten(before, written, all, site.start, site.host, done, key);
      if IsTarget(all, site.start, site.host, done, key) {
        var p :| p in done && WritesTo(all, site.start, site.host, p, key);
        PlaceReadsBack(all, site.start, site.lookup, site.host, p);
        assert IsSlotKey(key, site.lookup, site.host) by { IsSlotWhenParsed(key, site); }
      }
    }
  }

  lemma IsSlotWhenParsed(key: string, site: Site)
    requires Parse(key, site.lookup, site.host).Some?
    ensures IsSlotKey(key, site.lookup, site.host)
  {
  }

  lemma SwitchesAreSwitches(ds: seq<Dict>, site: Site)
    ensures SwitchesOf(ds, site) <= SWITCHES
  {
  }

  /** The merged service, taken apart again: the sorted pool, the last scalars and the switches. */
  lemma MergedIs(ds: seq<Dict>, site: Site, r: Dict)
    requires Clean(site) && AllValid(ds) && MergeOf(ds, site, r)
    ensures SlotsOf(r, site.lookup, site.host) == Renumbered(Sorted(Collected(ds, site)), site.start, site.host)
    ensures ScalarsOf(r.at, site.lookup, site.host) == ScalarsOfAll(ds, site) + Yes(SwitchesOf(ds, site))
  {
    hide Written, WellGrouped, Unambiguous, Sorted, Collected, ScalarsOfAll, SwitchesOf, SlotsOf, Renumbered,
        ScalarsOf, Dict.Valid, IsSlotKey, AllBelong;
    var all := Sorted(Collected(ds, site));
    var scalars, on := ScalarsOfAll(ds, site), SwitchesOf(ds, site);
    var written :| Written(scalars, written, all, site.start, site.host) && r.at == written + Yes(on);
    CollectedBelong(ds, site);
    SortedIsWellGrouped(Collected(ds, site), site.lookup);
    SwitchesAreSwitches(ds, site);
    SwitchesAreApart(scalars, written, all, site, on);
    ScalarsHoldNoSlots(ds, site);
    WrittenSlotsReadBack(scalars + Yes(on), r, all, site.start, site.lookup, site.host);
  }

  // ------------------------------------------------------------------ conservation

  function Numbers(numbered: map<nat, Slot>, c: Content): set<nat> {
    set n | n in numbered && ContentOf(numbered[n]) == c
  }

  /** How many slots of a group have the given settings and values. */
  function Occurrences(slots: Slots, g: string, c: Content): nat {
    if g in slots then |Numbers(slots[g], c)| else 0
  }

  function Total(ds: seq<Dict>, site: Site, g: string, c: Content): nat {
    if ds == [] then 0
    else
      var last := |ds| - 1;
      Total(ds[..last], site, g, c) + Occurrences(SlotsOf(ds[last], site.lookup, site.host), g, c)
  }

  lemma NumbersWithout(numbered: map<nat, Slot>, n: nat, c: Content)
    requires n in numbered
    ensures |Numbers(numbered, c)| == |Numbers(numbered - {n}, c)| + if ContentOf(numbered[n]) == c then 1 else 0
  {
    hide ContentOf;
    var all, rest := Numbers(numbered, c), Numbers(numbered - {n}, c);
    assert n !in rest;
    forall m: nat | m != n ensures m in all <==> m in rest {}
    if ContentOf(numbered[n]) == c {
      assert all == rest + {n};
    } else {
      assert all == rest;
    }
  }

  lemma {:induction false} InOrderCounts(numbered: map<nat, Slot>, c: Content)
    ensures |Alike(InOrder(numbered), c)| == |Numbers(numbered, c)|
    decreases |numbered|
  {
    hide ContentOf, Numbers, Alike;
    if numbered != map[] {
      var n := LeastNumber(numbered.Keys);
      var rest := numbered - {n};
      InOrderCounts(rest, c);
      AlikeOfJoined([numbered[n]], InOrder(rest), c);
      AlikeOfOne(numbered[n], c);
      NumbersWithout(numbered, n, c);
    } else {
      NothingToCount(c);
    }
  }

  lemma NothingToCount(c: Content)
    ensures Numbers(map[], c) == {} && Alike([], c) == []
  {
  }

  lemma AlikeOfOne(slot: Slot, c: Content)
    ensures Alike([slot], c) == if ContentOf(slot) == c then [slot] else []
  {
    assert [slot][..0] == [];
  }

  lemma {:induction false} CollectedCounts(ds: seq<Dict>, site: Site, g: string, c: Content)
    ensures |Alike(Listed(Collected(ds, site), g), c)| == Total(ds, site, g, c)
  {
    hide SlotsOf, InOrder, Numbers, ContentOf;
    if ds != [] {
      var last := |ds| - 1;
      var front, slots := Collected(ds[..last], site), SlotsOf(ds[last], site.lookup, site.host);
      CollectedCounts(ds[..last], site, g, c);
      AlikeOfJoined(Listed(front, g), Found(slots, g), c);
      assert Listed(Pooled(front, slots), g) == Listed(front, g) + Found(slots, g);
      if g in slots { InOrderCounts(slots[g], c); }
    }
  }

  lemma RekeyedKeepsContent(slot: Slot, number: nat, host: string)
    ensures ContentOf(Rekeyed(slot, number, host)) == ContentOf(slot)
  {
    hide Print;
  }

  lemma {:induction false} RenumberedCounts(list: seq<Slot>, start: nat, host: string, c: Content)
    ensures |Numbers(RenumberedGroup(list, start, host), c)| == |Alike(list, c)|
  {
    hide Rekeyed, ContentOf, Numbers;
    if list != [] {
      var last := |list| - 1;
      var front, number := RenumberedGroup(list[..last], start, host), start + last;
      RenumberedCounts(list[..last], start, host, c);
      RekeyedKeepsContent(list[last], number, host);
      RenumberedGroupAt(list[..last], start, host, number);
      var all := RenumberedGroup(list, start, host);
      NumbersWithout(all, number, c);
      assert all - {number} == front;
    } else {
      NothingToCount(c);
    }
  }

  lemma SortedCounts(lists: SlotLists, start: nat, host: string, g: string, c: Content)
    ensures Occurrences(Renumbered(Sorted(lists), start, host), g, c) == |Alike(Listed(lists, g), c)|
  {
    hide StableSort, Numbers, RenumberedGroup;
    if g in lists {
      RenumberedCounts(StableSort(lists[g]), start, host, c);
      SortIsStable(lists[g], c);
    }
  }

  /**
    Merging conserves slots: in every group, every combination of settings and values occurs in
    the merged service exactly as often as in the accepted services together.
   */
  lemma MergeConservesSlots(ds: seq<Dict>, site: Site, r: Dict, g: string, c: Content)
    requires Clean(site) && AllValid(ds) && MergeOf(ds, site, r)
    ensures Occurrences(SlotsOf(r, site.lookup, site.host), g, c) == Total(ds, site, g, c)
  {
    hide *;
    MergedIs(ds, site, r);
    SortedCounts(Collected(ds, site), site.start, site.host, g, c);
    CollectedCounts(ds, site, g, c);
  }

  /** The merged slots of a group are numbered without gaps from the configured start. */
  lemma MergedNumbersAreConsecutive(ds: seq<Dict>, site: Site, r: Dict, g: string, n: nat)
    requires Clean(site) && AllValid(ds) && MergeOf(ds, site, r) && g in SlotsOf(r, site.lookup, site.host)
    ensures n in SlotsOf(r, site.lookup, site.host)[g]
            <==> site.start <= n < site.start + |Listed(Collected(ds, site), g)|
  {
    hide Clean, MergeOf, StableSort, Collected, SlotsOf;
    MergedIs(ds, site, r);
    var lists := Collected(ds, site);
    assert g in lists;
    RenumberedGroupAt(StableSort(lists[g]), site.start, site.host, n);
  }

  /**
    The merged slots are numbered in ascending order of what they contain: at the first pair of a
    setting and a value in which two of them differ, the lower number has the smaller one.
   */
  lemma MergedSlotsAscend(ds: seq<Dict>, site: Site, r: Dict, g: string, n: nat, m: nat)
    requires Clean(site) && AllValid(ds) && MergeOf(ds, site, r) && g in SlotsOf(r, site.lookup, site.host)
    requires n < m && n in SlotsOf(r, site.lookup, site.host)[g] && m in SlotsOf(r, site.lookup, site.host)[g]
    ensures var slots := SlotsOf(r, site.lookup, site.host)[g];
            var a, b := SortedItems(ContentOf(slots[n])), SortedItems(ContentOf(slots[m]));
            a <= b || exists k :: 0 <= k < |a| && k < |b| && a[..k] == b[..k] && PairFirst(a[k], b[k])
  {
    hide Clean, MergeOf, StableSort, Collected, SlotsOf, SortedItems, ItemsOrder, PairFirst, ContentOf, AllValid, Rekeyed;
    MergedIs(ds, site, r);
    var list := StableSort(Collected(ds, site)[g]);
    RenumberedGroupAt(list, site.start, site.host, n);
    RenumberedGroupAt(list, site.start, site.host, m);
    RekeyedKeepsContent(list[n - site.start], n, site.host);
    RekeyedKeepsContent(list[m - site.start], m, site.host);
    SortIsStable(Collected(ds, site)[g], map[]);
    assert Before(list[n - site.start], list[m - site.start]);
    ItemsOrderIff(SortedItems(ContentOf(list[n - site.start])), SortedItems(ContentOf(list[m - site.start])));
  }

  // ------------------------------------------------------------------ order independence

  lemma {:induction false} TotalOfJoined(a: seq<Dict>, b: seq<Dict>, site: Site, g: string, c: Content)
    ensures Total(a + b, site, g, c) == Total(a, site, g, c) + Total(b, site, g, c)
  {
    hide SlotsOf, Occurrences;
    if b == [] {
      assert a + b == a;
    } else {
      var last := |b| - 1;
      assert (a + b)[..|a + b| - 1] == a + b[..last];
      TotalOfJoined(a, b[..last], site, g, c);
    }
  }

  lemma {:induction false} TotalForgetsOrder(a: seq<Dict>, b: seq<Dict>, site: Site, g: string, c: Content)
    requires multiset(a) == multiset(b)
    ensures Total(a, site, g, c) == Total(b, site, g, c)
  {
    hide SlotsOf, Occurrences;
    SameSize(a, b);
    if a != [] {
      var last := |a| - 1;
      var d := a[last];
      assert d in multiset(b);
      var i :| 0 <= i < |b| && b[i] == d;
      var rest := b[..i] + b[i + 1..];
      RestAfterRemoval(a, b, i);
      TotalForgetsOrder(a[..last], rest, site, g, c);
      TotalAfterRemoval(b, i, site, g, c);
    }
  }

  lemma RestAfterRemoval(a: seq<Dict>, b: seq<Dict>, i: nat)
    requires multiset(a) == multiset(b) && a != [] && i < |b| && b[i] == a[|a| - 1]
    ensures multiset(a[..|a| - 1]) == multiset(b[..i] + b[i + 1..])
  {
    hide *;
    TakenOut(a, |a| - 1);
    TakenOut(b, i);
    assert a[..|a| - 1] + a[|a|..] == a[..|a| - 1];
    SameRest(multiset(a[..|a| - 1]), multiset(b[..i] + b[i + 1..]), b[i]);
  }

  lemma TakenOut<T>(xs: seq<T>, i: nat)
    requires i < |xs|
    ensures multiset(xs) == multiset(xs[..i] + xs[i + 1..]) + multiset{xs[i]}
  {
    assert xs == xs[..i] + [xs[i]] + xs[i + 1..];
  }

  lemma SameRest<T>(m: multiset<T>, n: multiset<T>, x: T)
    requires m + multiset{x} == n + multiset{x}
    ensures m == n
  {
    assert m == m + multiset{x} - multiset{x};
    assert n == n + multiset{x} - multiset{x};
  }

  lemma TotalAfterRemoval(b: seq<Dict>, i: nat, site: Site, g: string, c: Content)
    requires i < |b|
    ensures Total(b, site, g, c)
            == Total(b[..i] + b[i + 1..], site, g, c) + Occurrences(SlotsOf(b[i], site.lookup, site.host), g, c)
  {
    hide SlotsOf, Occurrences;
    var head, tail := b[..i + 1], b[i + 1..];
    assert b == head + tail && head[..i] == b[..i];
    TotalOfJoined(head, tail, site, g, c);
    TotalOfJoined(b[..i], tail, site, g, c);
  }

  lemma {:induction false} GroupsCollected(ds: seq<Dict>, site: Site, g: string)
    ensures g in Collected(ds, site) <==> exists i :: 0 <= i < |ds| && g in SlotsOf(ds[i], site.lookup, site.host)
  {
    hide SlotsOf, Found, Listed;
    if ds != [] {
      var last := |ds| - 1;
      GroupsCollected(ds[..last], site, g);
      if i :| 0 <= i < |ds| && g in SlotsOf(ds[i], site.lookup, site.host) {
        assert i < last ==> ds[..last][i] == ds[i];
      }
      if i :| 0 <= i < last && g in SlotsOf(ds[..last][i], site.lookup, site.host) {
        assert ds[..last][i] == ds[i];
      }
    }
  }

  lemma SameMembers(a: seq<Dict>, b: seq<Dict>, i: nat)
    requires multiset(a) == multiset(b) && i < |a|
    ensures exists j :: 0 <= j < |b| && b[j] == a[i]
  {
    assert a[i] in multiset(b);
  }

  lemma SameGroups(a: seq<Dict>, b: seq<Dict>, site: Site, g: string)
    requires multiset(a) == multiset(b) && g in Collected(a, site)
    ensures g in Collected(b, site)
  {
    GroupsCollected(a, site, g);
    GroupsCollected(b, site, g);
    var i :| 0 <= i < |a| && g in SlotsOf(a[i], site.lookup, site.host);
    SameMembers(a, b, i);
  }

  lemma SameSwitches(a: seq<Dict>, b: seq<Dict>, site: Site, k: string)
    requires multiset(a) == multiset(b) && k in SwitchesOf(a, site)
    ensures k in SwitchesOf(b, site)
  {
    hide TurnsOn, ScalarsOf;
    var i :| 0 <= i < |a| && TurnsOn(ScalarsOf(a[i].at, site.lookup, site.host), site.host, k);
    SameMembers(a, b, i);
  }

  /** Two tables with the same groups and numbers, and the same settings and values in each slot. */
  ghost predicate SameContents(a: Slots, b: Slots) {
    && a.Keys == b.Keys
    && forall g :: g in a ==> && a[g].Keys == b[g].Keys
                              && forall n :: n in a[g] ==> ContentOf(a[g][n]) == ContentOf(b[g][n])
  }

  lemma SortedGroupsAgree(a: seq<Dict>, b: seq<Dict>, site: Site, g: string)
    requires multiset(a) == multiset(b)
    ensures var x, y := StableSort(Listed(Collected(a, site), g)), StableSort(Listed(Collected(b, site), g));
            |x| == |y| && forall i :: 0 <= i < |x| ==> ContentOf(x[i]) == ContentOf(y[i])
  {
    hide Collected, StableSort, ContentOf;
    forall c ensures |Alike(Listed(Collected(a, site), g), c)| == |Alike(Listed(Collected(b, site), g), c)| {
      CollectedCounts(a, site, g, c);
      CollectedCounts(b, site, g, c);
      TotalForgetsOrder(a, b, site, g, c);
    }
    SortForgetsOrder(Listed(Collected(a, site), g), Listed(Collected(b, site), g));
  }

  lemma RenumberedAgree(x: seq<Slot>, y: seq<Slot>, start: nat, host: string)
    requires |x| == |y| && forall i :: 0 <= i < |x| ==> ContentOf(x[i]) == ContentOf(y[i])
    ensures var p, q := RenumberedGroup(x, start, host), RenumberedGroup(y, start, host);
            p.Keys == q.Keys && forall n :: n in p ==> ContentOf(p[n]) == ContentOf(q[n])
  {
    hide ContentOf, Rekeyed;
    var p, q := RenumberedGroup(x, start, host), RenumberedGroup(y, start, host);
    forall n: nat ensures n in p <==> n in q
             ensures n in p && n in q ==> ContentOf(p[n]) == ContentOf(q[n]) {
      RenumberedGroupAt(x, start, host, n);
      RenumberedGroupAt(y, start, host, n);
      if n in p {
        RekeyedKeepsContent(x[n - start], n, host);
        RekeyedKeepsContent(y[n - start], n, host);
      }
    }
  }

  lemma PoolsAgree(a: seq<Dict>, b: seq<Dict>, site: Site)
    requires multiset(a) == multiset(b)
    ensures SameContents(Renumbered(Sorted(Collected(a, site)), site.start, site.host),
                         Renumbered(Sorted(Collected(b, site)), site.start, site.host))
  {
    hide Collected, StableSort, ContentOf, RenumberedGroup;
    forall g ensures g in Collected(a, site) <==> g in Collected(b, site) {
      if g in Collected(a, site) { SameGroups(a, b, site, g); }
      if g in Collected(b, site) { SameGroups(b, a, site, g); }
    }
    var x, y := Renumbered(Sorted(Collected(a, site)), site.start, site.host), Renumbered(Sorted(Collected(b,
        site)), site.start, site.host);
    forall g | g in x ensures x[g].Keys == y[g].Keys && forall n :: n in x[g] ==> ContentOf(x[g][n]) == ContentOf(y[g][n]) {
      SortedGroupsAgree(a, b, site, g);
      RenumberedAgree(StableSort(Collected(a, site)[g]), StableSort(Collected(b, site)[g]), site.start, site.host);
    }
  }

  /**
    The slots of the merged service, and the switches, do not depend on the order the accepted
    services come in.
   */
  lemma MergeForgetsOrder(a: seq<Dict>, b: seq<Dict>, site: Site, r: Dict, s: Dict)
    requires Clean(site) && AllValid(a) && AllValid(b) && multiset(a) == multiset(b)
    requires MergeOf(a, site, r) && MergeOf(b, site, s)
    ensures SameContents(SlotsOf(r, site.lookup, site.host), SlotsOf(s, site.lookup, site.host))
    ensures SwitchesOf(a, site) == SwitchesOf(b, site)
  {
    hide Clean, MergeOf, SwitchesOf, SameContents, Collected, SlotsOf;
    MergedIs(a, site, r);
    MergedIs(b, site, s);
    PoolsAgree(a, b, site);
    forall k ensures k in SwitchesOf(a, site) <==> k in SwitchesOf(b, site) {
      if k in SwitchesOf(a, site) { SameSwitches(a, b, site, k); }
      if k in SwitchesOf(b, site) { SameSwitches(b, a, site, k); }
    }
  }

  lemma {:induction false} AcceptedAll(owner: Option<string>, ds: seq<Dict>)
    requires forall i :: 0 <= i < |ds| ==> Namespace(ds[i]) == owner
    ensures AcceptedBy(owner, ds) == ds
  {
    if ds != [] { AcceptedAll(owner, ds[..|ds| - 1]); }
  }

  /** For a whole group of one namespace: any order of its services gives the same slots and switches. */
  lemma GroupForgetsOrder(a: seq<Dict>, b: seq<Dict>, site: Site, r: Dict, s: Dict)
    requires a != [] && Clean(site) && AllValid(a) && AllValid(b) && multiset(a) == multiset(b)
    requires forall i :: 0 <= i < |a| ==> Namespace(a[i]) == Namespace(a[0])
    requires Outcome(a, site, r) && Outcome(b, site, s)
    ensures SameContents(SlotsOf(r, site.lookup, site.host), SlotsOf(s, site.lookup, site.host))
    ensures |a| > 1 ==> forall k :: k in SWITCHES && !(Prefix(site.host) <= k) ==> (k in r.at <==> k in s.at)
  {
    hide *;
    SameSize(a, b);
    if |a| == 1 {
      LoneOutcome(a, b, site, r, s);
      SameAsItself(SlotsOf(r, site.lookup, site.host));
    } else {
      MergedOutcome(a, site, r);
      OneNamespace(a, b);
      MergedOutcome(b, site, s);
      MergeForgetsOrder(a, b, site, r, s);
      forall k | k in SWITCHES && !(Prefix(site.host) <= k) ensures k in r.at <==> k in s.at {
        MergedSwitches(a, site, r, k);
        MergedSwitches(b, site, s, k);
      }
    }
  }

  lemma SameSize(a: seq<Dict>, b: seq<Dict>)
    requires multiset(a) == multiset(b)
    ensures |a| == |b|
  {
    assert |multiset(a)| == |multiset(b)|;
  }

  lemma LoneOutcome(a: seq<Dict>, b: seq<Dict>, site: Site, r: Dict, s: Dict)
    requires multiset(a) == multiset(b) && |a| == 1 && |b| == 1
    requires Outcome(a, site, r) && Outcome(b, site, s)
    ensures r == s
  {
    SameMembers(a, b, 0);
  }

  lemma OneNamespace(a: seq<Dict>, b: seq<Dict>)
    requires multiset(a) == multiset(b) && a != [] && |a| == |b|
    requires forall i :: 0 <= i < |a| ==> Namespace(a[i]) == Namespace(a[0])
    ensures forall i :: 0 <= i < |b| ==> Namespace(b[i]) == Namespace(b[0])
  {
    hide Namespace;
    forall i | 0 <= i < |b| ensures Namespace(b[i]) == Namespace(a[0]) { SameMembers(b, a, i); }
  }

  lemma MergedOutcome(a: seq<Dict>, site: Site, r: Dict)
    requires |a| > 1 && Outcome(a, site, r)
    requires forall i :: 0 <= i < |a| ==> Namespace(a[i]) == Namespace(a[0])
    ensures MergeOf(a, site, r)
  {
    hide Namespace, MergeOf;
    AcceptedAll(Namespace(a[0]), a);
  }

  lemma MergedSwitches(ds: seq<Dict>, site: Site, r: Dict, k: string)
    requires Clean(site) && AllValid(ds) && MergeOf(ds, site, r)
    requires k in SWITCHES && !(Prefix(site.host) <= k)
    ensures k in r.at <==> k in SwitchesOf(ds, site)
  {
    hide Clean, AllValid, MergeOf, TurnsOn, ScalarsOf;
    SwitchesAreOred(ds, site, r, k);
  }

  lemma SameAsItself(t: Slots)
    ensures SameContents(t, t)
  {
  }

  // ------------------------------------------------------------------ switches

  lemma {:induction false} SwitchesAreNotCopied(ds: seq<Dict>, site: Site, k: string)
    requires k in SWITCHES && !(Prefix(site.host) <= k)
    ensures k !in ScalarsOfAll(ds, site)
  {
    hide ScalarsOf;
    if ds != [] { SwitchesAreNotCopied(ds[..|ds| - 1], site, k); }
  }

  /** A switch is on in the merged service exactly when some accepted service turns it on; otherwise it is absent. */
  lemma SwitchesAreOred(ds: seq<Dict>, site: Site, r: Dict, k: string)
    requires Clean(site) && AllValid(ds) && MergeOf(ds, site, r)
    requires k in SWITCHES && !(Prefix(site.host) <= k)
    ensures k in r.at <==> exists i :: 0 <= i < |ds| && TurnsOn(ScalarsOf(ds[i].at, site.lookup, site.host),
        site.host, k)
    ensures k in r.at ==> r.at[k] == "yes"
  {
    hide MergeOf, ScalarsOfAll, TurnsOn, IsSlotKey, Unambiguous, Prefix, Dict.Valid;
    MergedIs(ds, site, r);
    SwitchesAreNotCopied(ds, site, k);
    assert !IsSlotKey(k, site.lookup, site.host);
    var scalars := ScalarsOf(r.at, site.lookup, site.host);
    assert k in r.at <==> k in scalars;
    assert k in scalars <==> k in SwitchesOf(ds, site);
  }

  /** A service says yes in upper or lower case. */
  lemma YesInAnyCase(s: string)
    ensures Lower(s) == "yes" <==> |s| == 3 && s[0] in "yY" && s[1] in "eE" && s[2] in "sS"
  {
    if |s| == 3 {
      assert Lower(s) == [LowerChar(s[0]), LowerChar(s[1]), LowerChar(s[2])];
    }
  }

  /** The service has the key as a scalar, and its value reads yes. */
  ghost predicate ReadsYes(d: Dict, key: string, site: Site) {
    && key in d.at && !IsSlotKey(key, site.lookup, site.host)
    && |d.at[key]| == 3 && d.at[key][0] in "yY" && d.at[key][1] in "eE" && d.at[key][2] in "sS"
  }

  lemma TurnsOnReads(d: Dict, site: Site, k: string)
    ensures TurnsOn(ScalarsOf(d.at, site.lookup, site.host), site.host, k)
            <==> ReadsYes(d, k, site) || ReadsYes(d, site.host + "_" + k, site)
  {
    hide IsSlotKey;
    forall key ensures SaysYes(ScalarsOf(d.at, site.lookup, site.host), key) <==> ReadsYes(d, key, site) {
      if key in d.at { YesInAnyCase(d.at[key]); }
    }
  }

  lemma {:induction false} CopiedYesIsRead(ds: seq<Dict>, site: Site, k: string)
    requires k in ScalarsOfAll(ds, site) && ScalarsOfAll(ds, site)[k] == "yes"
    ensures exists i :: 0 <= i < |ds| && ReadsYes(ds[i], k, site)
  {
    hide IsSlotKey, Copies;
    var last := |ds| - 1;
    if k in CopiedOf(ScalarsOf(ds[last].at, site.lookup, site.host), site.host) {
      assert ReadsYes(ds[last], k, site);
    } else {
      CopiedYesIsRead(ds[..last], site, k);
      var i :| 0 <= i < last && ReadsYes(ds[..last][i], k, site);
      assert ReadsYes(ds[i], k, site);
    }
  }

  /**
    Whether the merged service uses a reverse proxy, gRPC or certificates of its own: it says yes
    if and only if one of the accepted services does, under the plain name or behind the host's
    prefix, in whatever case. Nothing is left behind the prefix, and nothing else is said under
    the plain name.
   */
  lemma SwitchIsYesIff(ds: seq<Dict>, site: Site, r: Dict, k: string)
    requires Clean(site) && AllValid(ds) && MergeOf(ds, site, r)
    requires k == "USE_REVERSE_PROXY" || k == "USE_GRPC" || k == "USE_CUSTOM_SSL"
    ensures (k in r.at && r.at[k] == "yes")
            <==> exists i :: 0 <= i < |ds| && (ReadsYes(ds[i], k, site) || ReadsYes(ds[i], site.host + "_" + k, site))
    ensures k in r.at && r.at[k] != "yes" ==> site.host + "_" <= k
    ensures site.host + "_" + k in r.at ==> IsSlotKey(site.host + "_" + k, site.lookup, site.host)
  {
    hide MergeOf, ScalarsOfAll, IsSlotKey, SwitchesOf, AllValid, ReadsYes, Prefix;
    assert !IsSlotKey(k, site.lookup, site.host) && k in SWITCHES;
    hide Clean;
    MergedScalarAt(ds, site, r, k);
    SwitchIsOnIff(ds, site, k);
    if k in ScalarsOfAll(ds, site) && ScalarsOfAll(ds, site)[k] == "yes" { CopiedYesIsRead(ds, site, k); }
    if !(Prefix(site.host) <= k) { SwitchesAreNotCopied(ds, site, k); }
    assert Prefix(site.host) == site.host + "_" by { PrefixIs(site.host); }
    var key := site.host + "_" + k;
    LongerThanSwitches(site.host, k);
    PrefixedSwitchIsNotCopied(ds, site, k);
    SwitchesAreSwitches(ds, site);
    if !IsSlotKey(key, site.lookup, site.host) { MergedScalarAt(ds, site, r, key); }
  }

  lemma PrefixIs(host: string)
    ensures Prefix(host) == host + "_"
  {
  }

  /** What the merged service says under a key that is no slot. */
  lemma MergedScalarAt(ds: seq<Dict>, site: Site, r: Dict, key: string)
    requires Clean(site) && AllValid(ds) && MergeOf(ds, site, r) && !IsSlotKey(key, site.lookup, site.host)
    ensures key in r.at <==> key in SwitchesOf(ds, site) || key in ScalarsOfAll(ds, site)
    ensures key in r.at ==>
              r.at[key] == if key in SwitchesOf(ds, site) then "yes" else ScalarsOfAll(ds, site)[key]
  {
    hide MergeOf, ScalarsOfAll, IsSlotKey, Clean, AllValid, SwitchesOf;
    MergedIs(ds, site, r);
    assert key in r.at <==> key in ScalarsOf(r.at, site.lookup, site.host);
  }

  lemma SwitchIsOnIff(ds: seq<Dict>, site: Site, k: string)
    requires k in SWITCHES
    ensures k in SwitchesOf(ds, site)
            <==> exists i :: 0 <= i < |ds| && (ReadsYes(ds[i], k, site) || ReadsYes(ds[i], site.host + "_" + k, site))
  {
    hide TurnsOn, ReadsYes, ScalarsOf;
    forall i | 0 <= i < |ds|
      ensures TurnsOn(ScalarsOf(ds[i].at, site.lookup, site.host), site.host, k)
              <==> ReadsYes(ds[i], k, site) || ReadsYes(ds[i], site.host + "_" + k, site)
    {
      TurnsOnReads(ds[i], site, k);
    }
  }

  /** No switch, nor a name the merge keeps, is another switch behind a prefix. */
  lemma LongerThanSwitches(host: string, k: string)
    requires k in SWITCHES
    ensures host + "_" + k !in SWITCHES + {"SERVER_NAME", "NAMESPACE"}
  {
    var key := host + "_" + k;
    assert |key| > |k| && key[|key| - 1] == k[|k| - 1];
    assert k[|k| - 1] in "YCL";
  }

  lemma {:induction false} PrefixedSwitchIsNotCopied(ds: seq<Dict>, site: Site, k: string)
    requires k in SWITCHES
    ensures site.host + "_" + k !in ScalarsOfAll(ds, site)
  {
    hide ScalarsOf;
    if ds != [] {
      PrefixedSwitchIsNotCopied(ds[..|ds| - 1], site, k);
      var key := site.host + "_" + k;
      assert Prefix(site.host) <= key && key[|Prefix(site.host)|..] == k;
      assert key !in SWITCHES by { LongerThanSwitches(site.host, k); }
    }
  }

  // ------------------------------------------------------------------ scalars

  /** A switch, under its own name or behind the prefix. */
  ghost predicate IsSwitch(key: string, host: string) {
    key in SWITCHES || (Prefix(host) <= key && key[|Prefix(host)|..] in SWITCHES)
  }

  ghost predicate HasScalar(d: Dict, site: Site, key: string) {
    key in ScalarsOf(d.at, site.lookup, site.host)
  }

  /** A scalar of any accepted service is in the merged one, with the value of the last service that has it. */
  lemma {:induction false} LastScalarWins(ds: seq<Dict>, site: Site, key: string, i: nat)
    requires !IsSwitch(key, site.host) && i < |ds| && HasScalar(ds[i], site, key)
    requires forall j :: i < j < |ds| ==> !HasScalar(ds[j], site, key)
    ensures key in ScalarsOfAll(ds, site) && ScalarsOfAll(ds, site)[key] == ds[i].at[key]
  {
    hide HasScalar, ScalarsOf, CopiedOf;
    var last := |ds| - 1;
    CopiedScalar(ds[last], site, key);
    if i < last {
      assert !HasScalar(ds[last], site, key);
      assert forall j :: i < j < last ==> ds[..last][j] == ds[j];
      LastScalarWins(ds[..last], site, key, i);
    }
  }

  lemma CopiedScalar(d: Dict, site: Site, key: string)
    requires !IsSwitch(key, site.host)
    ensures var copied := CopiedOf(ScalarsOf(d.at, site.lookup, site.host), site.host);
            && (key in copied <==> HasScalar(d, site, key))
            && (key in copied ==> key in d.at && copied[key] == d.at[key])
  {
    hide IsSlotKey, Prefix;
  }

  /** The same, read off the merged service. */
  lemma MergeKeepsLastScalar(ds: seq<Dict>, site: Site, r: Dict, key: string, i: nat)
    requires Clean(site) && AllValid(ds) && MergeOf(ds, site, r)
    requires !IsSwitch(key, site.host) && i < |ds| && HasScalar(ds[i], site, key)
    requires forall j :: i < j < |ds| ==> !HasScalar(ds[j], site, key)
    ensures key in r.at && r.at[key] == ds[i].at[key]
  {
    hide Clean, AllValid, MergeOf, HasScalar, ScalarsOfAll, SlotsOf, Renumbered, Sorted, Collected, IsSlotKey;
    MergedIs(ds, site, r);
    LastScalarWins(ds, site, key, i);
    SwitchesAreSwitches(ds, site);
    assert key in ScalarsOf(r.at, site.lookup, site.host);
  }

  // ------------------------------------------------------------------ namespaces

  /** Both have the same namespace, or neither has one. */
  ghost predicate Compatible(a: Option<string>, b: Option<string>) {
    a == b || (a in {None, Some("")} && b in {None, Some("")})
  }

  lemma {:induction false} AcceptedExactly(owner: Option<string>, ds: seq<Dict>, d: Dict)
    ensures multiset(AcceptedBy(owner, ds))[d] == if Compatible(owner, Namespace(d)) then multiset(ds)[d] else 0
  {
    hide Namespace, Accepts, Compatible;
    if ds != [] {
      var last := |ds| - 1;
      AcceptedExactly(owner, ds[..last], d);
      AcceptsIsCompatible(owner, Namespace(ds[last]));
      assert ds == ds[..last] + [ds[last]];
      CountOfExtended(ds[..last], ds[last], d);
      CountOfExtended(AcceptedBy(owner, ds[..last]), ds[last], d);
    }
  }

  lemma CountOfExtended(ds: seq<Dict>, e: Dict, d: Dict)
    ensures multiset(ds + [e])[d] == multiset(ds)[d] + (if e == d then 1 else 0)
  {
  }

  lemma {:induction false} AcceptedAreAcceptable(owner: Option<string>, ds: seq<Dict>, d: Dict)
    ensures d in AcceptedBy(owner, ds) <==> d in ds && Accepts(owner, Namespace(d))
  {
    hide Accepts, Namespace;
    if ds != [] {
      var last := |ds| - 1;
      AcceptedAreAcceptable(owner, ds[..last], d);
      assert ds == ds[..last] + [ds[last]];
    }
  }

  /** A service has a namespace if it has a value for it that is not empty. */
  predicate SameNamespace(d: Dict, e: Dict) {
    if ("NAMESPACE" in d.at && d.at["NAMESPACE"] != "") || ("NAMESPACE" in e.at && e.at["NAMESPACE"] != "") then
      "NAMESPACE" in d.at && "NAMESPACE" in e.at && d.at["NAMESPACE"] == e.at["NAMESPACE"]
    else true
  }

  /** A service takes part in the merge of its host exactly if it and the first one have one namespace, or none. */
  lemma TakesPartIff(group: seq<Dict>, d: Dict)
    requires group != []
    ensures d in Accepted(group) <==> d in group && SameNamespace(group[0], d)
  {
    hide AcceptedBy;
    AcceptedAreAcceptable(Namespace(group[0]), group, d);
  }

  lemma AcceptsIsCompatible(a: Option<string>, b: Option<string>)
    ensures Accepts(a, b) <==> Compatible(a, b)
  {
  }

  /** The setting a key stands for, whatever its number. */
  ghost predicate SameSetting(a: string, b: string, site: Site) {
    a == b || (&& IsSlotKey(a, site.lookup, site.host) && IsSlotKey(b, site.lookup, site.host)
               && Parse(a, site.lookup, site.host).value.base == Parse(b, site.lookup, site.host).value.base
               && Parse(a, site.lookup, site.host).value.prefixed == Parse(b, site.lookup, site.host).value.prefixed)
  }

  /** The service gives the setting of `key` the value. */
  ghost predicate Gives(d: Dict, key: string, value: string, site: Site) {
    exists k :: k in d.at && d.at[k] == value && SameSetting(k, key, site)
  }

  ghost predicate SomeoneGives(ds: seq<Dict>, key: string, value: string, site: Site) {
    exists i :: 0 <= i < |ds| && Gives(ds[i], key, value, site)
  }

  lemma {:induction false} ScalarsAreGiven(ds: seq<Dict>, site: Site, key: string)
    requires key in ScalarsOfAll(ds, site)
    ensures SomeoneGives(ds, key, ScalarsOfAll(ds, site)[key], site)
  {
    hide Copies, IsSlotKey;
    var last := |ds| - 1;
    if key in CopiedOf(ScalarsOf(ds[last].at, site.lookup, site.host), site.host) {
      assert SameSetting(key, key, site);
      assert Gives(ds[last], key, ds[last].at[key], site);
    } else {
      ScalarsAreGiven(ds[..last], site, key);
      var i :| 0 <= i < last && Gives(ds[..last][i], key, ScalarsOfAll(ds[..last], site)[key], site);
      assert ds[..last][i] == ds[i];
    }
  }

  /** A pooled slot is one of the slots of some service. */
  ghost predicate ComesFrom(ds: seq<Dict>, site: Site, g: string, x: Slot, i: nat, n: nat) {
    && i < |ds|
    && g in SlotsOf(ds[i], site.lookup, site.host)
    && n in SlotsOf(ds[i], site.lookup, site.host)[g]
    && SlotsOf(ds[i], site.lookup, site.host)[g][n] == x
  }

  lemma {:induction false} PooledComeFromServices(ds: seq<Dict>, site: Site, g: string, x: Slot)
    requires x in Listed(Collected(ds, site), g)
    ensures exists i: nat, n: nat :: ComesFrom(ds, site, g, x, i, n)
  {
    hide SlotsOf, InOrder;
    var last := |ds| - 1;
    var front, slots := Collected(ds[..last], site), SlotsOf(ds[last], site.lookup, site.host);
    if x in Found(slots, g) {
      InOrderHolds(slots[g], x);
      var n :| n in slots[g] && slots[g][n] == x;
      assert ComesFrom(ds, site, g, x, last, n);
    } else {
      PooledComeFromServices(ds[..last], site, g, x);
      var i: nat, n: nat :| ComesFrom(ds[..last], site, g, x, i, n);
      assert ComesFrom(ds, site, g, x, i, n);
    }
  }

  lemma SlotCellsAreGiven(ds: seq<Dict>, site: Site, r: Dict, key: string)
    requires Clean(site) && AllValid(ds) && MergeOf(ds, site, r)
    requires key in r.at && IsSlotKey(key, site.lookup, site.host)
    ensures SomeoneGives(ds, key, r.at[key], site)
  {
    hide MergeOf, Unambiguous, ScalarsOfAll, SwitchesOf, Collected, Renumbered, Sorted, Dict.Valid, SlotsOf, Written;
    MergeIsWritten(ds, site, r);
    var written :| && Written(ScalarsOfAll(ds, site), written, Sorted(Collected(ds, site)), site.start, site.host)
                   && r.at == written + Yes(SwitchesOf(ds, site));
    SlotValueIsGiven(ds, site, r, written, key);
  }

  lemma MergeIsWritten(ds: seq<Dict>, site: Site, r: Dict)
    requires MergeOf(ds, site, r)
    ensures r.Valid()
    ensures exists written ::
              && Written(ScalarsOfAll(ds, site), written, Sorted(Collected(ds, site)), site.start, site.host)
              && r.at == written + Yes(SwitchesOf(ds, site))
  {
  }

  lemma SlotValueIsGiven(ds: seq<Dict>, site: Site, r: Dict, written: map<string, string>, key: string)
    requires Clean(site) && AllValid(ds) && r.Valid()
    requires Written(ScalarsOfAll(ds, site), written, Sorted(Collected(ds, site)), site.start, site.host)
    requires r.at == written + Yes(SwitchesOf(ds, site))
    requires key in r.at && IsSlotKey(key, site.lookup, site.host)
    ensures SomeoneGives(ds, key, r.at[key], site)
  {
    hide Unambiguous, ScalarsOfAll, SwitchesOf, Collected, StableSort, Dict.Valid, SlotsOf, Written, Parse,
        WellGrouped, AllBelong, Print;
    var lists := Collected(ds, site);
    var all := Sorted(lists);
    var on := SwitchesOf(ds, site);
    CollectedBelong(ds, site);
    SortedIsWellGrouped(lists, site.lookup);
    SwitchesAreSwitches(ds, site);
    SwitchesAreApart(ScalarsOfAll(ds, site), written, all, site, on);
    ScalarsHoldNoSlots(ds, site);
    WrittenKeysAreExact(ScalarsOfAll(ds, site) + Yes(on), r, all, site.start, site.lookup, site.host, key);
    var p :| WritesTo(all, site.start, site.host, p, key) && r.at[key] == CellOf(all, p).value;
    PlaceReadsBack(all, site.start, site.lookup, site.host, p);
    var x: Slot := all[p.group][p.index];
    SortKeepsMembers(lists[p.group]);
    assert x in Listed(lists, p.group);
    PooledComeFromServices(ds, site, p.group, x);
    var i: nat, n: nat :| ComesFrom(ds, site, p.group, x, i, n);
    SlotsOfHolds(ds[i], site.lookup, site.host, p.group, n, p.base);
    var k := x[p.base].key;
    assert StandsFor(ds[i], site.lookup, site.host, n, p.base, k);
    assert SameSetting(k, key, site);
    assert Gives(ds[i], key, r.at[key], site);
  }

  /**
    Nothing crosses namespaces: apart from the switches, every value in the merged service was
    given to the same setting by a service of the group that may share the host with the first one.
   */
  lemma MergeKeepsNamespacesApart(group: seq<Dict>, site: Site, r: Dict, key: string)
    requires group != [] && Clean(site) && AllValid(group)
    requires MergeOf(Accepted(group), site, r) && key in r.at
    ensures || (key in SWITCHES && r.at[key] == "yes")
            || exists d :: d in group && Compatible(Namespace(group[0]), Namespace(d)) && Gives(d, key, r.at[key], site)
  {
    hide MergeOf, Accepts, Compatible, Gives, Unambiguous, ScalarsOfAll, SwitchesOf, IsSlotKey, Namespace, Dict.Valid;
    var ds := Accepted(group);
    var owner := Namespace(group[0]);
    forall i | 0 <= i < |ds| ensures ds[i].Valid() && ds[i] in group && Compatible(owner, Namespace(ds[i])) {
      AcceptedAreAcceptable(owner, group, ds[i]);
      AcceptsIsCompatible(owner, Namespace(ds[i]));
    }
    assert SomeoneGives(ds, key, r.at[key], site) || (key in SWITCHES && r.at[key] == "yes") by {
      MergedIs(ds, site, r);
      SwitchesAreSwitches(ds, site);
      if IsSlotKey(key, site.lookup, site.host) {
        SlotCellsAreGiven(ds, site, r, key);
      } else {
        assert key in ScalarsOf(r.at, site.lookup, site.host);
        if key !in SwitchesOf(ds, site) { ScalarsAreGiven(ds, site, key); }
      }
    }
  }

  // ------------------------------------------------------------------ canonical form

  lemma {:induction false} ServerNameOfAll(ds: seq<Dict>, site: Site)
    requires !IsSlotKey("SERVER_NAME", site.lookup, site.host)
    requires forall i :: 0 <= i < |ds| ==> Primary(ds[i]) == site.host
    ensures var scalars := ScalarsOfAll(ds, site);
            && ("SERVER_NAME" in scalars ==> FirstWord(scalars["SERVER_NAME"]) == site.host)
            && ("SERVER_NAME" !in scalars && ds != [] ==> FirstWord("") == site.host)
  {
    hide IsSlotKey, FirstWord;
    if ds != [] { ServerNameOfAll(ds[..|ds| - 1], site); }
  }

  lemma MergedKeepsPrimary(ds: seq<Dict>, site: Site, r: Dict)
    requires Clean(site) && AllValid(ds) && MergeOf(ds, site, r) && ds != []
    requires forall i :: 0 <= i < |ds| ==> Primary(ds[i]) == site.host
    ensures Primary(r) == site.host
  {
    hide MergeOf, ScalarsOfAll, SwitchesOf, IsSlotKey, FirstWord, Unambiguous, Dict.Valid;
    MergedIs(ds, site, r);
    ServerNameOfAll(ds, site);
    SwitchesAreSwitches(ds, site);
    var scalars := ScalarsOf(r.at, site.lookup, site.host);
    assert "SERVER_NAME" in r.at <==> "SERVER_NAME" in scalars;
  }

  lemma OwnerIsAccepted(ds: seq<Dict>)
    requires ds != []
    ensures Accepted(ds) != []
  {
    AcceptedAreAcceptable(Namespace(ds[0]), ds, ds[0]);
  }

  lemma OutcomeKeepsPrimary(ds: seq<Dict>, p: string, lookup: Lookup, start: nat, r: Dict)
    requires AllValid(ds) && Clean(Site(lookup, p, start)) && OutcomeFor(ds, p, lookup, start, r)
    ensures Primary(r) == p
  {
    hide Clean, MergeOf, Primary, Positions, Dict.Valid, Accepted;
    var group := GroupOf(ds, p);
    if |group| > 1 {
      OwnerIsAccepted(group);
      forall i | 0 <= i < |Accepted(group)| ensures Accepted(group)[i] in group { AcceptedAreMembers(group, i); }
      MergedKeepsPrimary(Accepted(group), Site(lookup, p, start), r);
    }
  }

  lemma AcceptedAreMembers(group: seq<Dict>, i: nat)
    requires group != [] && i < |Accepted(group)|
    ensures Accepted(group)[i] in group
  {
    AcceptedAreAcceptable(Namespace(group[0]), group, Accepted(group)[i]);
  }

  /** The conditions for every host of the services. */
  ghost predicate CleanHosts(ds: seq<Dict>, lookup: Lookup, start: nat) {
    forall p :: p in Primaries(ds) ==> Clean(Site(lookup, p, start))
  }

  /** The result has one service for each host, in the order the hosts were first seen. */
  lemma MergeIsCanonical(ds: seq<Dict>, lookup: Lookup, start: nat, rs: seq<Dict>)
    requires AllValid(ds) && CleanHosts(ds, lookup, start) && Merges(ds, lookup, start, rs)
    ensures Primaries(rs) == FirstSeen(Primaries(ds))
    ensures Distinct(Primaries(rs))
  {
    hide Clean, OutcomeFor, Primary, Dict.Valid, FirstSeen;
    var order := FirstSeen(Primaries(ds));
    FirstSeenExactly(Primaries(ds));
    forall i | 0 <= i < |rs| ensures Primary(rs[i]) == order[i] {
      assert order[i] in Primaries(ds);
      OutcomeKeepsPrimary(ds, order[i], lookup, start, rs[i]);
    }
  }

  lemma {:induction false} DistinctAreFirstSeen(ps: seq<string>)
    requires Distinct(ps)
    ensures FirstSeen(ps) == ps
  {
    if ps != [] {
      var last := |ps| - 1;
      DistinctAreFirstSeen(ps[..last]);
      assert ps == ps[..last] + [ps[last]];
    }
  }

  lemma {:induction false} DistinctHaveOnePosition(ps: seq<string>, i: nat)
    requires Distinct(ps) && i < |ps|
    ensures Positions(ps, ps[i]) == [i]
  {
    var last := |ps| - 1;
    if i < last {
      DistinctHaveOnePosition(ps[..last], i);
      assert ps[last] != ps[i];
    } else {
      SeenHasPositions(ps[..last], ps[i]);
    }
  }

  /** Services with different hosts pass through unchanged. */
  lemma DistinctHostsPassThrough(ds: seq<Dict>, lookup: Lookup, start: nat, rs: seq<Dict>)
    requires Distinct(Primaries(ds)) && Merges(ds, lookup, start, rs)
    ensures rs == ds
  {
    hide MergeOf, Primary, Positions, FirstSeen, Accepted;
    var ps := Primaries(ds);
    DistinctAreFirstSeen(ps);
    forall i | 0 <= i < |rs| ensures rs[i] == ds[i] {
      DistinctHaveOnePosition(ps, i);
      assert OutcomeFor(ds, ps[i], lookup, start, rs[i]);
    }
  }

  /** Merging what was merged changes nothing. */
  lemma MergeIsIdempotent(ds: seq<Dict>, lookup: Lookup, start: nat, rs: seq<Dict>, again: seq<Dict>)
    requires AllValid(ds) && CleanHosts(ds, lookup, start)
    requires Merges(ds, lookup, start, rs) && Merges(rs, lookup, start, again)
    ensures again == rs
  {
    hide *;
    MergeIsCanonical(ds, lookup, start, rs);
    DistinctHostsPassThrough(rs, lookup, start, again);
  }

  /**
    Over the whole list of services: whatever hosts there are, the service that stands for a host
    holds the slots of the accepted services of that host, each as often as they do.
   */
  lemma HostsKeepTheirSlots(ds: seq<Dict>, lookup: Lookup, start: nat, rs: seq<Dict>, i: nat, g: string, c: Content)
    requires AllValid(ds) && CleanHosts(ds, lookup, start) && Merges(ds, lookup, start, rs) && i < |rs|
    ensures var p := FirstSeen(Primaries(ds))[i];
            && GroupOf(ds, p) != []
            && Occurrences(SlotsOf(rs[i], lookup, p), g, c) == Total(Accepted(GroupOf(ds, p)), Site(lookup, p,
                start), g, c)
  {
    hide Clean, MergeOf, Primary, Positions, Dict.Valid, Accepted, FirstSeen, SlotsOf, Occurrences;
    var p := FirstSeen(Primaries(ds))[i];
    FirstSeenExactly(Primaries(ds));
    assert p in Primaries(ds);
    assert OutcomeFor(ds, p, lookup, start, rs[i]);
    var group, site := GroupOf(ds, p), Site(lookup, p, start);
    if |group| == 1 {
      LoneIsAccepted(group);
      LoneTotal(group[0], site, g, c);
    } else {
      forall k | 0 <= k < |Accepted(group)| ensures Accepted(group)[k] in group { AcceptedAreMembers(group, k); }
      MergeConservesSlots(Accepted(group), site, rs[i], g, c);
    }
  }

  lemma LoneIsAccepted(group: seq<Dict>)
    requires |group| == 1
    ensures Accepted(group) == [group[0]]
  {
    AcceptedAll(Namespace(group[0]), group);
  }

  lemma LoneTotal(d: Dict, site: Site, g: string, c: Content)
    ensures Total([d], site, g, c) == Occurrences(SlotsOf(d, site.lookup, site.host), g, c)
  {
    hide Occurrences, SlotsOf;
    assert [d][..0] == [];
  }
}
