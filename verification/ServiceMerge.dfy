/**
  Folding the services that share a primary host into one: their slots are pooled, sorted and
  renumbered, their scalars overwrite one another in order, and a few switches are or-ed.
 */
module ServiceMerge {
  import opened Text
  import opened SlotKeys
  import opened SlotTables
  import opened SlotSort
  import opened Wrappers

  /** What a merge depends on besides the services. */
  datatype Site = Site(lookup: Lookup, host: string, start: nat)

  // ------------------------------------------------------------------ namespaces

  function Namespace(d: Dict): Option<string> {
    if "NAMESPACE" in d.at then Some(d.at["NAMESPACE"]) else None
  }

  predicate IsSet(namespace: Option<string>) {
    namespace.Some? && namespace.value != ""
  }

  /** If either of the two has a namespace, they must agree. */
  predicate Accepts(owner: Option<string>, namespace: Option<string>) {
    IsSet(owner) || IsSet(namespace) ==> namespace == owner
  }

  function AcceptedBy(owner: Option<string>, ds: seq<Dict>): seq<Dict> {
    if ds == [] then []
    else
      var last := |ds| - 1;
      AcceptedBy(owner, ds[..last]) + (if Accepts(owner, Namespace(ds[last])) then [ds[last]] else [])
  }

  /** The services that may take part: the first one owns the host. */
  function Accepted(ds: seq<Dict>): seq<Dict>
    requires ds != []
  {
    AcceptedBy(Namespace(ds[0]), ds)
  }

  // ------------------------------------------------------------------ slots

  predicate IsLeastNumber(numbers: set<nat>, n: nat) {
    n in numbers && forall x :: x in numbers ==> n <= x
  }

  lemma {:induction false} SomeLeastNumber(numbers: set<nat>)
    requires numbers != {}
    ensures exists n :: IsLeastNumber(numbers, n)
  {
    var x :| x in numbers;
    var rest := numbers - {x};
    if rest == {} {
      assert numbers == {x};
      assert IsLeastNumber(numbers, x);
    } else {
      SomeLeastNumber(rest);
      var y :| IsLeastNumber(rest, y);
      var n := if x <= y then x else y;
      forall z | z in numbers ensures n <= z {
        assert z == x || z in rest;
      }
      assert IsLeastNumber(numbers, n);
    }
  }

  function LeastNumber(numbers: set<nat>): (n: nat)
    requires numbers != {}
    ensures IsLeastNumber(numbers, n)
  {
    SomeLeastNumber(numbers);
    var n :| IsLeastNumber(numbers, n);
    n
  }

  /** The slots of a service in ascending order of their numbers. */
  function InOrder(numbered: map<nat, Slot>): (list: seq<Slot>)
    ensures |list| == |numbered|
    decreases |numbered|
  {
    if numbered == map[] then []
    else
      var n := LeastNumber(numbered.Keys);
      [numbered[n]] + InOrder(numbered - {n})
  }

  /** The numbers of the slots in ascending order. */
  function Ascending(numbers: set<nat>): (ns: seq<nat>)
    decreases |numbers|
  {
    if numbers == {} then [] else [LeastNumber(numbers)] + Ascending(numbers - {LeastNumber(numbers)})
  }

  lemma {:induction false} AscendingAscends(numbers: set<nat>, n: nat)
    ensures n in Ascending(numbers) <==> n in numbers
    ensures forall i, j :: 0 <= i < j < |Ascending(numbers)| ==> Ascending(numbers)[i] < Ascending(numbers)[j]
    decreases |numbers|
  {
    if numbers != {} {
      var least := LeastNumber(numbers);
      var rest := Ascending(numbers - {least});
      AscendingAscends(numbers - {least}, n);
      forall j | 0 <= j < |rest| ensures least < rest[j] { AscendingAscends(numbers - {least}, rest[j]); }
    }
  }

  /** The list goes through all the numbers, from the lowest to the highest. */
  lemma {:induction false} InOrderAscends(numbered: map<nat, Slot>)
    ensures |InOrder(numbered)| == |Ascending(numbered.Keys)|
    ensures forall i :: 0 <= i < |InOrder(numbered)| ==>
              && Ascending(numbered.Keys)[i] in numbered
              && InOrder(numbered)[i] == numbered[Ascending(numbered.Keys)[i]]
    decreases |numbered|
  {
    if numbered != map[] {
      var n := LeastNumber(numbered.Keys);
      assert (numbered - {n}).Keys == numbered.Keys - {n};
      InOrderAscends(numbered - {n});
    }
  }

  function Listed(lists: SlotLists, group: string): seq<Slot> {
    if group in lists then lists[group] else []
  }

  function Found(slots: Slots, group: string): seq<Slot> {
    if group in slots then InOrder(slots[group]) else []
  }

  /** Appends the slots of one service to the lists of their groups. */
  function Pooled(lists: SlotLists, slots: Slots): SlotLists {
    map g | g in lists.Keys + slots.Keys :: Listed(lists, g) + Found(slots, g)
  }

  function Collected(ds: seq<Dict>, site: Site): SlotLists {
    if ds == [] then map[]
    else
      var last := |ds| - 1;
      Pooled(Collected(ds[..last], site), SlotsOf(ds[last], site.lookup, site.host))
  }

  function Sorted(lists: SlotLists): SlotLists {
    map g | g in lists :: StableSort(lists[g])
  }

  /** The innermost loop: the slots of one group, in order. */
  method PoolGroup(lists: SlotLists, group: string, numbered: map<nat, Slot>) returns (pooled: SlotLists)
    ensures pooled == lists[group := Listed(lists, group) + InOrder(numbered)]
  {
    hide InOrder;
    pooled := lists[group := Listed(lists, group)];
    var ordered := InOrder(numbered);
    ghost var listed := Listed(lists, group);
    assert listed + ordered[..0] == listed;
    for i := 0 to |ordered|
      invariant pooled == lists[group := Listed(lists, group) + ordered[..i]]
    {
      assert listed + ordered[..i + 1] == listed + ordered[..i] + [ordered[i]];
      pooled := pooled[group := pooled[group] + [ordered[i]]];
    }
    assert ordered[..|ordered|] == ordered;
  }

  /** The lists when the groups in `waiting` have not been looked at yet. */
  function PartlyPooled(lists: SlotLists, slots: Slots, waiting: set<string>): SlotLists {
    map g | g in lists.Keys + (slots.Keys - waiting) ::
      if g in waiting then Listed(lists, g) else Listed(lists, g) + Found(slots, g)
  }

  lemma PoolOneGroup(lists: SlotLists, slots: Slots, waiting: set<string>, group: string)
    requires group in waiting && group in slots
    ensures var before := PartlyPooled(lists, slots, waiting);
            PartlyPooled(lists, slots, waiting - {group})
            == before[group := Listed(before, group) + InOrder(slots[group])]
  {
    hide InOrder;
  }

  lemma PoolNothing(lists: SlotLists, slots: Slots)
    ensures PartlyPooled(lists, slots, slots.Keys) == lists
  {
    forall g | g in lists && g !in slots ensures Listed(lists, g) + Found(slots, g) == lists[g] {}
  }

  /** The loop over the groups of one service. */
  method Pool(lists: SlotLists, slots: Slots) returns (pooled: SlotLists)
    ensures pooled == Pooled(lists, slots)
  {
    hide InOrder, PartlyPooled;
    pooled := lists;
    var groups := slots.Keys;
    PoolNothing(lists, slots);
    while groups != {}
      invariant groups <= slots.Keys
      invariant pooled == PartlyPooled(lists, slots, groups)
      decreases |groups|
    {
      var group :| group in groups;
      PoolOneGroup(lists, slots, groups, group);
      pooled := PoolGroup(pooled, group, slots[group]);
      groups := groups - {group};
    }
    PoolEverything(lists, slots);
  }

  lemma PoolEverything(lists: SlotLists, slots: Slots)
    ensures PartlyPooled(lists, slots, {}) == Pooled(lists, slots)
  {
    hide InOrder;
  }

  // ------------------------------------------------------------------ switches

  /** Merged to "yes" if any of the services says so. */
  const SWITCHES: set<string> := {"USE_REVERSE_PROXY", "USE_GRPC", "USE_CUSTOM_SSL"}

  predicate SaysYes(at: map<string, string>, key: string) {
    key in at && Lower(at[key]) == "yes"
  }

  /** A service turns a switch on under its own name or behind the server prefix. */
  predicate TurnsOn(at: map<string, string>, host: string, key: string) {
    SaysYes(at, key) || SaysYes(at, Prefix(host) + key)
  }

  ghost function SwitchesOf(ds: seq<Dict>, site: Site): set<string> {
    set k | k in SWITCHES && exists i :: 0 <= i < |ds| && TurnsOn(ScalarsOf(ds[i].at, site.lookup, site.host),
        site.host, k)
  }

  method NoteSwitches(on: set<string>, at: map<string, string>, host: string) returns (on': set<string>)
    ensures on' == on + set k | k in SWITCHES && TurnsOn(at, host, k)
  {
    hide TurnsOn;
    on' := on;
    var keys := SWITCHES;
    while keys != {}
      invariant keys <= SWITCHES
      invariant forall k :: k in on' <==> k in on || (k in SWITCHES && k !in keys && TurnsOn(at, host, k))
      decreases |keys|
    {
      var key :| key in keys;
      if TurnsOn(at, host, key) { on' := on' + {key}; }
      keys := keys - {key};
    }
  }

  // ------------------------------------------------------------------ scalars

  /** Which settings are copied: all but the switches, with the prefix or without. */
  predicate Copies(key: string, host: string) {
    if (key !in SWITCHES && !(Prefix(host) <= key)) || key == "SERVER_NAME" || key == "NAMESPACE" then true
    else if Prefix(host) <= key then key[|Prefix(host)|..] !in SWITCHES
    else false
  }

  function CopiedOf(at: map<string, string>, host: string): map<string, string> {
    map k | k in at && Copies(k, host) :: at[k]
  }

  /** The scalars of all services; a later service overwrites an earlier one. */
  function ScalarsOfAll(ds: seq<Dict>, site: Site): map<string, string> {
    if ds == [] then map[]
    else
      var last := |ds| - 1;
      ScalarsOfAll(ds[..last], site) + CopiedOf(ScalarsOf(ds[last].at, site.lookup, site.host), site.host)
  }

  /** What the target holds after the first `m` keys. */
  function FirstCopied(before: map<string, string>, from: Dict, m: nat, host: string): map<string, string>
    requires m <= |from.keys|
  {
    if m == 0 then before
    else
      var key := from.keys[m - 1];
      var far := FirstCopied(before, from, m - 1, host);
      if Copies(key, host) then far[key := from.Get(key, "")] else far
  }

  lemma {:induction false} FirstCopiedAt(before: map<string, string>, from: Dict, m: nat, host: string, k: string)
    requires from.Valid() && m <= |from.keys|
    ensures var hit := k in from.keys[..m] && Copies(k, host);
            var far := FirstCopied(before, from, m, host);
            && (k in far <==> hit || k in before)
            && (hit ==> k in from.at && k in far && far[k] == from.at[k])
            && (k in before && !hit ==> k in far && far[k] == before[k])
  {
    hide Copies;
    if m > 0 {
      FirstCopiedAt(before, from, m - 1, host, k);
      assert from.keys[m - 1] in from.keys;
      assert from.keys[..m] == from.keys[..m - 1] + [from.keys[m - 1]];
    }
  }

  method CopyScalars(merged: Service, from: Dict, host: string)
    requires merged.dict.Valid() && from.Valid()
    modifies merged
    ensures merged.dict.Valid()
    ensures merged.dict.at == old(merged.dict.at) + CopiedOf(from.at, host)
  {
    hide Copies, Dict.Valid;
    ghost var before := merged.dict.at;
    for m := 0 to |from.keys|
      invariant merged.dict.Valid()
      invariant merged.dict.at == FirstCopied(before, from, m, host)
    {
      var key := from.keys[m];
      KeysAreStored(from, m);
      if Copies(key, host) {
        PutKeepsValid(merged.dict, key, from.at[key]);
        merged.dict := merged.dict.Put(key, from.at[key]);
      }
    }
    AllCopied(before, from, host);
  }

  lemma AllCopied(before: map<string, string>, from: Dict, host: string)
    requires from.Valid()
    ensures FirstCopied(before, from, |from.keys|, host) == before + CopiedOf(from.at, host)
  {
    hide Copies, FirstCopied;
    assert from.keys[..|from.keys|] == from.keys;
    forall k ensures var far, all := FirstCopied(before, from, |from.keys|, host), before + CopiedOf(from.at, host);
                     (k in far <==> k in all) && (k in far && k in all ==> far[k] == all[k]) {
      FirstCopiedAt(before, from, |from.keys|, host, k);
    }
  }

  lemma KeysAreStored(d: Dict, m: nat)
    requires d.Valid() && m < |d.keys|
    ensures d.keys[m] in d.at
  {
    assert d.keys[m] in d.keys;
  }

  // ------------------------------------------------------------------ one host

  function Yes(keys: set<string>): map<string, string> {
    map k | k in keys :: "yes"
  }

  /** The outcome of merging the accepted services of one host. */
  ghost predicate MergeOf(accepted: seq<Dict>, site: Site, merged: Dict) {
    && merged.Valid()
    && exists written ::
         && Written(ScalarsOfAll(accepted, site), written, Sorted(Collected(accepted, site)), site.start, site.host)
         && merged.at == written + Yes(SwitchesOf(accepted, site))
  }

  method ApplySwitches(merged: Service, on: set<string>)
    requires merged.dict.Valid()
    modifies merged
    ensures merged.dict.Valid()
    ensures merged.dict.at == old(merged.dict.at) + Yes(on)
  {
    hide Dict.Valid;
    ghost var before := merged.dict.at;
    var keys := on;
    while keys != {}
      invariant keys <= on
      invariant merged.dict.Valid()
      invariant merged.dict.at == before + Yes(on - keys)
      decreases |keys|
    {
      var key :| key in keys;
      PutKeepsValid(merged.dict, key, "yes");
      merged.dict := merged.dict.Put(key, "yes");
      keys := keys - {key};
    }
    assert on - {} == on;
  }

  method SortLists(lists: SlotLists) returns (sorted: SlotLists)
    ensures sorted == Sorted(lists)
  {
    hide StableSort;
    sorted := lists;
    var groups := lists.Keys;
    while groups != {}
      invariant groups <= lists.Keys == sorted.Keys
      invariant forall g :: g in lists ==> sorted[g] == if g in groups then lists[g] else StableSort(lists[g])
      decreases |groups|
    {
      var group :| group in groups;
      sorted := sorted[group := StableSort(sorted[group])];
      groups := groups - {group};
    }
  }

  ghost predicate Different(services: seq<Service>) {
    forall i, j :: 0 <= i < j < |services| ==> services[i] != services[j]
  }

  lemma AcceptedGrows(owner: Option<string>, ds: seq<Dict>, m: nat)
    requires m < |ds|
    ensures AcceptedBy(owner, ds[..m + 1])
            == AcceptedBy(owner, ds[..m]) + (if Accepts(owner, Namespace(ds[m])) then [ds[m]] else [])
  {
    assert ds[..m + 1][..m] == ds[..m];
  }

  lemma FoldsGrow(ds: seq<Dict>, d: Dict, site: Site)
    ensures Collected(ds + [d], site) == Pooled(Collected(ds, site), SlotsOf(d, site.lookup, site.host))
    ensures ScalarsOfAll(ds + [d], site) == ScalarsOfAll(ds, site) + CopiedOf(ScalarsOf(d.at, site.lookup,
        site.host), site.host)
    ensures SwitchesOf(ds + [d], site)
            == SwitchesOf(ds, site) + set k | k in SWITCHES && TurnsOn(ScalarsOf(d.at, site.lookup, site.host),
                site.host, k)
  {
    hide Pooled, ScalarsOf, SlotsOf, TurnsOn;
    var more := ds + [d];
    assert more[..|ds|] == ds;
    forall k | k in SWITCHES
      ensures k in SwitchesOf(more, site)
              <==> k in SwitchesOf(ds, site) || TurnsOn(ScalarsOf(d.at, site.lookup, site.host), site.host, k)
    {
      if k in SwitchesOf(ds, site) {
        var i :| 0 <= i < |ds| && TurnsOn(ScalarsOf(ds[i].at, site.lookup, site.host), site.host, k);
        assert more[i] == ds[i];
      }
      if TurnsOn(ScalarsOf(d.at, site.lookup, site.host), site.host, k) { assert more[|ds|] == d; }
    }
  }

  /** One accepted service: its slots leave it and are pooled, then its switches and scalars are taken over. */
  method MergeOne(service: Service, merged: Service, site: Site, lists: SlotLists, on: set<string>)
    returns (lists': SlotLists, on': set<string>)
    requires service != merged && service.dict.Valid() && merged.dict.Valid()
    modifies service, merged
    ensures merged.dict.Valid() && service.dict.Valid()
    ensures lists' == Pooled(lists, SlotsOf(old(service.dict), site.lookup, site.host))
    ensures var rest := ScalarsOf(old(service.dict.at), site.lookup, site.host);
            && on' == on + (set k | k in SWITCHES && TurnsOn(rest, site.host, k))
            && merged.dict.at == old(merged.dict.at) + CopiedOf(rest, site.host)
  {
    hide Dict.Valid, Pooled, SlotsOf, ScalarsOf, CopiedOf, TurnsOn;
    var slots := ExtractSlots(service, site.lookup, site.host);
    lists' := Pool(lists, slots);
    on' := NoteSwitches(on, service.dict.at, site.host);
    CopyScalars(merged, service.dict, site.host);
  }

  /** Merges the services of one host into a new one. */
  method MergeGroup(services: seq<Service>, site: Site) returns (merged: Service)
    requires services != [] && Different(services)
    requires forall i :: 0 <= i < |services| ==> services[i].dict.Valid()
    modifies services
    ensures fresh(merged)
    ensures MergeOf(old(Accepted(Dicts(services))), site, merged.dict)
  {
    hide Dict.Valid, Pooled, SlotsOf, ScalarsOf, CopiedOf, Accepts, SwitchesOf, Written, Sorted, AcceptedBy,
        ScalarsOfAll, Collected;
    ghost var ds := Dicts(services);
    var owner := Namespace(services[0].dict);
    merged := new Service();
    assert merged.dict.Valid() by { NewIsValid(); }
    var lists: SlotLists, on: set<string> := map[], {};
    NothingFolded(owner, site);
    assert ds[..0] == [];
    for m := 0 to |services|
      invariant merged.dict.Valid() && fresh(merged)
      invariant forall i :: m <= i < |services| ==> services[i].dict == ds[i]
      invariant lists == Collected(AcceptedBy(owner, ds[..m]), site)
      invariant merged.dict.at == ScalarsOfAll(AcceptedBy(owner, ds[..m]), site)
      invariant on == SwitchesOf(AcceptedBy(owner, ds[..m]), site)
    {
      AcceptedGrows(owner, ds, m);
      if Accepts(owner, Namespace(services[m].dict)) {
        FoldsGrow(AcceptedBy(owner, ds[..m]), ds[m], site);
        lists, on := MergeOne(services[m], merged, site, lists, on);
      } else {
        assert AcceptedBy(owner, ds[..m + 1]) == AcceptedBy(owner, ds[..m]);
      }
    }
    assert ds[..|services|] == ds;
    lists := SortLists(lists);
    WriteSlots(merged, lists, site.start, site.host);
    ApplySwitches(merged, on);
  }

  lemma NewIsValid()
    ensures Dict([], map[]).Valid()
  {
  }

  lemma NothingFolded(owner: Option<string>, site: Site)
    ensures AcceptedBy(owner, []) == []
    ensures Collected([], site) == map[] && ScalarsOfAll([], site) == map[] && SwitchesOf([], site) == {}
  {
  }

  ghost function Dicts(services: seq<Service>): (ds: seq<Dict>)
    reads services
    ensures |ds| == |services| && forall i :: 0 <= i < |ds| ==> ds[i] == services[i].dict
  {
    seq(|services|, i requires 0 <= i < |services| reads services => services[i].dict)
  }

  // ------------------------------------------------------------------ all hosts

  /** The first of the names that a server listens to. */
  function Primary(d: Dict): string {
    FirstWord(d.Get("SERVER_NAME", ""))
  }

  function Primaries(ds: seq<Dict>): (ps: seq<string>)
    ensures |ps| == |ds|
  {
    seq(|ds|, i requires 0 <= i < |ds| => Primary(ds[i]))
  }

  /** The different names in the order they are first seen. */
  function FirstSeen(ps: seq<string>): seq<string> {
    if ps == [] then []
    else
      var last := |ps| - 1;
      var order := FirstSeen(ps[..last]);
      if ps[last] in order then order else order + [ps[last]]
  }

  /** The positions of a name. */
  function Positions(ps: seq<string>, p: string): (js: seq<nat>)
    ensures forall i :: 0 <= i < |js| ==> js[i] < |ps| && ps[js[i]] == p
    ensures forall i, j :: 0 <= i < j < |js| ==> js[i] < js[j]
  {
    if ps == [] then []
    else
      var last := |ps| - 1;
      Positions(ps[..last], p) + (if ps[last] == p then [last] else [])
  }

  function Pick<T>(items: seq<T>, js: seq<nat>): (r: seq<T>)
    requires forall i :: 0 <= i < |js| ==> js[i] < |items|
    ensures |r| == |js| && forall i :: 0 <= i < |js| ==> r[i] == items[js[i]]
  {
    seq(|js|, i requires 0 <= i < |js| && js[i] < |items| => items[js[i]])
  }

  lemma PositionsGrow(ps: seq<string>, m: nat, p: string)
    requires m < |ps|
    ensures Positions(ps[..m + 1], p) == Positions(ps[..m], p) + (if ps[m] == p then [m] else [])
    ensures FirstSeen(ps[..m + 1])
            == if ps[m] in FirstSeen(ps[..m]) then FirstSeen(ps[..m]) else FirstSeen(ps[..m]) + [ps[m]]
  {
    assert ps[..m + 1][..m] == ps[..m];
  }

  function GroupOf(ds: seq<Dict>, p: string): seq<Dict> {
    Pick(ds, Positions(Primaries(ds), p))
  }

  lemma {:induction false} FirstSeenExactly(ps: seq<string>)
    ensures forall p :: p in FirstSeen(ps) <==> p in ps
    ensures Distinct(FirstSeen(ps))
  {
    if ps != [] {
      FirstSeenExactly(ps[..|ps| - 1]);
      assert ps == ps[..|ps| - 1] + [ps[|ps| - 1]];
    }
  }

  /** A host that is listed before another one was seen before it. */
  lemma {:induction false} FirstSeenInOrder(ps: seq<string>, i: nat, j: nat) returns (k: nat)
    requires i < j < |FirstSeen(ps)|
    ensures k < |ps| && ps[k] == FirstSeen(ps)[i] && forall l :: 0 <= l <= k ==> ps[l] != FirstSeen(ps)[j]
  {
    var last := |ps| - 1;
    var front := FirstSeen(ps[..last]);
    if j < |front| {
      k := FirstSeenInOrder(ps[..last], i, j);
      assert forall l :: 0 <= l <= k ==> ps[..last][l] == ps[l];
    } else {
      FirstSeenExactly(ps[..last]);
      assert front[i] in ps[..last];
      k :| 0 <= k < last && ps[..last][k] == front[i];
      forall l | 0 <= l <= k ensures ps[l] != ps[last] { assert ps[..last][l] in ps[..last]; }
    }
  }

  /** The group of a host is made of exactly the services at which it is seen, in their order. */
  lemma {:induction false} PositionsExactly(ps: seq<string>, p: string, k: nat)
    ensures k in Positions(ps, p) <==> k < |ps| && ps[k] == p
  {
    if ps != [] {
      PositionsExactly(ps[..|ps| - 1], p, k);
    }
  }

  lemma {:induction false} SeenHasPositions(ps: seq<string>, p: string)
    ensures p in ps <==> Positions(ps, p) != []
  {
    if ps != [] {
      SeenHasPositions(ps[..|ps| - 1], p);
      assert ps == ps[..|ps| - 1] + [ps[|ps| - 1]];
    }
  }

  lemma SeenHasGroup(ds: seq<Dict>, p: string)
    requires p in FirstSeen(Primaries(ds))
    ensures GroupOf(ds, p) != []
  {
    FirstSeenExactly(Primaries(ds));
    SeenHasPositions(Primaries(ds), p);
  }

  /** A host served once passes through, any other is merged. */
  ghost predicate Outcome(group: seq<Dict>, site: Site, r: Dict) {
    && group != []
    && if |group| == 1 then r == group[0] else MergeOf(Accepted(group), site, r)
  }

  ghost predicate OutcomeFor(ds: seq<Dict>, p: string, lookup: Lookup, start: nat, r: Dict) {
    Outcome(GroupOf(ds, p), Site(lookup, p, start), r)
  }

  /** The services after merging: one per primary host, in the order the hosts were first seen. */
  ghost predicate Merges(ds: seq<Dict>, lookup: Lookup, start: nat, rs: seq<Dict>) {
    var order := FirstSeen(Primaries(ds));
    && |rs| == |order|
    && forall i :: 0 <= i < |rs| ==> OutcomeFor(ds, order[i], lookup, start, rs[i])
  }

  /** The first loop: the services by primary host. */
  method GroupByPrimary(services: seq<Service>) returns (groups: map<string, seq<Service>>, order: seq<string>)
    ensures var ps := Primaries(Dicts(services));
            && order == FirstSeen(ps)
            && forall p :: p in order ==> p in groups && groups[p] == Pick(services, Positions(ps, p))
  {
    hide Primary, Positions, FirstSeen, GroupedTo;
    groups, order := map[], [];
    ghost var ps := Primaries(Dicts(services));
    NothingSeen(ps);
    assert GroupedTo(services, ps, 0, groups) by { NothingGrouped(services, ps); }
    for m := 0 to |services|
      invariant order == FirstSeen(ps[..m])
      invariant GroupedTo(services, ps, m, groups)
    {
      var service := services[m];
      var primary := Primary(service.dict);
      PositionsGrow(ps, m, primary);
      OneMoreGrouped(services, ps, m, groups);
      ghost var grown := groups[primary := (if primary in groups then groups[primary] else []) + [service]];
      if primary !in groups {
        groups := groups[primary := []];
        order := order + [primary];
      }
      groups := groups[primary := groups[primary] + [service]];
      assert groups == grown;
    }
    assert ps[..|services|] == ps;
    AllGrouped(services, ps, groups);
  }

  lemma NothingGrouped(services: seq<Service>, ps: seq<string>)
    requires |ps| == |services|
    ensures GroupedTo(services, ps, 0, map[])
  {
  }

  lemma AllGrouped(services: seq<Service>, ps: seq<string>, groups: map<string, seq<Service>>)
    requires |ps| == |services| && GroupedTo(services, ps, |ps|, groups)
    ensures forall p :: p in FirstSeen(ps) ==> p in groups && groups[p] == Pick(services, Positions(ps, p))
  {
    hide Positions, FirstSeen;
    assert ps[..|ps|] == ps;
  }

  /** The first `m` services are in the groups of their hosts. */
  ghost predicate GroupedTo(services: seq<Service>, ps: seq<string>, m: nat, groups: map<string, seq<Service>>)
    requires |ps| == |services| && m <= |ps|
  {
    && (forall p :: p in groups <==> p in FirstSeen(ps[..m]))
    && forall p :: p in groups ==> groups[p] == Pick(services, Positions(ps[..m], p))
  }

  lemma OneMoreGrouped(services: seq<Service>, ps: seq<string>, m: nat, groups: map<string, seq<Service>>)
    requires |ps| == |services| && m < |ps| && GroupedTo(services, ps, m, groups)
    ensures var group := if ps[m] in groups then groups[ps[m]] else [];
            GroupedTo(services, ps, m + 1, groups[ps[m] := group + [services[m]]])
    ensures ps[m] in groups <==> ps[m] in FirstSeen(ps[..m])
  {
    hide Positions, FirstSeen;
    FirstSeenExactly(ps[..m]);
    SeenHasPositions(ps[..m], ps[m]);
    forall p ensures Positions(ps[..m + 1], p) == Positions(ps[..m], p) + (if ps[m] == p then [m] else [])
             ensures p in FirstSeen(ps[..m + 1]) <==> p in FirstSeen(ps[..m]) || p == ps[m] {
      PositionsGrow(ps, m, p);
    }
  }

  lemma NothingSeen(ps: seq<string>)
    ensures FirstSeen(ps[..0]) == [] && forall p :: Positions(ps[..0], p) == []
  {
  }

  /** One host: a single service passes through, several are merged into a new one. */
  method Settle(group: seq<Service>, site: Site) returns (r: Service)
    requires group != [] && Different(group)
    requires forall i :: 0 <= i < |group| ==> group[i].dict.Valid()
    modifies group
    ensures Outcome(old(Dicts(group)), site, r.dict)
    ensures r == group[0] || fresh(r)
  {
    hide Dict.Valid, MergeOf, Accepted;
    if |group| == 1 {
      r := group[0];
    } else {
      r := MergeGroup(group, site);
    }
  }

  ghost predicate Unserved(order: seq<string>, j: nat, p: string)
    requires j <= |order|
  {
    forall i :: 0 <= i < j ==> order[i] != p
  }

  /** A result that is one of the services is one of its own host. */
  ghost predicate OwnResults(services: seq<Service>, ps: seq<string>, order: seq<string>, result: seq<Service>)
    requires |ps| == |services| && |result| <= |order|
  {
    forall i, k :: 0 <= i < |result| && 0 <= k < |services| && result[i] == services[k] ==> ps[k] == order[i]
  }

  lemma ResultsAreApart(services: seq<Service>, ps: seq<string>, order: seq<string>, result: seq<Service>)
    requires |ps| == |services| && |result| < |order| && Distinct(order)
    requires OwnResults(services, ps, order, result)
    ensures forall i :: 0 <= i < |result| ==> result[i] !in Pick(services, Positions(ps, order[|result|]))
  {
    hide Positions, Pick;
    var js := Positions(ps, order[|result|]);
    forall i | 0 <= i < |result| ensures result[i] !in Pick(services, js) {
      forall m | 0 <= m < |js| ensures Pick(services, js)[m] != result[i] {
        var k := js[m];
        assert ps[k] == order[|result|] != order[i];
      }
    }
  }

  /** Of the services, only those of the named host are in its group. */
  lemma GroupIsOwn(services: seq<Service>, ps: seq<string>, p: string)
    requires |ps| == |services| && Different(services)
    ensures Different(Pick(services, Positions(ps, p)))
    ensures forall i :: 0 <= i < |services| && services[i] in Pick(services, Positions(ps, p)) ==> ps[i] == p
  {
  }

  lemma GroupIsUntouched(services: seq<Service>, ds: seq<Dict>, p: string)
    requires |ds| == |services|
    requires forall i :: 0 <= i < |services| && Primaries(ds)[i] == p ==> services[i].dict == ds[i]
    ensures Dicts(Pick(services, Positions(Primaries(ds), p))) == GroupOf(ds, p)
  {
    hide Primary, Positions;
  }

  /** The whole merge. */
  method MergeServices(services: seq<Service>, lookup: Lookup, start: nat) returns (result: seq<Service>)
    requires Different(services)
    requires forall i :: 0 <= i < |services| ==> services[i].dict.Valid()
    modifies services
    ensures Merges(old(Dicts(services)), lookup, start, Dicts(result))
  {
    hide Dict.Valid, Outcome, Positions, Primary, FirstSeen, OwnResults, Different;
    ghost var ds := Dicts(services);
    ghost var ps := Primaries(ds);
    var groups, order := GroupByPrimary(services);
    FirstSeenExactly(ps);
    result := [];
    assert OwnResults(services, ps, order, result) by { NoResults(services, ps, order); }
    for j := 0 to |order|
      invariant |result| == j
      invariant forall i :: 0 <= i < |services| && Unserved(order, j, ps[i]) ==> services[i].dict == ds[i]
      invariant forall i :: 0 <= i < j ==> OutcomeFor(ds, order[i], lookup, start, result[i].dict)
      invariant OwnResults(services, ps, order, result)
    {
      var primary := order[j];
      var group := groups[primary];
      SeenHasGroup(ds, primary);
      GroupIsOwn(services, ps, primary);
      ResultsAreApart(services, ps, order, result);
      GroupIsUntouched(services, ds, primary);
      var r := Settle(group, Site(lookup, primary, start));
      OneMoreResult(services, ps, order, result, r, group);
      result := result + [r];
    }
  }

  lemma NoResults(services: seq<Service>, ps: seq<string>, order: seq<string>)
    requires |ps| == |services|
    ensures OwnResults(services, ps, order, [])
  {
  }

  lemma OneMoreResult(services: seq<Service>, ps: seq<string>, order: seq<string>, result: seq<Service>, r: Service,
                      group: seq<Service>)
    requires |ps| == |services| && |result| < |order|
    requires OwnResults(services, ps, order, result)
    requires forall i :: 0 <= i < |services| && services[i] in group ==> ps[i] == order[|result|]
    requires r in group || r !in services
    ensures OwnResults(services, ps, order, result + [r])
  {
  }
}
