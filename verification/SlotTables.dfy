/**
  Taking the numbered settings out of a service, and writing a renumbered selection back.
 */
module SlotTables {
  import opened SlotKeys
  import opened Wrappers

  ghost predicate Distinct(keys: seq<string>) {
    forall i, j :: 0 <= i < j < |keys| ==> keys[i] != keys[j]
  }

  /** A dictionary: its keys in insertion order and their values. */
  datatype Dict = Dict(keys: seq<string>, at: map<string, string>) {

    /** Each key is listed once. */
    ghost predicate Valid() {
      (forall k :: k in keys <==> k in at) && Distinct(keys)
    }

    function Put(k: string, v: string): Dict {
      Dict(if k in at then keys else keys + [k], at[k := v])
    }

    function Get(k: string, default: string): string {
      if k in at then at[k] else default
    }
  }

  /** What a slot stores for one of its settings. */
  datatype Cell = Cell(key: string, value: string, prefixed: bool)

  type Slot = map<string, Cell>
  type Slots = map<string, map<nat, Slot>>

  /** `slots.setdefault(group, {}).setdefault(number, {})[base] = cell` */
  function Store(slots: Slots, group: string, number: nat, base: string, cell: Cell): Slots {
    var numbered := if group in slots then slots[group] else map[];
    var slot := if number in numbered then numbered[number] else map[];
    slots[group := numbered[number := slot[base := cell]]]
  }

  predicate Holds(slots: Slots, group: string, number: nat, base: string) {
    group in slots && number in slots[group] && base in slots[group][number]
  }

  function CellAt(slots: Slots, group: string, number: nat, base: string): Cell
    requires Holds(slots, group, number, base)
  {
    slots[group][number][base]
  }

  predicate IsSlotKey(key: string, lookup: Lookup, host: string) {
    Parse(key, lookup, host).Some?
  }

  lemma ParsedBaseIsListed(key: string, lookup: Lookup, host: string)
    requires IsSlotKey(key, lookup, host)
    ensures Parse(key, lookup, host).value.base in lookup
  {
  }

  function StoreKey(slots: Slots, key: string, value: string, lookup: Lookup, host: string): Slots {
    match Parse(key, lookup, host)
    case None => slots
    case Some(k) =>
      ParsedBaseIsListed(key, lookup, host);
      Store(slots, lookup[k.base], k.number, k.base, Cell(key, value, k.prefixed))
  }

  /** The slots of the first `n` keys. */
  function Extracted(d: Dict, n: nat, lookup: Lookup, host: string): Slots
    requires n <= |d.keys|
  {
    if n == 0 then map[]
    else
      var key := d.keys[n - 1];
      StoreKey(Extracted(d, n - 1, lookup, host), key, d.Get(key, ""), lookup, host)
  }

  function SlotsOf(d: Dict, lookup: Lookup, host: string): Slots {
    Extracted(d, |d.keys|, lookup, host)
  }

  /** What stays in the service once its slots are taken out. */
  function ScalarsOf(at: map<string, string>, lookup: Lookup, host: string): map<string, string> {
    map k | k in at && !IsSlotKey(k, lookup, host) :: at[k]
  }

  /** A service as the controller holds it: a dictionary that is edited in place. */
  class Service {
    var dict: Dict

    constructor ()
      ensures dict == Dict([], map[])
    {
      dict := Dict([], map[]);
    }
  }

  function Without(keys: seq<string>, key: string): seq<string> {
    if keys == [] then [] else (if keys[0] == key then [] else [keys[0]]) + Without(keys[1..], key)
  }

  lemma {:induction false} WithoutRemovesOne(keys: seq<string>, key: string)
    requires Distinct(keys)
    ensures forall k :: k in Without(keys, key) <==> k in keys && k != key
    ensures Distinct(Without(keys, key))
  {
    if keys != [] {
      var rest := keys[1..];
      forall i, j | 0 <= i < j < |rest| ensures rest[i] != rest[j] { assert keys[i + 1] != keys[j + 1]; }
      WithoutRemovesOne(rest, key);
      assert keys[0] !in rest by { assert forall j :: 0 <= j < |rest| ==> rest[j] == keys[j + 1]; }
    }
  }

  /** `del service[key]` for every key of a list. */
  method DeleteKeys(service: Service, doomed: seq<string>)
    requires service.dict.Valid()
    modifies service
    ensures service.dict.Valid()
    ensures service.dict.at == map k | k in old(service.dict.at) && k !in doomed :: old(service.dict.at)[k]
  {
    ghost var before := service.dict.at;
    for m := 0 to |doomed|
      invariant service.dict.Valid()
      invariant service.dict.at == map k | k in before && k !in doomed[..m] :: before[k]
    {
      var key := doomed[m];
      assert doomed[..m + 1] == doomed[..m] + [key];
      WithoutRemovesOne(service.dict.keys, key);
      service.dict := Dict(Without(service.dict.keys, key), service.dict.at - {key});
    }
    assert doomed[..|doomed|] == doomed;
  }

  /** Takes the slots out of a service; matched keys leave it, the rest is untouched. */
  method ExtractSlots(service: Service, lookup: Lookup, host: string) returns (slots: Slots)
    requires service.dict.Valid()
    modifies service
    ensures slots == SlotsOf(old(service.dict), lookup, host)
    ensures service.dict.Valid()
    ensures service.dict.at == ScalarsOf(old(service.dict.at), lookup, host)
  {
    hide Parse, Store, Distinct;
    slots := map[];
    var d := service.dict;
    var keysToRemove: seq<string> := [];
    for n := 0 to |d.keys|
      invariant service.dict == d && slots == Extracted(d, n, lookup, host)
      invariant forall k :: k in keysToRemove <==> k in d.keys[..n] && IsSlotKey(k, lookup, host)
    {
      var key := d.keys[n];
      assert d.keys[..n + 1] == d.keys[..n] + [key];
      var parsed := Parse(key, lookup, host);
      if parsed.Some? {
        ParsedBaseIsListed(key, lookup, host);
        var k := parsed.value;
        slots := Store(slots, lookup[k.base], k.number, k.base, Cell(key, d.at[key], k.prefixed));
        keysToRemove := keysToRemove + [key];
      }
    }
    assert d.keys[..|d.keys|] == d.keys;
    DeleteKeys(service, keysToRemove);
  }

  // ------------------------------------------------------------------ writing

  /** The slots to write: for each group a list, numbered from a configured start. */
  type SlotLists = map<string, seq<Slot>>

  /** One setting of one slot of one group. */
  datatype Place = Place(group: string, index: nat, base: string)

  predicate IsPlace(all: SlotLists, p: Place) {
    p.group in all && p.index < |all[p.group]| && p.base in all[p.group][p.index]
  }

  function CellOf(all: SlotLists, p: Place): Cell
    requires IsPlace(all, p)
  {
    all[p.group][p.index][p.base]
  }

  function KeyOf(all: SlotLists, start: nat, host: string, p: Place): string
    requires IsPlace(all, p)
  {
    Print(SlotKey(p.base, start + p.index, CellOf(all, p).prefixed), host)
  }

  ghost predicate WritesTo(all: SlotLists, start: nat, host: string, p: Place, key: string) {
    IsPlace(all, p) && KeyOf(all, start, host, p) == key
  }

  /** Some place in `done` prints to the key. */
  ghost predicate IsTarget(all: SlotLists, start: nat, host: string, done: set<Place>, key: string) {
    exists p :: p in done && WritesTo(all, start, host, p, key)
  }

  /** What a key holds after the places in `done` were written, in any order. */
  ghost predicate KeyWritten(before: map<string, string>, after: map<string, string>, all: SlotLists, start: nat,
                             host: string, done: set<Place>, key: string) {
    if IsTarget(all, start, host, done, key) then
      key in after && exists p :: p in done && WritesTo(all, start, host, p, key) && after[key] == CellOf(all, p).value
    else
      (key in after <==> key in before) && (key in after ==> after[key] == before[key])
  }

  ghost predicate WrittenPlaces(before: map<string, string>, after: map<string, string>, all: SlotLists, start: nat,
                                host: string, done: set<Place>) {
    forall key :: KeyWritten(before, after, all, start, host, done, key)
  }

  ghost predicate IsEveryPlace(all: SlotLists, done: set<Place>) {
    forall p :: p in done <==> IsPlace(all, p)
  }

  /** Every place was written: each written key holds the value of a place that prints to it, the rest is as before. */
  ghost predicate Written(before: map<string, string>, after: map<string, string>, all: SlotLists, start: nat,
                          host: string) {
    exists done :: WrittenPlaces(before, after, all, start, host, done) && IsEveryPlace(all, done)
  }

  lemma WriteOnePlace(before: map<string, string>, after: map<string, string>, all: SlotLists, start: nat,
                      host: string, done: set<Place>, p: Place)
    requires WrittenPlaces(before, after, all, start, host, done) && IsPlace(all, p)
    ensures WrittenPlaces(before, after[KeyOf(all, start, host, p) := CellOf(all, p).value], all, start, host,
        done + {p})
  {
    hide KeyOf, CellOf;
    var key := KeyOf(all, start, host, p);
    var after' := after[key := CellOf(all, p).value];
    assert WritesTo(all, start, host, p, key);
    forall k ensures KeyWritten(before, after', all, start, host, done + {p}, k) {
      assert KeyWritten(before, after, all, start, host, done, k);
      if k == key {
        assert p in done + {p};
      } else {
        if q :| q in done && WritesTo(all, start, host, q, k) && k in after && after[k] == CellOf(all, q).value {
          assert q in done + {p};
        }
      }
    }
  }

  lemma PutKeepsValid(d: Dict, k: string, v: string)
    requires d.Valid()
    ensures d.Put(k, v).Valid()
  {
  }

  lemma NothingWritten(before: map<string, string>, all: SlotLists, start: nat, host: string)
    ensures WrittenPlaces(before, before, all, start, host, {})
  {
  }

  /** The loop over the settings of one slot. */
  method WriteSlot(service: Service, all: SlotLists, start: nat, host: string, group: string, index: nat,
                   ghost before: map<string, string>, ghost done: set<Place>) returns (ghost done': set<Place>)
    requires group in all && index < |all[group]|
    requires service.dict.Valid() && WrittenPlaces(before, service.dict.at, all, start, host, done)
    modifies service
    ensures service.dict.Valid() && WrittenPlaces(before, service.dict.at, all, start, host, done')
    ensures forall p :: p in done' <==> p in done || (IsPlace(all, p) && p.group == group && p.index == index)
  {
    hide WrittenPlaces, Dict.Valid, Print;
    done' := done;
    var slot := all[group][index];
    var bases := slot.Keys;
    while bases != {}
      invariant bases <= slot.Keys
      invariant service.dict.Valid() && WrittenPlaces(before, service.dict.at, all, start, host, done')
      invariant forall p :: p in done' <==>
                  p in done || (IsPlace(all, p) && p.group == group && p.index == index && p.base !in bases)
      decreases |bases|
    {
      var base :| base in bases;
      var cell := slot[base];
      ghost var p := Place(group, index, base);
      var newKey := Print(SlotKey(base, start + index, cell.prefixed), host);
      WriteOnePlace(before, service.dict.at, all, start, host, done', p);
      PutKeepsValid(service.dict, newKey, cell.value);
      service.dict := service.dict.Put(newKey, cell.value);
      done' := done' + {p};
      bases := bases - {base};
    }
  }

  /** Writes the slots of every group back, numbered consecutively, with the server prefix where it was. */
  method WriteSlots(service: Service, all: SlotLists, start: nat, host: string)
    requires service.dict.Valid()
    modifies service
    ensures service.dict.Valid()
    ensures Written(old(service.dict.at), service.dict.at, all, start, host)
  {
    hide WrittenPlaces, Dict.Valid;
    ghost var before := service.dict.at;
    ghost var done: set<Place> := {};
    NothingWritten(before, all, start, host);
    var groups := all.Keys;
    while groups != {}
      invariant groups <= all.Keys
      invariant service.dict.Valid() && WrittenPlaces(before, service.dict.at, all, start, host, done)
      invariant forall p :: p in done <==> IsPlace(all, p) && p.group !in groups
      decreases |groups|
    {
      var group :| group in groups;
      var slotList := all[group];
      for index := 0 to |slotList|
        invariant service.dict.Valid() && WrittenPlaces(before, service.dict.at, all, start, host, done)
        invariant forall p :: p in done <==>
                    IsPlace(all, p) && (p.group !in groups || (p.group == group && p.index < index))
      {
        done := WriteSlot(service, all, start, host, group, index, before, done);
      }
      groups := groups - {group};
    }
    assert IsEveryPlace(all, done);
  }

  // --------------------------------------------------------- what extraction finds

  /** `key` is a key of the service that stands for setting `base` number `number`. */
  ghost predicate StandsFor(d: Dict, lookup: Lookup, host: string, number: nat, base: string, key: string) {
    && key in d.at && IsSlotKey(key, lookup, host)
    && Parse(key, lookup, host).value.base == base && Parse(key, lookup, host).value.number == number
  }

  ghost predicate NoEmptySlot(numbered: map<nat, Slot>) {
    numbered != map[] && forall n :: n in numbered ==> numbered[n] != map[]
  }

  ghost predicate NoEmptyParts(slots: Slots) {
    forall g :: g in slots ==> NoEmptySlot(slots[g])
  }

  lemma SameCellsSameGroup(a: map<nat, Slot>, b: map<nat, Slot>)
    requires NoEmptySlot(a) && NoEmptySlot(b)
    requires forall n, x :: n in a && x in a[n] <==> n in b && x in b[n]
    requires forall n, x :: n in a && x in a[n] && n in b && x in b[n] ==> a[n][x] == b[n][x]
    ensures a == b
  {
    forall n ensures n in a <==> n in b {
      if n in a { var x :| x in a[n]; }
      if n in b { var x :| x in b[n]; }
    }
    forall n | n in a ensures a[n] == b[n] {
      assert a[n].Keys == b[n].Keys;
    }
  }

  lemma SomeCell(a: Slots, g: string)
    requires NoEmptyParts(a)
    ensures g in a ==> exists n, x :: Holds(a, g, n, x)
  {
    if g in a {
      assert NoEmptySlot(a[g]);
      var n :| n in a[g];
      var x :| x in a[g][n];
      assert Holds(a, g, n, x);
    }
  }

  /** Two tables without empty parts are equal if they hold the same cells. */
  lemma SameCellsSameTable(a: Slots, b: Slots)
    requires NoEmptyParts(a) && NoEmptyParts(b)
    requires forall g, n, x :: Holds(a, g, n, x) <==> Holds(b, g, n, x)
    requires forall g, n, x :: Holds(a, g, n, x) && Holds(b, g, n, x) ==> CellAt(a, g, n, x) == CellAt(b, g, n, x)
    ensures a == b
  {
    hide NoEmptySlot;
    forall g ensures g in a <==> g in b { SomeCell(a, g); SomeCell(b, g); }
    forall g | g in a ensures a[g] == b[g] {
      forall n, x
        ensures n in a[g] && x in a[g][n] <==> n in b[g] && x in b[g][n]
        ensures n in a[g] && x in a[g][n] && n in b[g] && x in b[g][n] ==> a[g][n][x] == b[g][n][x]
      {
        assert Holds(a, g, n, x) <==> Holds(b, g, n, x);
        if Holds(a, g, n, x) { assert CellAt(a, g, n, x) == CellAt(b, g, n, x); }
      }
      SameCellsSameGroup(a[g], b[g]);
    }
  }

  lemma StoreLeavesNoEmptyPart(slots: Slots, group: string, number: nat, base: string, cell: Cell)
    requires NoEmptyParts(slots)
    ensures NoEmptyParts(Store(slots, group, number, base, cell))
  {
    var numbered := if group in slots then slots[group] else map[];
    var slot := if number in numbered then numbered[number] else map[];
    assert base in slot[base := cell];
    assert number in numbered[number := slot[base := cell]];
    assert group in slots ==> NoEmptySlot(slots[group]);
    assert NoEmptySlot(numbered[number := slot[base := cell]]);
  }

  lemma StoreHolds(slots: Slots, group: string, number: nat, base: string, cell: Cell, g: string, n: nat, b: string)
    ensures var stored := Store(slots, group, number, base, cell);
            var hit := g == group && n == number && b == base;
            && (Holds(stored, g, n, b) <==> Holds(slots, g, n, b) || hit)
            && (Holds(stored, g, n, b) ==> CellAt(stored, g, n, b) == if hit then cell else CellAt(slots, g, n, b))
  {
  }

  /** The key stands for the setting and is among the first `m` keys. */
  ghost predicate StandsEarly(d: Dict, m: nat, lookup: Lookup, host: string, n: nat, b: string, key: string)
    requires m <= |d.keys|
  {
    key in d.keys[..m] && StandsFor(d, lookup, host, n, b, key)
  }

  ghost predicate HasKey(d: Dict, m: nat, lookup: Lookup, host: string, n: nat, b: string)
    requires m <= |d.keys|
  {
    exists key :: StandsEarly(d, m, lookup, host, n, b, key)
  }

  lemma OneMoreKey(d: Dict, m: nat, lookup: Lookup, host: string, n: nat, b: string)
    requires m < |d.keys|
    ensures HasKey(d, m + 1, lookup, host, n, b)
            <==> HasKey(d, m, lookup, host, n, b) || StandsFor(d, lookup, host, n, b, d.keys[m])
    ensures forall key :: StandsEarly(d, m, lookup, host, n, b, key) ==> StandsEarly(d, m + 1, lookup, host, n, b, key)
    ensures StandsFor(d, lookup, host, n, b, d.keys[m]) ==> StandsEarly(d, m + 1, lookup, host, n, b, d.keys[m])
  {
    hide StandsFor;
    var next := m + 1;
    assert d.keys[..next] == d.keys[..m] + [d.keys[m]];
    forall key ensures StandsEarly(d, next, lookup, host, n, b, key)
                       <==> StandsEarly(d, m, lookup, host, n, b, key)
                            || (key == d.keys[m] && StandsFor(d, lookup, host, n, b, key)) {}
    if HasKey(d, next, lookup, host, n, b) {
      var key :| StandsEarly(d, next, lookup, host, n, b, key);
      assert key == d.keys[m] || StandsEarly(d, m, lookup, host, n, b, key);
    }
  }

  /** A cell is found exactly for the settings some key stands for, and it describes such a key. */
  lemma {:induction false} ExtractedHolds(d: Dict, m: nat, lookup: Lookup, host: string, g: string, n: nat, b: string)
    requires d.Valid() && m <= |d.keys|
    ensures var slots := Extracted(d, m, lookup, host);
            && (Holds(slots, g, n, b) <==> b in lookup && lookup[b] == g && HasKey(d, m, lookup, host, n, b))
            && (Holds(slots, g, n, b) ==>
                  var cell := CellAt(slots, g, n, b);
                  && StandsEarly(d, m, lookup, host, n, b, cell.key)
                  && cell.value == d.at[cell.key]
                  && cell.prefixed == Parse(cell.key, lookup, host).value.prefixed)
  {
    hide Parse, Store, HasKey;
    if m > 0 {
      ExtractedHolds(d, m - 1, lookup, host, g, n, b);
      var key := d.keys[m - 1];
      assert key in d.keys && key in d.at;
      OneMoreKey(d, m - 1, lookup, host, n, b);
      var before := Extracted(d, m - 1, lookup, host);
      if IsSlotKey(key, lookup, host) {
        ParsedBaseIsListed(key, lookup, host);
        var k := Parse(key, lookup, host).value;
        StoreHolds(before, lookup[k.base], k.number, k.base, Cell(key, d.at[key], k.prefixed), g, n, b);
      }
    } else {
      NoKeyYet(d, lookup, host, n, b);
    }
  }

  lemma NoKeyYet(d: Dict, lookup: Lookup, host: string, n: nat, b: string)
    ensures !HasKey(d, 0, lookup, host, n, b)
  {
  }

  lemma {:induction false} ExtractedHasNoEmptyParts(d: Dict, m: nat, lookup: Lookup, host: string)
    requires m <= |d.keys|
    ensures NoEmptyParts(Extracted(d, m, lookup, host))
  {
    hide Parse, Store, NoEmptyParts;
    if m > 0 {
      ExtractedHasNoEmptyParts(d, m - 1, lookup, host);
      var key := d.keys[m - 1];
      if IsSlotKey(key, lookup, host) {
        ParsedBaseIsListed(key, lookup, host);
        var k := Parse(key, lookup, host).value;
        StoreLeavesNoEmptyPart(Extracted(d, m - 1, lookup, host), lookup[k.base], k.number, k.base, Cell(key,
            d.Get(key, ""), k.prefixed));
      }
    } else {
      NothingIsEmpty();
    }
  }

  lemma NothingIsEmpty()
    ensures NoEmptyParts(map[])
  {
  }

  /** The cells of a service, found by its keys. */
  lemma SlotsOfHolds(d: Dict, lookup: Lookup, host: string, g: string, n: nat, b: string)
    requires d.Valid()
    ensures var slots := SlotsOf(d, lookup, host);
            && (Holds(slots, g, n, b) <==> b in lookup && lookup[b] == g && exists key :: StandsFor(d, lookup, host,
                n, b, key))
            && (Holds(slots, g, n, b) ==>
                  var cell := CellAt(slots, g, n, b);
                  && StandsFor(d, lookup, host, n, b, cell.key)
                  && cell.value == d.at[cell.key]
                  && cell.prefixed == Parse(cell.key, lookup, host).value.prefixed)
  {
    hide StandsFor, Extracted, Parse;
    var m := |d.keys|;
    ExtractedHolds(d, m, lookup, host, g, n, b);
    assert d.keys[..m] == d.keys;
    forall key ensures StandsEarly(d, m, lookup, host, n, b, key) <==> StandsFor(d, lookup, host, n, b, key) {
      if StandsFor(d, lookup, host, n, b, key) { StandingKeysAreKeys(d, lookup, host, n, b, key); }
    }
    if exists key :: StandsFor(d, lookup, host, n, b, key) {
      var key :| StandsFor(d, lookup, host, n, b, key);
      assert StandsEarly(d, m, lookup, host, n, b, key);
    }
  }

  lemma StandingKeysAreKeys(d: Dict, lookup: Lookup, host: string, n: nat, b: string, key: string)
    requires d.Valid() && StandsFor(d, lookup, host, n, b, key)
    ensures key in d.keys && key in d.at
  {
  }

  /** No two keys of the service stand for the same setting and number. */
  ghost predicate NoClash(d: Dict, lookup: Lookup, host: string) {
    forall n, b, k1, k2 :: StandsFor(d, lookup, host, n, b, k1) && StandsFor(d, lookup, host, n, b, k2) ==> k1 == k2
  }

  /** The cell that a slot key of the service is stored in remembers that very key. */
  ghost predicate Kept(d: Dict, lookup: Lookup, host: string, key: string)
    requires key in d.at && IsSlotKey(key, lookup, host)
  {
    var k := Parse(key, lookup, host).value;
    && k.base in lookup
    && Holds(SlotsOf(d, lookup, host), lookup[k.base], k.number, k.base)
    && CellAt(SlotsOf(d, lookup, host), lookup[k.base], k.number, k.base) == Cell(key, d.at[key], k.prefixed)
  }

  /** Extraction loses no setting of a service exactly when no two of its keys stand for the same slot. */
  lemma ExtractionKeepsAllIff(d: Dict, lookup: Lookup, host: string)
    requires d.Valid()
    ensures (forall key :: key in d.at && IsSlotKey(key, lookup, host) ==> Kept(d, lookup, host, key))
            <==> NoClash(d, lookup, host)
  {
    hide Parse, SlotsOf, Dict.Valid;
    forall key | key in d.at && IsSlotKey(key, lookup, host)
      ensures NoClash(d, lookup, host) ==> Kept(d, lookup, host, key)
    {
      var k := Parse(key, lookup, host).value;
      ParsedBaseIsListed(key, lookup, host);
      SlotsOfHolds(d, lookup, host, lookup[k.base], k.number, k.base);
      assert StandsFor(d, lookup, host, k.number, k.base, key);
    }
    if forall key :: key in d.at && IsSlotKey(key, lookup, host) ==> Kept(d, lookup, host, key) {
      forall n, b, k1, k2 | StandsFor(d, lookup, host, n, b, k1) && StandsFor(d, lookup, host, n, b,
          k2) ensures k1 == k2 {
        assert Kept(d, lookup, host, k1) && Kept(d, lookup, host, k2);
      }
    }
  }

  // ------------------------------------------------------------------ round trip

  /** Every stored setting belongs to its group, and nothing is empty. */
  ghost predicate WellGrouped(all: SlotLists, lookup: Lookup) {
    && (forall g :: g in all ==> all[g] != [])
    && (forall g, i :: g in all && 0 <= i < |all[g]| ==> all[g][i] != map[])
    && (forall p :: IsPlace(all, p) ==> p.base in lookup && lookup[p.base] == p.group)
  }

  function Rekeyed(slot: Slot, number: nat, host: string): Slot {
    map b | b in slot :: Cell(Print(SlotKey(b, number, slot[b].prefixed), host), slot[b].value, slot[b].prefixed)
  }

  function RenumberedGroup(list: seq<Slot>, start: nat, host: string): map<nat, Slot> {
    if list == [] then map[]
    else
      var last := |list| - 1;
      RenumberedGroup(list[..last], start, host)[start + last := Rekeyed(list[last], start + last, host)]
  }

  lemma {:induction false} RenumberedGroupAt(list: seq<Slot>, start: nat, host: string, n: nat)
    ensures n in RenumberedGroup(list, start, host) <==> start <= n < start + |list|
    ensures start <= n < start + |list| ==>
              && n in RenumberedGroup(list, start, host)
              && RenumberedGroup(list, start, host)[n] == Rekeyed(list[n - start], n, host)
  {
    if list != [] { RenumberedGroupAt(list[..|list| - 1], start, host, n); }
  }

  /** The written lists as a table: numbered from `start`, under the keys they were written to. */
  function Renumbered(all: SlotLists, start: nat, host: string): Slots {
    map g | g in all :: RenumberedGroup(all[g], start, host)
  }

  lemma PlaceReadsBack(all: SlotLists, start: nat, lookup: Lookup, host: string, p: Place)
    requires Unambiguous(lookup, host) && WellGrouped(all, lookup) && IsPlace(all, p)
    ensures p.base in lookup && lookup[p.base] == p.group
    ensures Parse(KeyOf(all, start, host, p), lookup, host)
            == Some(SlotKey(p.base, start + p.index, CellOf(all, p).prefixed))
  {
    UnambiguousReadsBack(SlotKey(p.base, start + p.index, CellOf(all, p).prefixed), lookup, host);
  }

  lemma WrittenKeysAreExact(before: map<string, string>, after: Dict, all: SlotLists, start: nat, lookup: Lookup,
                            host: string, key: string)
    requires Unambiguous(lookup, host) && WellGrouped(all, lookup)
    requires Written(before, after.at, all, start, host)
    requires forall k :: k in before ==> !IsSlotKey(k, lookup, host)
    ensures key in after.at && IsSlotKey(key, lookup, host) ==>
              exists p :: WritesTo(all, start, host, p, key) && after.at[key] == CellOf(all, p).value
    ensures key in after.at && !IsSlotKey(key, lookup, host) <==> key in before
    ensures key in before ==> after.at[key] == before[key]
  {
    hide Parse, Print, Unambiguous, WellGrouped;
    var done :| WrittenPlaces(before, after.at, all, start, host, done) && IsEveryPlace(all, done);
    assert KeyWritten(before, after.at, all, start, host, done, key);
    if IsTarget(all, start, host, done, key) {
      var p :| p in done && WritesTo(all, start, host, p, key);
      PlaceReadsBack(all, start, lookup, host, p);
    }
  }

  lemma PlacesAreWritten(before: map<string, string>, after: Dict, all: SlotLists, start: nat, host: string, p: Place)
    requires Written(before, after.at, all, start, host) && IsPlace(all, p)
    ensures KeyOf(all, start, host, p) in after.at
  {
    var done :| WrittenPlaces(before, after.at, all, start, host, done) && IsEveryPlace(all, done);
    var key := KeyOf(all, start, host, p);
    assert KeyWritten(before, after.at, all, start, host, done, key);
    assert WritesTo(all, start, host, p, key);
  }

  lemma RenumberedHasNoEmptyParts(all: SlotLists, start: nat, host: string, lookup: Lookup)
    requires WellGrouped(all, lookup)
    ensures NoEmptyParts(Renumbered(all, start, host))
  {
    var t := Renumbered(all, start, host);
    forall g | g in t ensures NoEmptySlot(t[g]) {
      RenumberedGroupAt(all[g], start, host, start);
      forall n | n in t[g] ensures t[g][n] != map[] {
        RenumberedGroupAt(all[g], start, host, n);
        var b :| b in all[g][n - start];
        assert b in t[g][n];
      }
    }
  }

  lemma RenumberedHolds(all: SlotLists, start: nat, host: string, g: string, n: nat, b: string)
    ensures var t := Renumbered(all, start, host);
            && (Holds(t, g, n, b) <==> start <= n && IsPlace(all, Place(g, n - start, b)))
            && (Holds(t, g, n, b) ==>
                  var p := Place(g, n - start, b);
                  CellAt(t, g, n, b) == Cell(KeyOf(all, start, host, p), CellOf(all, p).value, CellOf(all, p).prefixed))
  {
    hide Print;
    if g in all { RenumberedGroupAt(all[g], start, host, n); }
  }

  lemma WrittenTableHolds(before: map<string, string>, after: Dict, all: SlotLists, start: nat, lookup: Lookup,
                          host: string, g: string, n: nat, b: string)
    requires Unambiguous(lookup, host) && WellGrouped(all, lookup)
    requires after.Valid() && Written(before, after.at, all, start, host)
    requires forall k :: k in before ==> !IsSlotKey(k, lookup, host)
    ensures var t, r := SlotsOf(after, lookup, host), Renumbered(all, start, host);
            && (Holds(t, g, n, b) <==> Holds(r, g, n, b))
            && (Holds(t, g, n, b) && Holds(r, g, n, b) ==> CellAt(t, g, n, b) == CellAt(r, g, n, b))
  {
    hide Written, SlotsOf, Renumbered, Print, Parse, Unambiguous, WellGrouped, Dict.Valid;
    var t := SlotsOf(after, lookup, host);
    SlotsOfHolds(after, lookup, host, g, n, b);
    RenumberedHolds(all, start, host, g, n, b);
    if Holds(t, g, n, b) {
      var key := CellAt(t, g, n, b).key;
      WrittenKeysAreExact(before, after, all, start, lookup, host, key);
      var p :| WritesTo(all, start, host, p, key) && after.at[key] == CellOf(all, p).value;
      PlaceReadsBack(all, start, lookup, host, p);
      assert p == Place(g, n - start, b);
    }
    if start <= n && IsPlace(all, Place(g, n - start, b)) {
      var p := Place(g, n - start, b);
      PlacesAreWritten(before, after, all, start, host, p);
      PlaceReadsBack(all, start, lookup, host, p);
      assert StandsFor(after, lookup, host, n, b, KeyOf(all, start, host, p));
    }
  }

  /**
    Print and parse are inverse on whole services: extracting from a service that held no slots
    and was just written to gives back exactly the written lists, numbered consecutively from
    the configured start and with their prefix flags, and leaves every other key as it was.
   */
  lemma WrittenSlotsReadBack(before: map<string, string>, after: Dict, all: SlotLists, start: nat, lookup: Lookup,
                             host: string)
    requires Unambiguous(lookup, host) && WellGrouped(all, lookup)
    requires after.Valid() && Written(before, after.at, all, start, host)
    requires forall k :: k in before ==> !IsSlotKey(k, lookup, host)
    ensures SlotsOf(after, lookup, host) == Renumbered(all, start, host)
    ensures ScalarsOf(after.at, lookup, host) == before
  {
    hide Written, Renumbered, IsSlotKey, Unambiguous, WellGrouped, Dict.Valid;
    forall g, n, b
      ensures Holds(SlotsOf(after, lookup, host), g, n, b) <==> Holds(Renumbered(all, start, host), g, n, b)
      ensures Holds(SlotsOf(after, lookup, host), g, n, b) && Holds(Renumbered(all, start, host), g, n, b) ==>
                CellAt(SlotsOf(after, lookup, host), g, n, b) == CellAt(Renumbered(all, start, host), g, n, b)
    {
      WrittenTableHolds(before, after, all, start, lookup, host, g, n, b);
    }
    ExtractedHasNoEmptyParts(after, |after.keys|, lookup, host);
    RenumberedHasNoEmptyParts(all, start, host, lookup);
    SameCellsSameTable(SlotsOf(after, lookup, host), Renumbered(all, start, host));
    forall key ensures key in ScalarsOf(after.at, lookup, host) <==> key in before
      ensures key in before ==> after.at[key] == before[key]
    {
      WrittenKeysAreExact(before, after, all, start, lookup, host, key);
    }
  }

  /** Unambiguous places print to different keys. */
  lemma PlacesAreApart(all: SlotLists, start: nat, lookup: Lookup, host: string, p: Place, q: Place)
    requires Unambiguous(lookup, host) && WellGrouped(all, lookup) && IsPlace(all, p) && IsPlace(all, q)
    requires KeyOf(all, start, host, p) == KeyOf(all, start, host, q)
    ensures p == q
  {
    hide Parse, Unambiguous, WellGrouped, KeyOf;
    PlaceReadsBack(all, start, lookup, host, p);
    PlaceReadsBack(all, start, lookup, host, q);
  }

  lemma WrittenAt(before: map<string, string>, after: map<string, string>, all: SlotLists, start: nat, host: string,
                  key: string)
    requires Written(before, after, all, start, host)
    ensures if exists p :: WritesTo(all, start, host, p, key)
            then key in after && exists p :: WritesTo(all, start, host, p, key) && after[key] == CellOf(all, p).value
            else (key in after <==> key in before) && (key in after ==> after[key] == before[key])
  {
    var done :| WrittenPlaces(before, after, all, start, host, done) && IsEveryPlace(all, done);
    assert KeyWritten(before, after, all, start, host, done, key);
    if p :| WritesTo(all, start, host, p, key) { assert p in done; }
  }

  /** For unambiguous settings the order in which the slots are written makes no difference to the outcome. */
  lemma WrittenIsDetermined(before: map<string, string>, a: map<string, string>, b: map<string, string>, all: SlotLists,
                            start: nat, lookup: Lookup, host: string)
    requires Unambiguous(lookup, host) && WellGrouped(all, lookup)
    requires Written(before, a, all, start, host) && Written(before, b, all, start, host)
    ensures a == b
  {
    hide Written, Unambiguous, WellGrouped, KeyOf;
    forall key ensures key in a <==> key in b
               ensures key in a && key in b ==> a[key] == b[key] {
      WrittenAt(before, a, all, start, host, key);
      WrittenAt(before, b, all, start, host, key);
      if exists p :: WritesTo(all, start, host, p, key) {
        var p :| WritesTo(all, start, host, p, key) && a[key] == CellOf(all, p).value;
        var q :| WritesTo(all, start, host, q, key) && b[key] == CellOf(all, q).value;
        PlacesAreApart(all, start, lookup, host, p, q);
      }
    }
  }
}
