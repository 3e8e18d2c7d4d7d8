/**
  The table of repeated settings that the web interface shows: for each group of settings one bank
  for every number that the configuration uses, all with the same settings in the same order.
 */
module Multiples {
  import opened Text
  import opened Ordering
  import opened SlotTables
  import opened Wrappers

  /** A shown setting: its name without number, and its value if there is one. */
  datatype Item = Item(setting: string, value: Option<string>)

  /** A dictionary of items, its keys in insertion order. */
  datatype Bank = Bank(keys: seq<string>, at: map<string, Item>) {
    function Put(k: string, v: Item): Bank {
      Bank(if k in at then keys else keys + [k], at[k := v])
    }

    ghost predicate Valid() {
      (forall k :: k in keys <==> k in at) && Distinct(keys)
    }
  }

  /** The banks of a group by suffix, in the order the suffixes were first used. */
  datatype Group = Group(order: seq<string>, banks: map<string, Bank>) {
    function Get(suffix: string): Bank {
      if suffix in banks then banks[suffix] else Bank([], map[])
    }

    function Set(suffix: string, bank: Bank): Group {
      Group(if suffix in banks then order else order + [suffix], banks[suffix := bank])
    }

    ghost predicate Valid() {
      && (forall s :: s in order <==> s in banks)
      && (forall s :: s in banks ==> banks[s].Valid())
      && Distinct(order)
    }
  }

  /** The number with which a key repeats the setting, as it is written. */
  function SuffixOf(setting: string, key: string): Option<string> {
    if setting + "_" <= key then
      var digits := key[|setting| + 1..];
      if digits != "" && AllDigits(digits) then Some(digits) else None
    else None
  }

  function Suffixed(base: string, suffix: string): string {
    base + "_" + suffix
  }

  // ------------------------------------------------------------------ one setting

  /** Puts the configured values of a setting, up to the `m`-th key, into their banks. */
  function Matched(g: Group, setting: string, config: Dict, m: nat): Group
    requires m <= |config.keys|
  {
    if m == 0 then g
    else
      var before := Matched(g, setting, config, m - 1);
      var key := config.keys[m - 1];
      match SuffixOf(setting, key)
      case None => before
      case Some(suffix) => before.Set(suffix, before.Get(suffix).Put(key, Item(setting, Some(config.Get(key, "")))))
  }

  /** A bank with exactly the settings of the base, in their order; missing ones are taken from the base. */
  function Completed(bank: Bank, base: Bank, suffix: string, n: nat): Bank
    requires n <= |base.keys|
  {
    if n == 0 then Bank([], map[])
    else
      var b := base.keys[n - 1];
      var key := Suffixed(b, suffix);
      var item := if key in bank.at then bank.at[key] else if b in base.at then base.at[b] else Item(b, None);
      Completed(bank, base, suffix, n - 1).Put(key, item)
  }

  function CompletedAll(g: Group): Group {
    var base := g.Get("0");
    Group(g.order, map s | s in g.banks :: if s == "0" then g.banks[s] else Completed(g.banks[s], base, s, |base.keys|))
  }

  function WithBase(g: Group, setting: string): Group {
    g.Set("0", g.Get("0").Put(setting, Item(setting, None)))
  }

  function WithSetting(g: Group, setting: string, config: Dict): Group {
    CompletedAll(Matched(WithBase(g, setting), setting, config, |config.keys|))
  }

  /** The group of the first `n` settings. */
  function GroupOf(settings: seq<string>, config: Dict): Group {
    if settings == [] then Group([], map[])
    else WithSetting(GroupOf(settings[..|settings| - 1], config), settings[|settings| - 1], config)
  }

  // ------------------------------------------------------------------ the loops

  method MatchConfig(g: Group, setting: string, config: Dict) returns (r: Group)
    requires config.Valid()
    ensures r == Matched(g, setting, config, |config.keys|)
  {
    hide SuffixOf, Dict.Valid;
    r := g;
    for m := 0 to |config.keys|
      invariant r == Matched(g, setting, config, m)
    {
      var key := config.keys[m];
      assert key in config.at by { KeyIsStored(config, m); }
      var suffix := SuffixOf(setting, key);
      if suffix.Some? {
        r := r.Set(suffix.value, r.Get(suffix.value).Put(key, Item(setting, Some(config.at[key]))));
      }
    }
  }

  lemma KeyIsStored(d: Dict, m: nat)
    requires d.Valid() && m < |d.keys|
    ensures d.keys[m] in d.at
  {
    assert d.keys[m] in d.keys;
  }

  /** Fills up one bank and puts it in the order of the base. */
  method CompleteBank(bank: Bank, base: Bank, suffix: string) returns (r: Bank)
    requires base.Valid()
    ensures r == Completed(bank, base, suffix, |base.keys|)
  {
    hide Suffixed, Bank.Put, Bank.Valid;
    r := Bank([], map[]);
    for n := 0 to |base.keys|
      invariant r == Completed(bank, base, suffix, n)
    {
      var b := base.keys[n];
      assert b in base.at by { BankHolds(base, n); }
      var key := Suffixed(b, suffix);
      r := r.Put(key, if key in bank.at then bank.at[key] else base.at[b]);
    }
  }

  lemma BankHolds(bank: Bank, n: nat)
    requires bank.Valid() && n < |bank.keys|
    ensures bank.keys[n] in bank.at
  {
    assert bank.keys[n] in bank.keys;
  }

  /** The first `i` banks are completed, the others are as they were. */
  ghost predicate CompletedTo(g: Group, banks: map<string, Bank>, i: nat)
    requires g.Valid() && i <= |g.order|
  {
    && banks.Keys == g.banks.Keys
    && forall j :: 0 <= j < |g.order| ==>
         banks[g.order[j]] == (if j < i then CompletedAll(g) else g).banks[g.order[j]]
  }

  method CompleteBanks(g: Group) returns (r: Group)
    requires g.Valid()
    ensures r == CompletedAll(g)
  {
    hide Completed, Bank.Valid, Group.Valid, CompletedAll, CompletedTo;
    var base := g.Get("0");
    GetIsValid(g, "0");
    var banks := g.banks;
    assert CompletedTo(g, banks, 0) by { NoneCompleted(g); }
    for i := 0 to |g.order|
      invariant CompletedTo(g, banks, i)
    {
      var suffix := g.order[i];
      OneMoreCompleted(g, banks, i);
      if suffix != "0" {
        var bank := CompleteBank(banks[suffix], base, suffix);
        banks := banks[suffix := bank];
      }
    }
    AllCompleted(g, banks);
    r := Group(g.order, banks);
  }

  lemma NoneCompleted(g: Group)
    requires g.Valid()
    ensures CompletedTo(g, g.banks, 0)
  {
    hide Completed, Bank.Valid;
  }

  lemma OneMoreCompleted(g: Group, banks: map<string, Bank>, i: nat)
    requires g.Valid() && i < |g.order| && CompletedTo(g, banks, i)
    ensures var s := g.order[i];
            && s in banks && banks[s] == g.Get(s)
            && CompletedTo(g, if s == "0" then banks
                              else banks[s := Completed(banks[s], g.Get("0"), s, |g.Get("0").keys|)], i + 1)
  {
    hide Completed, Bank.Valid;
    assert g.order[i] in g.order;
  }

  lemma AllCompleted(g: Group, banks: map<string, Bank>)
    requires g.Valid() && CompletedTo(g, banks, |g.order|)
    ensures Group(g.order, banks) == CompletedAll(g)
  {
    hide Completed, Bank.Valid;
    forall s | s in g.banks ensures banks[s] == CompletedAll(g).banks[s] {
      var j :| 0 <= j < |g.order| && g.order[j] == s;
    }
  }

  lemma EmptyBank()
    ensures Bank([], map[]).Valid()
  {
  }

  method BuildGroup(settings: seq<string>, config: Dict) returns (g: Group)
    requires config.Valid()
    ensures g == GroupOf(settings, config) && g.Valid()
  {
    hide Matched, CompletedAll, WithBase, Dict.Valid, Group.Valid;
    g := Group([], map[]);
    assert settings[..0] == [] && g.Valid() by { EmptyGroup(); }
    for i := 0 to |settings|
      invariant g == GroupOf(settings[..i], config) && g.Valid()
    {
      var setting := settings[i];
      assert settings[..i + 1][..i] == settings[..i];
      WithBaseIsValid(g, setting);
      MatchedIsValid(g.Set("0", g.Get("0").Put(setting, Item(setting, None))), setting, config, |config.keys|);
      g := g.Set("0", g.Get("0").Put(setting, Item(setting, None)));
      g := MatchConfig(g, setting, config);
      CompletedIsValid(g);
      g := CompleteBanks(g);
    }
    assert settings[..|settings|] == settings;
  }

  lemma EmptyGroup()
    ensures Group([], map[]).Valid()
  {
  }

  lemma PutIsValid(b: Bank, k: string, v: Item)
    requires b.Valid()
    ensures b.Put(k, v).Valid()
  {
  }

  lemma SetIsValid(g: Group, s: string, b: Bank)
    requires g.Valid() && b.Valid()
    ensures g.Set(s, b).Valid()
  {
    hide Bank.Valid;
  }

  lemma GetIsValid(g: Group, s: string)
    requires g.Valid()
    ensures g.Get(s).Valid()
  {
    EmptyBank();
  }

  lemma WithBaseIsValid(g: Group, setting: string)
    requires g.Valid()
    ensures WithBase(g, setting) == g.Set("0", g.Get("0").Put(setting, Item(setting, None)))
    ensures WithBase(g, setting).Valid()
  {
    hide Bank.Valid, Group.Valid, Group.Set, Group.Get, Bank.Put;
    GetIsValid(g, "0");
    PutIsValid(g.Get("0"), setting, Item(setting, None));
    SetIsValid(g, "0", g.Get("0").Put(setting, Item(setting, None)));
  }

  lemma {:induction false} MatchedIsValid(g: Group, setting: string, config: Dict, m: nat)
    requires g.Valid() && m <= |config.keys|
    ensures Matched(g, setting, config, m).Valid()
  {
    hide Bank.Valid, Group.Valid, Group.Set, Group.Get, Bank.Put, SuffixOf;
    if m > 0 {
      MatchedIsValid(g, setting, config, m - 1);
      var before := Matched(g, setting, config, m - 1);
      var key := config.keys[m - 1];
      match SuffixOf(setting, key) {
        case None =>
        case Some(suffix) =>
          var item := Item(setting, Some(config.Get(key, "")));
          GetIsValid(before, suffix);
          PutIsValid(before.Get(suffix), key, item);
          SetIsValid(before, suffix, before.Get(suffix).Put(key, item));
      }
    }
  }

  lemma {:induction false} CompletedBankIsValid(bank: Bank, base: Bank, suffix: string, n: nat)
    requires n <= |base.keys|
    ensures Completed(bank, base, suffix, n).Valid()
  {
    hide Suffixed, Bank.Valid, Bank.Put;
    if n > 0 {
      CompletedBankIsValid(bank, base, suffix, n - 1);
      var b := base.keys[n - 1];
      var key := Suffixed(b, suffix);
      var item := if key in bank.at then bank.at[key] else if b in base.at then base.at[b] else Item(b, None);
      PutIsValid(Completed(bank, base, suffix, n - 1), key, item);
    } else {
      EmptyBank();
    }
  }

  lemma CompletedIsValid(g: Group)
    requires g.Valid()
    ensures CompletedAll(g).Valid()
  {
    hide Completed, Bank.Valid;
    var base := g.Get("0");
    forall s | s in g.banks ensures CompletedAll(g).banks[s].Valid() {
      CompletedBankIsValid(g.banks[s], base, s, |base.keys|);
    }
  }

  // ------------------------------------------------------------------ uniform banks

  lemma SuffixedApart(a: string, b: string, suffix: string)
    requires Suffixed(a, suffix) == Suffixed(b, suffix)
    ensures a == b
  {
    assert |a| == |b|;
    assert Suffixed(a, suffix)[..|a|] == a && Suffixed(b, suffix)[..|b|] == b;
  }

  /** The keys of a bank when it has exactly the settings of the base in their order. */
  function KeysFor(base: Bank, suffix: string): (keys: seq<string>)
    ensures |keys| == |base.keys|
  {
    seq(|base.keys|, i requires 0 <= i < |base.keys| => Suffixed(base.keys[i], suffix))
  }

  lemma SuffixedIsNew(base: Bank, suffix: string, n: nat)
    requires n < |base.keys| && base.Valid()
    ensures KeysFor(base, suffix)[n] !in KeysFor(base, suffix)[..n]
  {
    hide Suffixed;
    var keys := KeysFor(base, suffix);
    forall j | 0 <= j < n ensures keys[..n][j] != keys[n] {
      if Suffixed(base.keys[j], suffix) == Suffixed(base.keys[n], suffix) {
        SuffixedApart(base.keys[j], base.keys[n], suffix);
      }
    }
  }

  /** A completed bank has the keys of the base, and the items that it had before. */
  lemma {:induction false} CompletedKeys(bank: Bank, base: Bank, suffix: string, n: nat)
    requires n <= |base.keys| && base.Valid()
    ensures Completed(bank, base, suffix, n).keys == KeysFor(base, suffix)[..n]
  {
    hide Suffixed, Bank.Valid, Bank.Put;
    if n > 0 {
      var before, key := Completed(bank, base, suffix, n - 1), KeysFor(base, suffix)[n - 1];
      CompletedKeys(bank, base, suffix, n - 1);
      CompletedBankIsValid(bank, base, suffix, n - 1);
      SuffixedIsNew(base, suffix, n - 1);
      var b := base.keys[n - 1];
      var item := if key in bank.at then bank.at[key] else if b in base.at then base.at[b] else Item(b, None);
      assert Completed(bank, base, suffix, n) == before.Put(key, item);
      PutAppends(before, key, item);
      assert KeysFor(base, suffix)[..n] == KeysFor(base, suffix)[..n - 1] + [key];
    }
  }

  lemma PutAppends(bank: Bank, k: string, v: Item)
    requires bank.Valid() && k !in bank.keys
    ensures bank.Put(k, v).keys == bank.keys + [k]
  {
  }

  lemma {:induction false} CompletedKeepsItems(bank: Bank, base: Bank, suffix: string, n: nat, i: nat)
    requires i < n <= |base.keys| && Suffixed(base.keys[i], suffix) in bank.at
    ensures var key := Suffixed(base.keys[i], suffix);
            key in Completed(bank, base, suffix, n).at && Completed(bank, base, suffix, n).at[key] == bank.at[key]
  {
    hide Suffixed;
    if i < n - 1 { CompletedKeepsItems(bank, base, suffix, n - 1, i); }
  }

  lemma {:induction false} GroupIsValid(settings: seq<string>, config: Dict)
    ensures GroupOf(settings, config).Valid()
  {
    hide Matched, CompletedAll, WithBase, Group.Valid;
    if settings != [] {
      var last := |settings| - 1;
      var before := GroupOf(settings[..last], config);
      GroupIsValid(settings[..last], config);
      WithBaseIsValid(before, settings[last]);
      MatchedIsValid(WithBase(before, settings[last]), settings[last], config, |config.keys|);
      CompletedIsValid(Matched(WithBase(before, settings[last]), settings[last], config, |config.keys|));
    } else {
      EmptyGroup();
    }
  }

  /** Every bank but the first ends with exactly the settings of the first one, numbered, in the same order. */
  lemma BanksAreUniform(settings: seq<string>, config: Dict, suffix: string)
    requires suffix in GroupOf(settings, config).banks && suffix != "0"
    ensures var g := GroupOf(settings, config);
            g.banks[suffix].keys == KeysFor(g.Get("0"), suffix)
  {
    hide Completed, Suffixed, Matched, WithBase, Bank.Valid;
    var last := |settings| - 1;
    var g := Matched(WithBase(GroupOf(settings[..last], config), settings[last]), settings[last], config,
        |config.keys|);
    assert g.Valid() by {
      GroupIsValid(settings[..last], config);
      WithBaseIsValid(GroupOf(settings[..last], config), settings[last]);
      MatchedIsValid(WithBase(GroupOf(settings[..last], config), settings[last]), settings[last], config,
          |config.keys|);
    }
    var base := g.Get("0");
    GetIsValid(g, "0");
    CompletedKeys(g.banks[suffix], base, suffix, |base.keys|);
    assert KeysFor(base, suffix)[..|base.keys|] == KeysFor(base, suffix);
  }

  // ------------------------------------------------------------------ no value is lost

  lemma SuffixIsRest(setting: string, key: string)
    requires SuffixOf(setting, key).Some?
    ensures key == Suffixed(setting, SuffixOf(setting, key).value)
    ensures AllDigits(SuffixOf(setting, key).value)
  {
    assert key == key[..|setting| + 1] + key[|setting| + 1..];
  }

  lemma OneSettingPerKey(s: string, t: string, key: string)
    requires SuffixOf(s, key).Some? && SuffixOf(t, key).Some?
    ensures s == t
  {
    hide SuffixOf;
    SuffixIsRest(s, key);
    SuffixIsRest(t, key);
    var a, b := SuffixOf(s, key).value, SuffixOf(t, key).value;
    assert key == s + ['_'] + a && key == t + ['_'] + b;
    LastIndexOfSeparator(s, '_', a);
    LastIndexOfSeparator(t, '_', b);
    assert key[..|s|] == s && key[..|t|] == t;
  }

  /** The bank holds the item under the key, and the setting is one of the base. */
  ghost predicate Holds(g: Group, s: string, suffix: string, key: string, item: Item) {
    && s in g.Get("0").at
    && key in g.Get(suffix).at && g.Get(suffix).at[key] == item
  }

  /** One item goes into one bank, and the rest stays. */
  lemma StoredItem(g: Group, suffix: string, key: string, item: Item, s: string, k: string)
    ensures var at := g.Set(suffix, g.Get(suffix).Put(key, item)).Get(s).at;
            && (k in at <==> k in g.Get(s).at || (s == suffix && k == key))
            && (k in at ==> at[k] == if s == suffix && k == key then item else g.Get(s).at[k])
  {
  }

  /** What the next key of the configuration does to one place of one bank. */
  lemma NextMatch(g: Group, t: string, config: Dict, m: nat, s: string, k: string)
    requires 0 < m <= |config.keys|
    ensures var key := config.keys[m - 1];
            var hit := SuffixOf(t, key) == Some(s) && k == key;
            var before, at := Matched(g, t, config, m - 1).Get(s).at, Matched(g, t, config, m).Get(s).at;
            && (k in at <==> k in before || hit)
            && (k in at ==> at[k] == if hit then Item(t, Some(config.Get(key, ""))) else before[k])
  {
    hide SuffixOf, Group.Set, Group.Get, Bank.Put;
    var key := config.keys[m - 1];
    if SuffixOf(t, key).Some? {
      StoredItem(Matched(g, t, config, m - 1), SuffixOf(t, key).value, key, Item(t, Some(config.Get(key, ""))), s, k);
    }
  }

  lemma {:induction false} MatchingKeeps(g: Group, t: string, config: Dict, m: nat, s: string, suffix: string,
                                         key: string, item: Item)
    requires m <= |config.keys| && Holds(g, s, suffix, key, item) && SuffixOf(t, key).None?
    ensures Holds(Matched(g, t, config, m), s, suffix, key, item)
  {
    hide SuffixOf, Group.Set, Group.Get, Bank.Put;
    if m > 0 {
      MatchingKeeps(g, t, config, m - 1, s, suffix, key, item);
      NextMatch(g, t, config, m, suffix, key);
      NextMatch(g, t, config, m, "0", s);
    }
  }

  lemma {:induction false} MatchingKeepsBase(g: Group, t: string, config: Dict, m: nat, s: string)
    requires m <= |config.keys| && s in g.Get("0").at
    ensures s in Matched(g, t, config, m).Get("0").at
  {
    hide SuffixOf, Group.Set, Group.Get, Bank.Put;
    if m > 0 {
      MatchingKeepsBase(g, t, config, m - 1, s);
      NextMatch(g, t, config, m, "0", s);
    }
  }

  lemma {:induction false} MatchingPuts(g: Group, s: string, config: Dict, m: nat, i: nat)
    requires i < m <= |config.keys| && SuffixOf(s, config.keys[i]).Some?
    ensures var key := config.keys[i];
            var bank := Matched(g, s, config, m).Get(SuffixOf(s, key).value);
            key in bank.at && bank.at[key] == Item(s, Some(config.Get(key, "")))
  {
    hide SuffixOf, Group.Set, Group.Get, Bank.Put;
    if i < m - 1 { MatchingPuts(g, s, config, m - 1, i); }
    NextMatch(g, s, config, m, SuffixOf(s, config.keys[i]).value, config.keys[i]);
  }

  lemma CompletionKeeps(g: Group, s: string, suffix: string, item: Item)
    requires g.Valid() && suffix != "0" && Holds(g, s, suffix, Suffixed(s, suffix), item)
    ensures Holds(CompletedAll(g), s, suffix, Suffixed(s, suffix), item)
  {
    hide Completed, Suffixed;
    var base := g.Get("0");
    assert s in base.keys;
    var i :| 0 <= i < |base.keys| && base.keys[i] == s;
    CompletedKeepsItems(g.banks[suffix], base, suffix, |base.keys|, i);
  }

  /** A value of the configuration stays under its key, although the banks are rebuilt for every setting to come. */
  lemma {:induction false} ValuesAreKept(settings: seq<string>, config: Dict, i: nat, key: string)
    requires config.Valid() && Distinct(settings) && i < |settings| && key in config.at
    requires SuffixOf(settings[i], key).Some? && SuffixOf(settings[i], key).value != "0"
    ensures Holds(GroupOf(settings, config), settings[i], SuffixOf(settings[i], key).value, key, Item(settings[i],
        Some(config.at[key])))
  {
    hide Matched, SuffixOf, CompletedAll, WithBase, Holds, Group.Valid, Dict.Valid, Suffixed;
    var last := |settings| - 1;
    var s, t := settings[i], settings[last];
    var suffix, item := SuffixOf(s, key).value, Item(s, Some(config.at[key]));
    SuffixIsRest(s, key);
    var before := GroupOf(settings[..last], config);
    var based := WithBase(before, t);
    GroupIsValid(settings[..last], config);
    WithBaseIsValid(before, t);
    MatchedIsValid(based, t, config, |config.keys|);
    if i < last {
      DistinctFront(settings);
      ValuesAreKept(settings[..last], config, i, key);
      BaseGrows(before, t, s, suffix, key, item);
      if SuffixOf(t, key).Some? { OneSettingPerKey(s, t, key); }
      MatchingKeeps(based, t, config, |config.keys|, s, suffix, key, item);
    } else {
      var k := PositionOf(config, key);
      MatchingPuts(based, s, config, |config.keys|, k);
      BaseHolds(before, s);
      MatchingKeepsBase(based, s, config, |config.keys|, s);
      HoldsWhenPut(Matched(based, s, config, |config.keys|), s, suffix, key, item);
    }
    CompletionKeeps(Matched(based, t, config, |config.keys|), s, suffix, item);
  }

  lemma DistinctFront(settings: seq<string>)
    requires Distinct(settings) && settings != []
    ensures Distinct(settings[..|settings| - 1])
    ensures forall i :: 0 <= i < |settings| - 1 ==> settings[i] != settings[|settings| - 1]
  {
  }

  lemma PositionOf(config: Dict, key: string) returns (k: nat)
    requires config.Valid() && key in config.at
    ensures k < |config.keys| && config.keys[k] == key && config.Get(key, "") == config.at[key]
  {
    assert key in config.keys;
    k :| 0 <= k < |config.keys| && config.keys[k] == key;
  }

  lemma BaseGrows(g: Group, t: string, s: string, suffix: string, key: string, item: Item)
    requires suffix != "0" && Holds(g, s, suffix, key, item)
    ensures Holds(WithBase(g, t), s, suffix, key, item)
  {
  }

  lemma BaseHolds(g: Group, s: string)
    ensures s in WithBase(g, s).Get("0").at
  {
  }

  lemma HoldsWhenPut(g: Group, s: string, suffix: string, key: string, item: Item)
    requires s in g.Get("0").at && key in g.Get(suffix).at && g.Get(suffix).at[key] == item
    ensures Holds(g, s, suffix, key, item)
  {
  }

  /** A key of the configuration that repeats the setting with the number 0. */
  ghost predicate RepeatsAsZero(setting: string, k: string, config: Dict) {
    k in config.at && SuffixOf(setting, k) == Some("0")
  }

  /** A later setting has the very name that the key is. */
  ghost predicate NamedLater(settings: seq<string>, i: nat, key: string) {
    exists j :: i < j < |settings| && settings[j] == key
  }

  /** The item of a bank, if it has one under the key. */
  function ItemAt(g: Group, suffix: string, key: string): Option<Item> {
    if key in g.Get(suffix).at then Some(g.Get(suffix).at[key]) else None
  }

  lemma {:induction false} MatchingKeepsUnlisted(g: Group, t: string, config: Dict, m: nat, suffix: string, k: string)
    requires m <= |config.keys|
    requires forall i :: 0 <= i < m && config.keys[i] == k ==> SuffixOf(t, k) != Some(suffix)
    ensures ItemAt(Matched(g, t, config, m), suffix, k) == ItemAt(g, suffix, k)
  {
    hide SuffixOf, Group.Set, Group.Get, Bank.Put;
    if m > 0 {
      MatchingKeepsUnlisted(g, t, config, m - 1, suffix, k);
      NextMatch(g, t, config, m, suffix, k);
    }
  }

  lemma BaseItemOfNext(g: Group, t: string, config: Dict, key: string)
    requires SuffixOf(t, key).None?
    ensures ItemAt(WithSetting(g, t, config), "0", key) == if key == t then Some(Item(t, None)) else ItemAt(g, "0", key)
  {
    hide SuffixOf, Completed, Matched;
    MatchingKeepsUnlisted(WithBase(g, t), t, config, |config.keys|, "0", key);
  }

  /** The value of a key that repeats a setting with the number 0, unless a later setting has its name. */
  lemma {:induction false} ZeroItem(settings: seq<string>, config: Dict, i: nat, key: string)
    requires config.Valid() && Distinct(settings) && i < |settings| && RepeatsAsZero(settings[i], key, config)
    ensures ItemAt(GroupOf(settings, config), "0", key)
            == Some(if NamedLater(settings, i, key) then Item(key, None) else Item(settings[i], Some(config.at[key])))
  {
    hide Matched, SuffixOf, WithSetting, Dict.Valid, ItemAt;
    var last := |settings| - 1;
    var s, t := settings[i], settings[last];
    var before := GroupOf(settings[..last], config);
    if i < last {
      DistinctFront(settings);
      ZeroItem(settings[..last], config, i, key);
      if SuffixOf(t, key).Some? { OneSettingPerKey(s, t, key); }
      BaseItemOfNext(before, t, config, key);
      NamedLaterGrows(settings, i, key);
    } else {
      ZeroItemOfLast(before, s, config, key);
    }
  }

  lemma NamedLaterGrows(settings: seq<string>, i: nat, key: string)
    requires i < |settings| - 1
    ensures NamedLater(settings, i, key)
            <==> NamedLater(settings[..|settings| - 1], i, key) || settings[|settings| - 1] == key
  {
    var front := settings[..|settings| - 1];
    if j :| i < j < |front| && front[j] == key { assert settings[j] == key; }
    if j :| i < j < |settings| - 1 && settings[j] == key { assert front[j] == key; }
  }

  lemma ZeroItemOfLast(g: Group, s: string, config: Dict, key: string)
    requires config.Valid() && RepeatsAsZero(s, key, config)
    ensures ItemAt(WithSetting(g, s, config), "0", key) == Some(Item(s, Some(config.at[key])))
  {
    hide Matched, SuffixOf, Completed, WithBase, Dict.Valid;
    var k := PositionOf(config, key);
    MatchingPuts(WithBase(g, s), s, config, |config.keys|, k);
  }

  /**
    With the number 0 a value stays under its key, in the first bank, if and only if no later
    setting has that very name.
   */
  lemma ZeroValueIsKeptIff(settings: seq<string>, config: Dict, i: nat, key: string)
    requires config.Valid() && Distinct(settings) && i < |settings| && RepeatsAsZero(settings[i], key, config)
    ensures ItemAt(GroupOf(settings, config), "0", key) == Some(Item(settings[i], Some(config.at[key])))
            <==> forall j :: i < j < |settings| ==> settings[j] != key
  {
    hide GroupOf, ItemAt, SuffixOf;
    ZeroItem(settings, config, i, key);
  }

  // ------------------------------------------------------------------ the first bank

  lemma {:induction false} MatchedBase(g: Group, s: string, config: Dict, m: nat, k: string)
    requires m <= |config.keys|
    ensures k in Matched(g, s, config, m).Get("0").at
            <==> k in g.Get("0").at || (k in config.keys[..m] && SuffixOf(s, k) == Some("0"))
  {
    hide SuffixOf, Group.Set, Group.Get, Bank.Put;
    if m > 0 {
      MatchedBase(g, s, config, m - 1, k);
      NextMatch(g, s, config, m, "0", k);
      assert config.keys[..m] == config.keys[..m - 1] + [config.keys[m - 1]];
    }
  }

  lemma {:induction false} BaseOf(settings: seq<string>, config: Dict, k: string)
    requires config.Valid()
    ensures k in GroupOf(settings, config).Get("0").at
            <==> k in settings || exists s :: s in settings && RepeatsAsZero(s, k, config)
  {
    hide WithSetting, RepeatsAsZero;
    if settings != [] {
      var last := |settings| - 1;
      BaseOf(settings[..last], config, k);
      BaseOfNext(GroupOf(settings[..last], config), settings[last], config, k);
      assert settings == settings[..last] + [settings[last]];
    }
  }

  lemma BaseOfNext(g: Group, t: string, config: Dict, k: string)
    requires config.Valid()
    ensures k in WithSetting(g, t, config).Get("0").at <==> k in g.Get("0").at || k == t || RepeatsAsZero(t, k, config)
  {
    hide SuffixOf, Completed, Matched;
    MatchedBase(WithBase(g, t), t, config, |config.keys|, k);
    assert config.keys[..|config.keys|] == config.keys;
  }

  /** The first bank holds just the settings of the group unless a setting is repeated with the number 0 by name. */
  lemma BaseIsSettingsIff(settings: seq<string>, config: Dict)
    requires config.Valid()
    ensures (forall k :: k in GroupOf(settings, config).Get("0").at <==> k in settings)
            <==> (forall s, k :: s in settings && RepeatsAsZero(s, k, config) ==> k in settings)
  {
    hide GroupOf, RepeatsAsZero;
    forall k ensures k in GroupOf(settings, config).Get("0").at
                     <==> k in settings || exists s :: s in settings && RepeatsAsZero(s, k, config) {
      BaseOf(settings, config, k);
    }
  }

  /** With such a key every further bank shows a setting that the group does not have. */
  lemma ZeroKeyAddsASetting(s: string, v: string, w: string)
    ensures var zero, one := Suffixed(s, "0"), Suffixed(s, "1");
            var g := GroupOf([s], Dict([zero, one], map[zero := v, one := w]));
            && zero in g.Get("0").at && "1" in g.banks && Suffixed(zero, "1") in g.banks["1"].keys
  {
    hide GroupOf, Suffixed, SuffixOf, Bank.Valid, RepeatsAsZero;
    var zero, one := Suffixed(s, "0"), Suffixed(s, "1");
    NumberedSettings(s);
    var config := Dict([zero, one], map[zero := v, one := w]);
    var g := GroupOf([s], config);
    assert RepeatsAsZero(s, zero, config) by { IsZeroKey(s, zero, config); }
    assert s in [s];
    BaseOf([s], config, zero);
    ValuesAreKept([s], config, 0, one);
    GroupIsValid([s], config);
    BanksAreUniform([s], config, "1");
    var base := g.Get("0");
    assert zero in base.keys by { GetIsValid(g, "0"); BankKeysAre(base, zero); }
    var i :| 0 <= i < |base.keys| && base.keys[i] == zero;
    assert KeysFor(base, "1")[i] == Suffixed(zero, "1");
  }

  lemma NumberedSettings(s: string)
    ensures Suffixed(s, "0") != Suffixed(s, "1")
    ensures SuffixOf(s, Suffixed(s, "0")) == Some("0") && SuffixOf(s, Suffixed(s, "1")) == Some("1")
  {
    assert Suffixed(s, "0")[|s| + 1..] == "0" && Suffixed(s, "1")[|s| + 1..] == "1";
    assert s + "_" <= Suffixed(s, "0") && s + "_" <= Suffixed(s, "1");
    assert AllDigits("0") && AllDigits("1");
  }

  lemma IsZeroKey(s: string, k: string, config: Dict)
    requires k in config.at && SuffixOf(s, k) == Some("0")
    ensures RepeatsAsZero(s, k, config)
  {
  }

  // ------------------------------------------------------------------ what is shown

  lemma SuffixOfNumbered(s: string, digits: string)
    requires digits != "" && AllDigits(digits)
    ensures SuffixOf(s, s + "_" + digits) == Some(digits)
  {
    var key := s + "_" + digits;
    assert s + "_" <= key && key[|s| + 1..] == digits;
  }

  /**
    A setting that the configuration repeats with a number, written in whatever way, is shown in
    the bank of that number, under its own key, with its value and its name without the number.
   */
  lemma RepeatedIsShown(settings: seq<string>, config: Dict, s: string, digits: string)
    requires config.Valid() && Distinct(settings) && s in settings && s + "_" + digits in config.at
    requires digits != "" && AllDigits(digits) && digits != "0"
    ensures var banks, key := Shown(settings, config).banks, s + "_" + digits;
            && digits in banks && key in banks[digits].at
            && banks[digits].at[key] == Item(s, Some(config.at[key]))
  {
    hide GroupOf, SuffixOf, Dict.Valid;
    SuffixOfNumbered(s, digits);
    var i :| 0 <= i < |settings| && settings[i] == s;
    ValuesAreKept(settings, config, i, s + "_" + digits);
  }

  /** The first bank has the setting without a value, and the bank does not hold another item for it. */
  ghost predicate Blank(g: Group, s: string, suffix: string) {
    && ItemAt(g, "0", s) == Some(Item(s, None))
    && ItemAt(g, suffix, Suffixed(s, suffix)) in {None, Some(Item(s, None))}
  }

  lemma {:induction false} CompletedItem(bank: Bank, base: Bank, suffix: string, n: nat, s: string)
    requires n <= |base.keys|
    ensures var at, key := Completed(bank, base, suffix, n).at, Suffixed(s, suffix);
            && (key in at <==> s in base.keys[..n])
            && (key in at ==> at[key] == if key in bank.at then bank.at[key]
                                         else if s in base.at then base.at[s] else Item(s, None))
  {
    hide Suffixed;
    if n > 0 {
      CompletedItem(bank, base, suffix, n - 1, s);
      var b := base.keys[n - 1];
      if Suffixed(b, suffix) == Suffixed(s, suffix) { SuffixedApart(b, s, suffix); }
      assert base.keys[..n] == base.keys[..n - 1] + [b];
    }
  }

  lemma CompletionKeepsBlank(g: Group, s: string, suffix: string)
    requires g.Valid() && suffix != "0" && Blank(g, s, suffix)
    ensures Blank(CompletedAll(g), s, suffix)
    ensures suffix in g.banks ==> ItemAt(CompletedAll(g), suffix, Suffixed(s, suffix)) == Some(Item(s, None))
  {
    hide Completed, Suffixed;
    var base := g.Get("0");
    if suffix in g.banks {
      CompletedItem(g.banks[suffix], base, suffix, |base.keys|, s);
      assert base.keys[..|base.keys|] == base.keys;
      assert s in base.keys;
    }
  }

  lemma BaseBecomesBlank(g: Group, t: string, s: string, suffix: string)
    requires suffix != "0" && (Blank(g, s, suffix) || (s == t && ItemAt(g, suffix, Suffixed(s, suffix)) == None))
    ensures Blank(WithBase(g, t), s, suffix)
  {
    hide Suffixed;
  }

  lemma BaseKeepsOthers(g: Group, t: string, suffix: string, key: string)
    requires suffix != "0"
    ensures ItemAt(WithBase(g, t), suffix, key) == ItemAt(g, suffix, key)
  {
  }

  /** Before the setting has its turn, no bank has an item for it that the configuration does not have. */
  lemma {:induction false} NothingYet(settings: seq<string>, config: Dict, s: string, suffix: string)
    requires config.Valid() && s !in settings && suffix != "0" && Suffixed(s, suffix) !in config.at
    requires forall t :: t in settings ==> s != Suffixed(t, "0")
    ensures ItemAt(GroupOf(settings, config), suffix, Suffixed(s, suffix)) == None
    ensures ItemAt(GroupOf(settings, config), "0", s) == None
  {
    hide Suffixed, SuffixOf, Completed, Matched, Group.Get, Bank.Valid, Group.Valid, WithBase, ItemAt, CompletedAll,
         Dict.Valid;
    if settings == [] {
      NothingAtAll(suffix, Suffixed(s, suffix));
      NothingAtAll("0", s);
    } else {
      var last := |settings| - 1;
      var t, before := settings[last], GroupOf(settings[..last], config);
      NothingYet(settings[..last], config, s, suffix);
      StepAddsNothing(before, t, config, s, suffix) by { GroupIsValid(settings[..last], config); }
    }
  }

  lemma NothingAtAll(suffix: string, key: string)
    ensures ItemAt(Group([], map[]), suffix, key) == None
  {
  }

  lemma BankKeysAre(bank: Bank, k: string)
    requires bank.Valid()
    ensures k in bank.keys <==> k in bank.at
  {
  }

  lemma StepAddsNothing(g: Group, t: string, config: Dict, s: string, suffix: string)
    requires g.Valid() && config.Valid() && s != t && suffix != "0" && Suffixed(s, suffix) !in config.at
    requires s != Suffixed(t, "0")
    requires ItemAt(g, suffix, Suffixed(s, suffix)) == None && ItemAt(g, "0", s) == None
    ensures ItemAt(WithSetting(g, t, config), suffix, Suffixed(s, suffix)) == None
    ensures ItemAt(WithSetting(g, t, config), "0", s) == None
  {
    hide Suffixed, SuffixOf, Completed, Matched;
    var based := WithBase(g, t);
    WithBaseIsValid(g, t);
    MatchedIsValid(based, t, config, |config.keys|);
    BaseKeepsOthers(g, t, suffix, Suffixed(s, suffix));
    forall i | 0 <= i < |config.keys| ensures config.keys[i] != Suffixed(s, suffix) { KeyIsStored(config, i); }
    MatchingKeepsUnlisted(based, t, config, |config.keys|, suffix, Suffixed(s, suffix));
    NotTheZero(t, s);
    MatchingKeepsUnlisted(based, t, config, |config.keys|, "0", s);
    var g2 := Matched(based, t, config, |config.keys|);
    var base := g2.Get("0");
    if suffix in g2.banks {
      CompletedItem(g2.banks[suffix], base, suffix, |base.keys|, s);
      assert base.keys[..|base.keys|] == base.keys;
      if s in base.keys { GetIsValid(g2, "0"); BankKeysAre(base, s); }
    }
  }

  lemma NotTheZero(t: string, s: string)
    requires s != Suffixed(t, "0")
    ensures SuffixOf(t, s) != Some("0")
  {
    if SuffixOf(t, s) == Some("0") { SuffixIsRest(t, s); }
  }

  /** What is not repeated with a number that others are repeated with is shown in its bank, without a value. */
  lemma {:induction false} MissingIsShownEmpty(settings: seq<string>, config: Dict, s: string, suffix: string)
    requires config.Valid() && Distinct(settings) && s in settings && suffix != "0"
    requires Suffixed(s, suffix) !in config.at && forall t :: t in settings ==> s != Suffixed(t, "0")
    ensures Blank(GroupOf(settings, config), s, suffix)
    ensures suffix in GroupOf(settings, config).banks ==>
              ItemAt(GroupOf(settings, config), suffix, Suffixed(s, suffix)) == Some(Item(s, None))
  {
    hide Suffixed, SuffixOf, Completed, Matched, Group.Get, Bank.Valid, Group.Valid, WithBase, ItemAt, CompletedAll,
         Dict.Valid, Blank;
    var last := |settings| - 1;
    var t, before := settings[last], GroupOf(settings[..last], config);
    var based := WithBase(before, t);
    GroupIsValid(settings[..last], config);
    WithBaseIsValid(before, t);
    MatchedIsValid(based, t, config, |config.keys|);
    DistinctFront(settings);
    if s == t {
      NothingYet(settings[..last], config, s, suffix);
    } else {
      MissingIsShownEmpty(settings[..last], config, s, suffix);
    }
    BaseBecomesBlank(before, t, s, suffix);
    MatchingKeepsBlank(based, t, config, s, suffix);
    CompletionKeepsBlank(Matched(based, t, config, |config.keys|), s, suffix);
    CompletionKeepsBanks(Matched(based, t, config, |config.keys|), suffix);
  }

  lemma MatchingKeepsBlank(g: Group, t: string, config: Dict, s: string, suffix: string)
    requires config.Valid() && Blank(g, s, suffix) && Suffixed(s, suffix) !in config.at && s != Suffixed(t, "0")
    ensures Blank(Matched(g, t, config, |config.keys|), s, suffix)
  {
    hide Suffixed, SuffixOf, ItemAt;
    forall i | 0 <= i < |config.keys| ensures config.keys[i] != Suffixed(s, suffix) { KeyIsStored(config, i); }
    MatchingKeepsUnlisted(g, t, config, |config.keys|, suffix, Suffixed(s, suffix));
    NotTheZero(t, s);
    MatchingKeepsUnlisted(g, t, config, |config.keys|, "0", s);
  }

  lemma CompletionKeepsBanks(g: Group, suffix: string)
    ensures suffix in CompletedAll(g).banks <==> suffix in g.banks
  {
    hide Completed;
  }

  /** Some setting is repeated with the number, as it is written. */
  ghost predicate Used(settings: seq<string>, config: Dict, digits: string) {
    digits != "" && AllDigits(digits) && exists s :: s in settings && s + "_" + digits in config.keys
  }

  lemma SuffixOfIff(s: string, k: string, digits: string)
    ensures SuffixOf(s, k) == Some(digits) <==> digits != "" && AllDigits(digits) && k == s + "_" + digits
  {
    if digits != "" && AllDigits(digits) { SuffixOfNumbered(s, digits); }
    if SuffixOf(s, k).Some? { SuffixIsRest(s, k); }
  }

  lemma {:induction false} MatchedBanks(g: Group, t: string, config: Dict, m: nat, suffix: string)
    requires m <= |config.keys|
    ensures suffix in Matched(g, t, config, m).banks
            <==> suffix in g.banks || exists i :: 0 <= i < m && SuffixOf(t, config.keys[i]) == Some(suffix)
  {
    hide SuffixOf, Bank.Put, Group.Get;
    if m > 0 { MatchedBanks(g, t, config, m - 1, suffix); }
  }

  lemma MatchedIff(t: string, config: Dict, digits: string)
    ensures (exists i :: 0 <= i < |config.keys| && SuffixOf(t, config.keys[i]) == Some(digits))
            <==> digits != "" && AllDigits(digits) && t + "_" + digits in config.keys
  {
    hide SuffixOf;
    forall i | 0 <= i < |config.keys|
      ensures SuffixOf(t, config.keys[i]) == Some(digits)
              <==> digits != "" && AllDigits(digits) && config.keys[i] == t + "_" + digits
    {
      SuffixOfIff(t, config.keys[i], digits);
    }
  }

  /** There is a bank for every number that is used, besides the first bank, and no other. */
  lemma {:induction false} BanksIff(settings: seq<string>, config: Dict, digits: string)
    ensures digits in GroupOf(settings, config).banks
            <==> (digits == "0" && settings != []) || Used(settings, config, digits)
  {
    hide WithSetting, Used;
    if settings == [] {
      NothingIsUsed(config, digits);
    } else {
      var last := |settings| - 1;
      BanksIff(settings[..last], config, digits);
      BanksOfNext(GroupOf(settings[..last], config), settings[last], config, digits);
      UsedGrows(settings, config, digits);
    }
  }

  lemma NothingIsUsed(config: Dict, digits: string)
    ensures !Used([], config, digits)
  {
  }

  lemma BanksOfNext(g: Group, t: string, config: Dict, digits: string)
    ensures digits in WithSetting(g, t, config).banks
            <==> digits in g.banks || digits == "0"
                 || (digits != "" && AllDigits(digits) && t + "_" + digits in config.keys)
  {
    hide SuffixOf, Completed, Matched, Bank.Put, Group.Get;
    MatchedBanks(WithBase(g, t), t, config, |config.keys|, digits);
    MatchedIff(t, config, digits);
  }

  lemma UsedGrows(settings: seq<string>, config: Dict, digits: string)
    requires settings != []
    ensures var last := |settings| - 1;
            Used(settings, config, digits)
            <==> Used(settings[..last], config, digits)
                 || (digits != "" && AllDigits(digits) && settings[last] + "_" + digits in config.keys)
  {
    assert settings == settings[..|settings| - 1] + [settings[|settings| - 1]];
  }

  // ------------------------------------------------------------------ the order of the banks

  function NumberOf(suffix: string): nat {
    if AllDigits(suffix) then DecimalValue(suffix) else 0
  }

  predicate NumberOrder(a: string, b: string) {
    NumberOf(a) <= NumberOf(b)
  }

  /** The suffixes by number, those with the same number as they came. */
  function SortedSuffixes(order: seq<string>): seq<string> {
    Sort(NumberOrder, order)
  }

  /** The table as it is shown. */
  function Shown(settings: seq<string>, config: Dict): Group {
    var g := GroupOf(settings, config);
    Group(SortedSuffixes(g.order), g.banks)
  }

  ghost predicate Ascending(order: seq<string>) {
    forall i, j :: 0 <= i < j < |order| ==> NumberOf(order[i]) <= NumberOf(order[j])
  }

  lemma SuffixesAreSorted(order: seq<string>)
    ensures Ascending(SortedSuffixes(order))
    ensures forall x :: x in SortedSuffixes(order) <==> x in order
  {
    hide NumberOf;
    SortSorts(NumberOrder, order);
    SortKeepsElements(NumberOrder, order);
    var r := SortedSuffixes(order);
    assert forall i, j :: 0 <= i < j < |r| ==> NumberOrder(r[i], r[j]);
  }

  lemma {:induction false} DistinctCounts(xs: seq<string>, x: string)
    requires Distinct(xs)
    ensures multiset(xs)[x] <= 1
  {
    if xs != [] {
      DistinctCounts(xs[..|xs| - 1], x);
      assert xs == xs[..|xs| - 1] + [xs[|xs| - 1]];
    }
  }

  lemma PermutedStayDistinct(xs: seq<string>, ys: seq<string>)
    requires Distinct(xs) && multiset(ys) == multiset(xs)
    ensures Distinct(ys)
  {
    forall i, j | 0 <= i < j < |ys| ensures ys[i] != ys[j] {
      DistinctCounts(xs, ys[j]);
      assert ys == ys[..j] + ys[j..];
      assert ys[i] == ys[..j][i] && ys[j] == ys[j..][0];
      assert ys[i] in multiset(ys[..j]) && ys[j] in multiset(ys[j..]);
    }
  }

  /** The banks are shown in ascending order of their numbers, each suffix that is used once. */
  lemma BanksAscend(settings: seq<string>, config: Dict)
    ensures Ascending(Shown(settings, config).order) && Distinct(Shown(settings, config).order)
    ensures forall s :: s in Shown(settings, config).order <==> s in Shown(settings, config).banks
  {
    hide Bank.Valid, NumberOf;
    GroupIsValid(settings, config);
    var order := GroupOf(settings, config).order;
    SuffixesAreSorted(order);
    SortSorts(NumberOrder, order);
    PermutedStayDistinct(order, SortedSuffixes(order));
  }
}
