/**
  Turning the services of the orchestrator into one flat settings map, and why splitting that map
  again gives every service its own settings back.
 */
module Flatten {
  import opened Text
  import opened SlotKeys
  import opened SlotTables
  import opened ServiceMerge
  import opened ServerKeys
  import opened Wrappers

  /** Whether a setting is valid for a server among the named ones, and whether it is valid globally. */
  datatype Oracle = Oracle(multisite: (seq<string>, string, string) -> bool, plain: (string, string) -> bool,
      kubernetes: bool)

  datatype Verdict = Rejected | Global | Local

  function Judge(variable: string, value: string, names: seq<string>, oracle: Oracle): Verdict {
    if variable == "NAMESPACE" || "CUSTOM_CONF" <= variable then Rejected
    else if oracle.multisite(names, variable, value) then Local
    else if oracle.kubernetes && oracle.plain(variable, value) then Global
    else Rejected
  }

  /** The key a setting of a service is stored under. */
  function Target(name: string, variable: string, value: string, names: seq<string>, oracle: Oracle): Option<string> {
    var verdict := Judge(variable, value, names, oracle);
    if verdict == Rejected then None
    else if verdict == Global || Prefix(name) <= variable then
      if variable == "SERVER_NAME" then None else Some(variable)
    else Some(Prefix(name) + variable)
  }

  function Step(env: Settings, name: string, variable: string, value: string, oracle: Oracle): (r: Settings)
    requires "SERVER_NAME" in env
    ensures "SERVER_NAME" in r
  {
    match Target(name, variable, value, Words(env["SERVER_NAME"]), oracle)
    case None => env
    case Some(key) => env[key := value]
  }

  function AfterKeys(env: Settings, d: Dict, m: nat, oracle: Oracle): (r: Settings)
    requires "SERVER_NAME" in env && m <= |d.keys|
    ensures "SERVER_NAME" in r
  {
    if m == 0 then env
    else Step(AfterKeys(env, d, m - 1, oracle), Primary(d), d.keys[m - 1], d.Get(d.keys[m - 1], ""), oracle)
  }

  function AfterServices(env: Settings, ds: seq<Dict>, n: nat, oracle: Oracle): (r: Settings)
    requires "SERVER_NAME" in env && n <= |ds|
    ensures "SERVER_NAME" in r
  {
    if n == 0 then env
    else
      var before := AfterServices(env, ds, n - 1, oracle);
      if Primary(ds[n - 1]) == "" then before else AfterKeys(before, ds[n - 1], |ds[n - 1].keys|, oracle)
  }

  /** The names of the services that have one. */
  function Names(ds: seq<Dict>): seq<string> {
    if ds == [] then []
    else
      var last := |ds| - 1;
      Names(ds[..last]) + (if Primary(ds[last]) == "" then [] else [Primary(ds[last])])
  }

  function Start(ds: seq<Dict>): Settings {
    map["SERVER_NAME" := Joined(Names(ds)), "MULTISITE" := "yes"]
  }

  function FullEnv(ds: seq<Dict>, oracle: Oracle): Settings {
    var env := AfterServices(Start(ds), ds, |ds|, oracle);
    env["SERVER_NAME" := Strip(env["SERVER_NAME"])]
  }

  // ------------------------------------------------------------------ what a service owns

  /** The setting that an accepted variable gives its own server, without the prefix of that server. */
  function OwnSetting(name: string, variable: string, value: string, names: seq<string>,
                      oracle: Oracle): Option<string> {
    var verdict := Judge(variable, value, names, oracle);
    if verdict == Rejected then None
    else if Prefix(name) <= variable then
      if variable == "SERVER_NAME" then None else Some(variable[|Prefix(name)|..])
    else if verdict == Local then Some(variable)
    else None
  }

  function OwnAfter(d: Dict, m: nat, names: seq<string>, oracle: Oracle): Settings
    requires m <= |d.keys|
  {
    if m == 0 then map[]
    else
      var before := OwnAfter(d, m - 1, names, oracle);
      var variable := d.keys[m - 1];
      match OwnSetting(Primary(d), variable, d.Get(variable, ""), names, oracle)
      case None => before
      case Some(x) => before[x := d.Get(variable, "")]
  }

  /** The accepted settings of a service. */
  function Own(d: Dict, names: seq<string>, oracle: Oracle): Settings {
    OwnAfter(d, |d.keys|, names, oracle)
  }

  /** A setting that is only accepted globally is none of the other servers'. */
  ghost predicate HarmlessGlobal(name: string, variable: string, value: string, names: seq<string>, oracle: Oracle) {
    Judge(variable, value, names, oracle) == Global && variable != "SERVER_NAME" ==>
      forall t :: t in names && t != name ==> !(Prefix(t) <= variable)
  }

  ghost predicate HarmlessGlobals(d: Dict, names: seq<string>, oracle: Oracle) {
    forall m :: 0 <= m < |d.keys| ==> HarmlessGlobal(Primary(d), d.keys[m], d.Get(d.keys[m], ""), names, oracle)
  }

  /** Names that can be told apart in the flat map, and from the list of names itself. */
  ghost predicate Separable(names: seq<string>) {
    PrefixFree(NameSet(names)) && "SERVER" !in names
  }

  ghost predicate AreWords(names: seq<string>) {
    forall i :: 0 <= i < |names| ==> IsWord(names[i])
  }

  // ------------------------------------------------------------------ one setting

  lemma TargetIsOwn(name: string, variable: string, value: string, names: seq<string>, oracle: Oracle)
    ensures var target, own := Target(name, variable, value, names, oracle), OwnSetting(name, variable, value,
        names, oracle);
            && (own.Some? ==> target == Some(Prefix(name) + own.value))
            && (own.None? && target.Some? ==> && target.value == variable && variable != "SERVER_NAME"
                                              && !(Prefix(name) <= variable)
                                              && Judge(variable, value, names, oracle) == Global)
  {
    hide Judge, Prefix;
    if Prefix(name) <= variable {
      assert variable == Prefix(name) + variable[|Prefix(name)|..];
    }
  }

  lemma SamePrefixSameSetting(s: string, x: string, y: string)
    requires Prefix(s) + x == Prefix(s) + y
    ensures x == y
  {
    var p := Prefix(s);
    assert (p + x)[|p|..] == x && (p + y)[|p|..] == y;
  }

  lemma ServerKeysAreApart(names: seq<string>, s: string, x: string, t: string, y: string)
    requires Separable(names) && s in names && t in names && s != t
    ensures Prefix(s) + x != Prefix(t) + y
  {
    hide Prefix;
    if Prefix(s) + x == Prefix(t) + y {
      var key := Prefix(s) + x;
      assert Prefix(s) <= key && Prefix(t) <= key;
      if |s| <= |t| { PrefixesNest(s, t, key); } else { PrefixesNest(t, s, key); }
    }
  }

  lemma OnlyServerHasTheList(s: string, x: string)
    requires s != "SERVER"
    ensures Prefix(s) + x != "SERVER_NAME"
  {
    var key := "SERVER_NAME";
    PrefixAt(key, s);
    assert Prefix(s) <= Prefix(s) + x;
    assert key[..6] == "SERVER" && forall i :: 0 <= i < |key| && key[i] == '_' ==> i == 6;
  }

  lemma NoServerKeyIsTheList(names: seq<string>, s: string, x: string)
    requires Separable(names) && s in names
    ensures Prefix(s) + x != "SERVER_NAME"
  {
    OnlyServerHasTheList(s, x);
  }

  lemma NoServerKeyIsTheMode(s: string, x: string)
    ensures Prefix(s) + x != "MULTISITE"
  {
    PrefixAt("MULTISITE", s);
    assert Prefix(s) <= Prefix(s) + x;
    assert '_' !in "MULTISITE";
  }

  /** What one setting does to the view of its own server, to that of another, and to the list. */
  lemma StepViews(env: Settings, names: seq<string>, name: string, variable: string, value: string, oracle: Oracle,
                  t: string, x: string)
    requires "SERVER_NAME" in env && Words(env["SERVER_NAME"]) == names
    requires Separable(names) && name in names && t in names
    requires HarmlessGlobal(name, variable, value, names, oracle)
    ensures var after := Step(env, name, variable, value, oracle);
            && after["SERVER_NAME"] == env["SERVER_NAME"]
            && ValueAt(after, Prefix(t) + x)
               == if t == name && OwnSetting(name, variable, value, names, oracle) == Some(x) then Some(value)
                  else ValueAt(env, Prefix(t) + x)
  {
    hide Target, OwnSetting, Judge, Prefix, Separable, Words;
    TargetIsOwn(name, variable, value, names, oracle);
    var own := OwnSetting(name, variable, value, names, oracle);
    if own.Some? {
      NoServerKeyIsTheList(names, name, own.value);
      if t != name {
        ServerKeysAreApart(names, name, own.value, t, x);
      } else if Prefix(t) + x == Prefix(t) + own.value {
        SamePrefixSameSetting(t, x, own.value);
      }
    } else {
      assert Prefix(t) <= Prefix(t) + x;
    }
  }

  // ------------------------------------------------------------------ one service, all services

  lemma {:induction false} AfterKeysViews(env: Settings, names: seq<string>, d: Dict, m: nat, oracle: Oracle,
                                          t: string, x: string)
    requires "SERVER_NAME" in env && Words(env["SERVER_NAME"]) == names && m <= |d.keys|
    requires Separable(names) && Primary(d) in names && t in names && HarmlessGlobals(d, names, oracle)
    ensures var after, own := AfterKeys(env, d, m, oracle), OwnAfter(d, m, names, oracle);
            && after["SERVER_NAME"] == env["SERVER_NAME"]
            && ValueAt(after, Prefix(t) + x)
               == if t == Primary(d) && x in own then Some(own[x]) else ValueAt(env, Prefix(t) + x)
  {
    hide Step, OwnSetting, Prefix, Separable, Words, Primary, HarmlessGlobal;
    if m > 0 {
      AfterKeysViews(env, names, d, m - 1, oracle, t, x);
      StepViews(AfterKeys(env, d, m - 1, oracle), names, Primary(d), d.keys[m - 1], d.Get(d.keys[m - 1], ""),
          oracle, t, x);
    }
  }

  lemma {:induction false} NamesAreNames(ds: seq<Dict>, i: nat)
    requires i < |ds| && Primary(ds[i]) != ""
    ensures Primary(ds[i]) in Names(ds)
  {
    hide Primary;
    if i < |ds| - 1 { NamesAreNames(ds[..|ds| - 1], i); }
  }

  ghost predicate DistinctHosts(ds: seq<Dict>) {
    forall i, j :: 0 <= i < j < |ds| && Primary(ds[i]) == Primary(ds[j]) ==> Primary(ds[i]) == ""
  }

  lemma {:induction false} DistinctNamesDistinctHosts(ds: seq<Dict>)
    requires Distinct(Names(ds))
    ensures DistinctHosts(ds)
  {
    hide Primary;
    if ds != [] {
      var last := |ds| - 1;
      var front := Names(ds[..last]);
      assert forall i, j :: 0 <= i < j < |front| ==> Names(ds)[i] == front[i] && Names(ds)[j] == front[j];
      DistinctNamesDistinctHosts(ds[..last]);
      forall i | 0 <= i < last && Primary(ds[i]) != "" ensures Primary(ds[i]) != Primary(ds[last]) {
        NamesAreNames(ds[..last], i);
        var k :| 0 <= k < |front| && front[k] == Primary(ds[i]);
        assert Names(ds)[k] == front[k];
        assert Primary(ds[last]) != "" ==> Names(ds)[|front|] == Primary(ds[last]);
      }
    }
  }

  /** What the conditions on the services are, given their names. */
  ghost predicate Harmless(ds: seq<Dict>, oracle: Oracle) {
    forall i :: 0 <= i < |ds| && Primary(ds[i]) != "" ==> HarmlessGlobals(ds[i], Names(ds), oracle)
  }

  lemma {:induction false} AfterServicesViews(ds: seq<Dict>, n: nat, oracle: Oracle, i: nat, x: string)
    requires n <= |ds| && i < |ds| && Primary(ds[i]) != ""
    requires Separable(Names(ds)) && AreWords(Names(ds)) && DistinctHosts(ds) && Harmless(ds, oracle)
    ensures var after := AfterServices(Start(ds), ds, n, oracle);
            && after["SERVER_NAME"] == Joined(Names(ds))
            && ValueAt(after, Prefix(Primary(ds[i])) + x)
               == if i < n && x in Own(ds[i], Names(ds), oracle) then Some(Own(ds[i], Names(ds), oracle)[x]) else None
  {
    hide AfterKeys, OwnAfter, Prefix, Separable, Words, Primary, HarmlessGlobals, IsWord, Joined, Names;
    var names := Names(ds);
    NamesAreNames(ds, i);
    if n == 0 {
      NoServerKeyIsTheList(names, Primary(ds[i]), x);
      NoServerKeyIsTheMode(Primary(ds[i]), x);
    } else {
      AfterServicesViews(ds, n - 1, oracle, i, x);
      var d := ds[n - 1];
      if Primary(d) != "" {
        var before := AfterServices(Start(ds), ds, n - 1, oracle);
        NamesAreNames(ds, n - 1);
        WordsOfList(names);
        AfterKeysViews(before, names, d, |d.keys|, oracle, Primary(ds[i]), x);
        assert n - 1 < i ==> Primary(ds[n - 1]) != Primary(ds[i]);
        assert i < n - 1 ==> Primary(ds[i]) != Primary(ds[n - 1]);
      }
    }
  }

  lemma WordsOfList(names: seq<string>)
    requires AreWords(names)
    ensures Words(Joined(names)) == names
  {
    hide Words, Joined, IsWord;
    WordsOfStart(names, "");
    assert Joined(names) + "" == Joined(names);
    assert Words("") == [] by { NoWords(); }
  }

  lemma NoWords()
    ensures Words("") == []
  {
  }

  // ------------------------------------------------------------------ the list and the mode

  /** No setting of a server that is not called `SERVER` is the list of names. */
  lemma StepKeepsList(env: Settings, name: string, variable: string, value: string, oracle: Oracle)
    requires "SERVER_NAME" in env && name != "SERVER"
    ensures Step(env, name, variable, value, oracle)["SERVER_NAME"] == env["SERVER_NAME"]
  {
    hide Judge, Words, Prefix;
    OnlyServerHasTheList(name, variable);
  }

  /** The mode that the settings of a service ask for globally: the last one that is accepted so. */
  function ModeAfterKeys(d: Dict, m: nat, names: seq<string>, oracle: Oracle): Option<string>
    requires m <= |d.keys|
  {
    if m == 0 then None
    else
      var variable := d.keys[m - 1];
      var value := d.Get(variable, "");
      if variable == "MULTISITE" && Judge(variable, value, names, oracle) == Global then Some(value)
      else ModeAfterKeys(d, m - 1, names, oracle)
  }

  function ModeAfterServices(ds: seq<Dict>, n: nat, names: seq<string>, oracle: Oracle): Option<string>
    requires n <= |ds|
  {
    if n == 0 then None
    else
      var d := ds[n - 1];
      var mode := if Primary(d) == "" then None else ModeAfterKeys(d, |d.keys|, names, oracle);
      if mode.Some? then mode else ModeAfterServices(ds, n - 1, names, oracle)
  }

  /** The last mode that a named service asks for and that is accepted globally. */
  function LastMode(ds: seq<Dict>, oracle: Oracle): Option<string> {
    ModeAfterServices(ds, |ds|, Names(ds), oracle)
  }

  ghost predicate KeepsMode(ds: seq<Dict>, oracle: Oracle) {
    LastMode(ds, oracle) == None || LastMode(ds, oracle) == Some("yes")
  }

  lemma StepMode(env: Settings, name: string, variable: string, value: string, oracle: Oracle)
    requires "SERVER_NAME" in env
    ensures ValueAt(Step(env, name, variable, value, oracle), "MULTISITE")
            == if variable == "MULTISITE" && Judge(variable, value, Words(env["SERVER_NAME"]), oracle) == Global
               then Some(value) else ValueAt(env, "MULTISITE")
  {
    hide Judge, Words, Prefix;
    NoServerKeyIsTheMode(name, variable);
    if Prefix(name) <= variable {
      NoServerKeyIsTheMode(name, variable[|Prefix(name)|..]);
      assert variable == Prefix(name) + variable[|Prefix(name)|..];
    }
  }

  function Or(a: Option<string>, b: Option<string>): Option<string> {
    if a.Some? then a else b
  }

  lemma {:induction false} KeysMode(env: Settings, names: seq<string>, d: Dict, m: nat, oracle: Oracle)
    requires "SERVER_NAME" in env && Words(env["SERVER_NAME"]) == names && m <= |d.keys| && Primary(d) != "SERVER"
    ensures AfterKeys(env, d, m, oracle)["SERVER_NAME"] == env["SERVER_NAME"]
    ensures ValueAt(AfterKeys(env, d, m, oracle), "MULTISITE")
            == Or(ModeAfterKeys(d, m, names, oracle), ValueAt(env, "MULTISITE"))
  {
    hide Step, Judge, Words, Primary;
    if m > 0 {
      KeysMode(env, names, d, m - 1, oracle);
      var before := AfterKeys(env, d, m - 1, oracle);
      StepKeepsList(before, Primary(d), d.keys[m - 1], d.Get(d.keys[m - 1], ""), oracle);
      StepMode(before, Primary(d), d.keys[m - 1], d.Get(d.keys[m - 1], ""), oracle);
    }
  }

  lemma {:induction false} ServicesMode(ds: seq<Dict>, n: nat, oracle: Oracle)
    requires n <= |ds| && AreWords(Names(ds)) && "SERVER" !in Names(ds)
    ensures AfterServices(Start(ds), ds, n, oracle)["SERVER_NAME"] == Joined(Names(ds))
    ensures ValueAt(AfterServices(Start(ds), ds, n, oracle), "MULTISITE")
            == Or(ModeAfterServices(ds, n, Names(ds), oracle), Some("yes"))
  {
    hide AfterKeys, ModeAfterKeys, Words, Primary, IsWord, Joined, Names;
    if n > 0 {
      ServicesMode(ds, n - 1, oracle);
      var d := ds[n - 1];
      if Primary(d) != "" {
        NamesAreNames(ds, n - 1);
        WordsOfList(Names(ds));
        KeysMode(AfterServices(Start(ds), ds, n - 1, oracle), Names(ds), d, |d.keys|, oracle);
      }
    }
  }

  /** The list survives, stray global settings or not. */
  lemma ListIsKept(ds: seq<Dict>, oracle: Oracle)
    requires AreWords(Names(ds)) && "SERVER" !in Names(ds)
    ensures Words(FullEnv(ds, oracle)["SERVER_NAME"]) == Names(ds)
  {
    hide AfterServices, Words, IsWord, Joined, Names, Strip;
    ServicesMode(ds, |ds|, oracle);
    WordsOfJoined(Names(ds)) by { assert AreWords(Names(ds)); }
  }

  /** The flat map is in multisite mode exactly if no named service asks globally for another mode last. */
  lemma ModeIsKeptIff(ds: seq<Dict>, oracle: Oracle)
    requires AreWords(Names(ds)) && "SERVER" !in Names(ds)
    ensures Multisite(FullEnv(ds, oracle)) <==> KeepsMode(ds, oracle)
  {
    hide AfterServices, ModeAfterServices, IsWord, Joined, Names, Strip;
    ServicesMode(ds, |ds|, oracle);
  }

  // ------------------------------------------------------------------ the round trip

  /**
    The flat map is in multisite mode, and split by the names it lists it gives each service back
    its settings, under its name and no other.
   */
  ghost predicate Recovers(ds: seq<Dict>, oracle: Oracle) {
    var env, names := FullEnv(ds, oracle), Names(ds);
    && Multisite(env) && "SERVER_NAME" in env && Words(env["SERVER_NAME"]) == names
    && forall i, x :: 0 <= i < |ds| && Primary(ds[i]) != "" ==>
         RecoversAt(env, NameSet(names), Primary(ds[i]), x, Own(ds[i], names, oracle))
  }

  ghost predicate RecoversAt(env: Settings, servers: set<string>, s: string, x: string, own: Settings) {
    var key := Prefix(s) + x;
    && (x in own <==> key in env && Split(key, servers) == Some(ServerKey(s, x)))
    && (x in own ==> key in env && env[key] == own[x])
  }

  /** What a server sees in the flat map is what its service set. */
  lemma OwnIsThere(ds: seq<Dict>, oracle: Oracle, i: nat, x: string)
    requires Separable(Names(ds)) && AreWords(Names(ds)) && DistinctHosts(ds) && Harmless(ds, oracle)
    requires i < |ds| && Primary(ds[i]) != ""
    ensures ValueAt(FullEnv(ds, oracle), Prefix(Primary(ds[i])) + x) == ValueAt(Own(ds[i], Names(ds), oracle), x)
  {
    hide AfterServices, Own, Prefix, Words, Primary, Harmless, Names, Strip, Separable, AreWords, DistinctHosts;
    AfterServicesViews(ds, |ds|, oracle, i, x);
    NamesAreNames(ds, i);
    NoServerKeyIsTheList(Names(ds), Primary(ds[i]), x);
  }

  /** For separable hosts the keys of a server hold exactly its accepted settings, and nothing of another one. */
  lemma OwnIsRecovered(ds: seq<Dict>, oracle: Oracle, i: nat, x: string)
    requires Separable(Names(ds)) && AreWords(Names(ds)) && DistinctHosts(ds) && Harmless(ds, oracle)
    requires i < |ds| && Primary(ds[i]) != ""
    ensures RecoversAt(FullEnv(ds, oracle), NameSet(Names(ds)), Primary(ds[i]), x, Own(ds[i], Names(ds), oracle))
  {
    hide FullEnv, Own, Prefix, Split, Primary, Harmless, Names, Separable, AreWords, DistinctHosts;
    OwnIsThere(ds, oracle, i, x);
    OwnKeySplits(ds, i, x);
  }

  lemma OwnKeySplits(ds: seq<Dict>, i: nat, x: string)
    requires Separable(Names(ds)) && i < |ds| && Primary(ds[i]) != ""
    ensures Split(Prefix(Primary(ds[i])) + x, NameSet(Names(ds))) == Some(ServerKey(Primary(ds[i]), x))
  {
    hide Prefix, Split, Primary, Names;
    NamesAreNames(ds, i);
    PrefixFreeSplits(NameSet(Names(ds)), Primary(ds[i]), x);
  }

  /**
    Flattening and splitting is a round trip for services with different hosts whose names are
    prefix-free, if and only if no service asks globally for another mode than multisite last.
   */
  lemma FlattenSplitsBackIff(ds: seq<Dict>, oracle: Oracle)
    requires Separable(Names(ds)) && AreWords(Names(ds)) && DistinctHosts(ds) && Harmless(ds, oracle)
    ensures Recovers(ds, oracle) <==> KeepsMode(ds, oracle)
  {
    hide FullEnv, Own, Words, Primary, Harmless, Names, DistinctHosts, RecoversAt, KeepsMode, Multisite;
    ListIsKept(ds, oracle);
    ModeIsKeptIff(ds, oracle);
    assert "SERVER_NAME" in FullEnv(ds, oracle) by { ListIsThere(ds, oracle); }
    forall i, x | 0 <= i < |ds| && Primary(ds[i]) != ""
      ensures RecoversAt(FullEnv(ds, oracle), NameSet(Names(ds)), Primary(ds[i]), x, Own(ds[i], Names(ds), oracle))
    {
      OwnIsRecovered(ds, oracle, i, x);
    }
  }

  lemma ListIsThere(ds: seq<Dict>, oracle: Oracle)
    ensures "SERVER_NAME" in FullEnv(ds, oracle)
  {
  }

  /** The same about the parts the templator makes. */
  lemma SplitGivesOwn(ds: seq<Dict>, oracle: Oracle, globals: Settings, specific: map<string, Settings>, i: nat)
    requires Recovers(ds, oracle) && IsModeSplit(FullEnv(ds, oracle), globals, specific)
    requires i < |ds| && Primary(ds[i]) != ""
    ensures Primary(ds[i]) in specific && specific[Primary(ds[i])] == Own(ds[i], Names(ds), oracle)
  {
    hide FullEnv, Own, Prefix, Split, Words, Primary, Names, Multisite;
    NamesAreNames(ds, i);
    var own, mine := Own(ds[i], Names(ds), oracle), specific[Primary(ds[i])];
    forall x ensures x in own <==> x in mine
             ensures x in own && x in mine ==> own[x] == mine[x] {
      assert RecoversAt(FullEnv(ds, oracle), NameSet(Names(ds)), Primary(ds[i]), x, own);
    }
  }
}
