/**
  For which host names the round trip through the flat map works, whatever the services contain:
  each condition has an input on which the round trip fails without it.
 */
module RoundTrip {
  import opened Text
  import opened SlotKeys
  import opened SlotTables
  import opened ServiceMerge
  import opened ServerKeys
  import opened Flatten
  import opened Wrappers

  /** Services with the given names and nothing else; the one at `j`, if there is one, also has `x`. */
  function Bare(names: seq<string>, j: nat, x: string, v: string): (ds: seq<Dict>)
    ensures |ds| == |names|
  {
    seq(|names|, i requires 0 <= i < |names| =>
      if i == j then Dict(["SERVER_NAME", x], map["SERVER_NAME" := names[i], x := v])
      else Dict(["SERVER_NAME"], map["SERVER_NAME" := names[i]]))
  }

  /** Some setting that the oracle accepts for a server, under a key that has no server's prefix. */
  predicate IsWitness(names: seq<string>, x: string, v: string, oracle: Oracle) {
    && x != "SERVER_NAME" && Judge(x, v, names, oracle) == Local
    && forall t :: t in names ==> !(Prefix(t) <= x)
  }

  lemma FirstWordOfWord(w: string)
    requires IsWord(w)
    ensures FirstWord(w) == w
  {
    assert forall i :: 0 <= i < |w| ==> w[i] != ' ';
  }

  lemma BareNames(names: seq<string>, j: nat, x: string, v: string, i: nat)
    requires AreWords(names) && i < |names| && x != "SERVER_NAME"
    ensures Primary(Bare(names, j, x, v)[i]) == names[i]
  {
    hide IsWord;
    FirstWordOfWord(names[i]);
  }

  lemma {:induction false} NamesByPosition(ds: seq<Dict>, names: seq<string>)
    requires |ds| == |names| && forall i :: 0 <= i < |ds| ==> Primary(ds[i]) == names[i] != ""
    ensures Names(ds) == names
  {
    hide Primary;
    if ds != [] {
      var last := |ds| - 1;
      NamesByPosition(ds[..last], names[..last]);
      assert names == names[..last] + [names[last]];
    }
  }

  lemma BareOwn(names: seq<string>, j: nat, x: string, v: string, oracle: Oracle)
    requires AreWords(names) && j < |names| && IsWitness(names, x, v, oracle)
    ensures var own := Own(Bare(names, j, x, v)[j], names, oracle);
            x in own && own[x] == v
  {
    hide IsWord, Primary, Judge;
    var d := Bare(names, j, x, v)[j];
    BareNames(names, j, x, v, j);
    assert d.keys[1] == x && d.Get(x, "") == v && |d.keys| == 2;
    assert OwnSetting(Primary(d), x, v, names, oracle) == Some(x);
  }

  lemma BareListsNames(names: seq<string>, j: nat, x: string, v: string)
    requires AreWords(names) && x != "SERVER_NAME"
    ensures Names(Bare(names, j, x, v)) == names
  {
    hide Primary, Bare;
    forall i | 0 <= i < |names| ensures Primary(Bare(names, j, x, v)[i]) == names[i] != "" {
      BareNames(names, j, x, v, i);
    }
    NamesByPosition(Bare(names, j, x, v), names);
  }

  /** No service sets the names that another server listens to by a setting that is accepted globally. */
  ghost predicate NamesAreOwn(ds: seq<Dict>, oracle: Oracle) {
    forall i, m, t ::
      0 <= i < |ds| && 0 <= m < |ds[i].keys| && t in Names(ds) && ds[i].keys[m] == Prefix(t) + "SERVER_NAME" ==>
        Judge(ds[i].keys[m], ds[i].Get(ds[i].keys[m], ""), Names(ds), oracle) != Global || t == Primary(ds[i])
  }

  /** With one setting that is not accepted globally, or that is no list of names, no service does. */
  lemma BareNamesAreOwn(names: seq<string>, j: nat, x: string, v: string, oracle: Oracle)
    requires AreWords(names) && x != "SERVER_NAME"
    requires Judge(x, v, names, oracle) != Global || forall t :: t in names ==> x != Prefix(t) + "SERVER_NAME"
    ensures NamesAreOwn(Bare(names, j, x, v), oracle)
  {
    hide Judge, IsWord, Primary, Names;
    BareListsNames(names, j, x, v);
    var ds := Bare(names, j, x, v);
    forall i, m, t | 0 <= i < |ds| && 0 <= m < |ds[i].keys| && t in names && ds[i].keys[m] == Prefix(t) + "SERVER_NAME"
      ensures Judge(ds[i].keys[m], ds[i].Get(ds[i].keys[m], ""), names, oracle) != Global
    {
      assert |Prefix(t) + "SERVER_NAME"| > |"SERVER_NAME"|;
      assert ds[i].keys[m] == x && ds[i].Get(x, "") == v;
    }
  }

  lemma WitnessIsOwn(names: seq<string>, j: nat, x: string, v: string, oracle: Oracle)
    requires AreWords(names) && IsWitness(names, x, v, oracle)
    ensures NamesAreOwn(Bare(names, j, x, v), oracle)
  {
    hide Judge, NamesAreOwn, AreWords;
    BareNamesAreOwn(names, j, x, v, oracle);
  }

  // ------------------------------------------------------------------ a host called `SERVER`

  lemma ServerNameIsServersName()
    ensures Prefix("SERVER") + "NAME" == "SERVER_NAME"
  {
  }

  /** A server called `SERVER` takes the list of names itself for a setting `NAME` of its own. */
  lemma ListedServerIsMistaken(names: seq<string>, x: string, v: string, oracle: Oracle)
    requires AreWords(names) && "SERVER" in names && IsWitness(names, x, v, oracle)
    ensures var ds := Bare(names, |names|, x, v); Names(ds) == names && !Recovers(ds, oracle)
  {
    hide Own, Words, Primary, FullEnv, Split, Judge;
    var j :| 0 <= j < |names| && names[j] == "SERVER";
    var ds := Bare(names, |names|, x, v);
    BareListsNames(names, |names|, x, v);
    BareNames(names, |names|, x, v, j);
    BareOwnsNothing(names, x, v, j, oracle);
    if Recovers(ds, oracle) {
      ListIsOwned(ds, names, j, oracle);
    }
  }

  lemma BareOwnsNothing(names: seq<string>, x: string, v: string, j: nat, oracle: Oracle)
    requires AreWords(names) && j < |names| && names[j] == "SERVER" && x != "SERVER_NAME"
    ensures Own(Bare(names, |names|, x, v)[j], names, oracle) == map[]
  {
    hide IsWord, Primary, Judge;
    var d := Bare(names, |names|, x, v)[j];
    BareNames(names, |names|, x, v, j);
    assert d.keys == ["SERVER_NAME"];
    ServerNameIsServersName();
    assert Prefix("SERVER") <= Prefix("SERVER") + "NAME";
    assert OwnSetting("SERVER", "SERVER_NAME", d.Get("SERVER_NAME", ""), names, oracle) == None;
    assert d.keys[0] == "SERVER_NAME" && OwnAfter(d, 0, names, oracle) == map[];
    assert OwnAfter(d, 1, names, oracle) == map[];
  }

  lemma ListIsOwned(ds: seq<Dict>, names: seq<string>, j: nat, oracle: Oracle)
    requires Names(ds) == names && j < |ds| && Primary(ds[j]) == "SERVER" && Recovers(ds, oracle)
    ensures "NAME" in Own(ds[j], names, oracle)
  {
    hide Own, Words, Primary, FullEnv, ScanFrom, Prefix, Strip;
    ServerNameIsServersName();
    NamesAreNames(ds, j);
    ListSplitsAtServer(names);
    assert RecoversAt(FullEnv(ds, oracle), NameSet(names), "SERVER", "NAME", Own(ds[j], names, oracle));
  }

  lemma ListSplitsAtServer(names: seq<string>)
    requires "SERVER" in names
    ensures Split("SERVER_NAME", NameSet(names)) == Some(ServerKey("SERVER", "NAME"))
  {
    hide Split;
    var key := "SERVER_NAME";
    SplitFindsShortest(key, NameSet(names));
    assert key[..6] == "SERVER" && forall i :: 0 <= i < |key| && key[i] == '_' ==> i == 6;
    PrefixAt(key, "SERVER");
    assert Prefix("SERVER") <= key;
    var k := Split(key, NameSet(names)).value;
    HasOwnPrefix(k, key);
    PrefixAt(key, k.server);
    assert k.server == "SERVER";
    assert k.setting == key[7..] == "NAME";
  }

  // ------------------------------------------------------------------ a name that shadows another

  lemma ShadowedSettingIsLost(names: seq<string>, s: string, t: string, x: string, v: string, oracle: Oracle)
    returns (ds: seq<Dict>)
    requires AreWords(names) && s in names && t in names && Shadows(s, t) && IsWitness(names, x, v, oracle)
    ensures Names(ds) == names && NamesAreOwn(ds, oracle) && !Recovers(ds, oracle)
  {
    hide Own, Words, Primary, FullEnv, Split, Judge, IsWitness, NamesAreOwn;
    var j :| 0 <= j < |names| && names[j] == t;
    ds := Bare(names, j, x, v);
    assert x != "SERVER_NAME" by { WitnessIsNoList(names, x, v, oracle); }
    BareListsNames(names, j, x, v);
    WitnessIsOwn(names, j, x, v, oracle);
    BareNames(names, j, x, v, j);
    BareOwn(names, j, x, v, oracle);
    var servers := NameSet(names);
    var key := Prefix(t) + x;
    SplitFindsShortest(key, servers);
    PrefixLengths(s, t);
    assert Prefix(s) <= key;
    assert Split(key, servers) != Some(ServerKey(t, x));
    assert !RecoversAt(FullEnv(ds, oracle), servers, t, x, Own(ds[j], names, oracle));
  }

  lemma WitnessIsNoList(names: seq<string>, x: string, v: string, oracle: Oracle)
    requires IsWitness(names, x, v, oracle)
    ensures x != "SERVER_NAME"
  {
  }

  // ------------------------------------------------------------------ another mode

  /** The oracle lets no service switch the mode. */
  ghost predicate ModeSafe(names: seq<string>, oracle: Oracle) {
    forall v :: Judge("MULTISITE", v, names, oracle) == Global ==> v == "yes"
  }

  lemma {:induction false} KeysAskForAccepted(d: Dict, m: nat, names: seq<string>, oracle: Oracle)
    requires m <= |d.keys|
    ensures var mode := ModeAfterKeys(d, m, names, oracle);
            mode.Some? ==> Judge("MULTISITE", mode.value, names, oracle) == Global
  {
    hide Judge;
    if m > 0 { KeysAskForAccepted(d, m - 1, names, oracle); }
  }

  lemma {:induction false} ServicesAskForAccepted(ds: seq<Dict>, n: nat, names: seq<string>, oracle: Oracle)
    requires n <= |ds|
    ensures var mode := ModeAfterServices(ds, n, names, oracle);
            mode.Some? ==> && Judge("MULTISITE", mode.value, names, oracle) == Global
                           && exists i :: 0 <= i < n && Primary(ds[i]) != ""
  {
    hide Judge, Primary, ModeAfterKeys;
    if n > 0 {
      ServicesAskForAccepted(ds, n - 1, names, oracle);
      KeysAskForAccepted(ds[n - 1], |ds[n - 1].keys|, names, oracle);
    }
  }

  lemma SafeModeIsKept(ds: seq<Dict>, oracle: Oracle)
    requires Names(ds) == [] || ModeSafe(Names(ds), oracle)
    ensures KeepsMode(ds, oracle)
  {
    hide Judge, Primary, ModeAfterServices, Names;
    ServicesAskForAccepted(ds, |ds|, Names(ds), oracle);
    if i :| 0 <= i < |ds| && Primary(ds[i]) != "" { NamesAreNames(ds, i); }
  }

  /** A service that asks for another mode, where that is accepted globally, undoes the round trip for all. */
  lemma OtherModeIsLost(names: seq<string>, v: string, oracle: Oracle)
    requires AreWords(names) && names != [] && "SERVER" !in names
    requires Judge("MULTISITE", v, names, oracle) == Global && v != "yes"
    ensures var ds := Bare(names, 0, "MULTISITE", v);
            Names(ds) == names && Harmless(ds, oracle) && !Recovers(ds, oracle)
  {
    hide FullEnv, Own, Words, Primary, Names, IsWord, Multisite, Judge;
    var ds := Bare(names, 0, "MULTISITE", v);
    BareListsNames(names, 0, "MULTISITE", v);
    forall i, m | 0 <= i < |ds| && 0 <= m < |ds[i].keys|
      ensures HarmlessGlobal(Primary(ds[i]), ds[i].keys[m], ds[i].Get(ds[i].keys[m], ""), names, oracle)
    {
      forall t ensures !(Prefix(t) <= "MULTISITE") { PrefixAt("MULTISITE", t); assert '_' !in "MULTISITE"; }
      assert ds[i].keys[m] == "SERVER_NAME" || ds[i].keys[m] == "MULTISITE";
    }
    BareMode(names, |ds|, v, oracle);
    ModeIsKeptIff(ds, oracle);
  }

  lemma WordsAreNotEmpty(w: string)
    requires IsWord(w)
    ensures w != ""
  {
  }

  lemma {:induction false} BareMode(names: seq<string>, n: nat, v: string, oracle: Oracle)
    requires AreWords(names) && 1 <= n <= |names| && Judge("MULTISITE", v, names, oracle) == Global
    ensures ModeAfterServices(Bare(names, 0, "MULTISITE", v), n, names, oracle) == Some(v)
  {
    hide Primary, Judge, IsWord;
    var ds := Bare(names, 0, "MULTISITE", v);
    var d := ds[n - 1];
    BareNames(names, 0, "MULTISITE", v, n - 1);
    if n == 1 {
      assert d.keys[1] == "MULTISITE" && d.Get("MULTISITE", "") == v && |d.keys| == 2;
      assert ModeAfterKeys(d, 2, names, oracle) == Some(v);
      WordsAreNotEmpty(names[0]);
    } else {
      BareMode(names, n - 1, v, oracle);
      assert d.keys == ["SERVER_NAME"];
      assert ModeAfterKeys(d, 0, names, oracle) == None;
      assert ModeAfterKeys(d, 1, names, oracle) == None;
    }
  }

  lemma BareModeIsOwn(names: seq<string>, mode: string, oracle: Oracle)
    requires AreWords(names)
    ensures NamesAreOwn(Bare(names, 0, "MULTISITE", mode), oracle)
  {
    hide Judge, NamesAreOwn, AreWords;
    forall t | t in names ensures "MULTISITE" != Prefix(t) + "SERVER_NAME" { NoServerKeyIsTheMode(t, "SERVER_NAME"); }
    BareNamesAreOwn(names, 0, "MULTISITE", mode, oracle);
  }

  /** A validity check that takes the mode as a global setting and everything else as a service's own. */
  function ModeIsGlobal(): Oracle {
    Oracle((names, variable, value) => variable != "MULTISITE", (variable, value) => true, true)
  }

  lemma JudgeOfMode(names: seq<string>, v: string)
    ensures Judge("MULTISITE", v, names, ModeIsGlobal()) == Global
  {
    assert !("CUSTOM_CONF" <= "MULTISITE");
  }

  /** Such an input: one host, one annotation. */
  lemma MultisiteNoIsLost()
    ensures var ds := [Dict(["SERVER_NAME", "MULTISITE"], map["SERVER_NAME" := "a", "MULTISITE" := "no"])];
            Names(ds) == ["a"] && Separable(["a"]) && Harmless(ds, ModeIsGlobal()) && !Recovers(ds, ModeIsGlobal())
  {
    hide Primary, Names, FullEnv, Own, Judge, ModeIsGlobal, Harmless, Recovers, Separable;
    JudgeOfMode(["a"], "no");
    assert AreWords(["a"]);
    assert "a" != "SERVER" by { assert |"a"| != |"SERVER"|; }
    OtherModeIsLost(["a"], "no", ModeIsGlobal());
    assert Bare(["a"], 0, "MULTISITE", "no")
        == [Dict(["SERVER_NAME", "MULTISITE"], map["SERVER_NAME" := "a", "MULTISITE" := "no"])];
    OneNameIsSeparable("a");
  }

  lemma OneNameIsSeparable(s: string)
    requires s != "SERVER"
    ensures Separable([s])
  {
  }

  // ------------------------------------------------------------------ another server's key

  /** The oracle accepts no other setting globally under a key that is another server's. */
  ghost predicate StraySafe(names: seq<string>, oracle: Oracle) {
    forall s, t, variable, value ::
      s in names && t in names && s != t && Prefix(t) <= variable && variable != Prefix(t) + "SERVER_NAME" ==>
        Judge(variable, value, names, oracle) != Global
  }

  lemma SafeIsHarmless(ds: seq<Dict>, oracle: Oracle)
    requires StraySafe(Names(ds), oracle) && NamesAreOwn(ds, oracle)
    ensures Harmless(ds, oracle)
  {
    hide Judge, Primary, Names;
    forall i | 0 <= i < |ds| && Primary(ds[i]) != "" ensures HarmlessGlobals(ds[i], Names(ds), oracle) {
      NamesAreNames(ds, i);
    }
  }

  lemma {:induction false} KeysAccumulate(env: Settings, d: Dict, m: nat, n: nat, oracle: Oracle)
    requires "SERVER_NAME" in env && m <= n <= |d.keys|
    ensures AfterKeys(env, d, m, oracle).Keys <= AfterKeys(env, d, n, oracle).Keys
  {
    hide Judge, Words, Primary, Prefix;
    if m < n { KeysAccumulate(env, d, m, n - 1, oracle); }
  }

  lemma {:induction false} ServicesAccumulate(env: Settings, ds: seq<Dict>, m: nat, n: nat, oracle: Oracle)
    requires "SERVER_NAME" in env && m <= n <= |ds|
    ensures AfterServices(env, ds, m, oracle).Keys <= AfterServices(env, ds, n, oracle).Keys
  {
    hide AfterKeys, Primary;
    if m < n {
      ServicesAccumulate(env, ds, m, n - 1, oracle);
      var before := AfterServices(env, ds, n - 1, oracle);
      KeysAccumulate(before, ds[n - 1], 0, |ds[n - 1].keys|, oracle);
      assert AfterKeys(before, ds[n - 1], 0, oracle) == before by { NoKeys(before, ds[n - 1], oracle); }
    }
  }

  lemma NoKeys(env: Settings, d: Dict, oracle: Oracle)
    requires "SERVER_NAME" in env
    ensures AfterKeys(env, d, 0, oracle) == env
  {
  }

  /** A setting that is accepted globally is in the flat map under its own name. */
  lemma StrayIsThere(names: seq<string>, i: nat, variable: string, value: string, oracle: Oracle)
    requires AreWords(names) && "SERVER" !in names && i < |names| && variable != "SERVER_NAME"
    requires Judge(variable, value, names, oracle) == Global
    ensures variable in FullEnv(Bare(names, i, variable, value), oracle)
  {
    hide Judge, Primary, Names, Strip, Joined, Words, IsWord, AfterKeys;
    var ds := Bare(names, i, variable, value);
    var d := ds[i];
    BareListsNames(names, i, variable, value);
    BareNames(names, i, variable, value, i);
    WordsAreNotEmpty(names[i]);
    ServicesMode(ds, i, oracle);
    WordsOfList(names);
    StrayIsStored(AfterServices(Start(ds), ds, i, oracle), names, d, variable, value, oracle);
    ServicesAccumulate(Start(ds), ds, i + 1, |ds|, oracle);
  }

  lemma StrayIsStored(env: Settings, names: seq<string>, d: Dict, variable: string, value: string, oracle: Oracle)
    requires "SERVER_NAME" in env && Words(env["SERVER_NAME"]) == names && Primary(d) != "SERVER"
    requires d.keys == ["SERVER_NAME", variable] && d.Get(variable, "") == value && variable != "SERVER_NAME"
    requires Judge(variable, value, names, oracle) == Global
    ensures variable in AfterKeys(env, d, |d.keys|, oracle)
  {
    hide Judge, Words, Primary, Prefix;
    KeysMode(env, names, d, 1, oracle);
    assert AfterKeys(env, d, 2, oracle) == Step(AfterKeys(env, d, 1, oracle), Primary(d), variable, value, oracle);
  }

  lemma PlainOwnsNothingElse(d: Dict, names: seq<string>, x: string, oracle: Oracle)
    requires d.keys == ["SERVER_NAME"] && Primary(d) != "SERVER" && x != "SERVER_NAME"
    ensures x !in Own(d, names, oracle)
  {
    hide Judge, Primary;
    var t := Primary(d);
    if Prefix(t) <= "SERVER_NAME" {
      assert Prefix(t) + "SERVER_NAME"[|Prefix(t)|..] == "SERVER_NAME";
      OnlyServerHasTheList(t, "SERVER_NAME"[|Prefix(t)|..]);
    }
    assert OwnAfter(d, 0, names, oracle) == map[];
  }

  lemma StraySettingIsMistaken(names: seq<string>, s: string, t: string, variable: string, value: string, oracle: Oracle)
    returns (ds: seq<Dict>)
    requires AreWords(names) && Separable(names) && s in names && t in names && s != t && Prefix(t) <= variable
    requires Judge(variable, value, names, oracle) == Global && variable != Prefix(t) + "SERVER_NAME"
    ensures Names(ds) == names && NamesAreOwn(ds, oracle) && !Recovers(ds, oracle)
  {
    hide Own, Words, Primary, FullEnv, Split, Judge, Names, IsWord, Multisite, NamesAreOwn, Prefix;
    var i :| 0 <= i < |names| && names[i] == s;
    var j :| 0 <= j < |names| && names[j] == t;
    var x := variable[|Prefix(t)|..];
    assert Prefix(t) + x == variable;
    OnlyServerHasTheList(t, x);
    ds := Bare(names, i, variable, value);
    BareListsNames(names, i, variable, value);
    BareNames(names, i, variable, value, j);
    WordsAreNotEmpty(names[j]);
    StrayIsThere(names, i, variable, value, oracle);
    forall u | u in names ensures variable != Prefix(u) + "SERVER_NAME" {
      if variable == Prefix(u) + "SERVER_NAME" && u != t { ServerKeysAreApart(names, u, "SERVER_NAME", t, x); }
    }
    BareNamesAreOwn(names, i, variable, value, oracle);
    OwnKeySplits(ds, j, x);
    PlainOwnsNothingElse(ds[j], names, x, oracle);
    assert !RecoversAt(FullEnv(ds, oracle), NameSet(names), t, x, Own(ds[j], names, oracle));
  }

  // ------------------------------------------------------------------ exactly when

  /**
    For given host names, and any oracle that accepts some setting at all, the round trip works
    whatever the services contain exactly when no name shadows another one, none of them is
    `SERVER`, to which the list of names looks like a setting of its own, and the oracle lets no
    service switch multisite mode off or set another server's key globally.
   */
  lemma RoundTripIff(names: seq<string>, oracle: Oracle, x: string, v: string)
    requires AreWords(names) && Distinct(names) && IsWitness(names, x, v, oracle)
    ensures (forall ds :: Names(ds) == names && NamesAreOwn(ds, oracle) ==> Recovers(ds, oracle))
            <==> Separable(names) && (names == [] || ModeSafe(names, oracle)) && StraySafe(names, oracle)
  {
    hide Recovers, Names, AreWords, Harmless, DistinctHosts, IsWitness, KeepsMode, Judge, NamesAreOwn;
    if !Separable(names) {
      if "SERVER" in names {
        ListedServerIsMistaken(names, x, v, oracle);
        WitnessIsOwn(names, |names|, x, v, oracle);
      } else {
        var s, t :| s in names && t in names && Prefix(s) <= Prefix(t) && s != t;
        var ds := ShadowedSettingIsLost(names, s, t, x, v, oracle);
      }
    } else if names != [] && !ModeSafe(names, oracle) {
      var mode :| Judge("MULTISITE", mode, names, oracle) == Global && mode != "yes";
      OtherModeIsLost(names, mode, oracle);
      BareModeIsOwn(names, mode, oracle);
    } else if !StraySafe(names, oracle) {
      var s, t, variable, value :| && s in names && t in names && s != t && Prefix(t) <= variable
                                   && variable != Prefix(t) + "SERVER_NAME"
                                   && Judge(variable, value, names, oracle) == Global;
      var ds := StraySettingIsMistaken(names, s, t, variable, value, oracle);
    } else {
      forall ds | Names(ds) == names && NamesAreOwn(ds, oracle) ensures Recovers(ds, oracle) {
        DistinctNamesDistinctHosts(ds);
        SafeIsHarmless(ds, oracle);
        SafeModeIsKept(ds, oracle);
        FlattenSplitsBackIff(ds, oracle);
      }
    }
  }
}
