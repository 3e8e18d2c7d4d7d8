/**
  Which key of the flat map a setting of a service ends up under, told from the answers of the
  validity check alone: settings that are valid for servers go behind the prefix of their server,
  and only what is valid for no server, on Kubernetes, is stored for all.
 */
module FlatKeys {
  import opened Text
  import opened SlotKeys
  import opened SlotTables
  import opened ServiceMerge
  import opened ServerKeys
  import opened Flatten
  import opened Wrappers

  /** The key is looked at at all. */
  predicate Considered(variable: string) {
    variable != "NAMESPACE" && !("CUSTOM_CONF" <= variable)
  }

  /** The check accepts the setting for no server, but on Kubernetes as a global one. */
  predicate OnlyGlobal(names: seq<string>, variable: string, value: string, oracle: Oracle) {
    && Considered(variable) && !oracle.multisite(names, variable, value)
    && oracle.kubernetes && oracle.plain(variable, value)
  }

  /** The `m`-th key of the service is a setting `x` of its own server, under its plain name or behind the prefix. */
  predicate SetsOwn(d: Dict, m: nat, x: string, names: seq<string>, oracle: Oracle)
    requires m < |d.keys|
  {
    var variable, value := d.keys[m], d.Get(d.keys[m], "");
    && Considered(variable)
    && if Primary(d) + "_" <= variable then
         && variable == Primary(d) + "_" + x && variable != "SERVER_NAME"
         && (oracle.multisite(names, variable, value) || OnlyGlobal(names, variable, value, oracle))
       else variable == x && oracle.multisite(names, variable, value)
  }

  /** The `m`-th key of the service is a setting `x` for all servers. */
  predicate SetsForAll(d: Dict, m: nat, x: string, names: seq<string>, oracle: Oracle)
    requires m < |d.keys|
  {
    d.keys[m] == x && x != "SERVER_NAME" && OnlyGlobal(names, x, d.Get(x, ""), oracle)
  }

  /** No service gives, for all servers, a setting that reads like one of another server. */
  ghost predicate NoStrays(ds: seq<Dict>, oracle: Oracle) {
    forall i, m, t ::
      0 <= i < |ds| && 0 <= m < |ds[i].keys| && t in Names(ds) && t != Primary(ds[i]) && t + "_" <= ds[i].keys[m]
      && Primary(ds[i]) != "" && ds[i].keys[m] != "SERVER_NAME" ==>
        !OnlyGlobal(Names(ds), ds[i].keys[m], ds[i].Get(ds[i].keys[m], ""), oracle)
  }

  lemma NoStraysIsHarmless(ds: seq<Dict>, oracle: Oracle)
    requires NoStrays(ds, oracle)
    ensures Harmless(ds, oracle)
  {
    hide Primary, Names;
    forall i, m, t | 0 <= i < |ds| && 0 <= m < |ds[i].keys| && t in Names(ds) && t != Primary(ds[i])
                     && t + "_" <= ds[i].keys[m] && Primary(ds[i]) != "" && ds[i].keys[m] != "SERVER_NAME"
      ensures Judge(ds[i].keys[m], ds[i].Get(ds[i].keys[m], ""), Names(ds), oracle) != Global
    {
      assert !OnlyGlobal(Names(ds), ds[i].keys[m], ds[i].Get(ds[i].keys[m], ""), oracle);
    }
  }

  // ------------------------------------------------------------------ settings of one server

  lemma OwnSettingIff(d: Dict, m: nat, x: string, names: seq<string>, oracle: Oracle)
    requires m < |d.keys|
    ensures OwnSetting(Primary(d), d.keys[m], d.Get(d.keys[m], ""), names, oracle) == Some(x)
            <==> SetsOwn(d, m, x, names, oracle)
  {
    hide Primary;
    var s, variable := Primary(d), d.keys[m];
    if s + "_" <= variable { assert variable == s + "_" + variable[|s + "_"|..]; }
    if variable == s + "_" + x { assert variable[|s + "_"|..] == x; }
  }

  /** The last of the first `n` keys that sets `x` decides; without one there is nothing. */
  lemma {:induction false} OwnAfterNone(d: Dict, n: nat, x: string, names: seq<string>, oracle: Oracle)
    requires n <= |d.keys| && forall m :: 0 <= m < n ==> !SetsOwn(d, m, x, names, oracle)
    ensures x !in OwnAfter(d, n, names, oracle)
  {
    hide OwnSetting, SetsOwn, Primary;
    if n > 0 {
      OwnAfterNone(d, n - 1, x, names, oracle);
      OwnSettingIff(d, n - 1, x, names, oracle);
    }
  }

  lemma {:induction false} OwnAfterSome(d: Dict, n: nat, x: string, names: seq<string>, oracle: Oracle, m: nat)
    requires m < n <= |d.keys| && SetsOwn(d, m, x, names, oracle)
    ensures x in OwnAfter(d, n, names, oracle)
    ensures (forall l :: m < l < n ==> !SetsOwn(d, l, x, names, oracle)) ==>
              OwnAfter(d, n, names, oracle)[x] == d.Get(d.keys[m], "")
  {
    hide OwnSetting, SetsOwn, Primary;
    OwnSettingIff(d, n - 1, x, names, oracle);
    if m < n - 1 { OwnAfterSome(d, n - 1, x, names, oracle, m); }
  }

  /**
    A server has a setting in the flat map if and only if its service gives it one that is valid
    for servers, or one behind the server's prefix that is valid at all; the last one counts.
   */
  lemma OwnKeyIff(ds: seq<Dict>, oracle: Oracle, i: nat, x: string)
    requires Separable(Names(ds)) && AreWords(Names(ds)) && DistinctHosts(ds) && NoStrays(ds, oracle)
    requires i < |ds| && Primary(ds[i]) != ""
    ensures var env, key, d, names := FullEnv(ds, oracle), Primary(ds[i]) + "_" + x, ds[i], Names(ds);
            && (key in env <==> exists m :: 0 <= m < |d.keys| && SetsOwn(d, m, x, names, oracle))
            && forall m :: 0 <= m < |d.keys| && SetsOwn(d, m, x, names, oracle)
                           && (forall l :: m < l < |d.keys| ==> !SetsOwn(d, l, x, names, oracle)) ==>
                 key in env && env[key] == d.Get(d.keys[m], "")
  {
    hide FullEnv, Primary, Names, SetsOwn, Separable, AreWords, DistinctHosts, NoStrays, Harmless, OwnAfter;
    NoStraysIsHarmless(ds, oracle);
    OwnIsThere(ds, oracle, i, x);
    var d, names := ds[i], Names(ds);
    if forall m :: 0 <= m < |d.keys| ==> !SetsOwn(d, m, x, names, oracle) {
      OwnAfterNone(d, |d.keys|, x, names, oracle);
    }
    forall m | 0 <= m < |d.keys| && SetsOwn(d, m, x, names, oracle)
      ensures x in OwnAfter(d, |d.keys|, names, oracle)
      ensures (forall l :: m < l < |d.keys| ==> !SetsOwn(d, l, x, names, oracle)) ==>
                OwnAfter(d, |d.keys|, names, oracle)[x] == d.Get(d.keys[m], "")
    {
      OwnAfterSome(d, |d.keys|, x, names, oracle, m);
    }
    assert Prefix(Primary(ds[i])) + x == Primary(ds[i]) + "_" + x;
  }

  // ------------------------------------------------------------------ settings for all servers

  /** The key is none of the listed servers'. */
  ghost predicate NobodysKey(names: seq<string>, x: string) {
    forall t :: t in names ==> !(t + "_" <= x)
  }

  lemma TargetForAllIff(d: Dict, m: nat, x: string, names: seq<string>, oracle: Oracle)
    requires m < |d.keys| && Primary(d) in names && NobodysKey(names, x)
    ensures Target(Primary(d), d.keys[m], d.Get(d.keys[m], ""), names, oracle) == Some(x)
            <==> SetsForAll(d, m, x, names, oracle)
  {
    hide Primary;
    var s, variable := Primary(d), d.keys[m];
    assert s + "_" <= s + "_" + variable;
  }

  lemma {:induction false} KeysForAll(env: Settings, d: Dict, n: nat, x: string, names: seq<string>, oracle: Oracle)
    requires "SERVER_NAME" in env && Words(env["SERVER_NAME"]) == names && n <= |d.keys|
    requires Primary(d) in names && Primary(d) != "SERVER" && NobodysKey(names, x) && x != "SERVER_NAME"
    ensures var after := AfterKeys(env, d, n, oracle);
            && (x in after <==> x in env || exists m :: 0 <= m < n && SetsForAll(d, m, x, names, oracle))
            && ((forall m :: 0 <= m < n ==> !SetsForAll(d, m, x, names, oracle)) ==>
                  ValueAt(after, x) == ValueAt(env, x))
            && (forall m :: 0 <= m < n && SetsForAll(d, m, x, names, oracle) ==> ValueAt(after, x) == Some(d.Get(x, "")))
  {
    hide Target, SetsForAll, Primary, Words, NobodysKey;
    if n > 0 {
      KeysForAll(env, d, n - 1, x, names, oracle);
      KeysMode(env, names, d, n - 1, oracle);
      TargetForAllIff(d, n - 1, x, names, oracle);
      GivesItsValue(d, n - 1, x, names, oracle);
    }
  }

  lemma GivesItsValue(d: Dict, m: nat, x: string, names: seq<string>, oracle: Oracle)
    requires m < |d.keys|
    ensures SetsForAll(d, m, x, names, oracle) ==> d.keys[m] == x
  {
  }

  /** The service has a name and gives `x` to all servers. */
  ghost predicate Gives(ds: seq<Dict>, i: nat, x: string, oracle: Oracle) {
    && i < |ds| && Primary(ds[i]) != ""
    && exists m :: 0 <= m < |ds[i].keys| && SetsForAll(ds[i], m, x, Names(ds), oracle)
  }

  lemma OneServiceForAll(ds: seq<Dict>, n: nat, x: string, oracle: Oracle)
    requires n < |ds| && AreWords(Names(ds)) && "SERVER" !in Names(ds)
    requires NobodysKey(Names(ds), x) && x != "SERVER_NAME"
    ensures ValueAt(AfterServices(Start(ds), ds, n + 1, oracle), x)
            == if Gives(ds, n, x, oracle) then Some(ds[n].Get(x, ""))
               else ValueAt(AfterServices(Start(ds), ds, n, oracle), x)
  {
    hide AfterKeys, SetsForAll, Primary, Words, NobodysKey, IsWord, Joined, Names;
    var d, before := ds[n], AfterServices(Start(ds), ds, n, oracle);
    if Primary(d) != "" {
      ServicesMode(ds, n, oracle);
      WordsOfList(Names(ds));
      NamesAreNames(ds, n);
      KeysForAll(before, d, |d.keys|, x, Names(ds), oracle);
    }
  }

  lemma {:induction false} ServicesForAllNone(ds: seq<Dict>, n: nat, x: string, oracle: Oracle)
    requires n <= |ds| && AreWords(Names(ds)) && "SERVER" !in Names(ds)
    requires NobodysKey(Names(ds), x) && x != "SERVER_NAME" && x != "MULTISITE"
    requires forall i :: 0 <= i < n ==> !Gives(ds, i, x, oracle)
    ensures x !in AfterServices(Start(ds), ds, n, oracle)
  {
    hide AfterKeys, Gives, Primary, NobodysKey, AreWords, Joined, Names;
    if n > 0 {
      ServicesForAllNone(ds, n - 1, x, oracle);
      OneServiceForAll(ds, n - 1, x, oracle);
    }
  }

  lemma {:induction false} ServicesForAllSome(ds: seq<Dict>, n: nat, x: string, oracle: Oracle, i: nat)
    requires i < n <= |ds| && AreWords(Names(ds)) && "SERVER" !in Names(ds)
    requires NobodysKey(Names(ds), x) && x != "SERVER_NAME" && Gives(ds, i, x, oracle)
    ensures x in AfterServices(Start(ds), ds, n, oracle)
    ensures (forall j :: i < j < n ==> !Gives(ds, j, x, oracle)) ==>
              AfterServices(Start(ds), ds, n, oracle)[x] == ds[i].Get(x, "")
  {
    hide AfterKeys, Gives, Primary, NobodysKey, AreWords, Joined, Names;
    OneServiceForAll(ds, n - 1, x, oracle);
    if i < n - 1 { ServicesForAllSome(ds, n - 1, x, oracle, i); }
  }

  /**
    A key that is no server's is in the flat map if and only if some named service gives it a
    value that is valid for no server, but on Kubernetes for all of them; the last service counts.
   */
  lemma GlobalKeyIff(ds: seq<Dict>, oracle: Oracle, x: string)
    requires AreWords(Names(ds)) && "SERVER" !in Names(ds)
    requires NobodysKey(Names(ds), x) && x != "SERVER_NAME" && x != "MULTISITE"
    ensures var env := FullEnv(ds, oracle);
            && (x in env <==> exists i :: 0 <= i < |ds| && Gives(ds, i, x, oracle))
            && forall i :: 0 <= i < |ds| && Gives(ds, i, x, oracle)
                           && (forall j :: i < j < |ds| ==> !Gives(ds, j, x, oracle)) ==>
                 x in env && env[x] == ds[i].Get(x, "")
  {
    hide AfterServices, Gives, Names, AreWords, NobodysKey, Strip;
    if forall i :: 0 <= i < |ds| ==> !Gives(ds, i, x, oracle) { ServicesForAllNone(ds, |ds|, x, oracle); }
    forall i | 0 <= i < |ds| && Gives(ds, i, x, oracle)
      ensures x in FullEnv(ds, oracle)
      ensures (forall j :: i < j < |ds| ==> !Gives(ds, j, x, oracle)) ==> FullEnv(ds, oracle)[x] == ds[i].Get(x, "")
    {
      ServicesForAllSome(ds, |ds|, x, oracle, i);
    }
  }
}
