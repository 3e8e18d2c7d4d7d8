/**
  The configuration object of the autoconf controllers: it remembers what was applied last,
  recomputes the flat settings map when something changed, and saves it.
 */
module AutoconfConfig {
  import opened Text
  import opened SlotKeys
  import opened SlotTables
  import opened ServiceMerge
  import opened ServerKeys
  import opened Flatten
  import opened Wrappers
  import Handshake

  type Instance = map<string, string>
  type Configs = map<string, map<string, string>>

  /** What the database holds: what was saved last of each kind, and the change flags that are up. */
  datatype Contents = Contents(
    config: Settings,
    instances: seq<Instance>,
    configs: Configs,
    flags: set<Handshake.Kind>
  )

  /** The fields of the object, and the database. */
  datatype Cache = Cache(
    instances: seq<Instance>,
    services: seq<Dict>,
    configs: Configs,
    extra: Settings,
    config: Settings,
    signature: Option<set<string>>,
    stored: Contents
  )

  /** One call of `apply`. */
  datatype Request = Request(
    instances: seq<Instance>,
    services: seq<Dict>,
    configs: Configs,
    extra: Settings,
    first: bool,
    force: bool
  )

  /** What the database does during a call: which saves work, whether plugins changed, and whether the flags get up. */
  datatype Database = Database(
    writable: bool,
    ready: bool,
    savesInstances: bool,
    savesConfig: bool,
    savesConfigs: bool,
    changesPlugins: bool,
    raisesFlags: bool
  )

  /** Which changes a call has on its list. */
  datatype Changes = Changes(instances: bool, services: bool, configs: bool, extra: bool, config: bool)

  datatype Reply = ReadOnly | Timeout | Done(success: bool, changes: Changes)

  ghost predicate Complete(services: seq<Dict>) {
    forall i :: 0 <= i < |services| ==> services[i].Valid() && "SERVER_NAME" in services[i].at
  }

  /** Lists of dictionaries are compared by what the dictionaries hold, not by the order of their keys. */
  predicate SameServices(a: seq<Dict>, b: seq<Dict>) {
    |a| == |b| && forall i :: 0 <= i < |a| ==> a[i].at == b[i].at
  }

  // ------------------------------------------------------------------ what a call does

  function ChangesOf(c: Cache, r: Request): Changes {
    Changes(r.instances != c.instances || r.first,
            !SameServices(r.services, c.services) || r.first,
            r.configs != c.configs || r.first,
            r.extra != c.extra || r.first,
            false)
  }

  function Taken(c: Cache, r: Request): Cache {
    var changes := ChangesOf(c, r);
    c.(instances := if changes.instances then r.instances else c.instances,
       services := if changes.services then r.services else c.services,
       configs := if changes.configs then r.configs else c.configs)
  }

  predicate Recomputes(changes: Changes, r: Request) {
    changes.instances || changes.services || changes.extra || r.force
  }

  function Recomputed(c: Cache, r: Request, changes: Changes, oracle: Oracle): (Cache, Changes) {
    if Recomputes(changes, r) then
      var env := FullEnv(c.services, oracle) + r.extra;
      var after := if changes.extra then c.(extra := r.extra) else c;
      if env != c.config || r.first then (after.(config := env), changes.(config := true)) else (after, changes)
    else (c, changes)
  }

  /** The kinds of data with a flag of their own that are on the list of changes. */
  function KindsOf(changes: Changes): seq<Handshake.Kind> {
    (if changes.instances then [Handshake.Kind.Instances] else [])
    + (if changes.configs then [Handshake.Kind.CustomConfigs] else [])
  }

  /**
    The flags that a call raises. The text of a failed save of the settings is handed on as the list
    of changed plugins, which the database takes for an error: nothing is raised then.
   */
  function FlagsFor(changes: Changes, db: Database): set<Handshake.Kind> {
    if !db.raisesFlags || (changes.config && !db.savesConfig) then {}
    else
      Handshake.RaisedBy(KindsOf(changes), changes.services || changes.extra || changes.config)
      + (if changes.config && db.changesPlugins then {Handshake.Kind.PluginsConfig} else {})
  }

  /** Saving: whatever fails keeps its old contents. */
  function Updated(c: Cache, changes: Changes, db: Database): Contents {
    Contents(
      if changes.config && db.savesConfig then c.config else c.stored.config,
      if changes.instances && db.savesInstances then c.instances else c.stored.instances,
      if changes.configs && db.savesConfigs then c.configs else c.stored.configs,
      c.stored.flags + FlagsFor(changes, db))
  }

  function Stored(c: Cache, changes: Changes, db: Database, settings: set<string>): (Cache, bool) {
    var ok := (changes.config ==> db.savesConfig) && (changes.configs ==> db.savesConfigs);
    var after := c.(stored := Updated(c, changes, db));
    (if ok then after.(signature := Some(settings)) else after, ok)
  }

  function Applied(c: Cache, r: Request, db: Database, settings: set<string>, oracle: Oracle): (Cache, Reply) {
    if !db.writable then (c, ReadOnly)
    else if !db.ready then (c, Timeout)
    else
      var (recomputed, changes) := Recomputed(Taken(c, r), r, ChangesOf(c, r), oracle);
      var (after, ok) := Stored(recomputed, changes, db, settings);
      (after, Done(ok, changes))
  }

  function Rendered<T>(xs: seq<T>): set<T> {
    set x | x in xs
  }

  /** Whether a controller should apply: it compares the renderings as sets. */
  predicate NeedsUpdate(c: Cache, r: Request) {
    || Rendered(c.instances) != Rendered(r.instances)
    || Rendered(c.services) != Rendered(r.services)
    || c.configs != r.configs
    || c.extra != r.extra
  }

  // ------------------------------------------------------------------ the object

  class Config {
    var instances: seq<Instance>
    var services: seq<Dict>
    var configs: Configs
    var extra: Settings
    var config: Settings
    var signature: Option<set<string>>
    var settings: set<string>
    ghost var stored: Contents

    ghost function State(): Cache
      reads this
    {
      Cache(instances, services, configs, extra, config, signature, stored)
    }

    constructor (supported: set<string>, ghost stored: Contents)
      ensures State() == Cache([], [], map t | t in supported :: map[], map[], map[], None, stored)
    {
      instances, services, extra, config, signature := [], [], map[], map[], None;
      configs := map t | t in supported :: map[];
      settings := {};
      this.stored := stored;
    }

    /** Whether the valid settings differ from those of the last successful call. */
    method SettingsChanged() returns (changed: bool)
      ensures changed <==> signature.Some? && signature.value != settings
    {
      changed := signature != None && Some(settings) != signature;
    }

    /** The names of all services, each with a space in front of it. */
    method ListNames() returns (names: string)
      requires Complete(services)
      ensures names == Joined(Names(services))
    {
      hide Primary, Joined, Names;
      names := "";
      NothingJoined();
      assert services[..0] == [];
      for i := 0 to |services|
        invariant names == Joined(Names(services[..i]))
      {
        var name := FirstWord(services[i].at["SERVER_NAME"]);
        assert name == Primary(services[i]) by { PrimaryIsFirst(services[i]); }
        NamesGrow(services, i);
        if name != "" {
          JoinedGrows(Names(services[..i]), name);
          names := names + " " + name;
        }
      }
      assert services[..|services|] == services;
    }

    /** The settings of one service. */
    method AddService(env: Settings, d: Dict, oracle: Oracle) returns (env': Settings)
      requires "SERVER_NAME" in env && d.Valid() && "SERVER_NAME" in d.at
      ensures env' == if Primary(d) == "" then env else AfterKeys(env, d, |d.keys|, oracle)
    {
      hide Words, Joined, Dict.Valid, AfterKeys, Prefix;
      env' := env;
      assert env == AfterKeys(env, d, 0, oracle) by { NothingStepped(env, d, oracle); }
      var name := FirstWord(d.at["SERVER_NAME"]);
      assert name == Primary(d) by { PrimaryIsFirst(d); }
      if name == "" { return; }
      for m := 0 to |d.keys|
        invariant "SERVER_NAME" in env' && env' == AfterKeys(env, d, m, oracle)
      {
        var variable := d.keys[m];
        KeysAreStored(d, m);
        OneMoreStep(env, d, m, oracle);
        var value := d.at[variable];
        if variable == "NAMESPACE" || "CUSTOM_CONF" <= variable { continue; }
        var isGlobal := false;
        if !oracle.multisite(Words(env'["SERVER_NAME"]), variable, value) {
          if oracle.kubernetes && oracle.plain(variable, value) {
            isGlobal := true;
          } else {
            continue;
          }
        }
        if isGlobal || Prefix(name) <= variable {
          if variable == "SERVER_NAME" { continue; }
          env' := env'[variable := value];
          continue;
        }
        env' := env'[Prefix(name) + variable := value];
      }
    }

    method GetFullEnv(oracle: Oracle) returns (env: Settings)
      requires Complete(services)
      ensures env == FullEnv(services, oracle)
    {
      hide AfterKeys, Primary, Joined, Names, Dict.Valid, Strip;
      var names := ListNames();
      env := map["SERVER_NAME" := names, "MULTISITE" := "yes"];
      for i := 0 to |services|
        invariant "SERVER_NAME" in env && env == AfterServices(Start(services), services, i, oracle)
      {
        env := AddService(env, services[i], oracle);
      }
      env := env["SERVER_NAME" := Strip(env["SERVER_NAME"])];
    }

    method UpdateNeeded(r: Request) returns (needed: bool)
      ensures needed <==> NeedsUpdate(State(), r)
    {
      needed := Rendered(instances) != Rendered(r.instances)
                || Rendered(services) != Rendered(r.services)
                || configs != r.configs
                || extra != r.extra;
    }

    /** Notes what differs from the last call and takes it over, all but the extra settings. */
    method TakeOver(r: Request) returns (changes: Changes)
      modifies this
      ensures changes == ChangesOf(old(State()), r) && State() == Taken(old(State()), r)
      ensures settings == old(settings)
    {
      hide SameServices;
      changes := Changes(false, false, false, false, false);
      if r.instances != instances || r.first {
        instances := r.instances;
        changes := changes.(instances := true);
      }
      if !SameServices(r.services, services) || r.first {
        services := r.services;
        changes := changes.(services := true);
      }
      if r.configs != configs || r.first {
        configs := r.configs;
        changes := changes.(configs := true);
      }
      if r.extra != extra || r.first { changes := changes.(extra := true); }
    }

    /** Recomputes the settings map if anything it depends on changed. */
    method Recompute(r: Request, noted: Changes, oracle: Oracle) returns (changes: Changes)
      requires Complete(services)
      modifies this
      ensures (State(), changes) == Recomputed(old(State()), r, noted, oracle)
      ensures settings == old(settings)
    {
      hide FullEnv, Complete;
      changes := noted;
      if changes.instances || changes.services || changes.extra || r.force {
        var oldEnv := config;
        var newEnv := GetFullEnv(oracle);
        newEnv := newEnv + r.extra;
        if oldEnv != newEnv || r.first {
          config := newEnv;
          changes := changes.(config := true);
        }
        if changes.extra { extra := r.extra; }
      }
    }

    /** Saves what changed and raises the flags; a failed save of the instances is only logged. */
    method Store(changes: Changes, db: Database) returns (success: bool)
      modifies this
      ensures (State(), success) == Stored(old(State()), changes, db, settings)
      ensures settings == old(settings)
    {
      hide FlagsFor;
      success := true;
      if changes.instances && db.savesInstances { stored := stored.(instances := instances); }
      if changes.config {
        if db.savesConfig { stored := stored.(config := config); } else { success := false; }
      }
      if changes.configs {
        if db.savesConfigs { stored := stored.(configs := configs); } else { success := false; }
      }
      stored := stored.(flags := stored.flags + FlagsFor(changes, db));
      if success { signature := Some(settings); }
    }

    method Apply(r: Request, db: Database, oracle: Oracle) returns (reply: Reply)
      requires Complete(services) && Complete(r.services)
      modifies this
      ensures (State(), reply) == Applied(old(State()), r, db, old(settings), oracle)
      ensures settings == old(settings) && Complete(services)
    {
      hide ChangesOf, Recomputed, Stored, Complete;
      if !db.writable { return ReadOnly; }
      if !db.ready { return Timeout; }
      var changes := TakeOver(r);
      label taken:
      assert services == r.services || services == old(services);
      changes := Recompute(r, changes, oracle);
      assert services == old@taken(services) by {
        RecomputedKeepsServices(old@taken(State()), r, ChangesOf(old(State()), r), oracle);
      }
      var success := Store(changes, db);
      assert services == old@taken(services) by {
        RecomputedKeepsServices(old@taken(State()), r, ChangesOf(old(State()), r), oracle);
        var recomputed := Recomputed(old@taken(State()), r, ChangesOf(old(State()), r), oracle).0;
        StoredKeepsServices(recomputed, changes, db, settings);
      }
      return Done(success, changes);
    }
  }

  lemma RecomputedKeepsServices(c: Cache, r: Request, changes: Changes, oracle: Oracle)
    ensures Recomputed(c, r, changes, oracle).0.services == c.services
  {
    hide FullEnv;
  }

  lemma StoredKeepsServices(c: Cache, changes: Changes, db: Database, settings: set<string>)
    ensures Stored(c, changes, db, settings).0.services == c.services
  {
  }

  /** What is not noted as a change is the same. */
  lemma UnchangedIsSame(c: Cache, r: Request)
    ensures var changes := ChangesOf(c, r);
            && (!changes.instances ==> !r.first && r.instances == c.instances)
            && (!changes.services ==> !r.first && SameServices(r.services, c.services))
            && (!changes.configs ==> !r.first && r.configs == c.configs)
            && (!changes.extra ==> !r.first && r.extra == c.extra)
            && (r.first ==> changes == Changes(true, true, true, true, false))
            && !changes.config
  {
    hide SameServices;
  }

  lemma NothingStepped(env: Settings, d: Dict, oracle: Oracle)
    requires "SERVER_NAME" in env
    ensures AfterKeys(env, d, 0, oracle) == env
  {
  }

  lemma OneMoreStep(env: Settings, d: Dict, m: nat, oracle: Oracle)
    requires "SERVER_NAME" in env && m < |d.keys| && d.keys[m] in d.at
    ensures AfterKeys(env, d, m + 1, oracle)
            == Step(AfterKeys(env, d, m, oracle), Primary(d), d.keys[m], d.at[d.keys[m]], oracle)
  {
    hide Step, Primary;
  }

  lemma NothingJoined()
    ensures Joined([]) == "" && Names([]) == []
  {
  }

  lemma NamesGrow(ds: seq<Dict>, i: nat)
    requires i < |ds|
    ensures Names(ds[..i + 1]) == if Primary(ds[i]) == "" then Names(ds[..i]) else Names(ds[..i]) + [Primary(ds[i])]
  {
    assert ds[..i + 1][..i] == ds[..i];
  }

  lemma JoinedGrows(names: seq<string>, name: string)
    ensures Joined(names + [name]) == Joined(names) + " " + name
  {
    assert (names + [name])[..|names|] == names;
  }

  lemma PrimaryIsFirst(d: Dict)
    requires "SERVER_NAME" in d.at
    ensures Primary(d) == FirstWord(d.at["SERVER_NAME"])
  {
  }
}
