/**
  The whole way of a setting: from a service of the orchestrator through the flat map, the
  expansion of defaults and the split, to the settings that its server is rendered with.
 */
module Pipeline {
  import opened Text
  import opened SlotKeys
  import opened SlotTables
  import opened ServiceMerge
  import opened ServerKeys
  import opened Flatten
  import opened Expansion
  import opened Wrappers

  /** The defaults, overridden by the flat settings of the services, and these by the extra settings. */
  function Configured(ds: seq<Dict>, extra: Settings, oracle: Oracle, defaults: Settings): Settings {
    defaults + (FullEnv(ds, oracle) + extra)
  }

  /** The conditions on services: different hosts with separable names, and no stray global settings. */
  ghost predicate Deployable(ds: seq<Dict>, oracle: Oracle) {
    && Separable(Names(ds)) && AreWords(Names(ds)) && Distinct(Names(ds)) && Harmless(ds, oracle)
  }

  /** Defaults are global keys, and every known setting has one. */
  ghost predicate Defaults(defaults: Settings, names: seq<string>, catalog: Catalog) {
    && HasDefaults(defaults, catalog.settings)
    && forall k :: k in defaults ==> Unprefixed(names, k)
  }

  /** What is set for one server: by the extra settings, or else by its service. */
  function Given(own: Settings, extra: Settings, name: string, x: string): Option<string> {
    if Prefix(name) + x in extra then Some(extra[Prefix(name) + x]) else ValueAt(own, x)
  }

  lemma ConfiguredAt(ds: seq<Dict>, extra: Settings, oracle: Oracle, defaults: Settings, i: nat, x: string,
                     catalog: Catalog)
    requires Deployable(ds, oracle) && Defaults(defaults, Names(ds), catalog)
    requires i < |ds| && Primary(ds[i]) != ""
    ensures ValueAt(Configured(ds, extra, oracle, defaults), Prefix(Primary(ds[i])) + x)
            == Given(Own(ds[i], Names(ds), oracle), extra, Primary(ds[i]), x)
  {
    hide FullEnv, Own, Prefix, Split, Primary, Names, Words, Separable, AreWords, Harmless, HasDefaults, Distinct,
         DistinctHosts;
    var names := Names(ds);
    var s := Primary(ds[i]);
    DistinctNamesDistinctHosts(ds);
    OwnIsRecovered(ds, oracle, i, x);
    NamesAreNames(ds, i);
    SeparableSplits(names, s, x);
    assert Prefix(s) <= Prefix(s) + x;
  }

  lemma SeparableSplits(names: seq<string>, s: string, x: string)
    requires Separable(names) && s in names
    ensures Split(Prefix(s) + x, NameSet(names)) == Some(ServerKey(s, x))
  {
    hide Split, Prefix;
    PrefixFreeSplits(NameSet(names), s, x);
  }

  // ------------------------------------------------------------------ the list and the mode

  /** The map lists the named services, unless the extra settings bring a list of their own with other names. */
  lemma ConfiguredListIff(ds: seq<Dict>, extra: Settings, oracle: Oracle, defaults: Settings)
    requires AreWords(Names(ds)) && "SERVER" !in Names(ds)
    ensures ListedServers(Configured(ds, extra, oracle, defaults)) == Names(ds)
            <==> ("SERVER_NAME" in extra ==> Words(extra["SERVER_NAME"]) == Names(ds))
  {
    hide FullEnv, Names, Words, AreWords;
    ListIsKept(ds, oracle);
    ListIsThere(ds, oracle);
  }

  /** The map is in multisite mode if the extra settings say so, or say nothing and the services leave the mode alone. */
  lemma ConfiguredModeIff(ds: seq<Dict>, extra: Settings, oracle: Oracle, defaults: Settings)
    requires AreWords(Names(ds)) && "SERVER" !in Names(ds)
    ensures Multisite(Configured(ds, extra, oracle, defaults))
            <==> if "MULTISITE" in extra then extra["MULTISITE"] == "yes" else KeepsMode(ds, oracle)
  {
    hide FullEnv, Names, AreWords, KeepsMode;
    ModeIsKeptIff(ds, oracle);
    ModeIsThere(ds, oracle);
  }

  lemma ModeIsThere(ds: seq<Dict>, oracle: Oracle)
    requires AreWords(Names(ds)) && "SERVER" !in Names(ds)
    ensures "MULTISITE" in FullEnv(ds, oracle)
  {
    hide AfterServices, ModeAfterServices, IsWord, Joined, Names, Strip;
    ServicesMode(ds, |ds|, oracle);
  }

  // ------------------------------------------------------------------ what a server is rendered with

  /**
    What a server is to be rendered with: the value that was set for it; for other known settings
    of servers the value of its template, or the global one; otherwise a global value, unless the
    key is another server's.
   */
  ghost function Expected(given: Option<string>, name: string, names: seq<string>, catalog: Catalog, config: Settings,
                          x: string): Option<string> {
    var choice := name + "_USE_TEMPLATE";
    if given.Some? then given
    else if Known(catalog, x) && x == "SERVER_NAME" then Some(name)
    else if Known(catalog, x) && choice in config && config[choice] != catalog.globalTemplate
            && x in catalog.templates(config[choice]) then
      Some(catalog.templates(config[choice])[x])
    else if Unprefixed(names, x) then ValueAt(config, x)
    else None
  }

  /** Every known setting is a global key with a default. */
  lemma KnownIsGlobal(defaults: Settings, names: seq<string>, catalog: Catalog, x: string)
    requires Defaults(defaults, names, catalog)
    ensures Known(catalog, x) ==> x in defaults && Unprefixed(names, x)
  {
    hide Unprefixed, Known, HasDefaults;
    KnownHasDefault(defaults, catalog, x);
  }

  lemma UnprefixedIsUnfilled(names: seq<string>, settings: seq<Setting>, t: string, x: string)
    requires Unprefixed(names, x) && t in names
    ensures !Fills(t, settings, x)
  {
    hide Prefix;
    forall k | 0 <= k < |settings| ensures Prefix(t) + settings[k].name != x {
      assert Prefix(t) <= Prefix(t) + settings[k].name;
    }
  }

  /** One server in the expanded map, whatever the map is. */
  lemma ExpandedAt(config: Settings, names: seq<string>, catalog: Catalog, s: string, x: string)
    requires PrefixFree(NameSet(names)) && s in names && HasDefaults(config, catalog.settings)
    requires Known(catalog, x) ==> Unprefixed(names, x)
    ensures Rendered(Expanded(config, names, catalog), names, s, x)
            == Expected(ValueAt(config, Prefix(s) + x), s, names, catalog, config, x)
  {
    hide Expanded, Known, Unprefixed, HasDefaults, Clear, PrefixFree;
    assert Prefix(s) + "USE_TEMPLATE" == s + "_USE_TEMPLATE";
    ApartIsClear(config, names, catalog.settings, s, x);
    assert names[..|names|] == names;
    ExpansionAt(config, names, |names|, catalog, s, x);
    KnownHasDefault(config, catalog, x);
    if Unprefixed(names, x) {
      forall t | t in names ensures !Fills(t, catalog.settings, x) { UnprefixedIsUnfilled(names, catalog.settings, t, x); }
      UnfilledStay(config, names, catalog, x);
    }
  }

  /** The mode and the list are not touched by the expansion. */
  lemma ExpansionKeepsMode(config: Settings, catalog: Catalog)
    requires Multisite(config) && "SERVER_NAME" in config
    ensures Multisite(ExpandedByMode(config, catalog))
    ensures ListedServers(ExpandedByMode(config, catalog)) == ListedServers(config)
  {
    hide Expanded, Words;
    GlobalsStay(config, ListedServers(config), catalog, "MULTISITE");
    GlobalsStay(config, ListedServers(config), catalog, "SERVER_NAME");
  }

  /**
    Every service is rendered with its own settings: in multisite mode, whatever was set for it,
    numbered or not, has the value it was given, whoever else is served; what was not set comes
    from its template or is global, and what nobody set is absent.
   */
  lemma ServiceSettingsReachTheirServer(ds: seq<Dict>, extra: Settings, oracle: Oracle, defaults: Settings,
                                        catalog: Catalog, globals: Settings, specific: map<string, Settings>, i: nat,
                                        x: string, nginxPrefix: string)
    requires Deployable(ds, oracle) && Defaults(defaults, Names(ds), catalog)
    requires i < |ds| && Primary(ds[i]) != "" && x != "NGINX_PREFIX"
    requires var config := Configured(ds, extra, oracle, defaults);
             && Multisite(config) && ListedServers(config) == Names(ds)
             && IsModeSplit(ExpandedByMode(config, catalog), globals, specific)
    ensures Primary(ds[i]) in specific
    ensures var s, config := Primary(ds[i]), Configured(ds, extra, oracle, defaults);
            ValueAt(ServerConfig(globals, specific[s], s, nginxPrefix), x)
            == Expected(Given(Own(ds[i], Names(ds), oracle), extra, s, x), s, Names(ds), catalog, config, x)
  {
    hide Configured, Expanded, Own, Prefix, Split, Primary, Names, AreWords, Harmless, Distinct, Rendered, Multisite,
         ServerConfig, IsSplit, ListedServers, HasDefaults, Unprefixed, Known, Given, PrefixFree;
    var names, config, s := Names(ds), Configured(ds, extra, oracle, defaults), Primary(ds[i]);
    NamesAreNames(ds, i);
    ListIsGlobal(ds, extra, oracle, defaults);
    ExpansionKeepsMode(config, catalog);
    DefaultsAreConfigured(ds, extra, oracle, defaults, catalog);
    ConfiguredAt(ds, extra, oracle, defaults, i, x, catalog);
    KnownIsGlobal(defaults, names, catalog, x);
    IsSplitCovers(ExpandedByMode(config, catalog), NameSet(names), globals, specific);
    RenderedIsView(Expanded(config, names, catalog), names, globals, specific, s, x, nginxPrefix);
    ExpandedAt(config, names, catalog, s, x);
  }

  /** In any other mode no server has settings of its own. */
  lemma OtherModeServesNobody(config: Settings, catalog: Catalog, globals: Settings, specific: map<string, Settings>)
    requires !Multisite(config) && IsModeSplit(ExpandedByMode(config, catalog), globals, specific)
    ensures specific == map[] && globals == config
  {
  }

  /** The list of servers is there, and a global key. */
  lemma ListIsGlobal(ds: seq<Dict>, extra: Settings, oracle: Oracle, defaults: Settings)
    requires Deployable(ds, oracle)
    ensures "SERVER_NAME" in Configured(ds, extra, oracle, defaults) && Unprefixed(Names(ds), "SERVER_NAME")
  {
    hide FullEnv, Primary, Names, AreWords, Harmless, Distinct, Prefix;
    ListIsThere(ds, oracle);
    forall s | s in Names(ds) ensures !(Prefix(s) <= "SERVER_NAME") {
      if Prefix(s) <= "SERVER_NAME" {
        NoServerKeyIsTheList(Names(ds), s, "SERVER_NAME"[|Prefix(s)|..]);
      }
    }
  }

  lemma DefaultsAreConfigured(ds: seq<Dict>, extra: Settings, oracle: Oracle, defaults: Settings, catalog: Catalog)
    requires HasDefaults(defaults, catalog.settings)
    ensures HasDefaults(Configured(ds, extra, oracle, defaults), catalog.settings)
  {
    hide FullEnv;
  }
}
