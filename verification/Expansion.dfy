/**
  Giving every server a value of its own for every setting that may differ between servers, and
  why what a server sees does not change by it.
 */
module Expansion {
  import opened SlotKeys
  import opened ServerKeys
  import opened Wrappers

  /** A known setting: its name and whether servers may have values of their own. */
  datatype Setting = Setting(name: string, multisite: bool)

  /** The values of the template that a server uses instead of the global one, if it does. */
  type Templates = string -> Settings

  function TemplateOf(config: Settings, server: string, globalTemplate: string, templates: Templates): Settings {
    var key := Prefix(server) + "USE_TEMPLATE";
    var template := if key in config then config[key] else globalTemplate;
    if template != globalTemplate then templates(template) else map[]
  }

  /** What one setting of one server adds, if anything. */
  function Filled(config: Settings, server: string, setting: Setting, template: Settings): Settings {
    var key := Prefix(server) + setting.name;
    if !setting.multisite || key in config then config
    else if setting.name == "SERVER_NAME" then config[key := server]
    else if setting.name in config then
      config[key := if setting.name in template then template[setting.name] else config[setting.name]]
    else config
  }

  function FilledAll(config: Settings, server: string, settings: seq<Setting>, template: Settings): Settings {
    if settings == [] then config
    else
      var last := |settings| - 1;
      Filled(FilledAll(config, server, settings[..last], template), server, settings[last], template)
  }

  /** The choices that an expansion depends on. */
  datatype Catalog = Catalog(settings: seq<Setting>, globalTemplate: string, templates: Templates)

  function Expanded(config: Settings, servers: seq<string>, catalog: Catalog): Settings {
    if servers == [] then config
    else
      var last := |servers| - 1;
      var before := Expanded(config, servers[..last], catalog);
      FilledAll(before, servers[last], catalog.settings, TemplateOf(before, servers[last], catalog.globalTemplate,
          catalog.templates))
  }

  /** The loops over the servers and over the known settings. */
  method Expand(config: Settings, servers: seq<string>, catalog: Catalog) returns (expanded: Settings)
    ensures expanded == Expanded(config, servers, catalog)
  {
    hide TemplateOf;
    expanded := config;
    assert servers[..0] == [];
    for i := 0 to |servers|
      invariant expanded == Expanded(config, servers[..i], catalog)
    {
      var server := servers[i];
      var template := TemplateOf(expanded, server, catalog.globalTemplate, catalog.templates);
      ghost var before := expanded;
      assert catalog.settings[..0] == [];
      for j := 0 to |catalog.settings|
        invariant expanded == FilledAll(before, server, catalog.settings[..j], template)
      {
        var setting := catalog.settings[j];
        FilledGrows(before, server, catalog.settings, j, template);
        if !setting.multisite { continue; }
        var key := Prefix(server) + setting.name;
        if key !in expanded {
          if setting.name == "SERVER_NAME" {
            expanded := expanded[key := server];
          } else if setting.name in expanded {
            expanded := expanded[key := if setting.name in template then template[setting.name] else expanded[setting.name]];
          }
        }
      }
      assert catalog.settings[..|catalog.settings|] == catalog.settings;
      assert servers[..i + 1][..i] == servers[..i];
    }
    assert servers[..|servers|] == servers;
  }

  /** What the configurator does with a map that has its defaults: it expands for the listed servers in multisite mode. */
  function ExpandedByMode(config: Settings, catalog: Catalog): Settings {
    if Multisite(config) then Expanded(config, ListedServers(config), catalog) else config
  }

  method ExpandByMode(config: Settings, catalog: Catalog) returns (expanded: Settings)
    ensures expanded == ExpandedByMode(config, catalog)
  {
    expanded := config;
    if "MULTISITE" in config && config["MULTISITE"] == "yes" {
      expanded := Expand(config, ListedServers(config), catalog);
    }
  }

  lemma FilledGrows(config: Settings, server: string, settings: seq<Setting>, j: nat, template: Settings)
    requires j < |settings|
    ensures FilledAll(config, server, settings[..j + 1], template)
            == Filled(FilledAll(config, server, settings[..j], template), server, settings[j], template)
  {
    assert settings[..j + 1][..j] == settings[..j];
  }

  // ------------------------------------------------------------------ what a server sees

  /** The value for one server: its own one, or else the global one. */
  function View(config: Settings, server: string, setting: string): Option<string> {
    if Prefix(server) + setting in config then Some(config[Prefix(server) + setting]) else ValueAt(config, setting)
  }

  /** The value that a server is given at last. */
  function Intended(config: Settings, server: string, setting: string, template: Settings): Option<string> {
    if Prefix(server) + setting in config then Some(config[Prefix(server) + setting])
    else if setting == "SERVER_NAME" then Some(server)
    else if setting in template then Some(template[setting])
    else ValueAt(config, setting)
  }

  ghost predicate Known(catalog: Catalog, setting: string) {
    exists i :: 0 <= i < |catalog.settings| && catalog.settings[i] == Setting(setting, true)
  }

  ghost predicate KnownAmong(settings: seq<Setting>, name: string) {
    exists i :: 0 <= i < |settings| && settings[i] == Setting(name, true)
  }

  /** Every known setting has a default. */
  ghost predicate HasDefaults(config: Settings, settings: seq<Setting>) {
    forall i :: 0 <= i < |settings| ==> settings[i].name in config
  }

  /** A global setting that no server's keys look like. */
  ghost predicate Unprefixed(servers: seq<string>, key: string) {
    forall s :: s in servers ==> !(Prefix(s) <= key)
  }

  // ------------------------------------------------------------------ one server

  /** Nothing that is there is changed. */
  ghost predicate Extends(after: Settings, before: Settings) {
    forall k :: k in before ==> k in after && after[k] == before[k]
  }

  lemma {:induction false} FillingExtends(config: Settings, server: string, settings: seq<Setting>, template: Settings)
    ensures Extends(FilledAll(config, server, settings, template), config)
  {
    hide Prefix;
    if settings != [] { FillingExtends(config, server, settings[..|settings| - 1], template); }
  }

  /** The key is one that the server's known settings are filled in under. */
  ghost predicate Fills(server: string, settings: seq<Setting>, key: string) {
    exists k :: 0 <= k < |settings| && settings[k].multisite && Prefix(server) + settings[k].name == key
  }

  /** Filling in the settings of a server touches no other keys. */
  lemma {:induction false} FillingIsLocal(config: Settings, server: string, settings: seq<Setting>,
                                          template: Settings, key: string)
    requires !Fills(server, settings, key)
    ensures ValueAt(FilledAll(config, server, settings, template), key) == ValueAt(config, key)
  {
    hide Prefix;
    if settings != [] {
      var last := |settings| - 1;
      assert forall k :: 0 <= k < last ==> settings[..last][k] == settings[k];
      FillingIsLocal(config, server, settings[..last], template, key);
      assert settings[last].multisite ==> Prefix(server) + settings[last].name != key;
    }
  }

  /** What the setting `x` of the server holds once the known settings are filled in. */
  lemma {:induction false} FillingGivesIntended(config: Settings, server: string, settings: seq<Setting>,
                                                template: Settings, x: string)
    requires HasDefaults(config, settings)
    ensures ValueAt(FilledAll(config, server, settings, template), Prefix(server) + x)
            == if KnownAmong(settings, x) then Intended(config, server, x, template) else ValueAt(config,
                Prefix(server) + x)
  {
    hide Prefix, Extends;
    if settings != [] {
      var last := |settings| - 1;
      var front := settings[..last];
      var before := FilledAll(config, server, front, template);
      FillingGivesIntended(config, server, front, template, x);
      FillingExtends(config, server, front, template);
      KnownGrows(settings, x);
      var name := settings[last].name;
      ExtendedAt(before, config, name);
      if name != x && Prefix(server) + name == Prefix(server) + x {
        SameRest(server, name, x);
      }
      assert settings[last].name in config;
    }
  }

  lemma SameRest(server: string, x: string, y: string)
    requires Prefix(server) + x == Prefix(server) + y
    ensures x == y
  {
    var p := Prefix(server);
    assert (p + x)[|p|..] == x && (p + y)[|p|..] == y;
  }

  lemma ExtendedAt(after: Settings, before: Settings, key: string)
    requires Extends(after, before) && key in before
    ensures key in after && after[key] == before[key]
  {
  }

  lemma KnownGrows(settings: seq<Setting>, x: string)
    requires settings != []
    ensures KnownAmong(settings, x)
            <==> KnownAmong(settings[..|settings| - 1], x) || settings[|settings| - 1] == Setting(x, true)
  {
    var last := |settings| - 1;
    if i :| 0 <= i < |settings| && settings[i] == Setting(x, true) {
      assert i < last ==> settings[..last][i] == Setting(x, true);
    }
    if i :| 0 <= i < last && settings[..last][i] == Setting(x, true) {
      assert settings[i] == Setting(x, true);
    }
  }

  // ------------------------------------------------------------------ all servers

  lemma OtherServersKeys(servers: seq<string>, s: string, t: string, x: string)
    requires PrefixFree(NameSet(servers)) && s in servers && t in servers && s != t
    ensures !(Prefix(t) <= Prefix(s) + x)
  {
    hide Prefix;
    var key := Prefix(s) + x;
    assert Prefix(s) <= key;
    if Prefix(t) <= key {
      if |s| <= |t| { PrefixesNest(s, t, key); } else { PrefixesNest(t, s, key); }
    }
  }

  lemma {:induction false} ExpansionExtends(config: Settings, servers: seq<string>, catalog: Catalog)
    ensures Extends(Expanded(config, servers, catalog), config)
  {
    hide FilledAll, TemplateOf;
    if servers != [] {
      var last := |servers| - 1;
      ExpansionExtends(config, servers[..last], catalog);
      var before := Expanded(config, servers[..last], catalog);
      FillingExtends(before, servers[last], catalog.settings, TemplateOf(before, servers[last],
          catalog.globalTemplate, catalog.templates));
    }
  }

  /** No other server's filling in gets at the key: it is there already, or is none of theirs. */
  ghost predicate Undisturbed(config: Settings, servers: seq<string>, settings: seq<Setting>, s: string, key: string) {
    key in config || forall t :: t in servers && t != s ==> !Fills(t, settings, key)
  }

  /** Nothing disturbs what server `s` is given for `x`, nor its choice of a template. */
  ghost predicate Clear(config: Settings, servers: seq<string>, settings: seq<Setting>, s: string, x: string) {
    && Undisturbed(config, servers, settings, s, Prefix(s) + x)
    && Undisturbed(config, servers, settings, s, Prefix(s) + "USE_TEMPLATE")
  }

  /** Until its turn comes, an undisturbed key keeps what it holds. */
  lemma {:induction false} BeforeItsTurn(config: Settings, servers: seq<string>, n: nat, catalog: Catalog, s: string,
                                         key: string)
    requires n <= |servers| && s !in servers[..n] && Undisturbed(config, servers, catalog.settings, s, key)
    ensures ValueAt(Expanded(config, servers[..n], catalog), key) == ValueAt(config, key)
  {
    hide FilledAll, TemplateOf, Fills, Extends;
    if key in config {
      ExpansionExtends(config, servers[..n], catalog);
      ExtendedAt(Expanded(config, servers[..n], catalog), config, key);
    } else if n > 0 {
      var before := Expanded(config, servers[..n - 1], catalog);
      var server := servers[n - 1];
      assert servers[..n] == servers[..n - 1] + [server];
      var template := TemplateOf(before, server, catalog.globalTemplate, catalog.templates);
      BeforeItsTurn(config, servers, n - 1, catalog, s, key);
      FillingIsLocal(before, server, catalog.settings, template, key);
    }
  }

  lemma DefaultsStay(config: Settings, servers: seq<string>, catalog: Catalog)
    requires HasDefaults(config, catalog.settings)
    ensures HasDefaults(Expanded(config, servers, catalog), catalog.settings)
  {
    ExpansionExtends(config, servers, catalog);
  }

  lemma KnownHasDefault(config: Settings, catalog: Catalog, x: string)
    requires HasDefaults(config, catalog.settings)
    ensures Known(catalog, x) ==> x in config
  {
    if Known(catalog, x) {
      var k :| 0 <= k < |catalog.settings| && catalog.settings[k] == Setting(x, true);
      assert catalog.settings[k].name in config;
    }
  }

  lemma SameChoices(config: Settings, before: Settings, s: string, x: string, catalog: Catalog)
    requires ValueAt(before, Prefix(s) + x) == ValueAt(config, Prefix(s) + x)
    requires ValueAt(before, Prefix(s) + "USE_TEMPLATE") == ValueAt(config, Prefix(s) + "USE_TEMPLATE")
    requires ValueAt(before, x) == ValueAt(config, x)
    ensures var early := TemplateOf(config, s, catalog.globalTemplate, catalog.templates);
            && TemplateOf(before, s, catalog.globalTemplate, catalog.templates) == early
            && Intended(before, s, x, early) == Intended(config, s, x, early)
  {
    hide Prefix;
  }

  /** What an undisturbed server is given when its turn comes, and keeps. */
  lemma {:induction false} ExpansionAt(config: Settings, servers: seq<string>, n: nat, catalog: Catalog, s: string,
                                       x: string)
    requires n <= |servers| && HasDefaults(config, catalog.settings) && Clear(config, servers, catalog.settings, s, x)
    ensures ValueAt(Expanded(config, servers[..n], catalog), Prefix(s) + x)
            == if s in servers[..n] && Known(catalog, x)
               then Intended(config, s, x, TemplateOf(config, s, catalog.globalTemplate, catalog.templates))
               else ValueAt(config, Prefix(s) + x)
  {
    hide FilledAll, TemplateOf, Prefix, Extends, Fills, HasDefaults, Known;
    var key := Prefix(s) + x;
    if key in config {
      ExpansionExtends(config, servers[..n], catalog);
      ExtendedAt(Expanded(config, servers[..n], catalog), config, key);
    } else if n > 0 {
      var before := Expanded(config, servers[..n - 1], catalog);
      var server := servers[n - 1];
      assert servers[..n] == servers[..n - 1] + [server];
      assert servers[..n][..n - 1] == servers[..n - 1];
      var template := TemplateOf(before, server, catalog.globalTemplate, catalog.templates);
      ExpansionAt(config, servers, n - 1, catalog, s, x);
      KnownHasDefault(config, catalog, x);
      if server == s {
        DefaultsStay(config, servers[..n - 1], catalog);
        FillingGivesIntended(before, s, catalog.settings, template, x);
        if s !in servers[..n - 1] && x in config {
          BeforeItsTurn(config, servers, n - 1, catalog, s, Prefix(s) + "USE_TEMPLATE");
          ExpansionExtends(config, servers[..n - 1], catalog);
          ExtendedAt(before, config, x);
          SameChoices(config, before, s, x, catalog);
        }
        assert KnownAmong(catalog.settings, x) <==> Known(catalog, x) by { KnownIsKnown(catalog, x); }
      } else {
        FillingIsLocal(before, server, catalog.settings, template, key);
      }
    }
  }

  lemma KnownIsKnown(catalog: Catalog, x: string)
    ensures KnownAmong(catalog.settings, x) <==> Known(catalog, x)
  {
  }

  lemma {:induction false} GlobalsStay(config: Settings, servers: seq<string>, catalog: Catalog, key: string)
    requires key in config
    ensures ValueAt(Expanded(config, servers, catalog), key) == ValueAt(config, key)
  {
    hide Expanded;
    ExpansionExtends(config, servers, catalog);
  }

  /** A key that no server fills in stays as it was, also when it is absent. */
  lemma {:induction false} UnfilledStay(config: Settings, servers: seq<string>, catalog: Catalog, key: string)
    requires forall t :: t in servers ==> !Fills(t, catalog.settings, key)
    ensures ValueAt(Expanded(config, servers, catalog), key) == ValueAt(config, key)
  {
    hide FilledAll, TemplateOf, Fills;
    if servers != [] {
      var last := |servers| - 1;
      var before := Expanded(config, servers[..last], catalog);
      var template := TemplateOf(before, servers[last], catalog.globalTemplate, catalog.templates);
      UnfilledStay(config, servers[..last], catalog, key);
      FillingIsLocal(before, servers[last], catalog.settings, template, key);
    }
  }

  /** The key is absent, but some server is given a value under it. */
  ghost predicate Foreign(config: Settings, servers: seq<string>, settings: seq<Setting>, server: string, x: string) {
    && x !in config && Prefix(server) + x !in config
    && exists t :: t in servers && Fills(t, settings, x)
  }

  /**
    Expansion gives every server what it is intended to have: its explicit value, else the value
    of its own template, else the global one; and for the list of names, its own name.  What is
    not a known setting of servers, such as a numbered one, stays as it was, present or absent.
   */
  lemma ExpansionGivesIntended(config: Settings, servers: seq<string>, catalog: Catalog, s: string, x: string)
    requires s in servers && HasDefaults(config, catalog.settings)
    requires Clear(config, servers, catalog.settings, s, x) && !Foreign(config, servers, catalog.settings, s, x)
    ensures View(Expanded(config, servers, catalog), s, x)
            == if Known(catalog, x)
               then Intended(config, s, x, TemplateOf(config, s, catalog.globalTemplate, catalog.templates))
               else View(config, s, x)
  {
    hide Expanded, TemplateOf, Prefix, Known, Fills, HasDefaults, Clear;
    assert servers[..|servers|] == servers;
    ExpansionAt(config, servers, |servers|, catalog, s, x);
    if x in config {
      GlobalsStay(config, servers, catalog, x);
    } else if Prefix(s) + x !in config {
      UnfilledStay(config, servers, catalog, x);
    }
    KnownHasDefault(config, catalog, x);
  }

  /**
    Told without what the model calls the template of a server: a known setting that the server
    has no value for has the value that the server's own choice of a template gives it, if that is
    another one than the global choice and has the setting, and the global value otherwise.
   */
  lemma TemplateDecides(config: Settings, servers: seq<string>, catalog: Catalog, s: string, x: string)
    requires s in servers && HasDefaults(config, catalog.settings) && Clear(config, servers, catalog.settings, s, x)
    requires Setting(x, true) in catalog.settings && x != "SERVER_NAME" && s + "_" + x !in config
    ensures var key, choice := s + "_" + x, s + "_USE_TEMPLATE";
            var expanded := Expanded(config, servers, catalog);
            && key in expanded
            && expanded[key] == if choice in config && config[choice] != catalog.globalTemplate
                                   && x in catalog.templates(config[choice])
                                then catalog.templates(config[choice])[x] else config[x]
  {
    hide Expanded, Clear, HasDefaults;
    assert servers[..|servers|] == servers;
    ExpansionAt(config, servers, |servers|, catalog, s, x);
    KnownHasDefault(config, catalog, x);
    assert Prefix(s) + x == s + "_" + x && Prefix(s) + "USE_TEMPLATE" == s + "_USE_TEMPLATE";
  }

  /** A server without a list of names of its own is given its own name, and no setting that is global by nature. */
  lemma NamesAndGlobals(config: Settings, servers: seq<string>, catalog: Catalog, s: string, x: string)
    requires s in servers && HasDefaults(config, catalog.settings) && Clear(config, servers, catalog.settings, s, x)
    requires s + "_" + x !in config
    ensures var key, expanded := s + "_" + x, Expanded(config, servers, catalog);
            && (x == "SERVER_NAME" && Setting(x, true) in catalog.settings ==> key in expanded && expanded[key] == s)
            && (Setting(x, true) !in catalog.settings ==> key !in expanded)
  {
    hide Expanded, Clear, HasDefaults;
    assert servers[..|servers|] == servers;
    ExpansionAt(config, servers, |servers|, catalog, s, x);
    KnownHasDefault(config, catalog, x);
    assert Prefix(s) + x == s + "_" + x;
  }

  /** With the global template for a server, what it sees is the same before and after. */
  lemma ExpansionKeepsViews(config: Settings, servers: seq<string>, catalog: Catalog, s: string, x: string)
    requires s in servers && HasDefaults(config, catalog.settings) && x != "SERVER_NAME"
    requires Clear(config, servers, catalog.settings, s, x) && !Foreign(config, servers, catalog.settings, s, x)
    requires TemplateOf(config, s, catalog.globalTemplate, catalog.templates) == map[]
    ensures View(Expanded(config, servers, catalog), s, x) == View(config, s, x)
  {
    hide Expanded, TemplateOf, Prefix, Known, Foreign, Clear;
    ExpansionGivesIntended(config, servers, catalog, s, x);
  }

  // ------------------------------------------------------------------ when names collide

  /** Two servers' known settings have one key only where that key is a setting with a default itself. */
  ghost predicate NoCollisions(servers: seq<string>, settings: seq<Setting>) {
    forall s, t, x, y :: Collide(servers, settings, s, x, t, y) ==> IsName(settings, Prefix(s) + x)
  }

  ghost predicate Collide(servers: seq<string>, settings: seq<Setting>, s: string, x: string, t: string, y: string) {
    && s in servers && t in servers && s != t
    && KnownAmong(settings, x) && KnownAmong(settings, y) && Prefix(s) + x == Prefix(t) + y
  }

  ghost predicate IsName(settings: seq<Setting>, key: string) {
    exists k :: 0 <= k < |settings| && settings[k].name == key
  }

  /** Every server sees of every known setting what it is intended to, for this map and these templates. */
  ghost predicate SeesIntended(config: Settings, servers: seq<string>, catalog: Catalog) {
    forall s, x :: s in servers && Known(catalog, x) ==> SeesItsValue(config, servers, catalog, s, x)
  }

  ghost predicate SeesItsValue(config: Settings, servers: seq<string>, catalog: Catalog, s: string, x: string) {
    View(Expanded(config, servers, catalog), s, x)
    == Intended(config, s, x, TemplateOf(config, s, catalog.globalTemplate, catalog.templates))
  }

  ghost predicate AlwaysSeesIntended(servers: seq<string>, settings: seq<Setting>) {
    forall config, catalog: Catalog :: catalog.settings == settings && HasDefaults(config, settings) ==>
      SeesIntended(config, servers, catalog)
  }

  lemma NoCollisionsAreClear(config: Settings, servers: seq<string>, settings: seq<Setting>, s: string, x: string)
    requires NoCollisions(servers, settings) && HasDefaults(config, settings)
    requires s in servers && KnownAmong(settings, x) && KnownAmong(settings, "USE_TEMPLATE")
    ensures Clear(config, servers, settings, s, x)
  {
    hide Prefix, KnownAmong;
    forall y | (y == x || y == "USE_TEMPLATE") ensures Undisturbed(config, servers, settings, s, Prefix(s) + y) {
      var key := Prefix(s) + y;
      if t :| t in servers && t != s && Fills(t, settings, key) {
        var k :| 0 <= k < |settings| && settings[k].multisite && Prefix(t) + settings[k].name == key;
        ListedIsKnown(settings, k);
        assert Collide(servers, settings, s, y, t, settings[k].name);
        var l :| 0 <= l < |settings| && settings[l].name == key;
      }
    }
  }

  lemma ListedIsKnown(settings: seq<Setting>, k: nat)
    requires k < |settings| && settings[k].multisite
    ensures KnownAmong(settings, settings[k].name)
  {
    assert settings[k] == Setting(settings[k].name, true);
  }

  /** Defaults by which the two colliding settings are to be told apart. */
  function Telling(settings: seq<Setting>, x: string, s: string, t: string): Settings {
    if settings == [] then map[]
    else
      var last := |settings| - 1;
      Telling(settings[..last], x, s, t)[settings[last].name := (if settings[last].name == x then t else s) + "!"]
  }

  lemma {:induction false} TellingAt(settings: seq<Setting>, x: string, s: string, t: string, key: string)
    ensures key in Telling(settings, x, s, t) <==> IsName(settings, key)
    ensures key in Telling(settings, x, s, t) ==> Telling(settings, x, s, t)[key] == (if key == x then t else s) + "!"
  {
    if settings != [] {
      var last := |settings| - 1;
      TellingAt(settings[..last], x, s, t, key);
      assert forall k :: 0 <= k < last ==> settings[..last][k] == settings[k];
      if k :| 0 <= k < |settings| && settings[k].name == key {
        assert k == last || settings[..last][k].name == key;
      }
    }
  }

  lemma TellingHasDefaults(settings: seq<Setting>, x: string, s: string, t: string)
    ensures HasDefaults(Telling(settings, x, s, t), settings)
  {
    forall k | 0 <= k < |settings| ensures settings[k].name in Telling(settings, x, s, t) {
      TellingAt(settings, x, s, t, settings[k].name);
    }
  }

  /** One key cannot hold what both servers are to see. */
  lemma CollisionShows(servers: seq<string>, settings: seq<Setting>, s: string, x: string, t: string, y: string)
    requires Collide(servers, settings, s, x, t, y) && !IsName(settings, Prefix(s) + x)
    ensures !AlwaysSeesIntended(servers, settings)
  {
    hide Prefix, Expanded, HasDefaults, IsName, KnownAmong;
    var config := Telling(settings, x, s, t);
    var catalog := Catalog(settings, "", name => map[]);
    TellingHasDefaults(settings, x, s, t);
    TellingAt(settings, x, s, t, Prefix(s) + x);
    KnownIsKnown(catalog, x);
    KnownIsKnown(catalog, y);
    if AlwaysSeesIntended(servers, settings) {
      assert SeesIntended(config, servers, catalog);
      assert SeesItsValue(config, servers, catalog, s, x) && SeesItsValue(config, servers, catalog, t, y);
      TellingAt(settings, x, s, t, x);
      TellingAt(settings, x, s, t, y);
      KnownHasDefault(config, catalog, x);
      KnownHasDefault(config, catalog, y);
      ExpansionFills(config, servers, catalog);
      BothSeeOneKey(config, servers, catalog, s, x, t, y);
      assert |s + "!"| == |s| + 1 && |t + "!"| == |t| + 1;
      if x != "SERVER_NAME" && y != "SERVER_NAME" { SameStart(s, t); }
      if x == y { SameServer(s, t, x); }
    }
  }

  lemma SameServer(s: string, t: string, x: string)
    requires Prefix(s) + x == Prefix(t) + x
    ensures s == t
  {
    assert |s| == |t|;
    assert (Prefix(s) + x)[..|s|] == s && (Prefix(t) + x)[..|t|] == t;
  }

  lemma SameStart(s: string, t: string)
    ensures s + "!" == t + "!" ==> s == t
  {
    assert (s + "!")[..|s|] == s && (t + "!")[..|t|] == t;
  }

  lemma BothSeeOneKey(config: Settings, servers: seq<string>, catalog: Catalog, s: string, x: string, t: string,
                      y: string)
    requires HasDefaults(config, catalog.settings) && Collide(servers, catalog.settings, s, x, t, y)
    ensures View(Expanded(config, servers, catalog), s, x) == View(Expanded(config, servers, catalog), t, y)
  {
    hide Prefix, Expanded, HasDefaults;
    ExpansionFills(config, servers, catalog);
    var i :| 0 <= i < |servers| && servers[i] == s;
    var k :| 0 <= k < |catalog.settings| && catalog.settings[k] == Setting(x, true);
    assert IsFilled(Expanded(config, servers, catalog), servers[i], catalog.settings);
  }

  /**
    For servers with known settings, the choice of a template among them: every server sees what
    it is intended to, in any map and with any templates, if and only if no two servers' known
    settings have a key in common that is not a setting itself.
   */
  lemma ExpansionIsRightIff(servers: seq<string>, settings: seq<Setting>)
    requires KnownAmong(settings, "USE_TEMPLATE")
    ensures AlwaysSeesIntended(servers, settings) <==> NoCollisions(servers, settings)
  {
    hide Prefix, Expanded, HasDefaults, IsName, KnownAmong, Clear, Collide, SeesItsValue;
    if NoCollisions(servers, settings) {
      forall config, catalog: Catalog | catalog.settings == settings && HasDefaults(config, settings)
        ensures SeesIntended(config, servers, catalog)
      {
        forall s, x | s in servers && Known(catalog, x) ensures SeesItsValue(config, servers, catalog, s, x) {
          KnownIsKnown(catalog, x);
          NoCollisionsAreClear(config, servers, settings, s, x);
          KnownHasDefault(config, catalog, x);
          SeenWhenClear(config, servers, catalog, s, x);
        }
      }
    } else {
      var s, t, x, y :| Collide(servers, settings, s, x, t, y) && !IsName(settings, Prefix(s) + x);
      CollisionShows(servers, settings, s, x, t, y);
    }
  }

  lemma SeenWhenClear(config: Settings, servers: seq<string>, catalog: Catalog, s: string, x: string)
    requires s in servers && HasDefaults(config, catalog.settings) && Known(catalog, x) && x in config
    requires Clear(config, servers, catalog.settings, s, x)
    ensures SeesItsValue(config, servers, catalog, s, x)
  {
    hide Prefix, Expanded, HasDefaults, Clear, Known, Intended, View, TemplateOf;
    ExpansionGivesIntended(config, servers, catalog, s, x);
  }

  /** Prefix-free names never collide. */
  lemma ApartIsClear(config: Settings, servers: seq<string>, settings: seq<Setting>, s: string, x: string)
    requires PrefixFree(NameSet(servers)) && s in servers
    ensures Clear(config, servers, settings, s, x)
  {
    forall t, y, k | t in servers && t != s && 0 <= k < |settings| ensures Prefix(t) + settings[k].name != Prefix(s) + y {
      OtherServersKeys(servers, s, t, y);
      assert Prefix(t) <= Prefix(t) + settings[k].name;
    }
  }

  // ------------------------------------------------------------------ expanding twice

  ghost predicate IsFilled(config: Settings, server: string, settings: seq<Setting>) {
    forall i :: 0 <= i < |settings| && settings[i].multisite ==> Prefix(server) + settings[i].name in config
  }

  lemma {:induction false} FillingFills(config: Settings, server: string, settings: seq<Setting>, template: Settings)
    requires HasDefaults(config, settings)
    ensures IsFilled(FilledAll(config, server, settings, template), server, settings)
  {
    hide Prefix;
    if settings != [] {
      var last := |settings| - 1;
      FillingFills(config, server, settings[..last], template);
      FillingExtends(config, server, settings[..last], template);
      assert settings[last].name in config;
      forall i | 0 <= i < last && settings[i].multisite
        ensures Prefix(server) + settings[i].name in FilledAll(config, server, settings[..last], template)
      {
        assert settings[..last][i] == settings[i];
      }
    }
  }

  lemma {:induction false} FilledStaysPut(config: Settings, server: string, settings: seq<Setting>, template: Settings)
    requires IsFilled(config, server, settings)
    ensures FilledAll(config, server, settings, template) == config
  {
    hide Prefix;
    if settings != [] {
      var last := |settings| - 1;
      assert forall i :: 0 <= i < last ==> settings[..last][i] == settings[i];
      FilledStaysPut(config, server, settings[..last], template);
      assert settings[last].multisite ==> Prefix(server) + settings[last].name in config;
    }
  }

  ghost predicate AllFilled(config: Settings, servers: seq<string>, settings: seq<Setting>) {
    forall i :: 0 <= i < |servers| ==> IsFilled(config, servers[i], settings)
  }

  lemma {:induction false} ExpansionFills(config: Settings, servers: seq<string>, catalog: Catalog)
    requires HasDefaults(config, catalog.settings)
    ensures AllFilled(Expanded(config, servers, catalog), servers, catalog.settings)
  {
    hide FilledAll, TemplateOf, Prefix;
    if servers != [] {
      var last := |servers| - 1;
      var before := Expanded(config, servers[..last], catalog);
      var template := TemplateOf(before, servers[last], catalog.globalTemplate, catalog.templates);
      ExpansionFills(config, servers[..last], catalog);
      DefaultsStay(config, servers[..last], catalog);
      FillingFills(before, servers[last], catalog.settings, template);
      FillingExtends(before, servers[last], catalog.settings, template);
      forall i | 0 <= i < last ensures IsFilled(Expanded(config, servers, catalog), servers[i], catalog.settings) {
        assert servers[..last][i] == servers[i];
        assert IsFilled(before, servers[..last][i], catalog.settings);
      }
    }
  }

  lemma {:induction false} FilledExpandsToItself(config: Settings, servers: seq<string>, catalog: Catalog)
    requires AllFilled(config, servers, catalog.settings)
    ensures Expanded(config, servers, catalog) == config
  {
    hide FilledAll, TemplateOf, IsFilled;
    if servers != [] {
      var last := |servers| - 1;
      assert forall i :: 0 <= i < last ==> servers[..last][i] == servers[i];
      FilledExpandsToItself(config, servers[..last], catalog);
      FilledStaysPut(config, servers[last], catalog.settings, TemplateOf(config, servers[last],
          catalog.globalTemplate, catalog.templates));
    }
  }

  /** Expanding what was expanded changes nothing, whatever the names and the templates are. */
  lemma ExpandingIsIdempotent(config: Settings, servers: seq<string>, catalog: Catalog)
    requires HasDefaults(config, catalog.settings)
    ensures Expanded(Expanded(config, servers, catalog), servers, catalog) == Expanded(config, servers, catalog)
  {
    hide Expanded, AllFilled, HasDefaults;
    ExpansionFills(config, servers, catalog);
    FilledExpandsToItself(Expanded(config, servers, catalog), servers, catalog);
  }

  // ------------------------------------------------------------------ what a server is rendered with

  /** The settings that the templates of one server are rendered with. */
  function ServerConfig(globals: Settings, own: Settings, server: string, nginxPrefix: string): Settings {
    var filtered := (globals + own)["NGINX_PREFIX" := nginxPrefix];
    if "SERVER_NAME" in filtered then filtered else filtered["SERVER_NAME" := server]
  }

  /** What the templates of a server see of a setting: its own value, else a global one that is no other server's. */
  ghost function Rendered(config: Settings, servers: seq<string>, server: string, x: string): Option<string> {
    if Prefix(server) + x in config || Unprefixed(servers, x) then View(config, server, x) else None
  }

  /**
    A server is rendered with just what it sees in the map, and with nothing where it sees nothing;
    only without any list of names it answers to its own name.
   */
  lemma RenderedIsView(config: Settings, servers: seq<string>, globals: Settings, specific: map<string, Settings>,
                       s: string, x: string, nginxPrefix: string)
    requires PrefixFree(NameSet(servers)) && s in servers && x != "NGINX_PREFIX"
    requires IsSplit(config, NameSet(servers), globals, specific)
    ensures var seen := Rendered(config, servers, s, x);
            ValueAt(ServerConfig(globals, specific[s], s, nginxPrefix), x)
            == if seen == None && x == "SERVER_NAME" then Some(s) else seen
  {
    hide Split, Prefix, IsSplit, PrefixFree, Unprefixed;
    OwnPart(config, servers, globals, specific, s, x);
    GlobalPart(config, servers, globals, specific, x);
  }

  lemma OwnPart(config: Settings, servers: seq<string>, globals: Settings, specific: map<string, Settings>, s: string,
                x: string)
    requires PrefixFree(NameSet(servers)) && s in servers && IsSplit(config, NameSet(servers), globals, specific)
    ensures s in specific && ValueAt(specific[s], x) == ValueAt(config, Prefix(s) + x)
  {
    hide Split, Prefix;
    PrefixFreeSplits(NameSet(servers), s, x);
  }

  lemma GlobalPart(config: Settings, servers: seq<string>, globals: Settings, specific: map<string, Settings>,
                   x: string)
    requires IsSplit(config, NameSet(servers), globals, specific)
    ensures ValueAt(globals, x) == if Unprefixed(servers, x) then ValueAt(config, x) else None
  {
    hide Split, Prefix;
    SplitFindsShortest(x, NameSet(servers));
  }
}
