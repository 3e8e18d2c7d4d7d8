/**
  Keys of the flat settings map: `SETTING` for a global value and `server_SETTING` for the value
  of one server.  How a key is attributed to a server, by each of the three places that do it.
 */
module ServerKeys {
  import opened Text
  import opened SlotKeys
  import opened Wrappers

  type Settings = map<string, string>

  function NameSet(names: seq<string>): set<string> {
    set s | s in names
  }

  // ------------------------------------------------------------------ the underscore scan

  /** The server whose name, up to some underscore, the key starts with; the shortest one. */
  function ScanFrom(key: string, i: nat, servers: set<string>): (at: int)
    requires i <= |key|
    ensures at == -1 || (i <= at < |key| && key[at] == '_' && key[..at] in servers)
    ensures forall j :: i <= j < (if at == -1 then |key| else at) && key[j] == '_' ==> key[..j] !in servers
    decreases |key| - i
  {
    if i == |key| then -1
    else if key[i] == '_' && key[..i] in servers then i
    else ScanFrom(key, i + 1, servers)
  }

  datatype ServerKey = ServerKey(server: string, setting: string)

  /** The server of a key and the setting that is left, or nothing for a global key. */
  function Split(key: string, servers: set<string>): Option<ServerKey> {
    var at := ScanFrom(key, 0, servers);
    if at == -1 then None else Some(ServerKey(key[..at], key[at + 1..]))
  }

  /** The loop that looks from underscore to underscore. */
  method IsGlobalKey(key: string, servers: set<string>) returns (global: bool)
    ensures global <==> forall s :: s in servers ==> !(Prefix(s) <= key)
  {
    var idx := 0;
    while true
      invariant 0 <= idx <= |key|
      invariant ScanFrom(key, 0, servers) == ScanFrom(key, idx, servers)
      decreases |key| - idx
    {
      var underscore := IndexOf(key, '_', idx);
      if underscore == -1 {
        NothingFound(key, idx, servers);
        SplitFindsShortest(key, servers);
        return true;
      }
      FirstUnderscore(key, idx, underscore, servers);
      if key[..underscore] in servers {
        SplitFindsShortest(key, servers);
        return false;
      }
      idx := underscore + 1;
    }
  }

  method ExtractServerAndKey(key: string, servers: set<string>) returns (r: Option<ServerKey>)
    ensures r == Split(key, servers)
  {
    var idx := 0;
    while true
      invariant 0 <= idx <= |key|
      invariant ScanFrom(key, 0, servers) == ScanFrom(key, idx, servers)
      decreases |key| - idx
    {
      var underscore := IndexOf(key, '_', idx);
      if underscore == -1 {
        NothingFound(key, idx, servers);
        return None;
      }
      FirstUnderscore(key, idx, underscore, servers);
      if key[..underscore] in servers {
        return Some(ServerKey(key[..underscore], key[underscore + 1..]));
      }
      idx := underscore + 1;
    }
  }

  lemma {:induction false} NothingFound(key: string, i: nat, servers: set<string>)
    requires i <= |key| && forall j :: i <= j < |key| ==> key[j] != '_'
    ensures ScanFrom(key, i, servers) == -1
    decreases |key| - i
  {
    if i < |key| { NothingFound(key, i + 1, servers); }
  }

  lemma {:induction false} FirstUnderscore(key: string, i: nat, u: nat, servers: set<string>)
    requires i <= u < |key| && key[u] == '_' && forall j :: i <= j < u ==> key[j] != '_'
    ensures ScanFrom(key, i, servers) == if key[..u] in servers then u else ScanFrom(key, u + 1, servers)
    decreases u - i
  {
    if i < u { FirstUnderscore(key, i + 1, u, servers); }
  }

  lemma PrefixAt(key: string, s: string)
    ensures Prefix(s) <= key <==> |s| < |key| && key[|s|] == '_' && key[..|s|] == s
  {
    if Prefix(s) <= key {
      assert key[|s|] == Prefix(s)[|s|];
      assert key[..|s|] == Prefix(s)[..|s|];
    }
    if |s| < |key| && key[|s|] == '_' && key[..|s|] == s {
      assert key[..|s| + 1] == Prefix(s);
    }
  }

  /** A key is global exactly when it has no server's prefix; otherwise it goes to the shortest of them. */
  lemma SplitFindsShortest(key: string, servers: set<string>)
    ensures Split(key, servers).None? <==> forall s :: s in servers ==> !(Prefix(s) <= key)
    ensures Split(key, servers).Some? ==>
              var k := Split(key, servers).value;
              && k.server in servers && key == Prefix(k.server) + k.setting
              && forall s :: s in servers && Prefix(s) <= key ==> |k.server| <= |s|
  {
    hide Prefix;
    var at := ScanFrom(key, 0, servers);
    forall s | s in servers && Prefix(s) <= key ensures at != -1 && at <= |s| {
      PrefixAt(key, s);
    }
    if at != -1 {
      PrefixAt(key, key[..at]);
      assert key == key[..at] + "_" + key[at + 1..];
      assert Prefix(key[..at]) == key[..at] + "_" by { PrefixIs(key[..at]); }
    }
  }

  lemma PrefixIs(s: string)
    ensures Prefix(s) == s + "_"
  {
  }

  // ------------------------------------------------------------------ splitting the map

  /** What splitting a settings map into a global part and one part for each server gives. */
  ghost predicate IsSplit(config: Settings, servers: set<string>, globals: Settings, specific: map<string, Settings>) {
    && globals == (map k | k in config && Split(k, servers).None? :: config[k])
    && specific.Keys == servers
    && forall s, x :: s in servers ==>
         && (x in specific[s] <==> Prefix(s) + x in config && Split(Prefix(s) + x, servers) == Some(ServerKey(s, x)))
         && (x in specific[s] ==> specific[s][x] == config[Prefix(s) + x])
  }

  /** As `IsSplit`, for the keys looked at so far. */
  ghost predicate IsSplitOf(config: Settings, keys: set<string>, servers: set<string>, globals: Settings,
                            specific: map<string, Settings>) {
    && globals == (map k | k in config && k in keys && Split(k, servers).None? :: config[k])
    && specific.Keys == servers
    && forall s, x :: s in servers ==> SplitAt(config, keys, servers, specific[s], s, x)
  }

  ghost predicate SplitAt(config: Settings, keys: set<string>, servers: set<string>, own: Settings, s: string,
                          x: string) {
    var key := Prefix(s) + x;
    && (x in own <==> key in config && key in keys && Split(key, servers) == Some(ServerKey(s, x)))
    && (x in own ==> own[x] == config[key])
  }

  lemma SplitOneMore(config: Settings, keys: set<string>, servers: set<string>, globals: Settings,
                     specific: map<string, Settings>, key: string)
    requires key in config && IsSplitOf(config, keys, servers, globals, specific)
    ensures Split(key, servers).None? ==> IsSplitOf(config, keys + {key}, servers, globals[key := config[key]],
        specific)
    ensures Split(key, servers).Some? ==>
              var k := Split(key, servers).value;
              && k.server in specific
              && IsSplitOf(config, keys + {key}, servers, globals,
                  specific[k.server := specific[k.server][k.setting := config[key]]])
  {
    hide Split, Prefix;
    SplitFindsShortest(key, servers);
    if Split(key, servers).Some? {
      var k := Split(key, servers).value;
      var after := specific[k.server := specific[k.server][k.setting := config[key]]];
      forall s, x | s in servers ensures SplitAt(config, keys + {key}, servers, after[s], s, x) {
        assert SplitAt(config, keys, servers, specific[s], s, x);
      }
    } else {
      forall s, x | s in servers ensures SplitAt(config, keys + {key}, servers, specific[s], s, x) {
        assert SplitAt(config, keys, servers, specific[s], s, x);
      }
    }
  }

  /** The split of the settings when a templator is made. */
  method SplitSettings(config: Settings, servers: set<string>) returns (globals: Settings, specific: map<string,
                       Settings>)
    ensures IsSplit(config, servers, globals, specific)
  {
    hide Split, SplitAt;
    globals, specific := map[], map s | s in servers :: map[];
    var keys := config.Keys;
    assert IsSplitOf(config, config.Keys - keys, servers, globals, specific) by { NothingSplit(config, servers); }
    while keys != {}
      invariant keys <= config.Keys
      invariant IsSplitOf(config, config.Keys - keys, servers, globals, specific)
      decreases |keys|
    {
      var key :| key in keys;
      SplitOneMore(config, config.Keys - keys, servers, globals, specific, key);
      assert config.Keys - keys + {key} == config.Keys - (keys - {key});
      var r := ExtractServerAndKey(key, servers);
      match r {
        case None => globals := globals[key := config[key]];
        case Some(k) => specific := specific[k.server := specific[k.server][k.setting := config[key]]];
      }
      keys := keys - {key};
    }
    AllSplit(config, servers, globals, specific);
  }

  lemma NothingSplit(config: Settings, servers: set<string>)
    ensures IsSplitOf(config, config.Keys - config.Keys, servers, map[], map s | s in servers :: map[])
  {
  }

  lemma AllSplit(config: Settings, servers: set<string>, globals: Settings, specific: map<string, Settings>)
    requires IsSplitOf(config, config.Keys - {}, servers, globals, specific)
    ensures IsSplit(config, servers, globals, specific)
  {
    hide Split, Prefix;
    assert config.Keys - {} == config.Keys;
    forall s, x | s in servers
      ensures (x in specific[s] <==> Prefix(s) + x in config && Split(Prefix(s) + x, servers) == Some(ServerKey(s, x)))
           && (x in specific[s] ==> specific[s][x] == config[Prefix(s) + x])
    {
      assert SplitAt(config, config.Keys, servers, specific[s], s, x);
    }
  }

  // ------------------------------------------------------------------ the mode

  /** Whether servers have settings of their own at all. */
  predicate Multisite(config: Settings) {
    "MULTISITE" in config && config["MULTISITE"] == "yes"
  }

  /** The servers that a settings map lists. */
  function ListedServers(config: Settings): seq<string> {
    Words(if "SERVER_NAME" in config then config["SERVER_NAME"] else "www.example.com")
  }

  /** What a templator works with: in multisite mode the split by the listed servers, otherwise the map as it is. */
  ghost predicate IsModeSplit(config: Settings, globals: Settings, specific: map<string, Settings>) {
    if Multisite(config) then IsSplit(config, NameSet(ListedServers(config)), globals, specific)
    else globals == config && specific == map[]
  }

  /** The servers with settings of their own are those the map lists, or the one of the documentation if it lists none. */
  lemma ServersOfSplit(config: Settings, globals: Settings, specific: map<string, Settings>)
    requires IsModeSplit(config, globals, specific) && Multisite(config)
    ensures "SERVER_NAME" in config ==> specific.Keys == NameSet(Words(config["SERVER_NAME"]))
    ensures "SERVER_NAME" !in config ==> specific.Keys == {"www.example.com"}
  {
    hide Words, IsWord, IsSplit;
    IsSplitCovers(config, NameSet(ListedServers(config)), globals, specific);
    if "SERVER_NAME" !in config {
      DefaultIsWord();
      WordsOfOne("www.example.com");
      assert NameSet(["www.example.com"]) == {"www.example.com"};
    }
  }

  lemma DefaultIsWord()
    ensures IsWord("www.example.com")
  {
  }

  lemma WordsOfOne(w: string)
    requires IsWord(w)
    ensures Words(w) == [w]
  {
    WordsOfJoined([w]);
    assert [w][..0] == [];
    assert Joined([w]) == " " + w;
    StripNothing(w);
    assert (" " + w)[1..] == w;
  }

  method SplitByMode(config: Settings) returns (globals: Settings, specific: map<string, Settings>)
    ensures IsModeSplit(config, globals, specific)
  {
    if "MULTISITE" in config && config["MULTISITE"] == "yes" {
      globals, specific := SplitSettings(config, NameSet(ListedServers(config)));
    } else {
      globals, specific := config, map[];
    }
  }

  /** The value a key has when the parts are put together again. */
  function Rejoined(key: string, servers: set<string>, globals: Settings, specific: map<string,
                    Settings>): Option<string> {
    match Split(key, servers)
    case None => if key in globals then Some(globals[key]) else None
    case Some(k) =>
      if k.server in specific && k.setting in specific[k.server] then Some(specific[k.server][k.setting]) else None
  }

  function ValueAt(config: Settings, key: string): Option<string> {
    if key in config then Some(config[key]) else None
  }

  /** The split is lossless: the parts determine every key and value of the map, and hold nothing else. */
  lemma SplitIsLossless(config: Settings, servers: set<string>, globals: Settings, specific: map<string, Settings>,
                        key: string)
    requires IsSplit(config, servers, globals, specific)
    ensures Rejoined(key, servers, globals, specific) == ValueAt(config, key)
    ensures key in globals ==> key in config && globals[key] == config[key]
    ensures forall s, x :: s in specific && x in specific[s] ==>
              Prefix(s) + x in config && config[Prefix(s) + x] == specific[s][x]
  {
    hide Split, Prefix;
    SplitFindsShortest(key, servers);
  }

  // ------------------------------------------------------------------ the other two readings

  /** No server's prefix is the start of another one's. */
  ghost predicate PrefixFree(servers: set<string>) {
    forall s, t :: s in servers && t in servers && Prefix(s) <= Prefix(t) ==> s == t
  }

  /** The first server in a list whose prefix the variable has, and the variable without it. */
  function VarIsPrefixed(variable: string, servers: seq<string>): Option<ServerKey> {
    if servers == [] then None
    else if Prefix(servers[0]) <= variable then Some(ServerKey(servers[0], variable[|Prefix(servers[0])|..]))
    else VarIsPrefixed(variable, servers[1..])
  }

  ghost predicate IsListing(order: seq<string>, servers: set<string>) {
    forall s :: s in order <==> s in servers
  }

  /** The keys of `t` also have the prefix of `s`. */
  ghost predicate Shadows(s: string, t: string) {
    Prefix(s) <= Prefix(t) && s != t
  }

  ghost predicate ShadowedEarlier(order: seq<string>, i: nat)
    requires i < |order|
  {
    exists k :: 0 <= k < i && Shadows(order[k], order[i])
  }

  /** A name whose prefix starts with another name's prefix is listed behind such a name. */
  ghost predicate ShorterFirst(order: seq<string>) {
    forall i, j :: 0 <= i < |order| && 0 <= j < |order| && Shadows(order[j], order[i]) ==> ShadowedEarlier(order, i)
  }

  lemma PrefixesNest(s: string, t: string, key: string)
    requires Prefix(s) <= key && Prefix(t) <= key && |s| <= |t|
    ensures Prefix(s) <= Prefix(t)
  {
  }

  lemma {:induction false} VarIsPrefixedIsFirst(variable: string, servers: seq<string>)
    ensures VarIsPrefixed(variable, servers).None? <==> forall s :: s in servers ==> !(Prefix(s) <= variable)
    ensures VarIsPrefixed(variable, servers).Some? ==>
              var k := VarIsPrefixed(variable, servers).value;
              && variable == Prefix(k.server) + k.setting
              && exists i :: && 0 <= i < |servers| && servers[i] == k.server
                             && forall j :: 0 <= j < i ==> !(Prefix(servers[j]) <= variable)
  {
    hide Prefix;
    if servers != [] {
      var p := Prefix(servers[0]);
      if p <= variable {
        assert variable == p + variable[|p|..];
      } else {
        VarIsPrefixedIsFirst(variable, servers[1..]);
        if VarIsPrefixed(variable, servers[1..]).Some? {
          var k := VarIsPrefixed(variable, servers[1..]).value;
          var i :| && 0 <= i < |servers| - 1 && servers[1..][i] == k.server
                   && forall j :: 0 <= j < i ==> !(Prefix(servers[1..][j]) <= variable);
          var next := i + 1;
          forall j | 0 <= j < next ensures !(Prefix(servers[j]) <= variable) {
            if j > 0 { assert servers[j] == servers[1..][j - 1]; }
          }
          assert servers[next] == k.server;
        }
      }
    }
  }

  lemma FirstIsNotShadowed(key: string, order: seq<string>, i: nat)
    requires i < |order| && Prefix(order[i]) <= key && forall j :: 0 <= j < i ==> !(Prefix(order[j]) <= key)
    ensures !ShadowedEarlier(order, i)
  {
  }

  lemma ShorterFirstAgrees(key: string, order: seq<string>, servers: set<string>)
    requires IsListing(order, servers) && ShorterFirst(order)
    ensures VarIsPrefixed(key, order) == Split(key, servers)
  {
    hide Prefix, Split, VarIsPrefixed;
    SplitFindsShortest(key, servers);
    VarIsPrefixedIsFirst(key, order);
    if Split(key, servers).Some? {
      var a, b := Split(key, servers).value, VarIsPrefixed(key, order).value;
      var i :| 0 <= i < |order| && order[i] == b.server && forall j :: 0 <= j < i ==> !(Prefix(order[j]) <= key);
      var j :| 0 <= j < |order| && order[j] == a.server;
      HasOwnPrefix(a, key);
      HasOwnPrefix(b, key);
      PrefixesNest(a.server, b.server, key);
      FirstIsNotShadowed(key, order, i);
      assert !Shadows(order[j], order[i]);
    }
  }

  lemma HasOwnPrefix(k: ServerKey, key: string)
    requires key == Prefix(k.server) + k.setting
    ensures Prefix(k.server) <= key && k.setting == key[|Prefix(k.server)|..]
  {
  }

  /**
    The configurator's search through the list of servers and the templator's scan agree on every
    key exactly when no name is listed before all the shorter ones that its keys also match.
   */
  lemma ReadingsAgreeIff(order: seq<string>, servers: set<string>)
    requires IsListing(order, servers)
    ensures (forall key :: VarIsPrefixed(key, order) == Split(key, servers)) <==> ShorterFirst(order)
  {
    hide Prefix, Split, VarIsPrefixed;
    if ShorterFirst(order) {
      forall key ensures VarIsPrefixed(key, order) == Split(key, servers) { ShorterFirstAgrees(key, order, servers); }
    } else {
      var i, j :| 0 <= i < |order| && 0 <= j < |order| && Shadows(order[j], order[i]) && !ShadowedEarlier(order, i);
      LongerFirstDisagrees(order, servers, i, j);
    }
  }

  lemma LongerFirstDisagrees(order: seq<string>, servers: set<string>, i: nat, j: nat)
    requires IsListing(order, servers) && i < |order| && j < |order|
    requires Shadows(order[j], order[i]) && !ShadowedEarlier(order, i)
    ensures VarIsPrefixed(Prefix(order[i]), order) != Split(Prefix(order[i]), servers)
  {
    hide Split, VarIsPrefixed, Prefix;
    var key := Prefix(order[i]);
    SplitFindsShortest(key, servers);
    VarIsPrefixedIsFirst(key, order);
    assert order[i] in servers && order[j] in servers;
    var a, b := Split(key, servers).value, VarIsPrefixed(key, order).value;
    PrefixLengths(order[j], order[i]);
    var m :| 0 <= m < |order| && order[m] == b.server && forall k :: 0 <= k < m ==> !(Prefix(order[k]) <= key);
    HasOwnPrefix(b, key);
    assert m <= i;
    assert b.server == order[i] by { assert m < i ==> !Shadows(order[m], order[i]); }
    assert |a.server| <= |order[j]|;
  }

  lemma PrefixLengths(s: string, t: string)
    requires Prefix(s) <= Prefix(t) && s != t
    ensures |s| < |t|
  {
    PrefixAt(Prefix(t), s);
    assert Prefix(t)[..|t|] == t;
  }

  /** With prefix-free names they agree in any order of the list. */
  lemma PrefixFreeReadingsAgree(order: seq<string>, servers: set<string>, key: string)
    requires IsListing(order, servers) && PrefixFree(servers)
    ensures VarIsPrefixed(key, order) == Split(key, servers)
  {
    hide Split, VarIsPrefixed;
    assert ShorterFirst(order);
    ReadingsAgreeIff(order, servers);
  }

  // ------------------------------------------------------------------ has_variable

  /** Some server, in multisite mode, or the global value has the setting at the value. */
  predicate HasVariable(config: Settings, servers: set<string>, variable: string, value: string) {
    || ValueAt(config, variable) == Some(value)
    || (Multisite(config) && exists s :: s in servers && ValueAt(config, Prefix(s) + variable) == Some(value))
  }

  /** The same question, asked of the parts that the map is split into. */
  predicate HasVariableWhenSplit(globals: Settings, specific: map<string, Settings>, variable: string, value: string) {
    || ValueAt(globals, variable) == Some(value)
    || exists s :: s in specific && ValueAt(specific[s], variable) == Some(value)
  }

  lemma PrefixFreeSplits(servers: set<string>, s: string, x: string)
    requires PrefixFree(servers) && s in servers
    ensures Split(Prefix(s) + x, servers) == Some(ServerKey(s, x))
  {
    hide Split;
    var key := Prefix(s) + x;
    assert Prefix(s) <= key;
    SplitFindsShortest(key, servers);
    var k := Split(key, servers).value;
    HasOwnPrefix(k, key);
    PrefixesNest(k.server, s, key);
    HasOwnPrefix(ServerKey(s, x), key);
  }

  lemma PrefixFreeHasVariable(config: Settings, servers: set<string>, globals: Settings,
                              specific: map<string, Settings>, variable: string, value: string)
    requires PrefixFree(servers) && Multisite(config) && IsSplit(config, servers, globals, specific)
    requires Split(variable, servers).None?
    ensures HasVariable(config, servers, variable, value) <==> HasVariableWhenSplit(globals, specific, variable, value)
  {
    hide Split, Prefix, Multisite;
    forall s | s in servers ensures ValueAt(config, Prefix(s) + variable) == ValueAt(specific[s], variable) {
      PrefixFreeSplits(servers, s, variable);
    }
    assert ValueAt(globals, variable) == ValueAt(config, variable);
  }

  /** For every map in multisite mode, and every variable that is not a server's key itself, the two readings agree. */
  ghost predicate HasVariableAgrees(servers: set<string>) {
    forall config, globals, specific, variable, value ::
      Multisite(config) && IsSplit(config, servers, globals, specific) && Split(variable, servers).None? ==>
        (HasVariable(config, servers, variable, value) <==> HasVariableWhenSplit(globals, specific, variable, value))
  }

  lemma {:induction false} SplitOfKeys(config: Settings, keys: set<string>, servers: set<string>)
    returns (globals: Settings, specific: map<string, Settings>)
    requires keys <= config.Keys
    ensures IsSplitOf(config, keys, servers, globals, specific)
  {
    hide Split, SplitAt, IsSplitOf;
    if keys == {} {
      NothingSplit(config, servers);
      assert config.Keys - config.Keys == {};
      globals, specific := map[], map s | s in servers :: map[];
    } else {
      var key :| key in keys;
      globals, specific := SplitOfKeys(config, keys - {key}, servers);
      SplitOneMore(config, keys - {key}, servers, globals, specific, key);
      assert keys - {key} + {key} == keys;
      match Split(key, servers) {
        case None => globals := globals[key := config[key]];
        case Some(k) => specific := specific[k.server := specific[k.server][k.setting := config[key]]];
      }
    }
  }

  /** Every map can be split. */
  lemma SplitExists(config: Settings, servers: set<string>) returns (globals: Settings, specific: map<string, Settings>)
    ensures IsSplit(config, servers, globals, specific)
  {
    globals, specific := SplitOfKeys(config, config.Keys, servers);
    assert config.Keys - {} == config.Keys;
    AllSplit(config, servers, globals, specific);
  }

  /** A map in multisite mode that gives server `t` one setting. */
  function OneSetting(t: string): Settings {
    map["MULTISITE" := "yes", Prefix(t) + "X" := "on"]
  }

  lemma OneSettingHolds(t: string)
    ensures Multisite(OneSetting(t)) && "X" !in OneSetting(t)
    ensures ValueAt(OneSetting(t), Prefix(t) + "X") == Some("on")
  {
    PrefixAt("MULTISITE", t);
    assert Prefix(t) <= Prefix(t) + "X";
    assert '_' !in "MULTISITE";
    assert |Prefix(t) + "X"| > 1;
  }

  lemma XIsGlobal(servers: set<string>)
    ensures Split("X", servers).None?
  {
    hide Split, Prefix;
    SplitFindsShortest("X", servers);
    forall u | u in servers ensures !(Prefix(u) <= "X") { PrefixAt("X", u); }
  }

  lemma ShadowedVariableIsMissed(servers: set<string>, s: string, t: string)
    requires s in servers && t in servers && Shadows(s, t)
    ensures !HasVariableAgrees(servers)
  {
    hide Split, IsSplit, OneSetting, Multisite, Prefix;
    var config := OneSetting(t);
    OneSettingHolds(t);
    XIsGlobal(servers);
    var globals, specific := SplitExists(config, servers);
    assert HasVariable(config, servers, "X", "on");
    IsSplitCovers(config, servers, globals, specific);
    forall u | u in servers ensures ValueAt(specific[u], "X") == None {
      MissedIn(servers, globals, specific, s, t, u);
    }
    GlobalsAreOld(config, servers, globals, specific);
    assert !HasVariableWhenSplit(globals, specific, "X", "on");
  }

  lemma GlobalsAreOld(config: Settings, servers: set<string>, globals: Settings, specific: map<string, Settings>)
    requires IsSplit(config, servers, globals, specific)
    ensures globals.Keys <= config.Keys
  {
    hide Split;
  }

  lemma IsSplitCovers(config: Settings, servers: set<string>, globals: Settings, specific: map<string, Settings>)
    requires IsSplit(config, servers, globals, specific)
    ensures specific.Keys == servers
  {
  }

  lemma MissedIn(servers: set<string>, globals: Settings, specific: map<string, Settings>, s: string, t: string,
                 u: string)
    requires s in servers && t in servers && Shadows(s, t) && u in servers
    requires IsSplit(OneSetting(t), servers, globals, specific)
    ensures u in specific && "X" !in specific[u]
  {
    hide Split;
    var key := Prefix(t) + "X";
    SplitFindsShortest(key, servers);
    PrefixLengths(s, t);
    assert Prefix(s) <= key;
    if Prefix(u) + "X" == key { SameServer(u, t, "X"); }
    assert Prefix(u) + "X" != "MULTISITE" by { PrefixAt("MULTISITE", u); assert Prefix(u) <= Prefix(u) + "X"; }
  }

  lemma SameServer(u: string, t: string, x: string)
    requires Prefix(u) + x == Prefix(t) + x
    ensures u == t
  {
    var key := Prefix(u) + x;
    assert |u| == |t| && u == key[..|u|] && t == key[..|t|];
  }

  /** The lookup that walks over the servers sees what the parts hold exactly when the names are prefix-free. */
  lemma HasVariableAgreesIff(servers: set<string>)
    ensures HasVariableAgrees(servers) <==> PrefixFree(servers)
  {
    hide Split, IsSplit, Prefix, HasVariable, HasVariableWhenSplit, Multisite;
    if PrefixFree(servers) {
      forall config, globals, specific, variable, value |
        Multisite(config) && IsSplit(config, servers, globals, specific) && Split(variable, servers).None?
        ensures HasVariable(config, servers, variable, value)
                <==> HasVariableWhenSplit(globals, specific, variable, value)
      {
        PrefixFreeHasVariable(config, servers, globals, specific, variable, value);
      }
    } else {
      var s, t :| s in servers && t in servers && Prefix(s) <= Prefix(t) && s != t;
      ShadowedVariableIsMissed(servers, s, t);
    }
  }
}
