/**
  What the configuration object of the autoconf controllers guarantees over any sequence of calls:
  the cached map is the recomputed one, which requests go unnoticed, when the database is in step,
  and what becomes of a save that failed.
 */
module ConfigLaws {
  import opened SlotKeys
  import opened SlotTables
  import opened ServiceMerge
  import opened ServerKeys
  import opened Flatten
  import opened AutoconfConfig
  import opened Wrappers
  import opened Text
  import Handshake

  // ------------------------------------------------------------------ the cached map is the recomputed one

  ghost predicate Coherent(c: Cache, oracle: Oracle) {
    c.config == FullEnv(c.services, oracle) + c.extra
  }

  /** A call that reaches the database. */
  predicate Reaches(db: Database) {
    db.writable && db.ready
  }

  lemma ApplyKeepsCoherent(c: Cache, r: Request, db: Database, settings: set<string>, oracle: Oracle)
    requires Coherent(c, oracle) || (r.first && Reaches(db))
    ensures Coherent(Applied(c, r, db, settings, oracle).0, oracle)
  {
    hide FullEnv, SameServices, ChangesOf, Recomputed, Stored;
    UnchangedIsSame(c, r);
    if Reaches(db) {
      var changes := ChangesOf(c, r);
      RecomputedIsCoherent(Taken(c, r), r, changes, oracle);
      var (recomputed, more) := Recomputed(Taken(c, r), r, changes, oracle);
      StoredIsCoherent(recomputed, more, db, settings, oracle);
    }
  }

  lemma RecomputedIsCoherent(c: Cache, r: Request, changes: Changes, oracle: Oracle)
    requires Coherent(c, oracle) || Recomputes(changes, r)
    requires changes.extra || r.extra == c.extra
    ensures Coherent(Recomputed(c, r, changes, oracle).0, oracle)
  {
    hide FullEnv;
  }

  lemma StoredIsCoherent(c: Cache, changes: Changes, db: Database, settings: set<string>, oracle: Oracle)
    requires Coherent(c, oracle)
    ensures Coherent(Stored(c, changes, db, settings).0, oracle)
  {
    hide FullEnv;
  }

  datatype Call = Call(request: Request, db: Database, settings: set<string>)

  function AppliedAll(c: Cache, calls: seq<Call>, oracle: Oracle): Cache {
    if calls == [] then c
    else
      var last := calls[|calls| - 1];
      Applied(AppliedAll(c, calls[..|calls| - 1], oracle), last.request, last.db, last.settings, oracle).0
  }

  /**
    Once a first call has reached the database, the cached map is the one that recomputing it from
    the cached services and extra settings would give, after any further calls whatsoever.
   */
  lemma {:induction false} CacheIsCoherent(c: Cache, calls: seq<Call>, i: nat, oracle: Oracle)
    requires i < |calls| && calls[i].request.first && Reaches(calls[i].db)
    ensures Coherent(AppliedAll(c, calls, oracle), oracle)
  {
    hide Applied, Coherent;
    var last := |calls| - 1;
    if i < last {
      CacheIsCoherent(c, calls[..last], i, oracle);
    }
    ApplyKeepsCoherent(AppliedAll(c, calls[..last], oracle), calls[last].request, calls[last].db,
        calls[last].settings, oracle);
  }

  // ------------------------------------------------------------------ asking again

  lemma AppliedHolds(c: Cache, r: Request, db: Database, settings: set<string>, oracle: Oracle)
    requires Reaches(db)
    ensures var after := Applied(c, r, db, settings, oracle).0;
            after.instances == r.instances && after.configs == r.configs && after.extra == r.extra
  {
    hide FullEnv, SameServices, ChangesOf, Recomputed, Stored;
    UnchangedIsSame(c, r);
    var changes := ChangesOf(c, r);
    RecomputedHolds(Taken(c, r), r, changes, oracle);
    var (recomputed, more) := Recomputed(Taken(c, r), r, changes, oracle);
    StoredHolds(recomputed, more, db, settings);
  }

  lemma RecomputedHolds(c: Cache, r: Request, changes: Changes, oracle: Oracle)
    requires changes.extra || r.extra == c.extra
    ensures var after := Recomputed(c, r, changes, oracle).0;
            after.instances == c.instances && after.configs == c.configs && after.extra == r.extra
  {
    hide FullEnv;
  }

  lemma StoredHolds(c: Cache, changes: Changes, db: Database, settings: set<string>)
    ensures var after := Stored(c, changes, db, settings).0;
            && after.instances == c.instances && after.configs == c.configs
            && after.extra == c.extra && after.config == c.config
  {
  }

  lemma AppliedServices(c: Cache, r: Request, db: Database, settings: set<string>, oracle: Oracle)
    requires Reaches(db)
    ensures Applied(c, r, db, settings, oracle).0.services
            == if !SameServices(r.services, c.services) || r.first then r.services else c.services
  {
    hide FullEnv, SameServices, Recomputed, Stored;
    var changes := ChangesOf(c, r);
    RecomputedKeepsServices(Taken(c, r), r, changes, oracle);
    var (recomputed, more) := Recomputed(Taken(c, r), r, changes, oracle);
    StoredKeepsServices(recomputed, more, db, settings);
  }

  /**
    After a call the same arguments need no update, with one exception: services that hold what
    the cached ones hold, but with their keys in another order, are not taken over.
   */
  lemma AppliedNeedsNoUpdateIff(c: Cache, r: Request, db: Database, settings: set<string>, oracle: Oracle)
    requires Reaches(db)
    ensures var after := Applied(c, r, db, settings, oracle).0;
            NeedsUpdate(after, r)
            <==> !r.first && SameServices(r.services, c.services) && Rendered(c.services) != Rendered(r.services)
  {
    hide FullEnv, SameServices, Rendered, ChangesOf;
    UnchangedIsSame(c, r);
    AppliedHolds(c, r, db, settings, oracle);
    AppliedServices(c, r, db, settings, oracle);
  }

  /** An update is needed unless the same instances and services are given, in whatever order and however often. */
  lemma NoUpdateNeededIff(c: Cache, r: Request)
    ensures !NeedsUpdate(c, r)
            <==> && (forall x :: x in c.instances <==> x in r.instances)
                 && (forall d :: d in c.services <==> d in r.services)
                 && c.configs == r.configs && c.extra == r.extra
  {
    RenderedIff(c.instances, r.instances);
    RenderedIff(c.services, r.services);
  }

  lemma RenderedIff<T(!new)>(a: seq<T>, b: seq<T>)
    ensures Rendered(a) == Rendered(b) <==> forall x :: x in a <==> x in b
  {
    if Rendered(a) == Rendered(b) {
      forall x ensures x in a <==> x in b { assert x in Rendered(a) <==> x in Rendered(b); }
    }
  }

  // ------------------------------------------------------------------ unnoticed requests

  /** The services that have a name, in order. */
  function Named(ds: seq<Dict>): seq<Dict> {
    if ds == [] then []
    else
      var last := |ds| - 1;
      Named(ds[..last]) + (if Primary(ds[last]) == "" then [] else [ds[last]])
  }

  lemma {:induction false} NamedHaveNames(ds: seq<Dict>)
    ensures |Named(ds)| == |Names(ds)|
    ensures forall i :: 0 <= i < |Named(ds)| ==> Primary(Named(ds)[i]) == Names(ds)[i] != "" && Named(ds)[i] in ds
  {
    hide Primary;
    if ds != [] {
      var last := |ds| - 1;
      NamedHaveNames(ds[..last]);
      assert ds == ds[..last] + [ds[last]];
    }
  }

  lemma {:induction false} EarlierServicesDecide(env: Settings, ds: seq<Dict>, n: nat, m: nat, oracle: Oracle)
    requires "SERVER_NAME" in env && n <= m <= |ds|
    ensures AfterServices(env, ds[..m], n, oracle) == AfterServices(env, ds, n, oracle)
  {
    hide AfterKeys, Primary;
    if n > 0 { EarlierServicesDecide(env, ds, n - 1, m, oracle); }
  }

  /** Services without a name leave no trace in the flat map. */
  lemma {:induction false} NamedSuffice(env: Settings, ds: seq<Dict>, oracle: Oracle)
    requires "SERVER_NAME" in env
    ensures AfterServices(env, Named(ds), |Named(ds)|, oracle) == AfterServices(env, ds, |ds|, oracle)
  {
    hide AfterKeys, Primary;
    if ds != [] {
      var last := |ds| - 1;
      var front := ds[..last];
      NamedSuffice(env, front, oracle);
      EarlierServicesDecide(env, ds, last, last, oracle);
      var n := |Named(front)|;
      if Primary(ds[last]) == "" {
        assert Named(ds) == Named(front);
      } else {
        assert Named(ds) == Named(front) + [ds[last]];
        assert Named(ds)[..n] == Named(front);
        EarlierServicesDecide(env, Named(ds), n, n, oracle);
      }
    }
  }

  lemma NamedDecide(a: seq<Dict>, b: seq<Dict>, oracle: Oracle)
    requires Named(a) == Named(b) && Names(a) == Names(b)
    ensures FullEnv(a, oracle) == FullEnv(b, oracle)
  {
    hide AfterServices, Strip, Named, Names, Joined;
    NamedSuffice(Start(a), a, oracle);
    NamedSuffice(Start(b), b, oracle);
  }

  /** Among the same services, the names in order tell the named services in order. */
  lemma SameNamesSameNamed(a: seq<Dict>, b: seq<Dict>)
    requires Rendered(a) == Rendered(b) && DistinctHosts(b) && Names(a) == Names(b)
    ensures Named(a) == Named(b)
  {
    hide Primary, Named, Names;
    NamedHaveNames(a);
    NamedHaveNames(b);
    forall i | 0 <= i < |Named(a)| ensures Named(a)[i] == Named(b)[i] {
      var x, y := Named(a)[i], Named(b)[i];
      assert x in Rendered(a);
      assert x in b && y in b && Primary(x) == Primary(y) != "";
      OneServicePerHost(b, x, y);
    }
  }

  lemma OneServicePerHost(ds: seq<Dict>, x: Dict, y: Dict)
    requires DistinctHosts(ds) && x in ds && y in ds && Primary(x) == Primary(y) != ""
    ensures x == y
  {
    hide Primary;
    var i :| 0 <= i < |ds| && ds[i] == x;
    var j :| 0 <= j < |ds| && ds[j] == y;
  }

  /** The list of names survives in the flat map. */
  ghost predicate Listable(ds: seq<Dict>) {
    AreWords(Names(ds)) && "SERVER" !in Names(ds)
  }

  /** The same named services in the same order make the same map, whatever they and the extra settings hold. */
  lemma SameNamedSameMap(c: Cache, r: Request, oracle: Oracle)
    requires Coherent(c, oracle) && !NeedsUpdate(c, r) && Named(r.services) == Named(c.services)
    ensures FullEnv(r.services, oracle) + r.extra == c.config
  {
    hide FullEnv, Named, Names, Primary;
    var a, b := r.services, c.services;
    NamedHaveNames(a);
    NamedHaveNames(b);
    assert forall i :: 0 <= i < |Named(a)| ==> Names(a)[i] == Names(b)[i];
    assert Names(a) == Names(b);
    NamedDecide(a, b, oracle);
  }

  lemma RenderedListable(a: seq<Dict>, b: seq<Dict>)
    requires Rendered(a) == Rendered(b) && Listable(a)
    ensures Listable(b)
  {
    hide Primary, IsWord, Names;
    NamedHaveNames(b);
    forall k | 0 <= k < |Names(b)| ensures Names(b)[k] in Names(a) {
      assert Named(b)[k] in Rendered(b);
      var m :| 0 <= m < |a| && a[m] == Named(b)[k];
      NamesAreNames(a, m);
    }
  }

  /** The same map lists the same names, unless the extra settings bring a list of their own. */
  lemma SameMapSameNames(c: Cache, r: Request, oracle: Oracle)
    requires Coherent(c, oracle) && !NeedsUpdate(c, r) && "SERVER_NAME" !in c.extra
    requires Listable(c.services)
    requires FullEnv(r.services, oracle) + r.extra == c.config
    ensures Names(r.services) == Names(c.services)
  {
    hide FullEnv, AreWords, Names, Words;
    RenderedListable(c.services, r.services);
    ListIsKept(r.services, oracle);
    ListIsKept(c.services, oracle);
    ListIsThere(r.services, oracle);
    ListIsThere(c.services, oracle);
    assert c.config["SERVER_NAME"] == FullEnv(c.services, oracle)["SERVER_NAME"];
    assert (FullEnv(r.services, oracle) + r.extra)["SERVER_NAME"] == FullEnv(r.services, oracle)["SERVER_NAME"];
  }

  /**
    A request that is not noticed as an update leaves the map as it is if and only if it lists the
    named services in the same order. Here the cached services have different hosts, and the extra
    settings bring no list of names of their own.
   */
  lemma UnnoticedKeepsMapIff(c: Cache, r: Request, oracle: Oracle)
    requires Coherent(c, oracle) && !NeedsUpdate(c, r) && "SERVER_NAME" !in c.extra
    requires Listable(c.services) && DistinctHosts(c.services)
    ensures FullEnv(r.services, oracle) + r.extra == c.config <==> Names(r.services) == Names(c.services)
  {
    hide FullEnv, Listable, Names, Named, DistinctHosts, Coherent;
    if Names(r.services) == Names(c.services) {
      SameNamesSameNamed(r.services, c.services);
      SameNamedSameMap(c, r, oracle);
    } else if FullEnv(r.services, oracle) + r.extra == c.config {
      SameMapSameNames(c, r, oracle);
    }
  }

  /** The services at two places, exchanged. */
  function Exchanged<T>(xs: seq<T>, i: nat, j: nat): (ys: seq<T>)
    requires i < j < |xs|
    ensures |ys| == |xs| && ys[i] == xs[j] && ys[j] == xs[i]
    ensures ys[..i] == xs[..i] && Rendered(ys) == Rendered(xs)
    ensures forall k :: 0 <= k < |xs| && k != i && k != j ==> ys[k] == xs[k]
  {
    var ys := xs[i := xs[j]][j := xs[i]];
    assert forall k :: 0 <= k < |xs| ==> xs[k] == ys[if k == i then j else if k == j then i else k];
    ys
  }

  /** Two named services of different hosts that change places, in any list, are such a request. */
  lemma SwappedServicesGoUnnoticed(c: Cache, i: nat, j: nat, oracle: Oracle)
    requires i < j < |c.services| && Coherent(c, oracle) && "SERVER_NAME" !in c.extra && Listable(c.services)
    requires Primary(c.services[i]) != "" && Primary(c.services[j]) != ""
    requires Primary(c.services[i]) != Primary(c.services[j])
    ensures var r := Request(c.instances, Exchanged(c.services, i, j), c.configs, c.extra, false, false);
            !NeedsUpdate(c, r) && c.config != FullEnv(r.services, oracle) + r.extra
  {
    hide FullEnv, Primary, Coherent, Names, Rendered, Listable;
    var ds := Exchanged(c.services, i, j);
    var r := Request(c.instances, ds, c.configs, c.extra, false, false);
    NameStandsAt(c.services, i);
    NameStandsAt(ds, i);
    if FullEnv(r.services, oracle) + r.extra == c.config {
      SameMapSameNames(c, r, oracle);
    }
  }

  lemma {:induction false} NameStandsAt(ds: seq<Dict>, i: nat)
    requires i < |ds| && Primary(ds[i]) != ""
    ensures var k := |Names(ds[..i])|; k < |Names(ds)| && Names(ds)[k] == Primary(ds[i])
  {
    hide Primary;
    var last := |ds| - 1;
    if i < last {
      NameStandsAt(ds[..last], i);
      assert ds[..last][..i] == ds[..i];
    }
  }

  /** The setting that the last key of a service makes, and its value. */
  function LastSetting(d: Dict, names: seq<string>, oracle: Oracle): Option<string>
    requires d.keys != []
  {
    OwnSetting(Primary(d), d.keys[|d.keys| - 1], LastValue(d), names, oracle)
  }

  function LastValue(d: Dict): string
    requires d.keys != []
  {
    d.Get(d.keys[|d.keys| - 1], "")
  }

  /** The service that is listed last has the last word about it. */
  lemma LastSettingStands(ds: seq<Dict>, d: Dict, x: string, oracle: Oracle)
    requires Listable(ds) && ds != [] && ds[|ds| - 1] == d && Primary(d) != "" && d.keys != []
    requires LastSetting(d, Names(ds), oracle) == Some(x)
    ensures ValueAt(FullEnv(ds, oracle), Prefix(Primary(d)) + x) == Some(LastValue(d))
  {
    hide Primary, Names, IsWord, Joined, Words, LastSetting, LastValue, Strip, Prefix, AfterKeys;
    var n := |ds| - 1;
    ServicesMode(ds, n, oracle);
    WordsOfList(Names(ds));
    NamesAreNames(ds, n);
    LastKeyStands(AfterServices(Start(ds), ds, n, oracle), Names(ds), d, x, oracle);
    OnlyServerHasTheList(Primary(d), x);
  }

  lemma LastKeyStands(env: Settings, names: seq<string>, d: Dict, x: string, oracle: Oracle)
    requires "SERVER_NAME" in env && Words(env["SERVER_NAME"]) == names && d.keys != [] && Primary(d) != "SERVER"
    requires LastSetting(d, names, oracle) == Some(x)
    ensures ValueAt(AfterKeys(env, d, |d.keys|, oracle), Prefix(Primary(d)) + x) == Some(LastValue(d))
  {
    hide Primary, Words, OwnSetting, Target, Prefix;
    KeysMode(env, names, d, |d.keys| - 1, oracle);
    TargetIsOwn(Primary(d), d.keys[|d.keys| - 1], LastValue(d), names, oracle);
  }

  lemma {:induction false} NamesOfPrimaries(a: seq<Dict>, b: seq<Dict>)
    requires |a| == |b| && forall k :: 0 <= k < |a| ==> Primary(a[k]) == Primary(b[k])
    ensures Names(a) == Names(b)
  {
    hide Primary;
    if a != [] { NamesOfPrimaries(a[..|a| - 1], b[..|a| - 1]); }
  }

  /**
    Without different hosts the names do not tell: two services of one host that end with different
    values for one setting change the map when they change places, and the names stay as they are.
   */
  lemma SharedHostTellsOrder(c: Cache, i: nat, x: string, oracle: Oracle)
    requires i < |c.services| - 1 && Coherent(c, oracle) && Listable(c.services)
    requires var d, e := c.services[i], c.services[|c.services| - 1];
             && Primary(d) == Primary(e) != "" && d.keys != [] && e.keys != []
             && LastSetting(d, Names(c.services), oracle) == Some(x) == LastSetting(e, Names(c.services), oracle)
             && LastValue(d) != LastValue(e) && Prefix(Primary(d)) + x !in c.extra
    ensures var ds := Exchanged(c.services, i, |c.services| - 1);
            var r := Request(c.instances, ds, c.configs, c.extra, false, false);
            !NeedsUpdate(c, r) && Names(ds) == Names(c.services) && c.config != FullEnv(ds, oracle) + r.extra
  {
    hide FullEnv, Primary, Names, Rendered, Listable, LastSetting, LastValue, Prefix;
    var j := |c.services| - 1;
    var ds := Exchanged(c.services, i, j);
    RenderedListable(c.services, ds);
    assert forall k :: 0 <= k < |ds| ==> Primary(ds[k]) == Primary(c.services[k]);
    NamesOfPrimaries(ds, c.services);
    LastSettingStands(c.services, c.services[j], x, oracle);
    LastSettingStands(ds, c.services[i], x, oracle);
  }

  // ------------------------------------------------------------------ the database in step

  /** The map that a call computes if it computes one. */
  function NewMap(c: Cache, r: Request, oracle: Oracle): Settings {
    FullEnv(Taken(c, r).services, oracle) + r.extra
  }

  /** The call replaces the cached map: something it depends on changed, and so did the map, or it is the first call. */
  predicate ChangesMap(c: Cache, call: Call, oracle: Oracle) {
    var r := call.request;
    && Reaches(call.db)
    && Recomputes(ChangesOf(c, r), r)
    && (NewMap(c, r, oracle) != c.config || r.first)
  }

  ghost predicate InStep(c: Cache) {
    c.stored.config == c.config
  }

  function AfterCall(c: Cache, call: Call, oracle: Oracle): Cache {
    Applied(c, call.request, call.db, call.settings, oracle).0
  }

  function ReplyTo(c: Cache, call: Call, oracle: Oracle): Reply {
    Applied(c, call.request, call.db, call.settings, oracle).1
  }

  lemma MapAfterCall(c: Cache, call: Call, oracle: Oracle)
    ensures var after, changed := AfterCall(c, call, oracle), ChangesMap(c, call, oracle);
            && after.config == (if changed then NewMap(c, call.request, oracle) else c.config)
            && after.stored.config
               == (if changed && call.db.savesConfig then NewMap(c, call.request, oracle) else c.stored.config)
    ensures var reply := ReplyTo(c, call, oracle);
            reply.Done? ==> reply.changes.config == ChangesMap(c, call, oracle)
    ensures var reply := ReplyTo(c, call, oracle);
            reply.Done? && reply.success && ChangesMap(c, call, oracle) ==> call.db.savesConfig
  {
    hide FullEnv, SameServices, ChangesOf, Recomputed, Stored;
    UnchangedIsSame(c, call.request);
    if Reaches(call.db) {
      var r, changes := call.request, ChangesOf(c, call.request);
      MapRecomputed(Taken(c, r), r, changes, oracle);
      var (recomputed, more) := Recomputed(Taken(c, r), r, changes, oracle);
      MapStored(recomputed, more, call.db, call.settings);
    }
  }

  lemma MapRecomputed(c: Cache, r: Request, changes: Changes, oracle: Oracle)
    requires !changes.config
    ensures var (after, more) := Recomputed(c, r, changes, oracle);
            var env := FullEnv(c.services, oracle) + r.extra;
            var changed := Recomputes(changes, r) && (env != c.config || r.first);
            && more.config == changed
            && after.config == (if changed then env else c.config)
            && after.stored == c.stored
  {
    hide FullEnv;
  }

  lemma MapStored(c: Cache, changes: Changes, db: Database, settings: set<string>)
    ensures var (after, ok) := Stored(c, changes, db, settings);
            && after.config == c.config
            && after.stored.config == (if changes.config && db.savesConfig then c.config else c.stored.config)
            && (ok && changes.config ==> db.savesConfig)
  {
    hide FlagsFor;
  }

  /**
    After any call the database holds the cached map if and only if the call changed the map and
    saved it or fell back to the one that is saved, or changed nothing and found them in step.
   */
  lemma InStepIff(c: Cache, call: Call, oracle: Oracle)
    ensures InStep(AfterCall(c, call, oracle))
            <==> if ChangesMap(c, call, oracle)
                 then call.db.savesConfig || c.stored.config == NewMap(c, call.request, oracle)
                 else InStep(c)
  {
    hide AfterCall, ChangesMap, NewMap;
    MapAfterCall(c, call, oracle);
  }

  /** A call that reports success leaves them in step if and only if they were, or the call changed the map. */
  lemma ReportedSuccessIsInStepIff(c: Cache, call: Call, oracle: Oracle)
    requires ReplyTo(c, call, oracle).Done? && ReplyTo(c, call, oracle).success
    ensures InStep(AfterCall(c, call, oracle)) <==> InStep(c) || ChangesMap(c, call, oracle)
  {
    hide AfterCall, ChangesMap, NewMap, ReplyTo;
    MapAfterCall(c, call, oracle);
  }

  /** Call `j` of a sequence changes the map. */
  predicate ChangesMapAt(c: Cache, calls: seq<Call>, j: nat, oracle: Oracle)
    requires j < |calls|
  {
    ChangesMap(AppliedAll(c, calls[..j], oracle), calls[j], oracle)
  }

  lemma AppliedFront(c: Cache, calls: seq<Call>, oracle: Oracle)
    requires calls != []
    ensures AppliedAll(c, calls, oracle)
            == AfterCall(AppliedAll(c, calls[..|calls| - 1], oracle), calls[|calls| - 1], oracle)
    ensures forall j :: 0 <= j < |calls| - 1 ==> calls[..|calls| - 1][..j] == calls[..j]
  {
    hide Applied;
  }

  /** Over any calls that do not change the map nothing changes. */
  lemma {:induction false} UnchangedMapKeepsStep(c: Cache, calls: seq<Call>, oracle: Oracle)
    requires forall j :: 0 <= j < |calls| ==> !ChangesMapAt(c, calls, j, oracle)
    ensures InStep(AppliedAll(c, calls, oracle)) <==> InStep(c)
  {
    hide AppliedAll, ChangesMap, AfterCall;
    if calls != [] {
      var last := |calls| - 1;
      AppliedFront(c, calls, oracle);
      forall j | 0 <= j < last ensures !ChangesMapAt(c, calls[..last], j, oracle) {
        assert !ChangesMapAt(c, calls, j, oracle);
      }
      UnchangedMapKeepsStep(c, calls[..last], oracle);
      assert !ChangesMapAt(c, calls, last, oracle);
      InStepIff(AppliedAll(c, calls[..last], oracle), calls[last], oracle);
    } else {
      assert AppliedAll(c, [], oracle) == c by { NothingApplied(c, oracle); }
    }
  }

  lemma NothingApplied(c: Cache, oracle: Oracle)
    ensures AppliedAll(c, [], oracle) == c
  {
  }

  /**
    Over any sequence of calls the last one that changed the map decides: the database is in step
    at the end if and only if that call saved its map, or the database held that map already.
   */
  lemma {:induction false} LastMapChangeDecides(c: Cache, calls: seq<Call>, j: nat, oracle: Oracle)
    requires j < |calls| && ChangesMapAt(c, calls, j, oracle)
    requires forall k :: j < k < |calls| ==> !ChangesMapAt(c, calls, k, oracle)
    ensures var before := AppliedAll(c, calls[..j], oracle);
            InStep(AppliedAll(c, calls, oracle))
            <==> calls[j].db.savesConfig || before.stored.config == NewMap(before, calls[j].request, oracle)
  {
    hide AppliedAll, ChangesMap, AfterCall, NewMap;
    var last := |calls| - 1;
    var front := calls[..last];
    AppliedFront(c, calls, oracle);
    InStepIff(AppliedAll(c, front, oracle), calls[last], oracle);
    if j < last {
      assert ChangesMapAt(c, front, j, oracle);
      forall k | j < k < last ensures !ChangesMapAt(c, front, k, oracle) {
        assert !ChangesMapAt(c, calls, k, oracle);
      }
      LastMapChangeDecides(c, front, j, oracle);
      assert !ChangesMapAt(c, calls, last, oracle);
    }
  }

  // ------------------------------------------------------------------ the settings of the last success

  predicate Succeeds(c: Cache, call: Call, oracle: Oracle) {
    var reply := ReplyTo(c, call, oracle);
    reply.Done? && reply.success
  }

  predicate SucceedsAt(c: Cache, calls: seq<Call>, j: nat, oracle: Oracle)
    requires j < |calls|
  {
    Succeeds(AppliedAll(c, calls[..j], oracle), calls[j], oracle)
  }

  lemma SignatureAfterCall(c: Cache, call: Call, oracle: Oracle)
    ensures AfterCall(c, call, oracle).signature == if Succeeds(c, call, oracle) then Some(call.settings) else c.signature
  {
    hide FullEnv, SameServices, ChangesOf, Updated, Recomputes;
  }

  /** Until a call has succeeded there is no settings baseline to compare with. */
  lemma {:induction false} NoBaselineBeforeSuccess(c: Cache, calls: seq<Call>, oracle: Oracle)
    requires forall j :: 0 <= j < |calls| ==> !SucceedsAt(c, calls, j, oracle)
    ensures AppliedAll(c, calls, oracle).signature == c.signature
  {
    hide AppliedAll, Succeeds, AfterCall;
    if calls != [] {
      var last := |calls| - 1;
      AppliedFront(c, calls, oracle);
      forall j | 0 <= j < last ensures !SucceedsAt(c, calls[..last], j, oracle) {
        assert !SucceedsAt(c, calls, j, oracle);
      }
      NoBaselineBeforeSuccess(c, calls[..last], oracle);
      assert !SucceedsAt(c, calls, last, oracle);
      SignatureAfterCall(AppliedAll(c, calls[..last], oracle), calls[last], oracle);
    } else {
      NothingApplied(c, oracle);
    }
  }

  /** Afterwards the baseline is what was valid at the last call that succeeded. */
  lemma {:induction false} BaselineIsLastSuccess(c: Cache, calls: seq<Call>, j: nat, oracle: Oracle)
    requires j < |calls| && SucceedsAt(c, calls, j, oracle)
    requires forall k :: j < k < |calls| ==> !SucceedsAt(c, calls, k, oracle)
    ensures AppliedAll(c, calls, oracle).signature == Some(calls[j].settings)
  {
    hide AppliedAll, Succeeds, AfterCall;
    var last := |calls| - 1;
    var front := calls[..last];
    AppliedFront(c, calls, oracle);
    SignatureAfterCall(AppliedAll(c, front, oracle), calls[last], oracle);
    if j < last {
      assert SucceedsAt(c, front, j, oracle);
      forall k | j < k < last ensures !SucceedsAt(c, front, k, oracle) {
        assert !SucceedsAt(c, calls, k, oracle);
      }
      BaselineIsLastSuccess(c, front, j, oracle);
      assert !SucceedsAt(c, calls, last, oracle);
    }
  }

  // ------------------------------------------------------------------ a failed save

  /** Repeats of a request: the same arguments, with or without force, but not as the first call. */
  predicate Repeats(call: Call, r: Request) {
    && call.request.instances == r.instances && call.request.services == r.services
    && call.request.configs == r.configs && call.request.extra == r.extra
    && !call.request.first
  }

  /** The object already holds what the request asks for. */
  ghost predicate Settled(c: Cache, r: Request, oracle: Oracle) {
    && Coherent(c, oracle)
    && c.instances == r.instances && SameServices(r.services, c.services)
    && c.configs == r.configs && c.extra == r.extra
  }

  lemma ApplySettles(c: Cache, r: Request, db: Database, settings: set<string>, oracle: Oracle)
    requires Reaches(db) && (Coherent(c, oracle) || r.first)
    ensures Settled(Applied(c, r, db, settings, oracle).0, r, oracle)
  {
    hide Coherent, SameServices, Applied;
    ApplyKeepsCoherent(c, r, db, settings, oracle);
    AppliedHolds(c, r, db, settings, oracle);
    AppliedServices(c, r, db, settings, oracle);
    SameAsThemselves(r.services);
  }

  lemma SameAsThemselves(ds: seq<Dict>)
    ensures SameServices(ds, ds)
  {
  }

  lemma SettledStays(c: Cache, call: Call, r: Request, oracle: Oracle)
    requires Settled(c, r, oracle) && Repeats(call, r)
    ensures var after := AfterCall(c, call, oracle);
            && Settled(after, r, oracle)
            && after.config == c.config
            && after.stored == c.stored.(flags := after.stored.flags)
    ensures Reaches(call.db) ==> ReplyTo(c, call, oracle) == Done(true, Changes(false, false, false, false, false))
  {
    hide FullEnv, SameServices, FlagsFor;
  }

  /**
    A configuration whose save failed is not saved again: however often the same services are
    applied afterwards, forced or not, the database keeps the old one, and every one of these
    calls that reaches the database reports success.
   */
  lemma {:induction false} FailedSaveIsNotRetried(c: Cache, first: Call, calls: seq<Call>, oracle: Oracle)
    requires Reaches(first.db) && !first.db.savesConfig && (Coherent(c, oracle) || first.request.first)
    requires forall i :: 0 <= i < |calls| ==> Repeats(calls[i], first.request)
    ensures var after := AfterCall(c, first, oracle);
            && AppliedAll(after, calls, oracle).stored.config == c.stored.config
            && AppliedAll(after, calls, oracle).config == after.config
            && Settled(AppliedAll(after, calls, oracle), first.request, oracle)
    ensures forall i :: 0 <= i < |calls| && Reaches(calls[i].db) ==>
              SucceedsAt(AfterCall(c, first, oracle), calls, i, oracle)
  {
    hide FullEnv, SameServices, Settled, Coherent, AfterCall, ReplyTo;
    var r := first.request;
    assert Settled(AfterCall(c, first, oracle), r, oracle) by { ApplySettlesCall(c, first, oracle); }
    MapAfterCall(c, first, oracle);
    var after := AfterCall(c, first, oracle);
    if calls != [] {
      var last := |calls| - 1;
      FailedSaveIsNotRetried(c, first, calls[..last], oracle);
      AppliedFront(after, calls, oracle);
      SettledStays(AppliedAll(after, calls[..last], oracle), calls[last], r, oracle);
      forall i | 0 <= i < |calls| && Reaches(calls[i].db) ensures SucceedsAt(after, calls, i, oracle) {
        if i < last { assert SucceedsAt(after, calls[..last], i, oracle); }
      }
    } else {
      NothingApplied(after, oracle);
    }
  }

  lemma ApplySettlesCall(c: Cache, call: Call, oracle: Oracle)
    requires Reaches(call.db) && (Coherent(c, oracle) || call.request.first)
    ensures Settled(AfterCall(c, call, oracle), call.request, oracle)
  {
    hide Applied, Settled, Coherent;
    ApplySettles(c, call.request, call.db, call.settings, oracle);
  }

  // ------------------------------------------------------------------ the whole effect of a call

  predicate ServicesDiffer(c: Cache, r: Request) {
    |r.services| != |c.services| || exists i :: 0 <= i < |r.services| && r.services[i].at != c.services[i].at
  }

  /** The services that a call goes on with: the cached ones if the given ones hold the same. */
  function Current(c: Cache, r: Request): seq<Dict> {
    if !r.first && !ServicesDiffer(c, r) then c.services else r.services
  }

  /** The map is computed anew, and is another one; the first call takes it for another one anyway. */
  predicate MapDiffers(c: Cache, r: Request, oracle: Oracle) {
    || r.first
    || ((r.force || r.instances != c.instances || ServicesDiffer(c, r) || r.extra != c.extra)
        && FullEnv(Current(c, r), oracle) + r.extra != c.config)
  }

  /** Neither the arguments nor the map are other than those of the last call. */
  predicate NothingDiffers(c: Cache, r: Request, oracle: Oracle) {
    && !r.first && r.instances == c.instances && !ServicesDiffer(c, r) && r.configs == c.configs && r.extra == c.extra
    && !MapDiffers(c, r, oracle)
  }

  lemma MapDiffersIff(c: Cache, call: Call, oracle: Oracle)
    requires Reaches(call.db)
    ensures MapDiffers(c, call.request, oracle) <==> ChangesMap(c, call, oracle)
    ensures Taken(c, call.request).services == Current(c, call.request)
    ensures SameServices(call.request.services, c.services) <==> !ServicesDiffer(c, call.request)
  {
    hide FullEnv;
  }

  /**
    Which flags a call that reaches the database and saves its map raises: that of the instances
    and that of the custom configurations if and only if these differ, it is the first call, or
    nothing differs at all; those of the plugins only if nothing differs, and that of the plugins'
    settings only if saving the map changed some.
   */
  lemma FlagsRaisedIff(c: Cache, call: Call, oracle: Oracle)
    requires Reaches(call.db) && call.db.raisesFlags
    requires MapDiffers(c, call.request, oracle) ==> call.db.savesConfig
    ensures var r, before, after := call.request, c.stored.flags, AfterCall(c, call, oracle).stored.flags;
            var nothing := NothingDiffers(c, r, oracle);
            && (Handshake.Instances in after
                <==> Handshake.Instances in before || r.first || r.instances != c.instances || nothing)
            && (Handshake.CustomConfigs in after
                <==> Handshake.CustomConfigs in before || r.first || r.configs != c.configs || nothing)
            && (Handshake.ExternalPlugins in after <==> Handshake.ExternalPlugins in before || nothing)
            && (Handshake.ProPlugins in after <==> Handshake.ProPlugins in before || nothing)
            && (Handshake.PluginsConfig in after
                <==> Handshake.PluginsConfig in before || (MapDiffers(c, r, oracle) && call.db.changesPlugins))
  {
    hide FullEnv, SameServices, ChangesOf, Recomputed, Stored, MapDiffers, ServicesDiffer, ChangesMap, FlagsFor;
    var r, changes := call.request, ChangesOf(c, call.request);
    MapDiffersIff(c, call, oracle);
    NotedIff(c, r);
    MapRecomputed(Taken(c, r), r, changes, oracle);
    RecomputedNotes(Taken(c, r), r, changes, oracle);
    ChangesMapIff(c, call, oracle);
    var (recomputed, more) := Recomputed(Taken(c, r), r, changes, oracle);
    FlagsStored(recomputed, more, call.db, call.settings);
    FlagsForIff(more, call.db);
    assert recomputed.stored == c.stored;
  }

  lemma NotedIff(c: Cache, r: Request)
    ensures var changes := ChangesOf(c, r);
            && (changes.instances <==> r.first || r.instances != c.instances)
            && (changes.services <==> r.first || ServicesDiffer(c, r))
            && (changes.configs <==> r.first || r.configs != c.configs)
            && (changes.extra <==> r.first || r.extra != c.extra)
            && !changes.config
  {
  }

  lemma RecomputedNotes(c: Cache, r: Request, changes: Changes, oracle: Oracle)
    ensures Recomputed(c, r, changes, oracle).1.(config := changes.config) == changes
  {
    hide FullEnv;
  }

  lemma ChangesMapIff(c: Cache, call: Call, oracle: Oracle)
    requires Reaches(call.db)
    ensures var r, changes := call.request, ChangesOf(c, call.request);
            ChangesMap(c, call, oracle)
            <==> Recomputes(changes, r) && (FullEnv(Taken(c, r).services, oracle) + r.extra != c.config || r.first)
  {
    hide FullEnv, SameServices;
  }

  lemma FlagsForIff(changes: Changes, db: Database)
    requires db.raisesFlags && (changes.config ==> db.savesConfig)
    ensures var flags, nothing := FlagsFor(changes, db), changes == Changes(false, false, false, false, false);
            && (Handshake.Instances in flags <==> changes.instances || nothing)
            && (Handshake.CustomConfigs in flags <==> changes.configs || nothing)
            && (Handshake.ExternalPlugins in flags <==> nothing) && (Handshake.ProPlugins in flags <==> nothing)
            && (Handshake.PluginsConfig in flags <==> changes.config && db.changesPlugins)
  {
    assert Handshake.Instances != Handshake.CustomConfigs;
  }

  /**
    What a call that reaches the database leaves in the object and in the database, and what it
    reports: everything that differs is taken over, and stored exactly where its save works.
   */
  lemma CallDoes(c: Cache, call: Call, oracle: Oracle)
    requires Reaches(call.db)
    ensures var r, db, after := call.request, call.db, AfterCall(c, call, oracle);
            var differs := MapDiffers(c, r, oracle);
            var ok := (differs ==> db.savesConfig) && (r.first || r.configs != c.configs ==> db.savesConfigs);
            && after.instances == r.instances && after.configs == r.configs && after.extra == r.extra
            && after.services == Current(c, r)
            && after.config == (if differs then FullEnv(Current(c, r), oracle) + r.extra else c.config)
            && after.signature == (if ok then Some(call.settings) else c.signature)
            && after.stored.config == (if differs && db.savesConfig then after.config else c.stored.config)
            && after.stored.instances
               == (if (r.first || r.instances != c.instances) && db.savesInstances then r.instances else c.stored.instances)
            && after.stored.configs
               == (if (r.first || r.configs != c.configs) && db.savesConfigs then r.configs else c.stored.configs)
            && ReplyTo(c, call, oracle).Done? && ReplyTo(c, call, oracle).success == ok
  {
    hide FullEnv, SameServices, ChangesOf, Recomputed, Stored, MapDiffers, ServicesDiffer, ChangesMap, FlagsFor;
    var r, changes := call.request, ChangesOf(c, call.request);
    MapDiffersIff(c, call, oracle);
    NotedIff(c, r);
    UnchangedIsSame(c, r);
    MapRecomputed(Taken(c, r), r, changes, oracle);
    RecomputedNotes(Taken(c, r), r, changes, oracle);
    RecomputedHolds(Taken(c, r), r, changes, oracle);
    RecomputedKeeps(Taken(c, r), r, changes, oracle);
    ChangesMapIff(c, call, oracle);
    var (recomputed, more) := Recomputed(Taken(c, r), r, changes, oracle);
    StoredExactly(recomputed, more, call.db, call.settings);
  }

  lemma RecomputedKeeps(c: Cache, r: Request, changes: Changes, oracle: Oracle)
    ensures var after := Recomputed(c, r, changes, oracle).0;
            after.services == c.services && after.signature == c.signature && after.stored == c.stored
  {
    hide FullEnv;
  }

  lemma StoredExactly(c: Cache, changes: Changes, db: Database, settings: set<string>)
    ensures var (after, ok) := Stored(c, changes, db, settings);
            && ok == ((changes.config ==> db.savesConfig) && (changes.configs ==> db.savesConfigs))
            && after == c.(stored := after.stored, signature := if ok then Some(settings) else c.signature)
            && after.stored.config == (if changes.config && db.savesConfig then c.config else c.stored.config)
            && after.stored.instances
               == (if changes.instances && db.savesInstances then c.instances else c.stored.instances)
            && after.stored.configs == (if changes.configs && db.savesConfigs then c.configs else c.stored.configs)
  {
    hide FlagsFor;
  }

  // ------------------------------------------------------------------ what a failed save announces

  /** A call that changed the map and could not save it raises no flag, whatever else it did save. */
  lemma FailedSaveAnnouncesNothing(c: Cache, call: Call, oracle: Oracle)
    requires ChangesMap(c, call, oracle) && !call.db.savesConfig
    ensures AfterCall(c, call, oracle).stored.flags == c.stored.flags
  {
    hide FullEnv, SameServices, ChangesOf, Recomputed, Stored;
    UnchangedIsSame(c, call.request);
    var r, changes := call.request, ChangesOf(c, call.request);
    MapRecomputed(Taken(c, r), r, changes, oracle);
    var (recomputed, more) := Recomputed(Taken(c, r), r, changes, oracle);
    FlagsStored(recomputed, more, call.db, call.settings);
  }

  lemma FlagsStored(c: Cache, changes: Changes, db: Database, settings: set<string>)
    ensures Stored(c, changes, db, settings).0.stored.flags == c.stored.flags + FlagsFor(changes, db)
  {
    hide FlagsFor;
  }

  /**
    The first repetition that gets through to the flags has no changes on its list, so it raises
    all of them but that of the plugins' settings: the instances and custom configurations that
    the failed call did save are announced then, and the settings as well, which it did not save.
   */
  lemma RepetitionAnnouncesAll(c: Cache, first: Call, again: Call, oracle: Oracle)
    requires ChangesMap(c, first, oracle) && !first.db.savesConfig && (Coherent(c, oracle) || first.request.first)
    requires Repeats(again, first.request) && Reaches(again.db) && again.db.raisesFlags
    ensures var after := AfterCall(AfterCall(c, first, oracle), again, oracle);
            && after.stored.flags == c.stored.flags + (Handshake.ALL - {Handshake.Kind.PluginsConfig})
            && after.stored.config == c.stored.config
  {
    hide FullEnv, SameServices, Settled, Coherent, AfterCall, ChangesMap;
    FailedSaveAnnouncesNothing(c, first, oracle);
    assert Reaches(first.db) by { ChangingReaches(c, first, oracle); }
    ApplySettlesCall(c, first, oracle);
    MapAfterCall(c, first, oracle);
    SettledRaisesAll(AfterCall(c, first, oracle), again, first.request, oracle);
  }

  lemma ChangingReaches(c: Cache, call: Call, oracle: Oracle)
    requires ChangesMap(c, call, oracle)
    ensures Reaches(call.db)
  {
    hide FullEnv, SameServices;
  }

  lemma SettledRaisesAll(c: Cache, call: Call, r: Request, oracle: Oracle)
    requires Settled(c, r, oracle) && Repeats(call, r) && Reaches(call.db) && call.db.raisesFlags
    ensures var after := AfterCall(c, call, oracle);
            && after.stored.flags == c.stored.flags + (Handshake.ALL - {Handshake.Kind.PluginsConfig})
            && after.stored.config == c.stored.config
  {
    hide FullEnv, SameServices;
  }
}
