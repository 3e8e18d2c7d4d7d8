/**
  The clean-up of the job cache tells restored paths from others by comparing text.  Which paths
  that test spares, when it spares just the restored ones, and when it spares everything.
 */
module PrefixTest {
  import opened CachePrune

  // ------------------------------------------------------------------ paths as text

  predicate SlashFree(s: string) {
    forall i :: 0 <= i < |s| ==> s[i] != '/'
  }

  predicate IsPath(p: Path) {
    forall i :: 0 <= i < |p| ==> SlashFree(p[i])
  }

  /** The same text, written from the first component on. */
  function FromFront(p: Path): string {
    if p == [] then "" else ("/" + p[0]) + FromFront(p[1..])
  }

  lemma {:induction false} FrontOfExtended(p: Path, c: string)
    ensures FromFront(p + [c]) == FromFront(p) + ("/" + c)
  {
    if p == [] {
      assert ([] + [c])[1..] == [];
    } else {
      FrontOfExtended(p[1..], c);
      assert (p + [c])[1..] == p[1..] + [c];
    }
  }

  lemma {:induction false} PosixIsFromFront(p: Path)
    ensures Posix(p) == FromFront(p)
  {
    if p != [] {
      var last := |p| - 1;
      PosixIsFromFront(p[..last]);
      FrontOfExtended(p[..last], p[last]);
      assert p == p[..last] + [p[last]];
    }
  }

  predicate EmptyOrSlash(s: string) {
    s == "" || s[0] == '/'
  }

  lemma FrontStartsWithSlash(p: Path)
    ensures EmptyOrSlash(FromFront(p)) && (FromFront(p) == "" <==> p == [])
  {
  }

  lemma ComponentAlone(a: string, b: string, rest: string)
    requires SlashFree(a) && EmptyOrSlash(rest)
    ensures "/" + a <= ("/" + b) + rest <==> a <= b
  {
    var text := ("/" + b) + rest;
    if a <= b {
      assert "/" + a <= "/" + b;
    }
    if "/" + a <= text {
      assert forall i :: 0 <= i < |a| ==> text[i + 1] == a[i];
      assert forall i :: 1 <= i <= |a| ==> text[i] != '/';
      assert |b| + 1 < |text| ==> text[|b| + 1] == '/';
      assert |a| <= |b|;
      assert forall i :: 0 <= i < |a| ==> a[i] == b[i];
    }
  }

  lemma ComponentAndMore(a: string, more: string, b: string, rest: string)
    requires SlashFree(a) && SlashFree(b) && EmptyOrSlash(rest) && more != "" && more[0] == '/'
    ensures ("/" + a) + more <= ("/" + b) + rest <==> a == b && more <= rest
  {
    var left, text := ("/" + a) + more, ("/" + b) + rest;
    if left <= text {
      assert forall i :: 0 <= i < |left| ==> left[i] == text[i];
      assert left[|a| + 1] == '/';
      assert forall i :: 1 <= i <= |a| ==> left[i] != '/';
      assert forall i :: 1 <= i <= |b| ==> text[i] != '/';
      assert |b| + 1 < |text| ==> text[|b| + 1] == '/';
      assert |a| == |b|;
      assert forall i :: 0 <= i < |a| ==> a[i] == left[i + 1] && b[i] == text[i + 1];
      assert more == left[|a| + 1..] && rest == text[|a| + 1..];
    }
  }

  /** A component list that differs from the start of `p` only in that its last component is the start of `p`'s. */
  predicate LongerSibling(d: Path, p: Path) {
    && d != [] && |d| <= |p|
    && d[..|d| - 1] == p[..|d| - 1]
    && d[|d| - 1] < p[|d| - 1]
  }

  lemma LongerSiblingTail(d: Path, p: Path)
    requires |d| > 1 && p != []
    ensures (d <= p || LongerSibling(d, p)) <==> d[0] == p[0] && (d[1..] <= p[1..] || LongerSibling(d[1..], p[1..]))
  {
    var e, q := d[1..], p[1..];
    if |d| <= |p| {
      assert d[..|d| - 1] == [d[0]] + e[..|e| - 1] && p[..|d| - 1] == [p[0]] + q[..|e| - 1];
      assert d == [d[0]] + e && p == [p[0]] + q;
    }
  }

  /** The text of a path is the start of another one's exactly for what lies at or below it and for longer siblings. */
  lemma {:induction false} PrefixTestIff(d: Path, p: Path)
    requires IsPath(d) && IsPath(p)
    ensures Posix(d) <= Posix(p) <==> d <= p || LongerSibling(d, p)
  {
    PosixIsFromFront(d);
    PosixIsFromFront(p);
    FrontPrefixIff(d, p);
  }

  lemma {:induction false} FrontPrefixIff(d: Path, p: Path)
    requires IsPath(d) && IsPath(p)
    ensures FromFront(d) <= FromFront(p) <==> d <= p || LongerSibling(d, p)
  {
    if d != [] && p != [] {
      FrontStartsWithSlash(p[1..]);
      FrontStartsWithSlash(d[1..]);
      if |d| == 1 {
        ComponentAlone(d[0], p[0], FromFront(p[1..]));
        assert FromFront(d) == "/" + d[0];
        assert d[..0] == p[..0];
        assert d <= p <==> d[0] == p[0] by { assert d == [d[0]]; }
      } else {
        ComponentAndMore(d[0], FromFront(d[1..]), p[0], FromFront(p[1..]));
        FrontPrefixIff(d[1..], p[1..]);
        LongerSiblingTail(d, p);
      }
    }
  }

  // ------------------------------------------------------------------ what was restored

  /** The directories that a restore has seen to. */
  ghost predicate Restored(rows: seq<Row>, job: string, d: Path) {
    exists r :: r in rows && LeavesAlone(r, job) && DirectoryOf(r) == d
  }

  /** The ignored prefixes are those of the restored directories. */
  lemma ShieldedAreRestored(rows: seq<Row>, job: string, text: string)
    ensures Shielded(rows, job, text) <==> exists d :: Restored(rows, job, d) && Posix(d) == text
  {
    if r :| r in rows && Shields(r, job, text) {
      assert Restored(rows, job, DirectoryOf(r));
    }
    if d :| Restored(rows, job, d) && Posix(d) == text {
      var r :| r in rows && LeavesAlone(r, job) && DirectoryOf(r) == d;
      assert Shields(r, job, text);
    }
  }

  /** A clean-up by the rows of a restore, over a tree of proper paths. */
  ghost predicate Follows(rules: Rules, rows: seq<Row>, job: string, tree: map<Path, Node>) {
    && (forall text :: text in rules.ignored <==> Shielded(rows, job, text))
    && (forall p :: p in tree ==> IsPath(p))
    && (forall r :: r in rows ==> IsPath(DirectoryOf(r)))
  }

  lemma IgnoredIff(rules: Rules, rows: seq<Row>, job: string, tree: map<Path, Node>, p: Path)
    requires Follows(rules, rows, job, tree) && p in tree
    ensures Ignored(p, rules.ignored) <==> exists d :: Restored(rows, job, d) && (d <= p || LongerSibling(d, p))
  {
    hide Posix, Restored, LongerSibling, Shielded;
    if text :| text in rules.ignored && text <= Posix(p) {
      ShieldedAreRestored(rows, job, text);
      var d :| Restored(rows, job, d) && Posix(d) == text;
      RestoredArePaths(rules, rows, job, tree, d);
      PrefixTestIff(d, p);
    }
    if d :| Restored(rows, job, d) && (d <= p || LongerSibling(d, p)) {
      RestoredArePaths(rules, rows, job, tree, d);
      PrefixTestIff(d, p);
      ShieldedAreRestored(rows, job, Posix(d));
    }
  }

  lemma RestoredArePaths(rules: Rules, rows: seq<Row>, job: string, tree: map<Path, Node>, d: Path)
    requires Follows(rules, rows, job, tree) && Restored(rows, job, d)
    ensures IsPath(d)
  {
  }

  // ------------------------------------------------------------------ sparing just what was restored

  /** A cached file, or something in a restored directory. */
  ghost predicate Kept(tree: map<Path, Node>, rules: Rules, rows: seq<Row>, job: string, q: Path) {
    q in tree && ((tree[q].File? && q in rules.cached) || exists d :: Restored(rows, job, d) && d <= q)
  }

  /** What the clean-up is meant to leave: the root, what is kept, and the directories on the way to it. */
  ghost predicate Meant(tree: map<Path, Node>, rules: Rules, rows: seq<Row>, job: string, p: Path) {
    p in tree && (p == rules.root || exists q :: p <= q && Kept(tree, rules, rows, job, q))
  }

  /** No path is spared only because its name starts like that of a restored directory. */
  ghost predicate NoStrayShield(tree: map<Path, Node>, rules: Rules, rows: seq<Row>, job: string) {
    forall q, d :: q in tree && Restored(rows, job, d) && LongerSibling(d, q) ==> Meant(tree, rules, rows, job, q)
  }

  lemma AnchoredIff(tree: map<Path, Node>, rules: Rules, rows: seq<Row>, job: string, q: Path)
    requires Follows(rules, rows, job, tree)
    ensures Anchored(tree, rules, q)
            <==> Kept(tree, rules, rows, job, q)
                 || (q in tree && exists d :: Restored(rows, job, d) && LongerSibling(d, q))
  {
    hide Restored, LongerSibling, Ignored, Follows;
    if q in tree { IgnoredIff(rules, rows, job, tree, q); }
  }

  lemma MeantSurvive(tree: map<Path, Node>, rules: Rules, rows: seq<Row>, job: string, p: Path)
    requires WellFormed(tree, rules.root) && Follows(rules, rows, job, tree) && Meant(tree, rules, rows, job, p)
    ensures Survives(tree, rules, p)
  {
    hide Restored, LongerSibling, Ignored, Follows, Kept;
    if p != rules.root {
      var q :| p <= q && Kept(tree, rules, rows, job, q);
      AnchoredIff(tree, rules, rows, job, q);
      if q != p {
        assert q[..|p|] == p;
        assert rules.root <= p;
        assert Below(q, p);
      }
    }
  }

  lemma PrefixOfPrefix(p: Path, q: Path, r: Path)
    requires p <= q && q <= r
    ensures p <= r
  {
    assert r[..|q|] == q && q[..|p|] == p;
  }

  /** What leads to something that is meant to be left is meant to be left itself. */
  lemma MeantGoesUp(tree: map<Path, Node>, rules: Rules, rows: seq<Row>, job: string, p: Path, q: Path)
    requires WellFormed(tree, rules.root) && p in tree && p <= q && Meant(tree, rules, rows, job, q)
    ensures Meant(tree, rules, rows, job, p)
  {
    hide Kept;
    assert rules.root <= p;
    if q != rules.root {
      var r :| q <= r && Kept(tree, rules, rows, job, r);
      PrefixOfPrefix(p, q, r);
    }
  }

  lemma SurvivorsAreMeant(tree: map<Path, Node>, rules: Rules, rows: seq<Row>, job: string, p: Path)
    requires WellFormed(tree, rules.root) && Follows(rules, rows, job, tree)
    requires NoStrayShield(tree, rules, rows, job) && Survives(tree, rules, p)
    ensures Meant(tree, rules, rows, job, p)
  {
    hide Restored, LongerSibling, Ignored, Follows, Kept, Anchored;
    if p != rules.root {
      var q: Path := if Anchored(tree, rules, p) then p else (var q :| Below(q, p) && Anchored(tree, rules, q); q);
      AnchoredIff(tree, rules, rows, job, q);
      MeantWhenKept(tree, rules, rows, job, q);
      MeantGoesUp(tree, rules, rows, job, p, q);
    }
  }

  lemma MeantWhenKept(tree: map<Path, Node>, rules: Rules, rows: seq<Row>, job: string, q: Path)
    requires Kept(tree, rules, rows, job, q)
             || (NoStrayShield(tree, rules, rows, job) && q in tree
                 && exists d :: Restored(rows, job, d) && LongerSibling(d, q))
    ensures Meant(tree, rules, rows, job, q)
  {
  }

  /**
    The clean-up leaves exactly what it is meant to leave if and only if every longer sibling of a
    restored directory is to be left anyway.
   */
  lemma SparesJustTheRestoredIff(tree: map<Path, Node>, rules: Rules, rows: seq<Row>, job: string, listing: seq<Path>)
    requires WellFormed(tree, rules.root) && Lists(listing, tree, rules.root) && Follows(rules, rows, job, tree)
    ensures (forall p :: p in Sweep(tree, rules, SortByDepth(listing)) <==> Meant(tree, rules, rows, job, p))
            <==> NoStrayShield(tree, rules, rows, job)
  {
    hide Sweep, SortByDepth, Follows, Restored, LongerSibling, Ignored, Kept, Meant, WellFormed, Survives;
    var left := Sweep(tree, rules, SortByDepth(listing));
    PruneKeepsExactlySurvivors(tree, rules, listing);
    forall p | Meant(tree, rules, rows, job, p) ensures p in left {
      MeantSurvive(tree, rules, rows, job, p);
    }
    if NoStrayShield(tree, rules, rows, job) {
      forall p | p in left ensures Meant(tree, rules, rows, job, p) {
        SurvivorsAreMeant(tree, rules, rows, job, p);
      }
    }
    forall q, d | q in tree && Restored(rows, job, d) && LongerSibling(d, q) ensures q in left {
      AnchoredIff(tree, rules, rows, job, q);
      assert Survives(tree, rules, q) by { AnchoredSurvive(tree, rules, q); }
    }
  }

  lemma AnchoredSurvive(tree: map<Path, Node>, rules: Rules, q: Path)
    requires Anchored(tree, rules, q)
    ensures Survives(tree, rules, q)
  {
  }

  // ------------------------------------------------------------------ sparing everything

  ghost predicate HasChild(tree: map<Path, Node>, p: Path) {
    exists c :: c in tree && ChildOf(c, p)
  }

  /** Every uncached file and every empty directory is ignored. */
  ghost predicate NothingToRemove(tree: map<Path, Node>, rules: Rules) {
    forall p :: p in tree && p != rules.root && !Ignored(p, rules.ignored) ==>
      if tree[p].File? then p in rules.cached else HasChild(tree, p)
  }

  ghost predicate IsDeepest(paths: set<Path>, p: Path) {
    p in paths && forall q :: q in paths ==> |q| <= |p|
  }

  lemma {:induction false} SomeDeepest(paths: set<Path>)
    requires paths != {}
    ensures exists p :: IsDeepest(paths, p)
  {
    var x :| x in paths;
    var rest := paths - {x};
    if rest == {} {
      assert paths == {x};
      assert IsDeepest(paths, x);
    } else {
      SomeDeepest(rest);
      var y :| IsDeepest(rest, y);
      var p := if |x| >= |y| then x else y;
      forall q | q in paths ensures |q| <= |p| {
        assert q == x || q in rest;
      }
      assert IsDeepest(paths, p);
    }
  }

  /** With nothing to remove every path leads to something anchored. */
  lemma LeadsToAnchored(tree: map<Path, Node>, rules: Rules, p: Path)
    requires WellFormed(tree, rules.root) && NothingToRemove(tree, rules) && p in tree && p != rules.root
    ensures Survives(tree, rules, p)
  {
    hide Ignored;
    var below := set q | q in tree && p <= q;
    assert p in below;
    SomeDeepest(below);
    var q :| IsDeepest(below, q);
    assert rules.root <= p;
    forall c | ChildOf(c, q) ensures p <= c { PrefixOfPrefix(p, q, c); }
    assert !HasChild(tree, q);
    assert Anchored(tree, rules, q);
    if q != p {
      assert q[..|p|] == p;
      assert tree[p].Directory?;
    }
  }

  /** The clean-up removes nothing if and only if every uncached file and every empty directory is ignored. */
  lemma RemovesNothingIff(tree: map<Path, Node>, rules: Rules, listing: seq<Path>)
    requires WellFormed(tree, rules.root) && Lists(listing, tree, rules.root)
    ensures Sweep(tree, rules, SortByDepth(listing)) == tree <==> NothingToRemove(tree, rules)
  {
    hide Sweep, SortByDepth, Ignored;
    var left := Sweep(tree, rules, SortByDepth(listing));
    PruneKeepsExactlySurvivors(tree, rules, listing);
    if NothingToRemove(tree, rules) {
      forall p | p in tree ensures p in left {
        if p != rules.root { LeadsToAnchored(tree, rules, p); }
      }
    }
    if left == tree {
      forall p | p in tree && p != rules.root && !Ignored(p, rules.ignored)
        ensures if tree[p].File? then p in rules.cached else HasChild(tree, p)
      {
        if !Anchored(tree, rules, p) {
          var q :| Below(q, p) && Anchored(tree, rules, q);
          ChildTowards(tree, rules.root, p, q);
          assert HasChild(tree, p);
        }
      }
    }
  }

  /**
    For restores under the root: they make the clean-up ignore the root, and with it everything,
    if and only if something was restored directly under the root.
   */
  lemma RootIsIgnoredIff(tree: map<Path, Node>, rules: Rules, rows: seq<Row>, job: string)
    requires WellFormed(tree, rules.root) && Follows(rules, rows, job, tree)
    requires forall d :: Restored(rows, job, d) ==> rules.root <= d
    ensures Ignored(rules.root, rules.ignored) <==> Restored(rows, job, rules.root)
    ensures Ignored(rules.root, rules.ignored) ==> forall p :: p in tree ==> Ignored(p, rules.ignored)
  {
    hide Restored, Ignored, Follows;
    IgnoredIff(rules, rows, job, tree, rules.root);
    forall d | Restored(rows, job, d) && (d <= rules.root || LongerSibling(d, rules.root)) ensures d == rules.root {
      assert rules.root <= d && |d| <= |rules.root|;
    }
    if Ignored(rules.root, rules.ignored) {
      forall p | p in tree ensures Ignored(p, rules.ignored) { IgnoredGoesDown(rules.root, p, rules.ignored); }
    }
  }

  /** Restoring one plain file directly under the root therefore switches the whole clean-up off. */
  lemma TopLevelRestoreDisablesPrune(tree: map<Path, Node>, rules: Rules, rows: seq<Row>, job: string, row: Row,
                                     listing: seq<Path>)
    requires WellFormed(tree, rules.root) && Lists(listing, tree, rules.root) && Follows(rules, rows, job, tree)
    requires forall d :: Restored(rows, job, d) ==> rules.root <= d
    requires row in rows && row.Plain? && LeavesAlone(row, job) && ChildOf(row.path, rules.root)
    ensures Sweep(tree, rules, SortByDepth(listing)) == tree
  {
    hide Sweep, SortByDepth, Ignored, Follows;
    assert row.path[..|row.path| - 1] == rules.root;
    assert Restored(rows, job, rules.root);
    RootIsIgnoredIff(tree, rules, rows, job);
    RemovesNothingIff(tree, rules, listing);
  }
}
