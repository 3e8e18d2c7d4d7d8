/**
  The clean-up that follows an automatic restore of a job's cache directory: files the database
  does not know are unlinked and directories that end up empty are dropped, deepest paths first,
  except below (or merely spelled like) a path that was restored as a whole.
 */
module CachePrune {
  import opened Ordering


  /** The components of a path. */
  type Path = seq<string>

  datatype Node = File | Directory

  function Posix(p: Path): string {
    if p == [] then "" else Posix(p[..|p| - 1]) + "/" + p[|p| - 1]
  }

  predicate Below(q: Path, p: Path) {
    |p| < |q| && p <= q
  }

  predicate ChildOf(q: Path, p: Path) {
    |q| == |p| + 1 && p <= q
  }

  predicate Ignored(p: Path, ignored: set<string>) {
    exists d :: d in ignored && d <= Posix(p)
  }

  // ------------------------------------------------- what a restore leaves alone

  /** A row of the cache table; `done` tells whether writing or extracting it succeeded. */
  datatype Row =
    | Plain(path: Path, job: string, done: bool)
    | Archive(path: Path, extract: Path, job: string, done: bool)

  /** The directory that a row can shield: where a plain file lies, or where an archive is unpacked. */
  function DirectoryOf(row: Row): Path {
    match row
    case Plain(path, _, _) => if path == [] then [] else path[..|path| - 1]
    case Archive(_, extract, _, _) => extract
  }

  /** A plain file shields its directory once this job has restored it, an archive also if it is another job's. */
  predicate LeavesAlone(row: Row, job: string) {
    match row
    case Plain(path, owner, done) => path != [] && owner == job && done
    case Archive(_, _, owner, done) => owner != job || done
  }

  predicate Shields(row: Row, job: string, d: string) {
    LeavesAlone(row, job) && d == Posix(DirectoryOf(row))
  }

  ghost predicate Shielded(rows: seq<Row>, job: string, d: string) {
    exists r :: r in rows && Shields(r, job, d)
  }

  lemma ShieldedByOneMore(rows: seq<Row>, row: Row, job: string, d: string)
    ensures Shielded(rows + [row], job, d) <==> Shielded(rows, job, d) || Shields(row, job, d)
  {
    if Shields(row, job, d) { assert row in rows + [row]; }
    if r :| r in rows && Shields(r, job, d) { assert r in rows + [row]; }
  }

  /** The row is a file of this job that was written, or an archive of this job that was unpacked, or another job's. */
  lemma ShieldedIff(rows: seq<Row>, job: string, d: string)
    requires forall r :: r in rows ==> r.path != []
    ensures Shielded(rows, job, d)
            <==> || (exists r :: r in rows && r.Plain? && r.job == job && r.done && Posix(r.path[..|r.path| - 1]) == d)
                 || (exists r :: r in rows && r.Archive? && r.job == job && r.done && Posix(r.extract) == d)
                 || (exists r :: r in rows && r.Archive? && r.job != job && Posix(r.extract) == d)
  {
    hide Posix;
    if r :| r in rows && Shields(r, job, d) { assert r.path != []; }
    if r :| r in rows && r.Plain? && r.job == job && r.done && Posix(r.path[..|r.path| - 1]) == d {
      assert Shields(r, job, d);
    }
    if r :| r in rows && r.Archive? && (r.job != job || r.done) && Posix(r.extract) == d { assert Shields(r, job, d); }
  }

  /** The loop over the rows: which paths count as cached, and which prefixes are left alone. */
  method Restore(rows: seq<Row>, job: string) returns (cached: set<Path>, ignored: set<string>)
    requires forall r :: r in rows ==> r.path != []
    ensures forall p :: p in cached <==> exists r :: r in rows && r.path == p
    ensures forall d :: d in ignored <==> Shielded(rows, job, d)
  {
    cached, ignored := {}, {};
    for k := 0 to |rows|
      invariant forall p :: p in cached <==> exists r :: r in rows[..k] && r.path == p
      invariant forall d :: d in ignored <==> Shielded(rows[..k], job, d)
    {
      var row := rows[k];
      assert rows[..k + 1] == rows[..k] + [row];
      cached := cached + {row.path};
      match row {
      case Archive(_, extract, owner, done) =>
        if owner != job {
          ignored := ignored + {Posix(extract)};
        } else if done {
          ignored := ignored + {Posix(extract)};
        }
      case Plain(path, owner, done) =>
        if owner == job && done {
          ignored := ignored + {Posix(path[..|path| - 1])};
        }
      }
      forall d ensures d in ignored <==> Shielded(rows[..k + 1], job, d) {
        ShieldedByOneMore(rows[..k], row, job, d);
      }
    }
    assert rows[..|rows|] == rows;
  }

  // ------------------------------------------------------------------ the sweep

  /** What one clean-up goes by. */
  datatype Rules = Rules(root: Path, cached: set<Path>, ignored: set<string>)

  /** One visit of the loop body. */
  function Visit(tree: map<Path, Node>, rules: Rules, p: Path): map<Path, Node> {
    if Ignored(p, rules.ignored) || p !in tree then tree
    else if tree[p].File? && p !in rules.cached then tree - {p}
    else if tree[p].Directory? && p != rules.root && !(exists q :: q in tree && ChildOf(q, p)) then tree - {p}
    else tree
  }

  function Sweep(tree: map<Path, Node>, rules: Rules, order: seq<Path>): map<Path, Node> {
    if order == [] then tree
    else Visit(Sweep(tree, rules, order[..|order| - 1]), rules, order[|order| - 1])
  }

  predicate DeepestFirst(order: seq<Path>) {
    forall i, j :: 0 <= i < j < |order| ==> |order[i]| >= |order[j]|
  }

  predicate AtLeastAsDeep(p: Path, q: Path) {
    |p| >= |q|
  }

  function SortByDepth(listing: seq<Path>): seq<Path> {
    Sort(AtLeastAsDeep, listing)
  }

  /** Sorting by depth is a permutation of the listing in which deeper paths come first. */
  lemma SortedByDepth(listing: seq<Path>)
    ensures DeepestFirst(SortByDepth(listing)) && multiset(SortByDepth(listing)) == multiset(listing)
  {
    SortSorts(AtLeastAsDeep, listing);
    var order := SortByDepth(listing);
    assert forall i, j :: 0 <= i < j < |order| ==> AtLeastAsDeep(order[i], order[j]);
  }

  lemma SortKeepsMembers(listing: seq<Path>, q: Path)
    ensures q in SortByDepth(listing) <==> q in listing
  {
    SortedByDepth(listing);
    assert q in SortByDepth(listing) <==> q in multiset(SortByDepth(listing));
    assert q in listing <==> q in multiset(listing);
  }

  lemma SweepOneMore(tree: map<Path, Node>, rules: Rules, order: seq<Path>, k: nat)
    requires k < |order|
    ensures Sweep(tree, rules, order[..k + 1]) == Visit(Sweep(tree, rules, order[..k]), rules, order[k])
  {
    assert order[..k + 1][..k] == order[..k];
  }

  /** The directory tree of one job; `tree` holds the root and everything under it. */
  class JobCache {
    const root: Path
    var tree: map<Path, Node>

    constructor (root: Path, tree: map<Path, Node>)
      ensures this.root == root && this.tree == tree
    {
      this.root := root;
      this.tree := tree;
    }

    /** The clean-up loop, for any listing of what lies under the root. */
    method Prune(listing: seq<Path>, cached: set<Path>, ignored: set<string>)
      modifies this
      ensures tree == Sweep(old(tree), Rules(root, cached, ignored), SortByDepth(listing))
    {
      hide SortByDepth, Ignored;
      var order := SortByDepth(listing);
      for k := 0 to |order|
        invariant tree == Sweep(old(tree), Rules(root, cached, ignored), order[..k])
      {
        var file := order[k];
        SweepOneMore(old(tree), Rules(root, cached, ignored), order, k);
        if Ignored(file, ignored) {
          continue;
        }
        if file in tree && tree[file].File? && file !in cached {
          tree := tree - {file};
        } else if file in tree && tree[file].Directory? && file != root
                  && !(exists q :: q in tree && ChildOf(q, file)) {
          tree := tree - {file};
        }
      }
      assert order[..|order|] == order;
    }
  }

  // ---------------------------------------------------------------- the results

  /** Every entry but the root lies under the root, inside a directory that is listed as well. */
  ghost predicate WellFormed(tree: map<Path, Node>, root: Path) {
    && root in tree && tree[root].Directory?
    && (forall q :: q in tree ==> root <= q)
    && (forall q, n :: q in tree && |root| <= n < |q| ==> q[..n] in tree && tree[q[..n]].Directory?)
  }

  /** What the loop must never touch for its own sake. */
  predicate Anchored(tree: map<Path, Node>, rules: Rules, p: Path) {
    p in tree && (Ignored(p, rules.ignored) || (tree[p].File? && p in rules.cached))
  }

  /** A path outlives the clean-up if it is the root, is anchored, or leads to something anchored. */
  ghost predicate Survives(tree: map<Path, Node>, rules: Rules, p: Path) {
    && p in tree
    && (|| p == rules.root
        || Anchored(tree, rules, p)
        || (tree[p].Directory? && exists q :: Below(q, p) && Anchored(tree, rules, q)))
  }

  /** The listing that `rglob` returns: everything but the root, in any order, each path once. */
  ghost predicate Lists(listing: seq<Path>, tree: map<Path, Node>, root: Path) {
    && (forall p :: p in listing <==> p in tree && p != root)
    && (forall i, j :: 0 <= i < j < |listing| ==> listing[i] != listing[j])
  }

  /** The paths still in the tree after visiting a set of paths that is closed downwards. */
  ghost predicate SweptSoFar(tree: map<Path, Node>, now: map<Path, Node>, rules: Rules, seen: seq<Path>) {
    && (forall p :: p in now <==> p in tree && (p !in seen || Survives(tree, rules, p)))
    && (forall p :: p in now ==> now[p] == tree[p])
  }

  lemma ChildTowards(tree: map<Path, Node>, root: Path, p: Path, q: Path)
    requires WellFormed(tree, root) && p in tree && q in tree && Below(q, p)
    ensures var c := q[..|p| + 1];
            c in tree && ChildOf(c, p) && c != root && (c == q || (tree[c].Directory? && Below(q, c)))
  {
    var c := q[..|p| + 1];
    assert p == q[..|p|] == c[..|p|];
    assert root <= p;
    if c != q { assert |c| < |q|; }
  }

  lemma EmptyIffUnanchored(tree: map<Path, Node>, now: map<Path, Node>, rules: Rules, seen: seq<Path>, p: Path)
    requires WellFormed(tree, rules.root) && SweptSoFar(tree, now, rules, seen)
    requires p in tree && (forall q :: q in tree && Below(q, p) ==> q in seen)
    ensures (exists c :: c in now && ChildOf(c, p)) <==> (exists q :: Below(q, p) && Anchored(tree, rules, q))
  {
    if c :| c in now && ChildOf(c, p) {
      assert Below(c, p) && c in seen;
      assert Survives(tree, rules, c);
      if !Anchored(tree, rules, c) {
        assert rules.root <= p && c != rules.root;
        var q :| Below(q, c) && Anchored(tree, rules, q);
        assert q[..|p|] == c[..|p|] == p;
        assert Below(q, p);
      }
    }
    if q :| Below(q, p) && Anchored(tree, rules, q) {
      ChildTowards(tree, rules.root, p, q);
      var c := q[..|p| + 1];
      assert Below(c, p);
      assert Survives(tree, rules, c);
    }
  }

  lemma VisitKeepsSurvivors(tree: map<Path, Node>, now: map<Path, Node>, rules: Rules, seen: seq<Path>, p: Path)
    requires WellFormed(tree, rules.root) && SweptSoFar(tree, now, rules, seen)
    requires p in tree && p != rules.root && p !in seen && (forall q :: q in tree && Below(q, p) ==> q in seen)
    ensures SweptSoFar(tree, Visit(now, rules, p), rules, seen + [p])
  {
    EmptyIffUnanchored(tree, now, rules, seen, p);
    var after := Visit(now, rules, p);
    assert p in after <==> Survives(tree, rules, p);
  }

  /** Each path comes once, and after everything below it. */
  ghost predicate ContentsFirst(tree: map<Path, Node>, root: Path, order: seq<Path>) {
    forall k :: 0 <= k < |order| ==> ReadyAt(tree, root, order, k)
  }

  ghost predicate ReadyAt(tree: map<Path, Node>, root: Path, order: seq<Path>, k: nat)
    requires k < |order|
  {
    && order[k] in tree && order[k] != root && order[k] !in order[..k]
    && (forall q :: q in tree && Below(q, order[k]) ==> q in order[..k])
  }

  /** Visiting every path after all paths below it keeps exactly the survivors. */
  lemma {:induction false} SweepKeepsSurvivors(tree: map<Path, Node>, rules: Rules, order: seq<Path>)
    requires WellFormed(tree, rules.root) && ContentsFirst(tree, rules.root, order)
    ensures SweptSoFar(tree, Sweep(tree, rules, order), rules, order)
  {
    if order != [] {
      hide Visit, SweptSoFar, WellFormed;
      var k := |order| - 1;
      var before := order[..k];
      forall j | 0 <= j < |before| ensures ReadyAt(tree, rules.root, before, j) {
        assert ReadyAt(tree, rules.root, order, j);
        assert before[..j] == order[..j];
      }
      SweepKeepsSurvivors(tree, rules, before);
      assert ReadyAt(tree, rules.root, order, k);
      VisitKeepsSurvivors(tree, Sweep(tree, rules, before), rules, before, order[k]);
      assert order == before + [order[k]];
    }
  }

  lemma {:induction false} AtMostOnce(a: seq<Path>, x: Path)
    requires forall i, j :: 0 <= i < j < |a| ==> a[i] != a[j]
    ensures multiset(a)[x] <= 1
  {
    if a != [] {
      assert a == [a[0]] + a[1..];
      forall i, j | 0 <= i < j < |a[1..]| ensures a[1..][i] != a[1..][j] { assert a[i + 1] != a[j + 1]; }
      AtMostOnce(a[1..], x);
      if a[0] == x {
        forall j | 0 <= j < |a[1..]| ensures a[1..][j] != x { assert a[0] != a[j + 1]; }
        assert x !in a[1..];
      }
    }
  }

  lemma NoRepeats(a: seq<Path>, order: seq<Path>, k: nat)
    requires forall i, j :: 0 <= i < j < |a| ==> a[i] != a[j]
    requires multiset(a) == multiset(order) && k < |order|
    ensures order[k] !in order[..k]
  {
    AtMostOnce(a, order[k]);
    assert order == order[..k] + ([order[k]] + order[k + 1..]);
    assert multiset(order) == multiset(order[..k]) + multiset([order[k]] + order[k + 1..]);
  }

  lemma DeepestFirstIsContentsFirst(tree: map<Path, Node>, root: Path, listing: seq<Path>)
    requires WellFormed(tree, root) && Lists(listing, tree, root)
    ensures ContentsFirst(tree, root, SortByDepth(listing))
  {
    hide SortByDepth;
    var order := SortByDepth(listing);
    SortedByDepth(listing);
    forall q ensures q in order <==> q in listing {
      SortKeepsMembers(listing, q);
    }
    forall k | 0 <= k < |order| ensures ReadyAt(tree, root, order, k) {
      var p := order[k];
      assert p in order;
      NoRepeats(listing, order, k);
      forall q | q in tree && Below(q, p) ensures q in order[..k] {
        assert root <= p;
        assert q in order;
        var i :| 0 <= i < |order| && order[i] == q;
        assert i < k;
        assert order[..k][i] == q;
      }
    }
  }

  /**
    The deepest-first clean-up is complete and safe: what is left is exactly the root, the
    anchored paths and the directories that lead to an anchored path, all unchanged.
   */
  lemma PruneKeepsExactlySurvivors(tree: map<Path, Node>, rules: Rules, listing: seq<Path>)
    requires WellFormed(tree, rules.root) && Lists(listing, tree, rules.root)
    ensures var left := Sweep(tree, rules, SortByDepth(listing));
            && (forall p :: p in left <==> Survives(tree, rules, p))
            && (forall p :: p in left ==> left[p] == tree[p])
  {
    hide Sweep, SortByDepth, Anchored;
    DeepestFirstIsContentsFirst(tree, rules.root, listing);
    SweepKeepsSurvivors(tree, rules, SortByDepth(listing));
    forall p | p in tree && p != rules.root ensures p in SortByDepth(listing) {
      SortKeepsMembers(listing, p);
    }
  }

  /** The promises of the clean-up, read off what is left. */
  lemma PruneIsCompleteAndSafe(tree: map<Path, Node>, rules: Rules, listing: seq<Path>, p: Path)
    requires WellFormed(tree, rules.root) && Lists(listing, tree, rules.root) && p in tree
    ensures var left := Sweep(tree, rules, SortByDepth(listing));
            && (p == rules.root || Ignored(p, rules.ignored) || (tree[p].File? && p in rules.cached) ==> p in left)
            && (p in left && !Ignored(p, rules.ignored) && tree[p].File? ==> p in rules.cached)
            && (p in left && !Ignored(p, rules.ignored) && tree[p].Directory? && p != rules.root ==>
                  exists c :: c in left && ChildOf(c, p))
  {
    PruneKeepsExactlySurvivors(tree, rules, listing);
    if Survives(tree, rules, p) && !Ignored(p, rules.ignored) && tree[p].Directory? && p != rules.root {
      var q :| Below(q, p) && Anchored(tree, rules, q);
      ChildTowards(tree, rules.root, p, q);
      assert Survives(tree, rules, q[..|p| + 1]);
    }
  }

  lemma PruneKeepsTreeShape(tree: map<Path, Node>, left: map<Path, Node>, rules: Rules)
    requires WellFormed(tree, rules.root)
    requires forall p :: p in left <==> Survives(tree, rules, p)
    requires forall p :: p in left ==> p in tree && left[p] == tree[p]
    ensures WellFormed(left, rules.root)
  {
    var root := rules.root;
    forall q, n | q in left && |root| <= n < |q| ensures q[..n] in left && left[q[..n]].Directory? {
      assert root <= q && q != root;
      if Anchored(tree, rules, q) {
        assert Below(q, q[..n]);
      } else {
        var a :| Below(a, q) && Anchored(tree, rules, a);
        assert a[..n] == q[..n];
        assert Below(a, q[..n]);
      }
    }
  }

  lemma SurvivorsSurviveAgain(tree: map<Path, Node>, left: map<Path, Node>, rules: Rules, p: Path)
    requires forall q :: q in left <==> Survives(tree, rules, q)
    requires forall q :: q in left ==> q in tree && left[q] == tree[q]
    requires p in left
    ensures Survives(left, rules, p)
  {
    if p != rules.root && !Anchored(left, rules, p) {
      var a :| Below(a, p) && Anchored(tree, rules, a);
      assert Survives(tree, rules, a);
      assert Anchored(left, rules, a);
    }
  }

  /** Running the clean-up again removes nothing more. */
  lemma PruneIsIdempotent(tree: map<Path, Node>, rules: Rules, listing: seq<Path>, again: seq<Path>)
    requires WellFormed(tree, rules.root) && Lists(listing, tree, rules.root)
    requires Lists(again, Sweep(tree, rules, SortByDepth(listing)), rules.root)
    ensures var left := Sweep(tree, rules, SortByDepth(listing));
            WellFormed(left, rules.root) && Sweep(left, rules, SortByDepth(again)) == left
  {
    hide Sweep, SortByDepth, Anchored, Lists;
    var left := Sweep(tree, rules, SortByDepth(listing));
    PruneKeepsExactlySurvivors(tree, rules, listing);
    PruneKeepsTreeShape(tree, left, rules);
    PruneKeepsExactlySurvivors(left, rules, again);
    forall p | p in left ensures Survives(left, rules, p) {
      SurvivorsSurviveAgain(tree, left, rules, p);
    }
  }

  /** Visiting a directory before its contents leaves it behind empty: the order matters. */
  lemma ShallowFirstLeavesEmptyDirectory() returns (tree: map<Path, Node>, rules: Rules, order: seq<Path>)
    ensures WellFormed(tree, rules.root) && Lists(order, tree, rules.root)
    ensures var left := Sweep(tree, rules, order); ["c", "d"] in left && !Survives(tree, rules, ["c", "d"])
  {
    var root: Path, d: Path, f: Path := ["c"], ["c", "d"], ["c", "d", "f"];
    rules := Rules(root, {}, {});
    tree := map[root := Directory, d := Directory, f := File];
    order := [d, f];
    assert f[..1] == root && f[..2] == d && d[..1] == root;
    assert ChildOf(f, d);
    assert order[..1] == [d];
    var none: seq<Path> := [d][..0];
    assert Sweep(tree, rules, [d]) == Visit(tree, rules, d) == tree;
    assert Sweep(tree, rules, order) == Visit(tree, rules, f);
  }

  // --------------------------------------------- what the prefix test also shields

  lemma {:induction false} PosixOfExtension(p: Path, rest: Path)
    ensures Posix(p) <= Posix(p + rest)
  {
    if rest == [] {
      assert p + rest == p;
    } else {
      var n := |rest| - 1;
      PosixOfExtension(p, rest[..n]);
      assert (p + rest)[..|p + rest| - 1] == p + rest[..n];
    }
  }

  /** Whatever lies below an ignored path is ignored too. */
  lemma IgnoredGoesDown(p: Path, q: Path, ignored: set<string>)
    requires Ignored(p, ignored) && p <= q
    ensures Ignored(q, ignored)
  {
    PosixOfExtension(p, q[|p|..]);
    assert p + q[|p|..] == q;
  }
}
