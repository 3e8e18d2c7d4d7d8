/**
  One batch of scheduler jobs, run by a pool of threads.

  An asynchronous job is a task of its own; the other jobs of a plugin form one task and run
  one after the other.  The tasks share a verdict, a reload request and a list of failures.
  Each write is made under a lock, but a job that ended with a bad exit code first reads the
  verdict without the lock, and the read and the write that follows are separate steps.
 */
module JobBatch {

  /** How the module of a job can end. */
  datatype Outcome =
    | Returned        // ran to its end
    | Exit(code: int) // left through sys.exit with an integer
    | ExitOther       // left through sys.exit with anything else
    | Raised          // left through another exception

  datatype Job = Job(name: string, outcome: Outcome)

  /** A job as a plugin declares it. */
  datatype Declaration = Declaration(job: Job, async: bool)

  datatype Plugin = Plugin(id: string, jobs: seq<Declaration>)

  /** The exit code that the wrapper goes on with. */
  function Code(o: Outcome): int {
    match o
    case Returned => 1
    case Exit(code) => code
    case ExitOther => 1
    case Raised => -1
  }

  predicate Good(o: Outcome) {
    !o.Raised? && (Code(o) == 0 || Code(o) == 1)
  }

  // -------------------------------------------------------------- the task list

  predicate Selected(id: string, only: seq<string>, ignored: seq<string>) {
    !((only != [] && id !in only) || id in ignored)
  }

  function Synchronous(jobs: seq<Declaration>): seq<Job> {
    if jobs == [] then []
    else (if jobs[0].async then [] else [jobs[0].job]) + Synchronous(jobs[1..])
  }

  function Asynchronous(jobs: seq<Declaration>): seq<seq<Job>> {
    if jobs == [] then []
    else (if jobs[0].async then [[jobs[0].job]] else []) + Asynchronous(jobs[1..])
  }

  function TasksOf(plugin: Plugin): seq<seq<Job>> {
    Asynchronous(plugin.jobs) + (if Synchronous(plugin.jobs) == [] then [] else [Synchronous(plugin.jobs)])
  }

  function Tasks(plugins: seq<Plugin>, only: seq<string>, ignored: seq<string>): seq<seq<Job>> {
    if plugins == [] then []
    else (if Selected(plugins[0].id, only, ignored) then TasksOf(plugins[0]) else [])
         + Tasks(plugins[1..], only, ignored)
  }

  lemma {:induction false} SynchronousPrefix(jobs: seq<Declaration>, k: nat)
    requires k < |jobs|
    ensures Synchronous(jobs[..k + 1]) == Synchronous(jobs[..k]) + (if jobs[k].async then [] else [jobs[k].job])
    ensures Asynchronous(jobs[..k + 1]) == Asynchronous(jobs[..k]) + (if jobs[k].async then [[jobs[k].job]] else [])
  {
    if k > 0 {
      SynchronousPrefix(jobs[1..], k - 1);
      assert jobs[..k + 1][1..] == jobs[1..][..k];
      assert jobs[..k][1..] == jobs[1..][..k - 1];
    }
  }

  lemma {:induction false} TasksPrefix(plugins: seq<Plugin>, only: seq<string>, ignored: seq<string>, k: nat)
    requires k < |plugins|
    ensures Tasks(plugins[..k + 1], only, ignored)
            == Tasks(plugins[..k], only, ignored)
               + (if Selected(plugins[k].id, only, ignored) then TasksOf(plugins[k]) else [])
  {
    if k > 0 {
      TasksPrefix(plugins[1..], only, ignored, k - 1);
      assert plugins[..k + 1][1..] == plugins[1..][..k];
      assert plugins[..k][1..] == plugins[1..][..k - 1];
    }
  }

  lemma NothingToRun(only: seq<string>, ignored: seq<string>)
    ensures Tasks([], only, ignored) == [] && Asynchronous([]) == [] && Synchronous([]) == []
  {
  }

  /** The loops of run_once that submit the jobs of the selected plugins to the pool. */
  method Submit(plugins: seq<Plugin>, only: seq<string>, ignored: seq<string>) returns (futures: seq<seq<Job>>)
    ensures futures == Tasks(plugins, only, ignored)
  {
    hide Asynchronous, Synchronous, Tasks;
    futures := [];
    NothingToRun(only, ignored);
    assert plugins[..0] == [];
    for p := 0 to |plugins|
      invariant futures == Tasks(plugins[..p], only, ignored)
    {
      TasksPrefix(plugins, only, ignored, p);
      if (only != [] && plugins[p].id !in only) || plugins[p].id in ignored {
        continue;
      }
      var jobs := plugins[p].jobs;
      var jobsToRun: seq<Job> := [];
      ghost var before := futures;
      assert jobs[..0] == [];
      for j := 0 to |jobs|
        invariant futures == before + Asynchronous(jobs[..j])
        invariant jobsToRun == Synchronous(jobs[..j])
      {
        SynchronousPrefix(jobs, j);
        if jobs[j].async {
          futures := futures + [[jobs[j].job]];
        } else {
          jobsToRun := jobsToRun + [jobs[j].job];
        }
      }
      assert jobs[..|jobs|] == jobs;
      if jobsToRun != [] {
        futures := futures + [jobsToRun];
      }
      assert futures == before + TasksOf(plugins[p]);
    }
    assert plugins[..|plugins|] == plugins;
  }

  function Flatten(tasks: seq<seq<Job>>): multiset<Job> {
    if tasks == [] then multiset{} else multiset(tasks[0]) + Flatten(tasks[1..])
  }

  function Declared(jobs: seq<Declaration>): multiset<Job> {
    if jobs == [] then multiset{} else multiset{jobs[0].job} + Declared(jobs[1..])
  }

  /** A plugin is wanted if it is not ignored, and is asked for where any are. */
  predicate Wanted(id: string, only: seq<string>, ignored: seq<string>) {
    id !in ignored && (only == [] || id in only)
  }

  function DeclaredByWanted(plugins: seq<Plugin>, only: seq<string>, ignored: seq<string>): multiset<Job> {
    if plugins == [] then multiset{}
    else (if Wanted(plugins[0].id, only, ignored) then Declared(plugins[0].jobs) else multiset{})
         + DeclaredByWanted(plugins[1..], only, ignored)
  }

  lemma {:induction false} FlattenConcat(a: seq<seq<Job>>, b: seq<seq<Job>>)
    ensures Flatten(a + b) == Flatten(a) + Flatten(b)
  {
    if a == [] {
      assert a + b == b;
    } else {
      assert (a + b)[1..] == a[1..] + b;
      FlattenConcat(a[1..], b);
    }
  }

  lemma MultisetOfPrepended(x: Job, rest: seq<Job>)
    ensures multiset([x] + rest) == multiset{x} + multiset(rest)
  {
  }

  lemma FirstTask(task: seq<Job>, rest: seq<seq<Job>>)
    ensures Flatten([task] + rest) == multiset(task) + Flatten(rest)
  {
    assert ([task] + rest)[1..] == rest;
  }

  lemma FirstDeclaration(d: Declaration, rest: seq<Declaration>)
    ensures Declared([d] + rest) == multiset{d.job} + Declared(rest)
    ensures Synchronous([d] + rest) == if d.async then Synchronous(rest) else [d.job] + Synchronous(rest)
    ensures Asynchronous([d] + rest) == if d.async then [[d.job]] + Asynchronous(rest) else Asynchronous(rest)
  {
    assert ([d] + rest)[1..] == rest;
  }

  lemma {:induction false} PluginTasksConserveJobs(jobs: seq<Declaration>)
    ensures Flatten(Asynchronous(jobs)) + multiset(Synchronous(jobs)) == Declared(jobs)
  {
    if jobs != [] {
      hide Flatten, Declared, Synchronous, Asynchronous;
      var d, rest := jobs[0], jobs[1..];
      assert jobs == [d] + rest;
      PluginTasksConserveJobs(rest);
      FirstDeclaration(d, rest);
      if d.async {
        FirstTask([d.job], Asynchronous(rest));
      } else {
        MultisetOfPrepended(d.job, Synchronous(rest));
      }
    }
  }

  /** Every job of a plugin that is wanted is submitted exactly once, and no other job. */
  lemma {:induction false} SubmissionConservesJobs(plugins: seq<Plugin>, only: seq<string>, ignored: seq<string>)
    ensures Flatten(Tasks(plugins, only, ignored)) == DeclaredByWanted(plugins, only, ignored)
  {
    if plugins != [] {
      SubmissionConservesJobs(plugins[1..], only, ignored);
      var head := if Selected(plugins[0].id, only, ignored) then TasksOf(plugins[0]) else [];
      FlattenConcat(head, Tasks(plugins[1..], only, ignored));
      var sync := Synchronous(plugins[0].jobs);
      FlattenConcat(Asynchronous(plugins[0].jobs), if sync == [] then [] else [sync]);
      PluginTasksConserveJobs(plugins[0].jobs);
      assert sync != [] ==> Flatten([sync]) == multiset(sync);
    }
  }

  /** The positions of the asynchronous jobs, or of the others, in the order of definition. */
  ghost predicate ArePositions(jobs: seq<Declaration>, async: bool, js: seq<nat>) {
    && (forall k :: 0 <= k < |js| ==> js[k] < |jobs| && jobs[js[k]].async == async)
    && (forall k, l :: 0 <= k < l < |js| ==> js[k] < js[l])
    && (forall j :: 0 <= j < |jobs| && jobs[j].async == async ==> j in js)
  }

  lemma {:induction false} PositionsOf(jobs: seq<Declaration>, async: bool, m: nat) returns (js: seq<nat>)
    requires m <= |jobs|
    ensures ArePositions(jobs[..m], async, js)
    ensures if async then |Asynchronous(jobs[..m])| == |js| else |Synchronous(jobs[..m])| == |js|
    ensures async ==> forall k :: 0 <= k < |js| ==> Asynchronous(jobs[..m])[k] == [jobs[js[k]].job]
    ensures !async ==> forall k :: 0 <= k < |js| ==> Synchronous(jobs[..m])[k] == jobs[js[k]].job
  {
    hide Asynchronous, Synchronous;
    if m == 0 {
      NothingToRun([], []);
      assert jobs[..0] == [];
      js := [];
    } else {
      js := PositionsOf(jobs, async, m - 1);
      SynchronousPrefix(jobs, m - 1);
      assert jobs[..m] == jobs[..m - 1] + [jobs[m - 1]];
      if jobs[m - 1].async == async {
        var before := js;
        js := js + [m - 1];
        forall j | 0 <= j < m && jobs[..m][j].async == async ensures j in js {
          if j < m - 1 { assert jobs[..m - 1][j].async == async && j in before; } else { assert js[|js| - 1] == j; }
        }
      }
    }
  }

  /**
    The tasks of a plugin: first one for each asynchronous job, then one for all the others, which
    run one after the other, each in the order of definition.
   */
  lemma TasksOfPlugin(plugin: Plugin) returns (asyncs: seq<nat>, syncs: seq<nat>)
    ensures ArePositions(plugin.jobs, true, asyncs) && ArePositions(plugin.jobs, false, syncs)
    ensures var tasks := TasksOf(plugin);
            && |tasks| == |asyncs| + (if syncs == [] then 0 else 1)
            && (forall k :: 0 <= k < |asyncs| ==> tasks[k] == [plugin.jobs[asyncs[k]].job])
            && (syncs != [] ==> |tasks[|asyncs|]| == |syncs|
                                && forall k :: 0 <= k < |syncs| ==> tasks[|asyncs|][k] == plugin.jobs[syncs[k]].job)
  {
    var jobs := plugin.jobs;
    assert jobs[..|jobs|] == jobs;
    asyncs := PositionsOf(jobs, true, |jobs|);
    syncs := PositionsOf(jobs, false, |jobs|);
  }

  // ------------------------------------------------------------ the threads

  /** Where the wrapper is with the current job of a task. */
  datatype Point =
    | Ready                // about to execute the job
    | Noting               // an exception was caught, wants the lock
    | Requesting           // exit code 1, wants the lock
    | Reading              // about to read the verdict, without the lock
    | Recording            // read a good verdict after a bad code, wants the lock

  datatype Thread = Thread(task: seq<Job>, at: nat, point: Point)

  /** Failures are listed by task and position, so that a listed job can be told from its namesakes. */
  datatype State = State(threads: seq<Thread>, success: bool, reload: bool, failed: seq<(nat, nat)>)

  predicate Enabled(s: State, i: nat) {
    i < |s.threads| && s.threads[i].at < |s.threads[i].task|
  }

  function Move(s: State, i: nat, p: Point): State
    requires i < |s.threads|
  {
    s.(threads := s.threads[i := s.threads[i].(point := p)])
  }

  function Finish(s: State, i: nat): State
    requires i < |s.threads|
  {
    s.(threads := s.threads[i := s.threads[i].(at := s.threads[i].at + 1, point := Ready)])
  }

  /** Task `i` takes its next step; which task that is decides the interleaving. */
  function Next(s: State, i: nat): State
    requires Enabled(s, i)
  {
    var t := s.threads[i];
    var outcome := t.task[t.at].outcome;
    match t.point
    case Ready => Move(s, i, if outcome.Raised? then Noting else if Code(outcome) == 1 then Requesting else Reading)
    case Noting => Move(s.(success := false, failed := s.failed + [(i, t.at)]), i, Reading)
    case Requesting => Move(s.(reload := true), i, Reading)
    case Reading =>
      if s.success && (Code(outcome) < 0 || Code(outcome) >= 2) then Move(s, i, Recording) else Finish(s, i)
    case Recording => Finish(s.(success := false, failed := s.failed + [(i, t.at)]), i)
  }

  function Start(tasks: seq<seq<Job>>): State {
    State(seq(|tasks|, i requires 0 <= i < |tasks| => Thread(tasks[i], 0, Ready)), true, false, [])
  }

  predicate Schedule(s: State, steps: seq<nat>)
    decreases |steps|
  {
    steps == [] || (Enabled(s, steps[0]) && Schedule(Next(s, steps[0]), steps[1..]))
  }

  function Execute(s: State, steps: seq<nat>): State
    requires Schedule(s, steps)
    decreases |steps|
  {
    if steps == [] then s else Execute(Next(s, steps[0]), steps[1..])
  }

  predicate AllDone(s: State) {
    forall i :: 0 <= i < |s.threads| ==> s.threads[i].at == |s.threads[i].task|
  }

  // ----------------------------------------------------------- the invariant

  predicate IsJob(s: State, i: nat, k: nat) {
    i < |s.threads| && k < |s.threads[i].task|
  }

  function OutcomeOf(s: State, i: nat, k: nat): Outcome
    requires IsJob(s, i, k)
  {
    s.threads[i].task[k].outcome
  }

  /** The job has gone through all its steps. */
  predicate Ended(s: State, i: nat, k: nat) {
    IsJob(s, i, k) && k < s.threads[i].at
  }

  /** The job has passed the step that lists it, if it has one. */
  predicate Listable(s: State, i: nat, k: nat) {
    Ended(s, i, k)
    || (IsJob(s, i, k) && k == s.threads[i].at && s.threads[i].point.Reading? && OutcomeOf(s, i, k).Raised?)
  }

  /** The job has passed the step that requests a reload, if it has one. */
  predicate Requestable(s: State, i: nat, k: nat) {
    Ended(s, i, k)
    || (IsJob(s, i, k) && k == s.threads[i].at && (s.threads[i].point.Reading? || s.threads[i].point.Recording?))
  }

  predicate PointFits(t: Thread) {
    && t.at <= |t.task|
    && (t.at == |t.task| ==> t.point.Ready?)
    && (t.at < |t.task| ==>
          var o := t.task[t.at].outcome;
          && (t.point.Noting? ==> o.Raised?)
          && (t.point.Requesting? ==> !o.Raised? && Code(o) == 1)
          && (t.point.Recording? ==> !Good(o) && !o.Raised?))
  }

  ghost predicate Listed(s: State, i: nat, k: nat) {
    (i, k) in s.failed
  }

  ghost predicate PointsFit(s: State) {
    forall i :: 0 <= i < |s.threads| ==> PointFits(s.threads[i])
  }

  ghost predicate VerdictRight(s: State) {
    && (s.success <==> s.failed == [])
    && (forall i: nat, k: nat :: Ended(s, i, k) && s.success ==> Good(OutcomeOf(s, i, k)))
  }

  ghost predicate ListSound(s: State) {
    && (forall i: nat, k: nat :: Listed(s, i, k) ==> Listable(s, i, k) && !Good(OutcomeOf(s, i, k)))
    && (forall a, b :: 0 <= a < b < |s.failed| ==> s.failed[a] != s.failed[b])
  }

  ghost predicate RaisedListed(s: State) {
    forall i: nat, k: nat :: Listable(s, i, k) && OutcomeOf(s, i, k).Raised? ==> Listed(s, i, k)
  }

  /** The job asks for a reload, and has reached the step that does so. */
  predicate Requested(s: State, i: nat, k: nat) {
    Requestable(s, i, k) && Code(OutcomeOf(s, i, k)) == 1
  }

  ghost predicate ReloadExact(s: State) {
    s.reload <==> exists i: nat, k: nat :: Requested(s, i, k)
  }

  ghost predicate Invariant(s: State) {
    PointsFit(s) && VerdictRight(s) && ListSound(s) && RaisedListed(s) && ReloadExact(s)
  }

  lemma StartInvariant(tasks: seq<seq<Job>>)
    ensures Invariant(Start(tasks))
  {
  }

  lemma RequestsStay(s: State, i: nat, j: nat, k: nat)
    requires PointsFit(s) && Enabled(s, i)
    ensures Requested(s, j, k) ==> Requested(Next(s, i), j, k)
    ensures Requested(Next(s, i), j, k) && !Requested(s, j, k) ==>
              j == i && k == s.threads[i].at && s.threads[i].point.Requesting?
  {
    assert PointFits(s.threads[i]);
    hide PointsFit;
    if j != i && j < |s.threads| { assert Next(s, i).threads[j] == s.threads[j]; }
  }

  lemma ReloadStaysExact(s: State, i: nat)
    requires PointsFit(s) && ReloadExact(s) && Enabled(s, i)
    ensures ReloadExact(Next(s, i))
  {
    var s' := Next(s, i);
    forall j: nat, k: nat ensures Requested(s, j, k) ==> Requested(s', j, k) { RequestsStay(s, i, j, k); }
    if s'.reload {
      if j: nat, k: nat :| Requested(s, j, k) {
        assert Requested(s', j, k);
      } else {
        assert Requested(s', i, s.threads[i].at);
      }
    }
    forall j: nat, k: nat | Requested(s', j, k) ensures s'.reload {
      RequestsStay(s, i, j, k);
    }
  }

  lemma ListGrowsByCurrentJob(s: State, i: nat)
    requires PointsFit(s) && Enabled(s, i)
    ensures var s', k := Next(s, i), s.threads[i].at;
            || s'.failed == s.failed
            || (&& s'.failed == s.failed + [(i, k)]
                && !Listable(s, i, k) && Listable(s', i, k) && !Good(OutcomeOf(s', i, k)))
  {
    assert PointFits(s.threads[i]);
  }

  lemma ListedStaysListable(s: State, i: nat, j: nat, k: nat)
    requires VerdictRight(s) && Enabled(s, i) && Listed(s, j, k) && Listable(s, j, k)
    ensures Listable(Next(s, i), j, k) && OutcomeOf(Next(s, i), j, k) == OutcomeOf(s, j, k)
  {
  }

  lemma ListStaysSound(s: State, i: nat)
    requires PointsFit(s) && VerdictRight(s) && ListSound(s) && Enabled(s, i)
    ensures ListSound(Next(s, i))
  {
    var s' := Next(s, i);
    var k0 := s.threads[i].at;
    ListGrowsByCurrentJob(s, i);
    hide Next, PointsFit, Good, Listable, Ended;
    assert s'.failed != s.failed ==> !Listed(s, i, k0);
    forall j: nat, k: nat | Listed(s', j, k) ensures Listable(s', j, k) && !Good(OutcomeOf(s', j, k)) {
      if Listed(s, j, k) {
        ListedStaysListable(s, i, j, k);
      }
    }
  }

  lemma RaisedStaysListed(s: State, i: nat)
    requires PointsFit(s) && RaisedListed(s) && Enabled(s, i)
    ensures RaisedListed(Next(s, i))
  {
    var s' := Next(s, i);
    forall j: nat, k: nat | Listable(s', j, k) && OutcomeOf(s', j, k).Raised? ensures Listed(s', j, k) {
      if Listable(s, j, k) {
        assert Listed(s, j, k);
      } else {
        assert j == i && k == s.threads[i].at;
      }
    }
  }

  /** A thread that has read past an exception knows that the verdict is bad. */
  lemma RaisedIsRecorded(s: State, i: nat)
    requires VerdictRight(s) && RaisedListed(s) && Enabled(s, i)
    requires s.threads[i].point.Reading? && OutcomeOf(s, i, s.threads[i].at).Raised?
    ensures !s.success
  {
    assert Listable(s, i, s.threads[i].at);
    assert Listed(s, i, s.threads[i].at);
  }

  lemma VerdictStaysRight(s: State, i: nat)
    requires PointsFit(s) && VerdictRight(s) && RaisedListed(s) && Enabled(s, i)
    ensures VerdictRight(Next(s, i))
  {
    var s' := Next(s, i);
    var k0 := s.threads[i].at;
    if s.threads[i].point.Reading? && OutcomeOf(s, i, k0).Raised? { RaisedIsRecorded(s, i); }
    forall j: nat, k: nat | Ended(s', j, k) && s'.success ensures Good(OutcomeOf(s', j, k)) {
      assert OutcomeOf(s', j, k) == OutcomeOf(s, j, k);
      if Ended(s, j, k) {
        assert s.success;
      } else {
        assert j == i && k == k0;
      }
    }
  }

  lemma PointsStayFit(s: State, i: nat)
    requires PointsFit(s) && VerdictRight(s) && RaisedListed(s) && Enabled(s, i)
    ensures PointsFit(Next(s, i))
  {
    if s.threads[i].point.Reading? && OutcomeOf(s, i, s.threads[i].at).Raised? { RaisedIsRecorded(s, i); }
    forall j | 0 <= j < |Next(s, i).threads| && j != i ensures PointFits(Next(s, i).threads[j]) {
      assert PointFits(s.threads[j]);
    }
  }

  lemma StepKeepsInvariant(s: State, i: nat)
    requires Invariant(s) && Enabled(s, i)
    ensures Invariant(Next(s, i))
  {
    hide Enabled, Next, PointsFit, VerdictRight, ListSound, RaisedListed, ReloadExact;
    PointsStayFit(s, i);
    ReloadStaysExact(s, i);
    ListStaysSound(s, i);
    RaisedStaysListed(s, i);
    VerdictStaysRight(s, i);
  }

  lemma {:induction false} RunKeepsInvariant(s: State, steps: seq<nat>)
    requires Invariant(s) && Schedule(s, steps)
    ensures Invariant(Execute(s, steps))
    ensures var t := Execute(s, steps);
            |t.threads| == |s.threads| && forall i :: 0 <= i < |t.threads| ==> t.threads[i].task == s.threads[i].task
    decreases |steps|
  {
    hide Invariant;
    if steps != [] {
      StepKeepsInvariant(s, steps[0]);
      RunKeepsInvariant(Next(s, steps[0]), steps[1..]);
    }
  }

  // -------------------------------------------------------------- the results

  /** Position `k` of task `i` of a batch. */
  predicate InBatch(tasks: seq<seq<Job>>, i: nat, k: nat) {
    i < |tasks| && k < |tasks[i]|
  }

  /**
    However the threads interleave, once all tasks are done the verdict is good exactly when
    every job ended with code 0 or 1, a bad verdict always comes with a non-empty list, and a
    reload is requested exactly when some job ended with code 1.
   */
  lemma VerdictIsRight(tasks: seq<seq<Job>>, steps: seq<nat>)
    requires Schedule(Start(tasks), steps) && AllDone(Execute(Start(tasks), steps))
    ensures var s := Execute(Start(tasks), steps);
            && (s.success <==> forall i: nat, k: nat :: InBatch(tasks, i, k) ==> Good(tasks[i][k].outcome))
            && (s.success <==> s.failed == [])
            && (s.reload <==> exists i: nat, k: nat :: InBatch(tasks, i, k) && Code(tasks[i][k].outcome) == 1)
  {
    var s0 := Start(tasks);
    StartInvariant(tasks);
    RunKeepsInvariant(s0, steps);
    var s := Execute(s0, steps);
    forall i: nat, k: nat ensures InBatch(tasks, i, k) <==> IsJob(s, i, k)
      ensures IsJob(s, i, k) ==> Ended(s, i, k) && OutcomeOf(s, i, k) == tasks[i][k].outcome {}
    if !s.success {
      var (i, k) := s.failed[0];
      assert Listed(s, i, k);
      assert InBatch(tasks, i, k) && !Good(tasks[i][k].outcome);
    } else {
      forall i: nat, k: nat | InBatch(tasks, i, k) ensures Good(tasks[i][k].outcome) {
        assert Ended(s, i, k);
      }
    }
    if s.reload {
      var i: nat, k: nat :| Requested(s, i, k);
      assert InBatch(tasks, i, k) && Code(tasks[i][k].outcome) == 1;
    } else {
      forall i: nat, k: nat | InBatch(tasks, i, k) ensures Code(tasks[i][k].outcome) != 1 {
        assert !Requested(s, i, k);
      }
    }
  }

  /** The job failed: it raised, or left with a code other than 0 and 1. */
  predicate EndsBadly(o: Outcome) {
    o == Raised || (o.Exit? && o.code != 0 && o.code != 1)
  }

  /** The job asks for a reload: it ran to its end, or left with code 1 or without a code. */
  predicate AsksForReload(o: Outcome) {
    o == Returned || o == ExitOther || o == Exit(1)
  }

  /** The same told from how the jobs ended. */
  lemma VerdictOfOutcomes(tasks: seq<seq<Job>>, steps: seq<nat>)
    requires Schedule(Start(tasks), steps) && AllDone(Execute(Start(tasks), steps))
    ensures var s := Execute(Start(tasks), steps);
            && (s.success <==> forall i: nat, k: nat :: InBatch(tasks, i, k) ==> !EndsBadly(tasks[i][k].outcome))
            && (s.reload <==> exists i: nat, k: nat :: InBatch(tasks, i, k) && AsksForReload(tasks[i][k].outcome))
            && forall i: nat, k: nat :: (i, k) in s.failed ==> InBatch(tasks, i, k) && EndsBadly(tasks[i][k].outcome)
  {
    hide Schedule, Execute, AllDone, Code, Good;
    VerdictIsRight(tasks, steps);
    forall o: Outcome ensures (Good(o) <==> !EndsBadly(o)) && (Code(o) == 1 <==> AsksForReload(o)) { OutcomesAre(o); }
    FailureListIsSound(tasks, steps);
  }

  lemma OutcomesAre(o: Outcome)
    ensures Good(o) <==> !EndsBadly(o)
    ensures Code(o) == 1 <==> AsksForReload(o)
  {
  }

  /** Every listed job really failed, none is listed twice, and a job that raised is always listed. */
  lemma FailureListIsSound(tasks: seq<seq<Job>>, steps: seq<nat>)
    requires Schedule(Start(tasks), steps) && AllDone(Execute(Start(tasks), steps))
    ensures var failed := Execute(Start(tasks), steps).failed;
            && (forall f :: f in failed ==> InBatch(tasks, f.0, f.1) && !Good(tasks[f.0][f.1].outcome))
            && (forall a, b :: 0 <= a < b < |failed| ==> failed[a] != failed[b])
            && (forall i: nat, k: nat :: InBatch(tasks, i, k) && tasks[i][k].outcome.Raised? ==> (i, k) in failed)
  {
    var s0 := Start(tasks);
    StartInvariant(tasks);
    RunKeepsInvariant(s0, steps);
    var s := Execute(s0, steps);
    forall f | f in s.failed ensures InBatch(tasks, f.0, f.1) && !Good(tasks[f.0][f.1].outcome) {
      assert Listed(s, f.0, f.1);
      assert !Good(OutcomeOf(s, f.0, f.1));
    }
    forall i: nat, k: nat | InBatch(tasks, i, k) && tasks[i][k].outcome.Raised? ensures (i, k) in s.failed {
      assert Listable(s, i, k) && OutcomeOf(s, i, k).Raised?;
      assert Listed(s, i, k);
    }
  }

  // ------------------------------------------------- when the list is complete

  predicate Fails(tasks: seq<seq<Job>>, i: nat, k: nat) {
    InBatch(tasks, i, k) && !Good(tasks[i][k].outcome)
  }

  /** The job fails by its exit code: it is listed only if it finds the verdict still good. */
  predicate FailsByCode(tasks: seq<seq<Job>>, i: nat, k: nat) {
    Fails(tasks, i, k) && !tasks[i][k].outcome.Raised?
  }

  /** A failure that may be recorded before the job, or is listed only if the job is not. */
  predicate Rivals(tasks: seq<seq<Job>>, j: nat, l: nat, i: nat, k: nat) {
    Fails(tasks, j, l) && (j, l) != (i, k) && !(j == i && l > k && tasks[j][l].outcome.Raised?)
  }

  /** No job that fails by its exit code has a rival. */
  ghost predicate WithoutRivals(tasks: seq<seq<Job>>) {
    forall i: nat, k: nat, j: nat, l: nat :: FailsByCode(tasks, i, k) ==> !Rivals(tasks, j, l, i, k)
  }

  ghost predicate ListsAll(tasks: seq<seq<Job>>, s: State) {
    forall i: nat, k: nat :: Fails(tasks, i, k) ==> Listed(s, i, k)
  }

  /** However the threads interleave, all failed jobs are listed in the end. */
  ghost predicate AlwaysListsAll(tasks: seq<seq<Job>>) {
    forall steps :: Schedule(Start(tasks), steps) && AllDone(Execute(Start(tasks), steps)) ==>
                      ListsAll(tasks, Execute(Start(tasks), steps))
  }

  ghost predicate Runs(s: State, tasks: seq<seq<Job>>) {
    |s.threads| == |tasks| && forall i :: 0 <= i < |tasks| ==> s.threads[i].task == tasks[i]
  }

  lemma StepKeepsTasks(s: State, i: nat, tasks: seq<seq<Job>>)
    requires Runs(s, tasks) && Enabled(s, i)
    ensures Runs(Next(s, i), tasks)
  {
  }

  /** Every failed job that has ended is listed. */
  ghost predicate EndedListed(s: State, tasks: seq<seq<Job>>) {
    forall i: nat, k: nat :: Ended(s, i, k) && Fails(tasks, i, k) ==> Listed(s, i, k)
  }

  /** Whatever is listed when a job with a bad exit code reads the verdict is a rival of it. */
  lemma ListedAreRivals(s: State, i: nat, tasks: seq<seq<Job>>, j: nat, l: nat)
    requires Runs(s, tasks) && ListSound(s) && Enabled(s, i)
    requires s.threads[i].point.Reading? && FailsByCode(tasks, i, s.threads[i].at) && Listed(s, j, l)
    ensures Rivals(tasks, j, l, i, s.threads[i].at)
  {
    hide Good;
    assert Listable(s, j, l) && !Good(OutcomeOf(s, j, l));
  }

  lemma SomeListed(s: State)
    requires s.failed != []
    ensures exists j: nat, l: nat :: Listed(s, j, l)
  {
    assert Listed(s, s.failed[0].0, s.failed[0].1);
  }

  /** Without rivals such a job finds the verdict good. */
  lemma VerdictStillGood(s: State, i: nat, tasks: seq<seq<Job>>)
    requires Runs(s, tasks) && Invariant(s) && WithoutRivals(tasks) && Enabled(s, i)
    requires s.threads[i].point.Reading? && FailsByCode(tasks, i, s.threads[i].at)
    ensures s.success
  {
    hide Next, RaisedListed, ReloadExact, PointsFit, FailsByCode, Rivals, ListSound, Listed;
    forall j: nat, l: nat | Listed(s, j, l) ensures Rivals(tasks, j, l, i, s.threads[i].at) {
      ListedAreRivals(s, i, tasks, j, l);
    }
    if s.failed != [] { SomeListed(s); }
  }

  lemma EndedStayListed(s: State, i: nat, tasks: seq<seq<Job>>)
    requires Runs(s, tasks) && Invariant(s) && WithoutRivals(tasks) && EndedListed(s, tasks) && Enabled(s, i)
    ensures EndedListed(Next(s, i), tasks)
  {
    hide WithoutRivals, VerdictRight, ListSound, ReloadExact;
    var s' := Next(s, i);
    var k0 := s.threads[i].at;
    if s.threads[i].point.Reading? && FailsByCode(tasks, i, k0) { VerdictStillGood(s, i, tasks); }
    assert PointFits(s.threads[i]);
    forall j: nat, k: nat | Ended(s', j, k) && Fails(tasks, j, k) ensures Listed(s', j, k) {
      if Ended(s, j, k) {
        assert Listed(s, j, k);
      } else {
        assert j == i && k == k0;
        if tasks[i][k0].outcome.Raised? { assert Listable(s, i, k0); }
      }
    }
  }

  lemma {:induction false} RunListsEnded(s: State, steps: seq<nat>, tasks: seq<seq<Job>>)
    requires Runs(s, tasks) && Invariant(s) && WithoutRivals(tasks) && EndedListed(s, tasks) && Schedule(s, steps)
    ensures EndedListed(Execute(s, steps), tasks) && Runs(Execute(s, steps), tasks)
    decreases |steps|
  {
    hide Invariant, WithoutRivals, EndedListed, Runs, Next;
    if steps != [] {
      StepKeepsInvariant(s, steps[0]);
      StepKeepsTasks(s, steps[0], tasks);
      EndedStayListed(s, steps[0], tasks);
      RunListsEnded(Next(s, steps[0]), steps[1..], tasks);
    }
  }

  /** Too late to be listed: the verdict is bad before the job has read it. */
  ghost predicate Missed(s: State, tasks: seq<seq<Job>>, i: nat, k: nat) {
    && Runs(s, tasks) && FailsByCode(tasks, i, k)
    && !s.success && !Listed(s, i, k)
    && !(s.threads[i].at == k && s.threads[i].point.Recording?)
  }

  lemma MissedStaysMissed(s: State, j: nat, tasks: seq<seq<Job>>, i: nat, k: nat)
    requires PointsFit(s) && Missed(s, tasks, i, k) && Enabled(s, j)
    ensures Missed(Next(s, j), tasks, i, k)
  {
    assert PointFits(s.threads[j]);
  }

  lemma {:induction false} RunMisses(s: State, steps: seq<nat>, tasks: seq<seq<Job>>, i: nat, k: nat)
    requires Invariant(s) && Missed(s, tasks, i, k) && Schedule(s, steps)
    ensures Missed(Execute(s, steps), tasks, i, k)
    decreases |steps|
  {
    hide VerdictRight, ListSound, RaisedListed, ReloadExact, Missed, Next;
    if steps != [] {
      StepKeepsInvariant(s, steps[0]);
      MissedStaysMissed(s, steps[0], tasks, i, k);
      RunMisses(Next(s, steps[0]), steps[1..], tasks, i, k);
    }
  }

  lemma {:induction false} Continue(s: State, first: seq<nat>, second: seq<nat>)
    requires Schedule(s, first) && Schedule(Execute(s, first), second)
    ensures Schedule(s, first + second) && Execute(s, first + second) == Execute(Execute(s, first), second)
    decreases |first|
  {
    hide Next;
    if first == [] {
      assert first + second == second;
    } else {
      Continue(Next(s, first[0]), first[1..], second);
      assert (first + second)[1..] == first[1..] + second;
    }
  }

  /** How far the wrapper is from the end of its job. */
  function Left(p: Point): nat {
    match p
    case Ready => 3
    case Noting => 2
    case Requesting => 2
    case Reading => 1
    case Recording => 0
  }

  /** The state when task `i` stands before job `k` and everything else where it was. */
  ghost predicate StoppedAt(s: State, t: State, i: nat, k: nat) {
    && |t.threads| == |s.threads| && i < |s.threads|
    && t.threads[i] == Thread(s.threads[i].task, k, Ready)
    && forall j :: 0 <= j < |s.threads| && j != i ==> t.threads[j] == s.threads[j]
  }

  /** A task runs alone up to its job `k`. */
  lemma {:induction false} RunTask(s: State, i: nat, k: nat) returns (steps: seq<nat>)
    requires Invariant(s) && i < |s.threads|
    requires s.threads[i].at < k <= |s.threads[i].task| || (s.threads[i].at == k && s.threads[i].point.Ready?)
    ensures Schedule(s, steps) && Invariant(Execute(s, steps)) && StoppedAt(s, Execute(s, steps), i, k)
    decreases k - s.threads[i].at, Left(s.threads[i].point)
  {
    hide PointsFit, VerdictRight, ListSound, RaisedListed, ReloadExact, Good, Code;
    if s.threads[i].at == k {
      steps := [];
    } else {
      StepKeepsInvariant(s, i);
      var rest := RunTask(Next(s, i), i, k);
      steps := [i] + rest;
      assert steps[1..] == rest;
    }
  }

  /** All tasks run to their ends, one after the other. */
  lemma {:induction false} RunRest(s: State, n: nat) returns (steps: seq<nat>)
    requires Invariant(s) && n <= |s.threads|
    requires forall i :: n <= i < |s.threads| ==> s.threads[i].at == |s.threads[i].task|
    ensures Schedule(s, steps) && Invariant(Execute(s, steps)) && AllDone(Execute(s, steps))
    decreases n
  {
    hide VerdictRight, ListSound, RaisedListed, ReloadExact;
    if n == 0 {
      steps := [];
    } else {
      assert PointFits(s.threads[n - 1]);
      var first := RunTask(s, n - 1, |s.threads[n - 1].task|);
      var rest := RunRest(Execute(s, first), n - 1);
      Continue(s, first, rest);
      steps := first + rest;
    }
  }

  /** From a state in which a job is missed there is a complete run that does not list it. */
  lemma FinishMissing(tasks: seq<seq<Job>>, first: seq<nat>, i: nat, k: nat)
    requires Schedule(Start(tasks), first) && Invariant(Execute(Start(tasks), first))
    requires Missed(Execute(Start(tasks), first), tasks, i, k)
    ensures !AlwaysListsAll(tasks)
  {
    hide Invariant, Next, Start, FailsByCode, Fails;
    var s := Execute(Start(tasks), first);
    var rest := RunRest(s, |s.threads|);
    Continue(Start(tasks), first, rest);
    RunMisses(s, rest, tasks, i, k);
    var steps := first + rest;
    assert Schedule(Start(tasks), steps) && AllDone(Execute(Start(tasks), steps));
    assert !Listed(Execute(Start(tasks), steps), i, k);
    assert Fails(tasks, i, k) by { CodeFailureFails(tasks, i, k); }
  }

  lemma CodeFailureFails(tasks: seq<seq<Job>>, i: nat, k: nat)
    requires FailsByCode(tasks, i, k)
    ensures Fails(tasks, i, k)
  {
  }

  lemma StartRuns(tasks: seq<seq<Job>>)
    ensures Runs(Start(tasks), tasks) && Invariant(Start(tasks)) && EndedListed(Start(tasks), tasks)
    ensures forall i :: 0 <= i < |tasks| ==> Start(tasks).threads[i] == Thread(tasks[i], 0, Ready)
  {
    StartInvariant(tasks);
  }

  /** A failure of another task that is recorded first hides the job. */
  lemma OtherTaskHides(tasks: seq<seq<Job>>, j: nat, l: nat, i: nat, k: nat)
    requires FailsByCode(tasks, i, k) && Fails(tasks, j, l) && j != i
    ensures !AlwaysListsAll(tasks)
  {
    hide Next, RaisedListed, ReloadExact, PointsFit;
    StartRuns(tasks);
    var first := RunTask(Start(tasks), j, |tasks[j]|);
    var s := Execute(Start(tasks), first);
    assert Runs(s, tasks);
    assert Ended(s, j, l) && !Good(OutcomeOf(s, j, l));
    assert !Listable(s, i, k);
    assert Missed(s, tasks, i, k);
    FinishMissing(tasks, first, i, k);
  }

  /** So does any earlier failure of the same task. */
  lemma EarlierJobHides(tasks: seq<seq<Job>>, i: nat, l: nat, k: nat)
    requires FailsByCode(tasks, i, k) && Fails(tasks, i, l) && l < k
    ensures !AlwaysListsAll(tasks)
  {
    hide Next, RaisedListed, ReloadExact, PointsFit;
    StartRuns(tasks);
    var first := RunTask(Start(tasks), i, k);
    var s := Execute(Start(tasks), first);
    assert Runs(s, tasks);
    assert Ended(s, i, l) && !Good(OutcomeOf(s, i, l));
    assert !Listable(s, i, k);
    assert Missed(s, tasks, i, k);
    FinishMissing(tasks, first, i, k);
  }

  /**
    All failed jobs are listed, in every complete interleaving, if and only if each job that fails
    by its exit code fails alone, but for jobs behind it in its own task that raise an exception.
   */
  lemma ListIsCompleteIff(tasks: seq<seq<Job>>)
    ensures AlwaysListsAll(tasks) <==> WithoutRivals(tasks)
  {
    hide Fails, Invariant, Start;
    if WithoutRivals(tasks) {
      forall steps | Schedule(Start(tasks), steps) && AllDone(Execute(Start(tasks), steps))
        ensures ListsAll(tasks, Execute(Start(tasks), steps))
      {
        StartRuns(tasks);
        RunListsEnded(Start(tasks), steps, tasks);
        AllEndedAreListed(tasks, Execute(Start(tasks), steps));
      }
    } else {
      var i: nat, k: nat, j: nat, l: nat :| FailsByCode(tasks, i, k) && Rivals(tasks, j, l, i, k);
      if j != i {
        OtherTaskHides(tasks, j, l, i, k);
      } else if l < k {
        EarlierJobHides(tasks, i, l, k);
      } else {
        EarlierJobHides(tasks, i, k, l);
      }
    }
  }

  lemma AllEndedAreListed(tasks: seq<seq<Job>>, s: State)
    requires Runs(s, tasks) && AllDone(s) && EndedListed(s, tasks)
    ensures ListsAll(tasks, s)
  {
    forall i: nat, k: nat | Fails(tasks, i, k) ensures Listed(s, i, k) {
      assert Ended(s, i, k);
    }
  }
}
