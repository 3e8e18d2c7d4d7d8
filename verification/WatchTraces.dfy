/**
  What the debounce protocol promises about the steps of a run alone: every demand is followed by
  a complete re-reading of the orchestrator, one that found nothing to apply or could apply it.
 */
module WatchTraces {
  import opened WatchProtocol

  predicate IsStepOf(step: Step, i: nat) {
    WatcherStep(step) && step.i == i
  }

  predicate IsBackendStep(step: Step) {
    || step.BackendLock? || step.BackendMark? || step.BackendRelock? || step.BackendExamine? || step.BackendReload?
    || step.BackendConclude? || step.BackendFail?
  }

  /** An event is accepted, or a backend has shown up. */
  predicate Demands(step: Step) {
    (step.Process? && step.accepted) || step.BackendMark?
  }

  function Demanded(steps: seq<Step>): nat {
    if steps == [] then 0
    else Demanded(steps[..|steps| - 1]) + (if Demands(steps[|steps| - 1]) then 1 else 0)
  }

  /** A watcher re-reads the state at `m`, and at `k` finds nothing new or a scheduler that has time for it. */
  predicate WatcherCompletes(steps: seq<Step>, i: nat, m: nat, k: nat) {
    && m < k < |steps| && steps[m].Refresh? && steps[m].i == i && steps[k].Conclude? && steps[k].i == i
    && !(steps[k].needed && steps[m].waiting)
    && forall l :: m < l < k ==> !IsStepOf(steps[l], i)
  }

  predicate BackendCompletes(steps: seq<Step>, m: nat, k: nat) {
    && m < k < |steps| && steps[m].BackendReload? && steps[k].BackendConclude?
    && !(steps[k].needed && steps[k].mustWait)
    && forall l :: m < l < k ==> !IsBackendStep(steps[l])
  }

  predicate Completes(steps: seq<Step>, m: nat, k: nat) {
    || BackendCompletes(steps, m, k)
    || (m < |steps| && steps[m].Refresh? && WatcherCompletes(steps, steps[m].i, m, k))
  }

  /** What is demanded at `e` is seen by a complete re-reading that begins later. */
  ghost predicate Deployed(steps: seq<Step>, e: nat) {
    exists m: nat, k: nat :: e < m && Completes(steps, m, k)
  }

  // ------------------------------------------------------------------ runs by their last step

  lemma {:induction false} LastStep(s: State, steps: seq<Step>)
    requires Schedule(s, steps) && steps != []
    ensures var last := |steps| - 1;
            && Schedule(s, steps[..last]) && Enabled(Execute(s, steps[..last]), steps[last])
            && Execute(s, steps) == Next(Execute(s, steps[..last]), steps[last])
    decreases |steps|
  {
    hide Enabled, Next;
    var last := |steps| - 1;
    if last > 0 {
      LastStep(Next(s, steps[0]), steps[1..]);
      assert steps[1..][..last - 1] == steps[..last][1..];
    }
  }

  lemma {:induction false} DemandedGrows(steps: seq<Step>, m: nat)
    requires m <= |steps|
    ensures Demanded(steps[..m]) <= Demanded(steps)
    ensures forall e :: m <= e < |steps| && Demands(steps[e]) ==> Demanded(steps[..m]) < Demanded(steps)
  {
    hide Demands;
    var last := |steps| - 1;
    if m < |steps| {
      DemandedGrows(steps[..last], m);
      assert steps[..last][..m] == steps[..m];
      assert forall e :: m <= e < last ==> steps[..last][e] == steps[e];
    } else {
      assert steps[..m] == steps;
    }
  }

  lemma CompletesLonger(steps: seq<Step>, m: nat, k: nat)
    requires steps != [] && k < |steps| - 1
    ensures Completes(steps, m, k) <==> Completes(steps[..|steps| - 1], m, k)
  {
  }

  // ------------------------------------------------------------------ the claim of one watcher

  /** The watcher re-read the state at `m` and has done nothing since. */
  predicate HasRead(steps: seq<Step>, i: nat, m: nat, waiting: bool) {
    && m < |steps| && steps[m] == Refresh(i, waiting)
    && forall l :: m < l < |steps| ==> !IsStepOf(steps[l], i)
  }

  ghost predicate Completed(steps: seq<Step>, i: nat) {
    exists m: nat, k: nat :: WatcherCompletes(steps, i, m, k)
  }

  predicate NeverFails(steps: seq<Step>, i: nat) {
    forall l :: 0 <= l < |steps| ==> steps[l] != Fail(i)
  }

  lemma BystandersStay(s: State, step: Step, i: nat)
    requires Enabled(s, step) && i < |s.watchers|
    ensures |Next(s, step).watchers| == |s.watchers|
    ensures !IsStepOf(step, i) ==> Next(s, step).watchers[i] == s.watchers[i]
  {
    if WatcherStep(step) {
      assert Next(s, step).watchers == s.watchers[step.i := Next(s, step).watchers[step.i]];
    } else {
      assert Next(s, step).watchers == s.watchers;
    }
  }

  /** Once the work is claimed, either the re-reading is still under way, or one was complete. */
  lemma {:induction false} ClaimGoesOn(s: State, i: nat, steps: seq<Step>)
    requires i < |s.watchers| && s.watchers[i].phase.Refreshing? && Schedule(s, steps) && NeverFails(steps, i)
    ensures var t := Execute(s, steps);
            && i < |t.watchers|
            && (Completed(steps, i) || t.watchers[i].phase.Refreshing?
                || (t.watchers[i].phase.Refreshed? && exists m: nat :: HasRead(steps, i, m, t.watchers[i].phase.waiting)))
  {
    hide Schedule, Execute, Enabled, Next;
    if steps == [] {
      NoSteps(s);
    } else {
      var front, last := steps[..|steps| - 1], steps[|steps| - 1];
      LastStep(s, steps);
      assert NeverFails(front, i);
      ClaimGoesOn(s, i, front);
      var t := Execute(s, front);
      BystandersStay(t, last, i);
      if m: nat, k: nat :| WatcherCompletes(front, i, m, k) {
        assert WatcherCompletes(steps, i, m, k);
      } else if t.watchers[i].phase.Refreshing? {
        ClaimedStep(t, last, i);
        assert last.Refresh? && last.i == i ==> HasRead(steps, i, |front|, last.waiting);
      } else {
        var m: nat :| HasRead(front, i, m, t.watchers[i].phase.waiting);
        ReadStep(t, last, i);
        if IsStepOf(last, i) {
          assert !(last.needed && steps[m].waiting) ==> WatcherCompletes(steps, i, m, |front|);
        } else {
          assert HasRead(steps, i, m, t.watchers[i].phase.waiting);
        }
      }
    }
  }

  lemma ClaimedStep(t: State, step: Step, i: nat)
    requires Enabled(t, step) && i < |t.watchers| && t.watchers[i].phase.Refreshing? && step != Fail(i)
    ensures IsStepOf(step, i) ==> step.Refresh?
    ensures step.Refresh? && step.i == i ==>
              Next(t, step).watchers[i].phase.Refreshed? && Next(t, step).watchers[i].phase.waiting == step.waiting
  {
  }

  lemma ReadStep(t: State, step: Step, i: nat)
    requires Enabled(t, step) && i < |t.watchers| && t.watchers[i].phase.Refreshed? && step != Fail(i)
    ensures IsStepOf(step, i) ==> step.Conclude?
    ensures step.Conclude? && step.i == i && step.needed && t.watchers[i].phase.waiting ==>
              Next(t, step).watchers[i].phase.Refreshing?
  {
  }

  /**
    A watcher that claims the pending work sees it through: unless it fails, it is back at waiting
    for events only after a re-reading that found nothing needed, or a scheduler that was not busy.
   */
  lemma ClaimIsSeenThrough(s: State, i: nat, steps: seq<Step>)
    requires Enabled(s, Check(i)) && s.pending && DEBOUNCE <= s.now - s.lastEvent
    requires Schedule(Next(s, Check(i)), steps) && NeverFails(steps, i)
    requires var t := Execute(Next(s, Check(i)), steps); i < |t.watchers| && t.watchers[i].phase.Waiting?
    ensures Completed(steps, i)
  {
    hide Schedule, Execute, Completed, HasRead, NeverFails;
    ClaimGoesOn(Next(s, Check(i)), i, steps);
  }

  /** In particular a change that meets a busy scheduler is not forgotten: the watcher re-reads the state once more. */
  lemma BusySchedulerIsRetried(s: State, i: nat, steps: seq<Step>)
    requires Enabled(s, Conclude(i, true)) && s.watchers[i].phase.waiting
    requires Schedule(Next(s, Conclude(i, true)), steps) && NeverFails(steps, i)
    requires var t := Execute(Next(s, Conclude(i, true)), steps); i < |t.watchers| && t.watchers[i].phase.Waiting?
    ensures Completed(steps, i)
  {
    hide Schedule, Execute, Completed, HasRead, NeverFails;
    ClaimGoesOn(Next(s, Conclude(i, true)), i, steps);
  }

  // ------------------------------------------------------------------ the quiet period

  /** The steps that tell the others when something last happened. */
  predicate Stirs(step: Step) {
    (step.Process? && step.accepted) || step.BackendMark? || step == BackendConclude(true, true)
  }

  lemma {:induction false} NothingStirs(s: State, steps: seq<Step>)
    requires Schedule(s, steps) && forall k :: 0 <= k < |steps| ==> !Stirs(steps[k])
    ensures Execute(s, steps).lastEvent == s.lastEvent && Execute(s, steps).now >= s.now
    decreases |steps|
  {
    if steps != [] {
      assert !Stirs(steps[0]);
      NothingStirs(Next(s, steps[0]), steps[1..]);
    }
  }

  /**
    A watcher that has the lock back claims what is pending if and only if the quiet period has
    passed since the last accepted event or deferral of the backend worker, or a recovered backend
    was reported after it: that is not waited for. Otherwise it goes back to waiting for events.
   */
  lemma ClaimsAfterQuietPeriodIff(s: State, step: Step, steps: seq<Step>, t: State, i: nat)
    requires Enabled(s, step) && Stirs(step) && Schedule(Next(s, step), steps) && t == Execute(Next(s, step), steps)
    requires forall k :: 0 <= k < |steps| ==> !Stirs(steps[k])
    requires Enabled(t, Check(i))
    ensures var after := Next(t, Check(i));
            && |after.watchers| == |t.watchers|
            && after.watchers[i].phase
               == (if t.pending && (step.BackendMark? || t.now >= s.now + 2.0) then Refreshing else Waiting)
            && after.pending == (t.pending && after.watchers[i].phase == Waiting)
            && (after.watchers[i].phase == Waiting ==> after.owner == Free)
  {
    hide Schedule, Execute, Stirs;
    NothingStirs(Next(s, step), steps);
    StirredAt(s, step);
  }

  lemma StirredAt(s: State, step: Step)
    requires Enabled(s, step) && Stirs(step)
    ensures Next(s, step).now == s.now
    ensures Next(s, step).lastEvent == if step.BackendMark? then s.now - DEBOUNCE - 1.0 else s.now
  {
  }

  // ------------------------------------------------------------------ whole runs

  /** The counters of the model, told from the steps. */
  ghost predicate Counts(s: State, steps: seq<Step>) {
    && s.recorded == Demanded(steps)
    && (s.settled == 0 || exists m: nat, k: nat :: Completes(steps, m, k) && Demanded(steps[..m]) == s.settled)
    && forall m: nat, k: nat :: Completes(steps, m, k) ==> m <= |steps| && Demanded(steps[..m]) <= s.settled
  }

  ghost predicate ReadsAreTraced(s: State, steps: seq<Step>) {
    && (forall i :: 0 <= i < |s.watchers| && s.watchers[i].phase.Refreshed? ==> WatcherTraced(s, steps, i))
    && (s.backend.Reloaded? ==> BackendTraced(s, steps))
  }

  ghost predicate WatcherTraced(s: State, steps: seq<Step>, i: nat)
    requires i < |s.watchers| && s.watchers[i].phase.Refreshed?
  {
    exists m: nat :: HasRead(steps, i, m, s.watchers[i].phase.waiting) && Demanded(steps[..m]) == s.watchers[i].phase.seen
  }

  predicate BackendHasRead(steps: seq<Step>, m: nat) {
    m < |steps| && steps[m].BackendReload? && forall l :: m < l < |steps| ==> !IsBackendStep(steps[l])
  }

  ghost predicate BackendTraced(s: State, steps: seq<Step>)
    requires s.backend.Reloaded?
  {
    exists m: nat :: BackendHasRead(steps, m) && Demanded(steps[..m]) == s.backend.seen
  }

  // ------------------------------------------------------------------ one more step

  lemma CountStays(s: State, step: Step)
    requires Enabled(s, step)
    ensures Next(s, step).recorded == s.recorded + (if Demands(step) then 1 else 0)
    ensures Next(s, step).settled == match step
              case Conclude(i, needed) =>
                if needed && s.watchers[i].phase.waiting then s.settled else s.watchers[i].phase.seen
              case BackendConclude(needed, mustWait) => if needed && mustWait then s.settled else s.backend.seen
              case _ => s.settled
  {
  }

  lemma ReadingSteps(s: State, step: Step, i: nat)
    requires Enabled(s, step) && i < |s.watchers| && i < |Next(s, step).watchers|
    requires IsStepOf(step, i) && Next(s, step).watchers[i].phase.Refreshed?
    ensures step.Refresh? && Next(s, step).watchers[i].phase == Refreshed(s.recorded, step.waiting)
  {
  }

  lemma BackendReadingSteps(s: State, step: Step)
    requires Enabled(s, step)
    ensures !IsBackendStep(step) ==> Next(s, step).backend == s.backend
    ensures IsBackendStep(step) && Next(s, step).backend.Reloaded? ==>
              step.BackendReload? && Next(s, step).backend.seen == s.recorded
  {
  }

  /** A read that was traced stays so, or is a new one. */
  lemma WatcherStaysTraced(s: State, front: seq<Step>, step: Step, i: nat)
    requires Enabled(s, step) && s.recorded == Demanded(front) && ReadsAreTraced(s, front)
    requires i < |Next(s, step).watchers| && Next(s, step).watchers[i].phase.Refreshed? && i < |s.watchers|
    ensures WatcherTraced(Next(s, step), front + [step], i)
  {
    hide Enabled, Next, Demanded;
    var steps := front + [step];
    if IsStepOf(step, i) {
      ReadingSteps(s, step, i);
      assert steps[..|front|] == front;
      assert HasRead(steps, i, |front|, step.waiting);
    } else {
      BystandersStay(s, step, i);
      assert WatcherTraced(s, front, i);
      var m: nat :| HasRead(front, i, m, s.watchers[i].phase.waiting) && Demanded(front[..m]) == s.watchers[i].phase.seen;
      assert steps[..m] == front[..m];
      assert HasRead(steps, i, m, s.watchers[i].phase.waiting);
    }
  }

  lemma BackendStaysTraced(s: State, front: seq<Step>, step: Step)
    requires Enabled(s, step) && s.recorded == Demanded(front) && ReadsAreTraced(s, front)
    requires Next(s, step).backend.Reloaded?
    ensures BackendTraced(Next(s, step), front + [step])
  {
    hide Enabled, Next, Demanded;
    var steps := front + [step];
    BackendReadingSteps(s, step);
    if IsBackendStep(step) {
      assert steps[..|front|] == front;
      assert BackendHasRead(steps, |front|);
    } else {
      var m: nat :| BackendHasRead(front, m) && Demanded(front[..m]) == s.backend.seen;
      assert steps[..m] == front[..m];
      assert BackendHasRead(steps, m);
    }
  }

  /** The re-reading that a conclusion ends is the one that was traced. */
  lemma WatcherConcludes(front: seq<Step>, i: nat, m: nat, waiting: bool, needed: bool)
    requires HasRead(front, i, m, waiting)
    ensures var steps := front + [Conclude(i, needed)];
            && (!(needed && waiting) ==> Completes(steps, m, |front|))
            && forall l: nat :: Completes(steps, l, |front|) ==> l == m && !(needed && waiting)
  {
    var steps := front + [Conclude(i, needed)];
    forall l: nat | Completes(steps, l, |front|) ensures l == m && !(needed && waiting) {
      assert l < m ==> IsStepOf(steps[m], i);
      assert m < l ==> IsStepOf(steps[l], i);
    }
  }

  lemma BackendConcludes(front: seq<Step>, m: nat, needed: bool, mustWait: bool)
    requires BackendHasRead(front, m)
    ensures var steps := front + [BackendConclude(needed, mustWait)];
            && (!(needed && mustWait) ==> Completes(steps, m, |front|))
            && forall l: nat :: Completes(steps, l, |front|) ==> l == m && !(needed && mustWait)
  {
    var steps := front + [BackendConclude(needed, mustWait)];
    forall l: nat | Completes(steps, l, |front|) ensures l == m && !(needed && mustWait) {
      assert l < m ==> IsBackendStep(steps[m]);
      assert m < l ==> IsBackendStep(steps[l]);
    }
  }

  /** Which completed re-reading the last step adds, if it adds one. */
  lemma LastCompletion(s: State, front: seq<Step>, step: Step)
    requires Enabled(s, step) && ReadsAreTraced(s, front)
    ensures var settled := Next(s, step).settled;
            || (settled == s.settled && forall l: nat :: !Completes(front + [step], l, |front|))
            || exists m: nat :: && m <= |front| && Completes(front + [step], m, |front|) && Demanded(front[..m]) == settled
                                && forall l: nat :: Completes(front + [step], l, |front|) ==> l == m
  {
    hide Next, Demanded;
    CountStays(s, step);
    match step {
      case Conclude(i, needed) =>
        assert WatcherTraced(s, front, i);
        var m: nat :| HasRead(front, i, m, s.watchers[i].phase.waiting) && Demanded(front[..m]) == s.watchers[i].phase.seen;
        WatcherConcludes(front, i, m, s.watchers[i].phase.waiting, needed);
      case BackendConclude(needed, mustWait) =>
        var m: nat :| BackendHasRead(front, m) && Demanded(front[..m]) == s.backend.seen;
        BackendConcludes(front, m, needed, mustWait);
      case _ =>
    }
  }

  lemma CountsGoOn(s: State, front: seq<Step>, step: Step)
    requires Enabled(s, step) && Counts(s, front) && ReadsAreTraced(s, front)
    requires s.settled <= Next(s, step).settled
    ensures Counts(Next(s, step), front + [step])
  {
    hide Enabled, Next, Completes, ReadsAreTraced;
    var steps, after := front + [step], Next(s, step);
    assert steps[..|front|] == front;
    CountStays(s, step);
    LastCompletion(s, front, step);
    forall m: nat, k: nat | Completes(steps, m, k)
      ensures m <= |steps| && Demanded(steps[..m]) <= after.settled
    {
      CompletesInside(steps, m, k);
      if k < |front| { CompletesLonger(steps, m, k); }
      assert steps[..m] == front[..m];
    }
    if after.settled == s.settled && s.settled != 0 {
      var m: nat, k: nat :| Completes(front, m, k) && Demanded(front[..m]) == s.settled;
      CompletesInside(front, m, k);
      CompletesLonger(steps, m, k);
      assert steps[..m] == front[..m];
    } else if after.settled != s.settled {
      var m: nat :| m <= |front| && Completes(steps, m, |front|) && Demanded(front[..m]) == after.settled;
      assert steps[..m] == front[..m];
    }
  }

  lemma CompletesInside(steps: seq<Step>, m: nat, k: nat)
    requires Completes(steps, m, k)
    ensures m < k < |steps|
  {
  }

  /** A refresh settles no less than was settled before. */
  lemma SettledGrows(s: State, step: Step)
    requires Invariant(s) && Enabled(s, step)
    ensures s.settled <= Next(s, step).settled
  {
    CountStays(s, step);
  }

  lemma {:induction false} RunIsTraced(s0: State, steps: seq<Step>)
    requires Initial(s0) && Schedule(s0, steps)
    ensures Counts(Execute(s0, steps), steps) && ReadsAreTraced(Execute(s0, steps), steps)
  {
    hide Enabled, Next, Invariant, Completes, WatcherTraced, BackendTraced;
    if steps == [] {
      NothingIsTraced(s0);
    } else {
      var front, step := steps[..|steps| - 1], steps[|steps| - 1];
      LastStep(s0, steps);
      RunIsTraced(s0, front);
      InitialInvariant(s0);
      RunKeepsInvariant(s0, front);
      var s := Execute(s0, front);
      assert steps == front + [step];
      SettledGrows(s, step);
      CountsGoOn(s, front, step);
      TracesGoOn(s, front, step);
    }
  }

  lemma TracesGoOn(s: State, front: seq<Step>, step: Step)
    requires Enabled(s, step) && s.recorded == Demanded(front) && ReadsAreTraced(s, front)
    ensures ReadsAreTraced(Next(s, step), front + [step])
  {
    hide Enabled, Next, Demanded, WatcherTraced, BackendTraced;
    var after := Next(s, step);
    WatchersStay(s, step);
    forall i | 0 <= i < |after.watchers| && after.watchers[i].phase.Refreshed?
      ensures WatcherTraced(after, front + [step], i)
    {
      WatcherStaysTraced(s, front, step, i);
    }
    if after.backend.Reloaded? { BackendStaysTraced(s, front, step); }
  }

  lemma NothingIsTraced(s0: State)
    requires Initial(s0)
    ensures Counts(Execute(s0, []), []) && ReadsAreTraced(Execute(s0, []), [])
  {
  }

  // ------------------------------------------------------------------ every demand is deployed

  /**
    In runs without exceptions, whenever all threads are idle: every accepted event and every
    recovered backend has been seen by a later re-reading of the orchestrator that found nothing
    to apply, or was not told to wait by the scheduler, if and only if the pending flag is down.
   */
  lemma EveryDemandIsDeployedIff(s0: State, steps: seq<Step>)
    requires Initial(s0) && Schedule(s0, steps) && NothingFails(steps) && Quiescent(Execute(s0, steps))
    ensures (forall e :: 0 <= e < |steps| && Demands(steps[e]) ==> Deployed(steps, e)) <==> !Execute(s0, steps).pending
  {
    hide Schedule, Execute, Completes, Quiescent, NothingFails, Demands, ReadsAreTraced, Initial;
    var s := Execute(s0, steps);
    RunIsTraced(s0, steps);
    LastRefreshSawEveryEventIff(s0, steps);
    NoEventLost(s0, steps);
    if s.settled == s.recorded {
      forall e | 0 <= e < |steps| && Demands(steps[e]) ensures Deployed(steps, e) { SettledIsDeployed(s, steps, e); }
    } else {
      LastDemand(steps);
      var e :| 0 <= e < |steps| && Demands(steps[e]) && Demanded(steps[..e + 1]) == Demanded(steps);
      if Deployed(steps, e) { DeployedIsSettled(s, steps, e); }
    }
  }

  lemma SettledIsDeployed(s: State, steps: seq<Step>, e: nat)
    requires Counts(s, steps) && s.settled == s.recorded && e < |steps| && Demands(steps[e])
    ensures Deployed(steps, e)
  {
    hide Completes, Demands;
    DemandedGrows(steps, e);
    var m: nat, k: nat :| Completes(steps, m, k) && Demanded(steps[..m]) == s.settled;
    CompletesInside(steps, m, k);
    DemandedGrows(steps, m);
    assert e < m;
  }

  lemma DeployedIsSettled(s: State, steps: seq<Step>, e: nat)
    requires Counts(s, steps) && e < |steps| && Demanded(steps[..e + 1]) == Demanded(steps) && Deployed(steps, e)
    requires s.settled <= s.recorded
    ensures s.settled == s.recorded
  {
    hide Completes, Demands;
    var m: nat, k: nat :| e < m && Completes(steps, m, k);
    CompletesInside(steps, m, k);
    DemandedGrows(steps[..m], e + 1);
    assert steps[..m][..e + 1] == steps[..e + 1];
  }

  lemma {:induction false} LastDemand(steps: seq<Step>)
    requires Demanded(steps) > 0
    ensures exists e :: 0 <= e < |steps| && Demands(steps[e]) && Demanded(steps[..e + 1]) == Demanded(steps)
  {
    hide Demands;
    var last := |steps| - 1;
    if Demands(steps[last]) {
      assert steps[..last + 1] == steps;
    } else {
      LastDemand(steps[..last]);
      var e :| 0 <= e < last && Demands(steps[..last][e]) && Demanded(steps[..last][..e + 1]) == Demanded(steps[..last]);
      assert steps[..last][..e + 1] == steps[..e + 1];
    }
  }
}
