/**
  The debounce protocol of the orchestrator watchers.

  Several watcher threads share one lock, one "apply is pending" flag and one
  time of the last accepted event.  A watcher that accepts an event raises the
  flag, lets a quiet period pass without holding the lock, takes the lock again
  and either hands the work over or claims it, refreshes the whole orchestrator
  state and applies it.  A backend worker raises the same flag when a backend it
  was polling for shows up, and a recheck worker takes the same lock.

  Every step is one critical section boundary or one unlocked read; any
  interleaving of the steps is a run.
 */
module WatchProtocol {

  /** Seconds of silence a watcher waits for before it claims the pending work. */
  const DEBOUNCE: real := 2.0

  datatype Owner = Free | Watcher(id: nat) | Backend | Recheck

  /** Where a watcher is inside its event loop. */
  datatype Phase =
    | Waiting                              // blocked on the event stream
    | Deciding                             // holds the lock, looks at an event
    | Debouncing(stamp: real)              // polls the shared clock, no lock
    | Reacquiring(stamp: real)             // the quiet period is over, wants the lock
    | Checking(stamp: real)                // holds the lock, re-reads the shared state
    | Refreshing                           // holds the lock, work claimed
    | Refreshed(seen: nat, waiting: bool)  // holds the lock, state re-read

  /** A watcher: its program point and its local variable that mirrors the lock. */
  datatype WatcherState = WatcherState(phase: Phase, locked: bool)

  datatype BackendPhase =
    | Polling
    | Marking              // holds the lock, about to raise the flag
    | Triggering           // flag raised, wants the lock again
    | Examining            // holds the lock, looks at the flag
    | Reloading            // holds the lock, work claimed
    | Reloaded(seen: nat)  // holds the lock, state re-read

  /**
    The shared variables, the threads, and three history counters:
    `recorded` counts the demands ever raised (accepted events and recovered backends),
    `settled` how many of them the last complete refresh had seen when it started, and
    `dropped` how many had been raised when a refresh was last cut short by an exception.
    `deferred` remembers that the raised flag was left behind by the backend worker.
   */
  datatype State = State(
    now: real,
    owner: Owner,
    pending: bool,
    lastEvent: real,
    watchers: seq<WatcherState>,
    backend: BackendPhase,
    rechecking: bool,
    recorded: nat,
    settled: nat,
    dropped: nat,
    deferred: bool)

  datatype Step =
    | Tick(later: real)
    | Receive(i: nat)                  // event delivered, lock taken
    | Process(i: nat, accepted: bool)  // event rejected, or recorded
    | Elapse(i: nat)                   // unlocked poll finds the quiet period over
    | Relock(i: nat)
    | Check(i: nat)                    // hand over or claim
    | Refresh(i: nat, waiting: bool)   // re-read the orchestrator
    | Conclude(i: nat, needed: bool)   // unchanged, retry, or apply
    | Fail(i: nat)                     // an exception reaches the handler of the loop
    | BackendLock
    | BackendMark
    | BackendRelock
    | BackendExamine
    | BackendReload
    | BackendConclude(needed: bool, mustWait: bool)
    | BackendFail
    | RecheckLock
    | RecheckUnlock

  predicate Initial(s: State) {
    && s.owner == Free && !s.pending && s.lastEvent <= s.now
    && (forall i :: 0 <= i < |s.watchers| ==> s.watchers[i] == WatcherState(Waiting, false))
    && s.backend == Polling && !s.rechecking
    && s.recorded == 0 && s.settled == 0 && s.dropped == 0 && !s.deferred
  }

  predicate Enabled(s: State, step: Step) {
    match step
    case Tick(later) => s.now <= later
    case Receive(i) => i < |s.watchers| && s.watchers[i].phase.Waiting? && s.owner == Free
    case Process(i, _) => i < |s.watchers| && s.watchers[i].phase.Deciding?
    case Elapse(i) => i < |s.watchers| && s.watchers[i].phase.Debouncing? && !(s.now - s.lastEvent < DEBOUNCE)
    case Relock(i) => i < |s.watchers| && s.watchers[i].phase.Reacquiring? && s.owner == Free
    case Check(i) => i < |s.watchers| && s.watchers[i].phase.Checking?
    case Refresh(i, _) => i < |s.watchers| && s.watchers[i].phase.Refreshing?
    case Conclude(i, _) => i < |s.watchers| && s.watchers[i].phase.Refreshed?
    case Fail(i) => i < |s.watchers| && MayRaise(s.watchers[i].phase)
    case BackendLock => s.backend.Polling? && s.owner == Free
    case BackendMark => s.backend.Marking?
    case BackendRelock => s.backend.Triggering? && s.owner == Free
    case BackendExamine => s.backend.Examining?
    case BackendReload => s.backend.Reloading?
    case BackendConclude(_, _) => s.backend.Reloaded?
    case BackendFail => s.backend.Reloading? || s.backend.Reloaded?
    case RecheckLock => !s.rechecking && s.owner == Free
    case RecheckUnlock => s.rechecking
  }

  /** Points of the loop where a call into the orchestrator or the database may raise. */
  predicate MayRaise(p: Phase) {
    p.Waiting? || p.Deciding? || p.Refreshing? || p.Refreshed?
  }

  function SetPhase(s: State, i: nat, p: Phase): State
    requires i < |s.watchers|
  {
    s.(watchers := s.watchers[i := s.watchers[i].(phase := p)])
  }

  function Acquire(s: State, i: nat, p: Phase): State
    requires i < |s.watchers|
  {
    s.(owner := Watcher(i), watchers := s.watchers[i := WatcherState(p, true)])
  }

  function Release(s: State, i: nat, p: Phase): State
    requires i < |s.watchers|
  {
    s.(owner := Free, watchers := s.watchers[i := WatcherState(p, false)])
  }

  function Next(s: State, step: Step): State
    requires Enabled(s, step)
  {
    match step
    case Tick(later) => s.(now := later)
    case Receive(i) => Acquire(s, i, Deciding)
    case Process(i, accepted) =>
      if accepted then
        Release(s.(pending := true, lastEvent := s.now, recorded := s.recorded + 1), i, Debouncing(s.now))
      else
        Release(s, i, Waiting)
    case Elapse(i) => SetPhase(s, i, Reacquiring(s.watchers[i].phase.stamp))
    case Relock(i) => Acquire(s, i, Checking(s.watchers[i].phase.stamp))
    case Check(i) =>
      if s.now - s.lastEvent < DEBOUNCE then Release(s, i, Waiting)
      else if !s.pending then Release(s, i, Waiting)
      else SetPhase(s.(pending := false, deferred := false), i, Refreshing)
    case Refresh(i, waiting) => SetPhase(s, i, Refreshed(s.recorded, waiting))
    case Conclude(i, needed) =>
      var seen := s.watchers[i].phase.seen;
      if !needed then Release(s.(settled := seen), i, Waiting)
      else if s.watchers[i].phase.waiting then SetPhase(s, i, Refreshing)
      else Release(s.(settled := seen), i, Waiting)
    case Fail(i) =>
      // The handler releases the lock exactly when the local variable says it is held.
      var s' := if s.watchers[i].phase.Refreshing? || s.watchers[i].phase.Refreshed? then s.(dropped := s.recorded) else s;
      if s.watchers[i].locked then Release(s', i, Waiting) else SetPhase(s', i, Waiting)
    case BackendLock => s.(owner := Backend, backend := Marking)
    case BackendMark =>
      s.(pending := true, lastEvent := s.now - DEBOUNCE - 1.0, recorded := s.recorded + 1,
         owner := Free, backend := Triggering)
    case BackendRelock => s.(owner := Backend, backend := Examining)
    case BackendExamine =>
      if !s.pending then s.(owner := Free, backend := Polling)
      else s.(pending := false, deferred := false, backend := Reloading)
    case BackendReload => s.(backend := Reloaded(s.recorded))
    case BackendConclude(needed, mustWait) =>
      if needed && mustWait then
        s.(pending := true, lastEvent := s.now, deferred := true, owner := Free, backend := Polling)
      else
        s.(settled := s.backend.seen, owner := Free, backend := Polling)
    case BackendFail => s.(dropped := s.recorded, owner := Free, backend := Polling)
    case RecheckLock => s.(owner := Recheck, rechecking := true)
    case RecheckUnlock => s.(owner := Free, rechecking := false)
  }

  /** A schedule is any finite list of steps, each enabled where it is taken. */
  predicate Schedule(s: State, steps: seq<Step>)
    decreases |steps|
  {
    steps == [] || (Enabled(s, steps[0]) && Schedule(Next(s, steps[0]), steps[1..]))
  }

  function Execute(s: State, steps: seq<Step>): State
    requires Schedule(s, steps)
    decreases |steps|
  {
    if steps == [] then s else Execute(Next(s, steps[0]), steps[1..])
  }

  // ------------------------------------------------------------ the invariant

  predicate InCriticalSection(p: Phase) {
    p.Deciding? || p.Checking? || p.Refreshing? || p.Refreshed?
  }

  predicate BackendInside(b: BackendPhase) {
    b.Marking? || b.Examining? || b.Reloading? || b.Reloaded?
  }

  /** The lock belongs to exactly the thread that is inside a critical section. */
  ghost predicate LockDiscipline(s: State) {
    && (forall i :: 0 <= i < |s.watchers| ==>
          && s.watchers[i].locked == (s.owner == Watcher(i))
          && s.watchers[i].locked == InCriticalSection(s.watchers[i].phase))
    && (s.owner == Backend <==> BackendInside(s.backend))
    && (s.owner == Recheck <==> s.rechecking)
    && (s.owner.Watcher? ==> s.owner.id < |s.watchers|)
  }

  /** Watcher `i` will not hand the pending work over without a successor. */
  predicate Responsible(s: State, i: nat) {
    && i < |s.watchers|
    && var p := s.watchers[i].phase;
       || (p.Debouncing? && s.lastEvent <= p.stamp)
       || ((p.Reacquiring? || p.Checking?) && s.lastEvent <= p.stamp && DEBOUNCE <= s.now - s.lastEvent)
  }

  ghost predicate SomeoneResponsible(s: State) {
    exists i :: Responsible(s, i)
  }

  predicate BackendResponsible(s: State) {
    s.backend.Triggering? || s.backend.Examining?
  }

  /** Some thread has claimed the work and still holds the lock. */
  predicate Handling(s: State) {
    || (s.owner.Watcher? && s.owner.id < |s.watchers| &&
        (s.watchers[s.owner.id].phase.Refreshing? || s.watchers[s.owner.id].phase.Refreshed?))
    || s.backend.Reloading? || s.backend.Reloaded?
  }

  function Covered(s: State): nat {
    if s.settled < s.dropped then s.dropped else s.settled
  }

  ghost predicate PendingOwned(s: State) {
    && s.lastEvent <= s.now
    && (s.pending ==> s.deferred || BackendResponsible(s) || SomeoneResponsible(s))
  }

  /** A demand is uncovered exactly while the flag is up or a thread works on it. */
  ghost predicate Balanced(s: State) {
    && Covered(s) <= s.recorded
    && (Covered(s) < s.recorded <==> s.pending || Handling(s))
    && !(s.pending && Handling(s))
    && (s.deferred ==> s.pending)
  }

  ghost predicate SnapshotsFresh(s: State) {
    && (forall i :: 0 <= i < |s.watchers| && s.watchers[i].phase.Refreshed? ==> s.watchers[i].phase.seen == s.recorded)
    && (s.backend.Reloaded? ==> s.backend.seen == s.recorded)
  }

  ghost predicate Invariant(s: State) {
    LockDiscipline(s) && PendingOwned(s) && Balanced(s) && SnapshotsFresh(s)
  }

  lemma InitialInvariant(s: State)
    requires Initial(s)
    ensures Invariant(s)
  {
  }

  /** What a step keeps of a responsible watcher that does not take part in it. */
  lemma BystanderStaysResponsible(s: State, step: Step, k: nat)
    requires LockDiscipline(s) && s.lastEvent <= s.now && Enabled(s, step) && Responsible(s, k)
    requires !(step.Process? && step.accepted) && !(step.BackendConclude? && step.needed && step.mustWait)
    requires !step.BackendMark? && !((step.Elapse? || step.Relock? || step.Check?) && step.i == k)
    ensures Responsible(Next(s, step), k)
  {
  }

  lemma PendingStaysOwned(s: State, step: Step)
    requires LockDiscipline(s) && PendingOwned(s) && Enabled(s, step)
    ensures PendingOwned(Next(s, step))
  {
    var s' := Next(s, step);
    if s'.pending && !s'.deferred && !BackendResponsible(s') {
      if step.Process? && step.accepted {
        assert Responsible(s', step.i);
      } else {
        assert s.pending && !s.deferred && !BackendResponsible(s);
        var k :| Responsible(s, k);
        if (step.Elapse? || step.Relock? || step.Check?) && step.i == k {
          assert Responsible(s', k);
        } else {
          BystanderStaysResponsible(s, step, k);
        }
      }
    }
  }

  /** Steps of the watchers, as opposed to the clock and the two workers. */
  predicate WatcherStep(step: Step) {
    || step.Receive? || step.Process? || step.Elapse? || step.Relock? || step.Check? || step.Refresh? || step.Conclude?
    || step.Fail?
  }

  lemma LockAt(s: State, i: nat)
    requires LockDiscipline(s) && i < |s.watchers|
    ensures s.watchers[i].locked == (s.owner == Watcher(i)) == InCriticalSection(s.watchers[i].phase)
  {
  }

  lemma LockIgnoresTheRest(s: State, t: State)
    requires LockDiscipline(s)
    requires t.owner == s.owner && t.watchers == s.watchers && t.backend == s.backend && t.rechecking == s.rechecking
    ensures LockDiscipline(t)
  {
  }

  lemma AcquireKeepsLock(s: State, i: nat, p: Phase)
    requires LockDiscipline(s) && i < |s.watchers| && s.owner == Free && InCriticalSection(p)
    ensures LockDiscipline(Acquire(s, i, p))
  {
    hide InCriticalSection;
  }

  lemma ReleaseKeepsLock(s: State, i: nat, p: Phase)
    requires LockDiscipline(s) && i < |s.watchers| && s.owner == Watcher(i) && !InCriticalSection(p)
    ensures LockDiscipline(Release(s, i, p))
  {
    hide InCriticalSection;
    forall j | 0 <= j < |s.watchers| && j != i ensures !s.watchers[j].locked { LockAt(s, j); }
  }

  lemma SetPhaseKeepsLock(s: State, i: nat, p: Phase)
    requires LockDiscipline(s) && i < |s.watchers|
    requires InCriticalSection(p) == InCriticalSection(s.watchers[i].phase)
    ensures LockDiscipline(SetPhase(s, i, p))
  {
    hide InCriticalSection;
    LockAt(s, i);
  }

  lemma WatcherKeepsLock(s: State, step: Step)
    requires LockDiscipline(s) && Enabled(s, step) && WatcherStep(step)
    ensures LockDiscipline(Next(s, step))
  {
    hide LockDiscipline;
    LockAt(s, step.i);
    match step {
      case Receive(i) => AcquireKeepsLock(s, i, Deciding);
      case Process(i, accepted) =>
        var t := s.(pending := true, lastEvent := s.now, recorded := s.recorded + 1);
        LockIgnoresTheRest(s, t);
        if accepted { ReleaseKeepsLock(t, i, Debouncing(s.now)); } else { ReleaseKeepsLock(s, i, Waiting); }
      case Elapse(i) => SetPhaseKeepsLock(s, i, Reacquiring(s.watchers[i].phase.stamp));
      case Relock(i) => AcquireKeepsLock(s, i, Checking(s.watchers[i].phase.stamp));
      case Check(i) =>
        var t := s.(pending := false, deferred := false);
        LockIgnoresTheRest(s, t);
        ReleaseKeepsLock(s, i, Waiting);
        SetPhaseKeepsLock(t, i, Refreshing);
      case Refresh(i, waiting) => SetPhaseKeepsLock(s, i, Refreshed(s.recorded, waiting));
      case Conclude(i, needed) =>
        var t := s.(settled := s.watchers[i].phase.seen);
        LockIgnoresTheRest(s, t);
        ReleaseKeepsLock(t, i, Waiting);
        SetPhaseKeepsLock(s, i, Refreshing);
      case Fail(i) =>
        var t := s.(dropped := s.recorded);
        LockIgnoresTheRest(s, t);
        if s.watchers[i].locked {
          ReleaseKeepsLock(s, i, Waiting);
          ReleaseKeepsLock(t, i, Waiting);
        } else {
          SetPhaseKeepsLock(s, i, Waiting);
        }
    }
  }

  lemma WorkerKeepsLock(s: State, step: Step)
    requires LockDiscipline(s) && Enabled(s, step) && !WatcherStep(step)
    ensures LockDiscipline(Next(s, step))
  {
  }

  lemma WatcherKeepsBalance(s: State, step: Step)
    requires LockDiscipline(s) && Balanced(s) && SnapshotsFresh(s) && Enabled(s, step) && WatcherStep(step)
    ensures Balanced(Next(s, step))
  {
    assert s.watchers[step.i].locked == (s.owner == Watcher(step.i));
  }

  lemma WorkerKeepsBalance(s: State, step: Step)
    requires LockDiscipline(s) && Balanced(s) && SnapshotsFresh(s) && Enabled(s, step) && !WatcherStep(step)
    ensures Balanced(Next(s, step))
  {
  }

  lemma SnapshotsStayFresh(s: State, step: Step)
    requires LockDiscipline(s) && SnapshotsFresh(s) && Enabled(s, step)
    ensures SnapshotsFresh(Next(s, step))
  {
    hide LockDiscipline, Enabled, Next;
    forall j | 0 <= j < |Next(s, step).watchers| && Next(s, step).watchers[j].phase.Refreshed?
      ensures Next(s, step).watchers[j].phase.seen == Next(s, step).recorded
    {
      WatchersStay(s, step);
      SnapshotStaysFresh(s, step, j);
    }
    BackendSnapshotStaysFresh(s, step);
  }

  lemma WatchersStay(s: State, step: Step)
    requires Enabled(s, step)
    ensures |Next(s, step).watchers| == |s.watchers|
  {
  }

  lemma SnapshotStaysFresh(s: State, step: Step, j: nat)
    requires LockDiscipline(s) && SnapshotsFresh(s) && Enabled(s, step) && j < |s.watchers|
    ensures var s' := Next(s, step);
            && |s'.watchers| == |s.watchers|
            && (s'.watchers[j].phase.Refreshed? ==> s'.watchers[j].phase.seen == s'.recorded)
  {
    hide LockDiscipline;
    LockAt(s, j);
    if WatcherStep(step) { LockAt(s, step.i); }
    if step.BackendMark? { BackendAt(s); }
  }

  lemma BackendAt(s: State)
    requires LockDiscipline(s)
    ensures s.owner == Backend <==> BackendInside(s.backend)
  {
  }

  lemma BackendSnapshotStaysFresh(s: State, step: Step)
    requires LockDiscipline(s) && SnapshotsFresh(s) && Enabled(s, step)
    ensures Next(s, step).backend.Reloaded? ==> Next(s, step).backend.seen == Next(s, step).recorded
  {
    hide LockDiscipline;
    BackendAt(s);
    if WatcherStep(step) { LockAt(s, step.i); }
  }

  lemma StepKeepsInvariant(s: State, step: Step)
    requires Invariant(s) && Enabled(s, step)
    ensures Invariant(Next(s, step))
  {
    hide LockDiscipline, PendingOwned, Balanced, SnapshotsFresh, Enabled, Next;
    PendingStaysOwned(s, step);
    SnapshotsStayFresh(s, step);
    if WatcherStep(step) {
      WatcherKeepsLock(s, step);
      WatcherKeepsBalance(s, step);
    } else {
      WorkerKeepsLock(s, step);
      WorkerKeepsBalance(s, step);
    }
  }

  lemma {:induction false} RunKeepsInvariant(s: State, steps: seq<Step>)
    requires Invariant(s) && Schedule(s, steps)
    ensures Invariant(Execute(s, steps))
    decreases |steps|
  {
    hide Invariant, Next;
    if steps != [] {
      StepKeepsInvariant(s, steps[0]);
      RunKeepsInvariant(Next(s, steps[0]), steps[1..]);
    }
  }

  // --------------------------------------------------------------- the results

  /** No thread is between accepting an event and giving its work away or finishing it. */
  predicate Quiescent(s: State) {
    && (forall i :: 0 <= i < |s.watchers| ==> s.watchers[i].phase.Waiting?)
    && s.backend.Polling?
  }

  /** Some demand was raised after the last complete refresh began, and no exception dropped it. */
  predicate Outstanding(s: State) {
    Covered(s) < s.recorded
  }

  /**
    No accepted event is lost, under any interleaving: once all threads are idle, a demand is
    outstanding exactly when the flag is still up, which is exactly when the backend worker
    put it back because the scheduler was busy.
   */
  lemma NoEventLost(s0: State, steps: seq<Step>)
    requires Initial(s0) && Schedule(s0, steps)
    ensures var s := Execute(s0, steps);
            Quiescent(s) ==> (Outstanding(s) <==> s.pending) && (s.pending <==> s.deferred)
  {
    InitialInvariant(s0);
    RunKeepsInvariant(s0, steps);
  }

  /** No external call fails: the runs the protocol is meant for. */
  predicate NothingFails(steps: seq<Step>) {
    forall k :: 0 <= k < |steps| ==> !steps[k].Fail? && !steps[k].BackendFail?
  }

  /** The backend worker never has to put the flag back because the scheduler is busy. */
  predicate NothingDeferred(steps: seq<Step>) {
    forall k :: 0 <= k < |steps| ==> steps[k] != BackendConclude(true, true)
  }

  lemma {:induction false} DropsComeFromFailures(s: State, steps: seq<Step>)
    requires Schedule(s, steps) && NothingFails(steps)
    ensures Execute(s, steps).dropped == s.dropped
    decreases |steps|
  {
    if steps != [] { DropsComeFromFailures(Next(s, steps[0]), steps[1..]); }
  }

  lemma {:induction false} DeferralsComeFromTheBackend(s: State, steps: seq<Step>)
    requires Schedule(s, steps) && NothingDeferred(steps) && !s.deferred
    ensures !Execute(s, steps).deferred
    decreases |steps|
  {
    if steps != [] {
      assert steps[0] != BackendConclude(true, true);
      DeferralsComeFromTheBackend(Next(s, steps[0]), steps[1..]);
    }
  }

  /**
    Without exceptions, and with the backend and recheck workers at work: whenever all threads are
    idle, the last refresh that completed began after every accepted event if and only if the
    backend worker has not put the flag back.
   */
  lemma LastRefreshSawEveryEventIff(s0: State, steps: seq<Step>)
    requires Initial(s0) && Schedule(s0, steps) && NothingFails(steps)
    ensures var s := Execute(s0, steps);
            Quiescent(s) ==> (s.settled == s.recorded <==> !s.deferred)
  {
    NoEventLost(s0, steps);
    DropsComeFromFailures(s0, steps);
    InitialInvariant(s0);
    RunKeepsInvariant(s0, steps);
  }

  /** In runs in which it never does, every accepted event has been seen and no work is pending. */
  lemma LastRefreshSawEveryEvent(s0: State, steps: seq<Step>)
    requires Initial(s0) && Schedule(s0, steps) && NothingFails(steps) && NothingDeferred(steps)
    ensures var s := Execute(s0, steps);
            Quiescent(s) ==> s.settled == s.recorded && !s.pending
  {
    LastRefreshSawEveryEventIff(s0, steps);
    NoEventLost(s0, steps);
    DeferralsComeFromTheBackend(s0, steps);
  }

  /** The orchestrator is re-read and applied by at most one thread, and that thread owns the lock. */
  lemma RefreshIsExclusive(s0: State, steps: seq<Step>, i: nat, j: nat)
    requires Initial(s0) && Schedule(s0, steps)
    requires i < |Execute(s0, steps).watchers| && j < |Execute(s0, steps).watchers|
    requires InCriticalSection(Execute(s0, steps).watchers[i].phase)
    ensures var s := Execute(s0, steps);
            && s.owner == Watcher(i) && s.watchers[i].locked
            && (InCriticalSection(s.watchers[j].phase) ==> i == j)
            && !BackendInside(s.backend) && !s.rechecking
  {
    InitialInvariant(s0);
    RunKeepsInvariant(s0, steps);
  }

  /** The local variable `locked` of a watcher never disagrees with the ownership of the lock. */
  lemma LockedMirrorsOwnership(s0: State, steps: seq<Step>, i: nat)
    requires Initial(s0) && Schedule(s0, steps) && i < |Execute(s0, steps).watchers|
    ensures var s := Execute(s0, steps); s.watchers[i].locked <==> s.owner == Watcher(i)
  {
    InitialInvariant(s0);
    RunKeepsInvariant(s0, steps);
  }

  // ------------------------------------------------------ progress and the gap

  /** The steps that take a responsible watcher from where it is to the end of a refresh. */
  function Discharge(s: State, i: nat): seq<Step>
    requires Responsible(s, i)
  {
    var finish := [Refresh(i, false), Conclude(i, false)];
    match s.watchers[i].phase
    case Debouncing(_) => [Tick(s.now + DEBOUNCE), Elapse(i), Relock(i), Check(i)] + finish
    case Reacquiring(_) => [Relock(i), Check(i)] + finish
    case _ => [Check(i)] + finish
  }

  lemma ScheduleStep(s: State, step: Step, rest: seq<Step>)
    requires Enabled(s, step) && Schedule(Next(s, step), rest)
    ensures Schedule(s, [step] + rest)
    ensures Execute(s, [step] + rest) == Execute(Next(s, step), rest)
  {
    assert ([step] + rest)[1..] == rest;
  }

  lemma NoSteps(s: State)
    ensures Schedule(s, []) && Execute(s, []) == s
  {
  }

  lemma FinishSettles(s: State, i: nat)
    requires Invariant(s) && i < |s.watchers| && s.watchers[i].phase.Refreshing?
    ensures Schedule(s, [Refresh(i, false), Conclude(i, false)])
    ensures var t := Execute(s, [Refresh(i, false), Conclude(i, false)]);
            t.settled == t.recorded == s.recorded && !t.pending
  {
    var s1 := Next(s, Refresh(i, false));
    var s2 := Next(s1, Conclude(i, false));
    assert Schedule(s2, []);
    ScheduleStep(s1, Conclude(i, false), []);
    assert [Conclude(i, false)] + [] == [Conclude(i, false)];
    ScheduleStep(s, Refresh(i, false), [Conclude(i, false)]);
    assert [Refresh(i, false)] + [Conclude(i, false)] == [Refresh(i, false), Conclude(i, false)];
  }

  lemma CheckClaims(s: State, i: nat)
    requires Invariant(s) && s.pending && Responsible(s, i) && s.watchers[i].phase.Checking?
    ensures var steps := [Check(i)] + [Refresh(i, false), Conclude(i, false)];
            && Schedule(s, steps)
            && Execute(s, steps).settled == Execute(s, steps).recorded == s.recorded
            && !Execute(s, steps).pending
  {
    var s1 := Next(s, Check(i));
    StepKeepsInvariant(s, Check(i));
    FinishSettles(s1, i);
    ScheduleStep(s, Check(i), [Refresh(i, false), Conclude(i, false)]);
  }

  lemma RelockClaims(s: State, i: nat)
    requires Invariant(s) && s.pending && Responsible(s, i) && s.watchers[i].phase.Reacquiring? && s.owner == Free
    ensures var steps := [Relock(i), Check(i)] + [Refresh(i, false), Conclude(i, false)];
            && Schedule(s, steps)
            && Execute(s, steps).settled == Execute(s, steps).recorded == s.recorded
            && !Execute(s, steps).pending
  {
    var s1 := Next(s, Relock(i));
    StepKeepsInvariant(s, Relock(i));
    CheckClaims(s1, i);
    var rest := [Check(i)] + [Refresh(i, false), Conclude(i, false)];
    ScheduleStep(s, Relock(i), rest);
    assert [Relock(i)] + rest == [Relock(i), Check(i)] + [Refresh(i, false), Conclude(i, false)];
  }

  lemma ElapseClaims(s: State, i: nat)
    requires Invariant(s) && s.pending && Responsible(s, i) && s.watchers[i].phase.Debouncing? && s.owner == Free
    requires DEBOUNCE <= s.now - s.lastEvent
    ensures var steps := [Elapse(i)] + ([Relock(i), Check(i)] + [Refresh(i, false), Conclude(i, false)]);
            && Schedule(s, steps)
            && Execute(s, steps).settled == Execute(s, steps).recorded == s.recorded
            && !Execute(s, steps).pending
  {
    hide Schedule, Execute, Invariant;
    var s1 := Next(s, Elapse(i));
    StepKeepsInvariant(s, Elapse(i));
    RelockClaims(s1, i);
    ScheduleStep(s, Elapse(i), [Relock(i), Check(i)] + [Refresh(i, false), Conclude(i, false)]);
  }

  lemma DebouncingClaims(s: State, i: nat)
    requires Invariant(s) && s.pending && Responsible(s, i) && s.watchers[i].phase.Debouncing? && s.owner == Free
    ensures Schedule(s, Discharge(s, i))
    ensures var t := Execute(s, Discharge(s, i)); t.settled == t.recorded == s.recorded && !t.pending
  {
    hide Schedule, Execute, Invariant;
    assert s.lastEvent <= s.now by { TimeIsPast(s); }
    var tick := Tick(s.now + DEBOUNCE);
    StepKeepsInvariant(s, tick);
    ElapseClaims(Next(s, tick), i);
    var rest := [Elapse(i)] + ([Relock(i), Check(i)] + [Refresh(i, false), Conclude(i, false)]);
    ScheduleStep(s, tick, rest);
    assert [tick] + rest == Discharge(s, i);
  }

  lemma TimeIsPast(s: State)
    requires Invariant(s)
    ensures s.lastEvent <= s.now
  {
  }

  lemma ResponsibleWatcherFinishes(s: State, i: nat)
    requires Invariant(s) && s.pending && s.owner == Free && Responsible(s, i)
    ensures Schedule(s, Discharge(s, i))
    ensures var t := Execute(s, Discharge(s, i)); t.settled == t.recorded == s.recorded && !t.pending
  {
    hide Schedule, Execute, Invariant;
    if s.watchers[i].phase.Reacquiring? {
      RelockClaims(s, i);
    } else if s.watchers[i].phase.Debouncing? {
      DebouncingClaims(s, i);
    } else {
      CheckClaims(s, i);
    }
  }

  /** A run continued by a second one. */
  lemma {:induction false} ScheduleConcat(s: State, first: seq<Step>, second: seq<Step>)
    requires Schedule(s, first) && Schedule(Execute(s, first), second)
    ensures Schedule(s, first + second)
    ensures Execute(s, first + second) == Execute(Execute(s, first), second)
    decreases |first|
  {
    if first == [] {
      assert first + second == second;
    } else {
      ScheduleConcat(Next(s, first[0]), first[1..], second);
      assert (first + second)[1..] == first[1..] + second;
    }
  }

  /**
    The hand-over never deadlocks: whenever a run has left work pending that was not deferred and
    that the backend worker is not about to look at, and the lock is free, then one watcher can
    settle all recorded events by its own steps, with no further event and no help from the others.
   */
  lemma PendingWorkCanFinish(s0: State, steps: seq<Step>) returns (i: nat)
    requires Initial(s0) && Schedule(s0, steps)
    requires var s := Execute(s0, steps); s.pending && !s.deferred && !BackendResponsible(s) && s.owner == Free
    ensures Responsible(Execute(s0, steps), i) && Schedule(s0, steps + Discharge(Execute(s0, steps), i))
    ensures var t := Execute(s0, steps + Discharge(Execute(s0, steps), i));
            t.settled == t.recorded == Execute(s0, steps).recorded && !t.pending
  {
    InitialInvariant(s0);
    RunKeepsInvariant(s0, steps);
    var s := Execute(s0, steps);
    i :| Responsible(s, i);
    ResponsibleWatcherFinishes(s, i);
    ScheduleConcat(s0, steps, Discharge(s, i));
  }

  /** The steps by which threads end what they are at: no new event, nothing fails, nothing is deferred. */
  predicate WindsDown(step: Step) {
    && !step.Receive? && !step.BackendLock? && !step.RecheckLock? && !step.Fail? && !step.BackendFail?
    && !(step.Process? && step.accepted) && step != BackendConclude(true, true)
  }

  function WatcherRank(p: Phase): nat {
    match p
    case Waiting => 0
    case Deciding => 1
    case Debouncing(_) => 5
    case Reacquiring(_) => 4
    case Checking(_) => 3
    case Refreshing => 2
    case Refreshed(_, _) => 1
  }

  function BackendRank(b: BackendPhase): nat {
    match b
    case Polling => 0
    case Marking => 5
    case Triggering => 4
    case Examining => 3
    case Reloading => 2
    case Reloaded(_) => 1
  }

  function WatchersRank(ws: seq<WatcherState>): nat {
    if ws == [] then 0 else WatchersRank(ws[..|ws| - 1]) + WatcherRank(ws[|ws| - 1].phase)
  }

  /** How many steps the threads are away from rest, at most. */
  function Rank(s: State): nat {
    WatchersRank(s.watchers) + BackendRank(s.backend) + (if s.rechecking then 1 else 0)
    + (if s.now - s.lastEvent < DEBOUNCE then 1 else 0)
  }

  lemma {:induction false} RankOfUpdate(ws: seq<WatcherState>, i: nat, w: WatcherState)
    requires i < |ws|
    ensures WatchersRank(ws[i := w]) + WatcherRank(ws[i].phase) == WatchersRank(ws) + WatcherRank(w.phase)
  {
    hide WatcherRank;
    var last := |ws| - 1;
    if i < last {
      RankOfUpdate(ws[..last], i, w);
      assert ws[i := w][..last] == ws[..last][i := w];
    } else {
      assert ws[i := w][..last] == ws[..last];
    }
  }

  predicate AtRest(s: State) {
    Quiescent(s) && s.owner == Free
  }

  /** The watcher that owns the lock has a step that ends what it is at. */
  lemma OwnerMoves(s: State) returns (step: Step)
    requires LockDiscipline(s) && s.owner.Watcher?
    ensures Enabled(s, step) && WindsDown(step) && Rank(Next(s, step)) < Rank(s)
  {
    hide WatchersRank;
    var i := s.owner.id;
    LockAt(s, i);
    step := match s.watchers[i].phase
      case Deciding => Process(i, false)
      case Checking(_) => Check(i)
      case Refreshing => Refresh(i, false)
      case _ => Conclude(i, false);
    RankOfUpdate(s.watchers, i, Next(s, step).watchers[i]);
  }

  lemma WorkerMoves(s: State) returns (step: Step)
    requires LockDiscipline(s) && (s.owner == Backend || s.owner == Recheck)
    ensures Enabled(s, step) && WindsDown(step) && Rank(Next(s, step)) < Rank(s)
  {
    hide WatchersRank;
    if s.owner == Recheck {
      step := RecheckUnlock;
    } else {
      step := match s.backend
        case Marking => BackendMark
        case Examining => BackendExamine
        case Reloading => BackendReload
        case _ => BackendConclude(false, false);
    }
  }

  /** With the lock free, whoever wants it can take it, or time can pass for those who wait for silence. */
  lemma FreeLockMoves(s: State) returns (step: Step)
    requires LockDiscipline(s) && s.owner == Free && !Quiescent(s)
    ensures Enabled(s, step) && WindsDown(step) && Rank(Next(s, step)) < Rank(s)
  {
    hide WatchersRank;
    if s.backend.Triggering? {
      step := BackendRelock;
    } else {
      var i :| 0 <= i < |s.watchers| && !s.watchers[i].phase.Waiting?;
      LockAt(s, i);
      if s.watchers[i].phase.Reacquiring? {
        step := Relock(i);
        RankOfUpdate(s.watchers, i, Next(s, step).watchers[i]);
      } else if s.now - s.lastEvent < DEBOUNCE {
        step := Tick(s.lastEvent + DEBOUNCE);
      } else {
        step := Elapse(i);
        RankOfUpdate(s.watchers, i, Next(s, step).watchers[i]);
      }
    }
  }

  lemma {:induction false} RestIsReached(s: State) returns (more: seq<Step>)
    requires Invariant(s)
    ensures Schedule(s, more) && AtRest(Execute(s, more)) && forall k :: 0 <= k < |more| ==> WindsDown(more[k])
    decreases Rank(s)
  {
    hide Schedule, Execute, Enabled, Next, Rank, Quiescent, WindsDown, PendingOwned, Balanced, SnapshotsFresh,
         LockDiscipline;
    if AtRest(s) {
      NoSteps(s);
      more := [];
    } else {
      var step;
      if s.owner.Watcher? {
        step := OwnerMoves(s);
      } else if s.owner == Free {
        step := FreeLockMoves(s);
      } else {
        step := WorkerMoves(s);
      }
      StepKeepsInvariant(s, step);
      var rest := RestIsReached(Next(s, step));
      ScheduleStep(s, step, rest);
      more := [step] + rest;
    }
  }

  function Unrecorded(s: State): nat {
    if s.backend.Marking? then 1 else 0
  }

  lemma {:induction false} WindingDownRecordsNothing(s: State, steps: seq<Step>)
    requires Schedule(s, steps) && forall k :: 0 <= k < |steps| ==> WindsDown(steps[k])
    ensures var t := Execute(s, steps); t.recorded + Unrecorded(t) == s.recorded + Unrecorded(s)
    decreases |steps|
  {
    if steps != [] {
      assert WindsDown(steps[0]);
      OneStepRecordsNothing(s, steps[0]);
      WindingDownRecordsNothing(Next(s, steps[0]), steps[1..]);
    }
  }

  lemma OneStepRecordsNothing(s: State, step: Step)
    requires Enabled(s, step) && WindsDown(step)
    ensures Next(s, step).recorded + Unrecorded(Next(s, step)) == s.recorded + Unrecorded(s)
  {
  }

  /**
    From every reachable state the threads can come to rest by ending what they are at, without a
    new event: the lock is free then, and everything recorded is settled or dropped as it was before,
    but for what the backend worker had deferred. A backend it is about to report is the only
    demand that can be recorded on the way.
   */
  lemma EveryRunCanRest(s0: State, steps: seq<Step>) returns (more: seq<Step>)
    requires Initial(s0) && Schedule(s0, steps)
    ensures Schedule(s0, steps + more) && forall k :: 0 <= k < |more| ==> WindsDown(more[k])
    ensures var s, t := Execute(s0, steps), Execute(s0, steps + more);
            && Quiescent(t) && t.owner == Free && !t.rechecking
            && t.recorded == s.recorded + Unrecorded(s) && t.dropped == s.dropped
            && (Outstanding(t) <==> t.deferred) && (t.pending <==> t.deferred) && (t.deferred ==> s.deferred)
  {
    hide Schedule, Execute, Enabled, Next, PendingOwned, Balanced, SnapshotsFresh;
    InitialInvariant(s0);
    RunKeepsInvariant(s0, steps);
    var s := Execute(s0, steps);
    more := RestIsReached(s);
    ScheduleConcat(s0, steps, more);
    RunKeepsInvariant(s0, steps + more);
    NoEventLost(s0, steps + more);
    WindingDownRecordsNothing(s, more);
    DropsComeFromFailures(s, more);
    if !s.deferred { DeferralsComeFromTheBackend(s, more); }
  }

  /** A watcher accepts an event and sits out the quiet period, undisturbed. */
  lemma OneEventDebounced(s: State) returns (steps: seq<Step>)
    requires Initial(s) && |s.watchers| == 1
    ensures Schedule(s, steps) && 2 <= |steps| && steps[1] == Process(0, true)
    ensures var t := Execute(s, steps);
            && t.owner == Free && t.backend == Polling && t.recorded == 1 && t.settled == t.dropped == 0
            && |t.watchers| == 1 && t.watchers[0].phase.Reacquiring?
  {
    var s1 := Next(s, Receive(0));
    var s2 := Next(s1, Process(0, true));
    var tick := Tick(s2.now + DEBOUNCE);
    var s3 := Next(s2, tick);
    ScheduleStep(s3, Elapse(0), []);
    ScheduleStep(s2, tick, [Elapse(0)] + []);
    var rest := [tick] + ([Elapse(0)] + []);
    ScheduleStep(s1, Process(0, true), rest);
    steps := [Receive(0)] + ([Process(0, true)] + rest);
    ScheduleStep(s, Receive(0), [Process(0, true)] + rest);
    assert steps[1] == Process(0, true);
  }

  /** The backend worker re-reads everything, finds a change and a busy scheduler. */
  lemma BackendPutsFlagBack(s: State) returns (steps: seq<Step>)
    requires s.owner == Backend && s.backend == Reloading && Outstanding(s)
    ensures Schedule(s, steps)
    ensures var t := Execute(s, steps);
            t == s.(pending := true, lastEvent := s.now, deferred := true, owner := Free, backend := Polling)
  {
    hide Schedule, Execute;
    var s1 := Next(s, BackendReload);
    NoSteps(Next(s1, BackendConclude(true, true)));
    ScheduleStep(s1, BackendConclude(true, true), []);
    var rest := [BackendConclude(true, true)] + [];
    ScheduleStep(s, BackendReload, rest);
    steps := [BackendReload] + rest;
  }

  /** The backend worker raises the flag, claims it and defers. */
  lemma BackendDefers(s: State) returns (steps: seq<Step>)
    requires s.owner == Free && s.backend == Polling && Outstanding(s)
    ensures Schedule(s, steps)
    ensures var t := Execute(s, steps);
            && t.owner == Free && t.backend == Polling && t.watchers == s.watchers
            && Outstanding(t) && t.lastEvent == t.now
  {
    hide Schedule, Execute;
    var s1 := Next(s, BackendLock);
    var s2 := Next(s1, BackendMark);
    var s3 := Next(s2, BackendRelock);
    var r4 := BackendPutsFlagBack(Next(s3, BackendExamine));
    ScheduleStep(s3, BackendExamine, r4);
    ScheduleStep(s2, BackendRelock, [BackendExamine] + r4);
    ScheduleStep(s1, BackendMark, [BackendRelock] + ([BackendExamine] + r4));
    steps := [BackendLock] + ([BackendMark] + ([BackendRelock] + ([BackendExamine] + r4)));
    ScheduleStep(s, BackendLock, [BackendMark] + ([BackendRelock] + ([BackendExamine] + r4)));
  }

  lemma WatcherGivesUp(s: State) returns (steps: seq<Step>)
    requires s.owner == Free && s.backend == Polling && s.lastEvent == s.now
    requires |s.watchers| == 1 && s.watchers[0].phase.Reacquiring? && Outstanding(s)
    ensures Schedule(s, steps) && Quiescent(Execute(s, steps)) && Outstanding(Execute(s, steps))
  {
    var s1 := Next(s, Relock(0));
    ScheduleStep(s1, Check(0), []);
    steps := [Relock(0)] + ([Check(0)] + []);
    ScheduleStep(s, Relock(0), [Check(0)] + []);
  }

  /**
    The deferral is a real gap: one watcher accepts an event and sits out the quiet period, the
    backend worker claims the flag meanwhile and puts it back with a fresh time because the
    scheduler is busy, and the watcher then gives up.  Everybody is idle and the event is outstanding.
   */
  lemma DeferralLeavesAnEventBehind(s0: State) returns (steps: seq<Step>)
    requires Initial(s0) && |s0.watchers| == 1
    ensures Schedule(s0, steps) && (exists k :: 0 <= k < |steps| && steps[k] == Process(0, true))
    ensures Quiescent(Execute(s0, steps)) && Outstanding(Execute(s0, steps))
  {
    var accept := OneEventDebounced(s0);
    var defer := BackendDefers(Execute(s0, accept));
    ScheduleConcat(s0, accept, defer);
    var giveUp := WatcherGivesUp(Execute(s0, accept + defer));
    ScheduleConcat(s0, accept + defer, giveUp);
    steps := accept + defer + giveUp;
    assert steps[1] == Process(0, true);
  }
}
