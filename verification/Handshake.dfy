/**
  The hand-over of a configuration from autoconf to the scheduler through the change flags
  of the database.

  Autoconf waits until no flag is up, saves each changed kind of data in a transaction of its
  own and raises the flags of all of them in a last transaction.  The scheduler polls the
  flags, reads every kind that the flags ask for, and clears the flags of what it read.  Its
  first pass is different: it reads everything without looking at a flag, and clears with an
  empty list of changes, which the database takes to mean every flag.
 */
module Handshake {

  datatype Kind = Instances | CustomConfigs | ExternalPlugins | ProPlugins | PluginsConfig

  const EVERY_KIND: seq<Kind> := [Instances, CustomConfigs, ExternalPlugins, ProPlugins, PluginsConfig]
  const ALL: set<Kind> := {Instances, CustomConfigs, ExternalPlugins, ProPlugins, PluginsConfig}

  datatype Autoconf =
    | Idle
    | Awaiting                                                    // inside wait_applying
    | Writing(todo: seq<Kind>, dirty: set<Kind>, raised: set<Kind>)  // saving `todo`, then raising `raised`

  datatype Scheduler =
    | Polling
    | Loading(todo: seq<Kind>, clear: set<Kind>)  // reading `todo` from the database
    | Clearing(clear: set<Kind>)                  // generated, about to lower the flags

  /** Versions count the saves of each kind; `generated` is the version the scheduler read last. */
  datatype State = State(
    flags: set<Kind>,
    saved: map<Kind, nat>,
    generated: map<Kind, nat>,
    autoconf: Autoconf,
    scheduler: Scheduler)

  datatype Step =
    | Begin                                       // apply() is called
    | PassWait(changes: seq<Kind>, others: bool)  // no flag seen up; `others`: services or extra settings changed
    | Save
    | Raise
    | Poll
    | Load
    | Clear

  lemma KindsAreListed(c: Kind)
    ensures c in ALL && c in EVERY_KIND
  {
    match c
    case Instances => assert EVERY_KIND[0] == c;
    case CustomConfigs => assert EVERY_KIND[1] == c;
    case ExternalPlugins => assert EVERY_KIND[2] == c;
    case ProPlugins => assert EVERY_KIND[3] == c;
    case PluginsConfig => assert EVERY_KIND[4] == c;
  }

  /** The flags that `checked_changes(changes, ..., value=True)` raises for a list of changes. */
  function RaisedBy(changes: seq<Kind>, others: bool): set<Kind> {
    if changes == [] && !others then ALL - {PluginsConfig} else set c | c in changes
  }

  /** What the scheduler regenerates when it finds the given flags up. */
  function Needs(flags: set<Kind>): set<Kind> {
    (if ProPlugins in flags then {ProPlugins, PluginsConfig} else {})
    + (if ExternalPlugins in flags then {ExternalPlugins, PluginsConfig} else {})
    + (if CustomConfigs in flags then {CustomConfigs, PluginsConfig} else {})
    + (if PluginsConfig in flags then {PluginsConfig} else {})
    + (if Instances in flags then ALL else {})
  }

  function Restrict(kinds: seq<Kind>, keep: set<Kind>): (r: seq<Kind>)
    ensures forall c :: c in r <==> c in kinds && c in keep
  {
    if kinds == [] then []
    else (if kinds[0] in keep then [kinds[0]] else []) + Restrict(kinds[1..], keep)
  }

  predicate WellFormed(s: State) {
    && s.saved.Keys == ALL && s.generated.Keys == ALL
  }

  predicate Enabled(s: State, step: Step) {
    match step
    case Begin => s.autoconf.Idle?
    case PassWait(_, _) => s.autoconf.Awaiting? && s.flags == {}
    case Save => s.autoconf.Writing? && s.autoconf.todo != []
    case Raise => s.autoconf.Writing? && s.autoconf.todo == []
    case Poll => s.scheduler.Polling?
    case Load => s.scheduler.Loading?
    case Clear => s.scheduler.Clearing?
  }

  function Next(s: State, step: Step): State
    requires WellFormed(s) && Enabled(s, step)
  {
    match step
    case Begin => s.(autoconf := Awaiting)
    case PassWait(changes, others) => s.(autoconf := Writing(changes, {}, RaisedBy(changes, others)))
    case Save =>
      var c := s.autoconf.todo[0];
      KindsAreListed(c);
      s.(saved := s.saved[c := s.saved[c] + 1],
         autoconf := Writing(s.autoconf.todo[1..], s.autoconf.dirty + {c}, s.autoconf.raised))
    case Raise => s.(flags := s.flags + s.autoconf.raised, autoconf := Idle)
    case Poll =>
      if s.flags == {} then s
      else s.(scheduler := Loading(Restrict(EVERY_KIND, Needs(s.flags)), Needs(s.flags)))
    case Load =>
      if s.scheduler.todo == [] then s.(scheduler := Clearing(s.scheduler.clear))
      else
        var c := s.scheduler.todo[0];
        KindsAreListed(c);
        s.(generated := s.generated[c := s.saved[c]],
           scheduler := Loading(s.scheduler.todo[1..], s.scheduler.clear))
    case Clear => s.(flags := s.flags - s.scheduler.clear - {PluginsConfig}, scheduler := Polling)
  }

  lemma NextWellFormed(s: State, step: Step)
    requires WellFormed(s) && Enabled(s, step)
    ensures WellFormed(Next(s, step))
  {
    if step.Save? { KindsAreListed(s.autoconf.todo[0]); }
    if step.Load? && s.scheduler.todo != [] { KindsAreListed(s.scheduler.todo[0]); }
  }

  predicate Schedule(s: State, steps: seq<Step>)
    requires WellFormed(s)
    decreases |steps|
  {
    steps == [] || (Enabled(s, steps[0]) && (NextWellFormed(s, steps[0]); Schedule(Next(s, steps[0]), steps[1..])))
  }

  function Execute(s: State, steps: seq<Step>): (r: State)
    requires WellFormed(s) && Schedule(s, steps)
    ensures WellFormed(r)
    decreases |steps|
  {
    if steps == [] then s else (NextWellFormed(s, steps[0]); Execute(Next(s, steps[0]), steps[1..]))
  }

  // ------------------------------------------------------------ the invariant

  predicate Fresh(s: State, c: Kind)
    requires WellFormed(s)
  {
    KindsAreListed(c);
    s.generated[c] == s.saved[c]
  }

  /** Autoconf has saved `c` and not yet raised its flag. */
  predicate InFlight(s: State, c: Kind) {
    s.autoconf.Writing? && c in s.autoconf.dirty
  }

  /** The current pass of the scheduler will still read `c`. */
  predicate ToBeLoaded(s: State, c: Kind) {
    s.scheduler.Loading? && c in s.scheduler.todo
  }

  /** A save that the scheduler has not read is announced by a flag, or is about to be. */
  ghost predicate NoLostUpdate(s: State)
    requires WellFormed(s)
  {
    forall c :: Fresh(s, c) || c in s.flags || InFlight(s, c) || ToBeLoaded(s, c)
  }

  /** Autoconf cannot save anything before a flag that is up now, or is raised next, is lowered. */
  predicate Blocked(s: State) {
    match s.autoconf
    case Writing(todo, _, raised) => todo == [] && s.flags + raised != {}
    case _ => s.flags != {}
  }

  predicate AutoconfConsistent(s: State) {
    s.autoconf.Writing? ==>
      && (forall c :: c in s.autoconf.todo ==> c in s.autoconf.raised)
      && s.autoconf.dirty <= s.autoconf.raised
  }

  ghost predicate Invariant(s: State)
    requires WellFormed(s)
  {
    && AutoconfConsistent(s)
    && NoLostUpdate(s)
    && (s.scheduler.Polling? && s.autoconf.Writing? ==> s.flags == {})
    && (!s.scheduler.Polling? ==>
          && Blocked(s)
          && s.flags <= s.scheduler.clear
          && (s.autoconf.Writing? ==> s.scheduler.clear == ALL)
          && (forall c :: c in s.scheduler.clear ==> Fresh(s, c) || ToBeLoaded(s, c)))
  }

  lemma NeedsCoverFlags(flags: set<Kind>)
    ensures flags <= Needs(flags) && (flags != {} ==> PluginsConfig in Needs(flags))
  {
    forall c | c in flags ensures c in Needs(flags) {
      KindsAreListed(c);
    }
    if c :| c in flags { KindsAreListed(c); }
  }

  lemma AutoconfStepKeepsInvariant(s: State, step: Step)
    requires WellFormed(s) && Invariant(s) && Enabled(s, step)
    requires step.Begin? || step.PassWait? || step.Save? || step.Raise?
    ensures WellFormed(Next(s, step)) && Invariant(Next(s, step))
  {
    NextWellFormed(s, step);
    var s' := Next(s, step);
    forall c ensures Fresh(s', c) || c in s'.flags || InFlight(s', c) || ToBeLoaded(s', c) {
      assert Fresh(s, c) || c in s.flags || InFlight(s, c) || ToBeLoaded(s, c);
    }
    if !s.scheduler.Polling? {
      forall c | c in s'.scheduler.clear ensures Fresh(s', c) || ToBeLoaded(s', c) {
        assert Fresh(s, c) || ToBeLoaded(s, c);
      }
      if step.Raise? {
        forall c | c in s'.flags ensures c in s'.scheduler.clear { KindsAreListed(c); }
      }
    }
  }

  lemma SchedulerStepKeepsInvariant(s: State, step: Step)
    requires WellFormed(s) && Invariant(s) && Enabled(s, step)
    requires step.Poll? || step.Load? || step.Clear?
    ensures WellFormed(Next(s, step)) && Invariant(Next(s, step))
  {
    NextWellFormed(s, step);
    var s' := Next(s, step);
    if step.Poll? {
      NeedsCoverFlags(s.flags);
      forall c ensures c in EVERY_KIND { KindsAreListed(c); }
    }
    forall c ensures Fresh(s', c) || c in s'.flags || InFlight(s', c) || ToBeLoaded(s', c) {
      assert Fresh(s, c) || c in s.flags || InFlight(s, c) || ToBeLoaded(s, c);
    }
    if !s'.scheduler.Polling? {
      forall c | c in s'.scheduler.clear ensures Fresh(s', c) || ToBeLoaded(s', c) {
        if !s.scheduler.Polling? { assert Fresh(s, c) || ToBeLoaded(s, c); }
      }
    }
  }

  lemma {:induction false} RunKeepsInvariant(s: State, steps: seq<Step>)
    requires WellFormed(s) && Invariant(s) && Schedule(s, steps)
    ensures Invariant(Execute(s, steps))
    decreases |steps|
  {
    if steps != [] {
      var step := steps[0];
      NextWellFormed(s, step);
      if step.Poll? || step.Load? || step.Clear? {
        SchedulerStepKeepsInvariant(s, step);
      } else {
        AutoconfStepKeepsInvariant(s, step);
      }
      RunKeepsInvariant(Next(s, step), steps[1..]);
    }
  }

  // --------------------------------------------------------------- the results

  /** The scheduler is about to read everything for its first pass; autoconf may be anywhere. */
  predicate FirstPass(s: State) {
    && WellFormed(s) && AutoconfConsistent(s)
    && s.scheduler == Loading(EVERY_KIND, ALL)
    && (forall c :: c in ALL ==> s.generated[c] <= s.saved[c])
  }

  /** Every state of every run that starts with `s` announces all saves the scheduler has not read. */
  ghost predicate NeverLoses(s: State)
    requires WellFormed(s)
  {
    forall steps :: Schedule(s, steps) ==> NoLostUpdate(Execute(s, steps))
  }

  lemma BlockedFirstPassNeverLoses(s: State)
    requires FirstPass(s) && Blocked(s)
    ensures NeverLoses(s)
  {
    forall c ensures ToBeLoaded(s, c) && c in ALL { KindsAreListed(c); }
    forall steps | Schedule(s, steps) ensures NoLostUpdate(Execute(s, steps)) {
      RunKeepsInvariant(s, steps);
    }
  }

  lemma Prepend(s: State, step: Step, rest: seq<Step>) returns (steps: seq<Step>)
    requires WellFormed(s) && Enabled(s, step)
    requires WellFormed(Next(s, step)) && Schedule(Next(s, step), rest)
    ensures Schedule(s, steps) && Execute(s, steps) == Execute(Next(s, step), rest)
  {
    steps := [step] + rest;
    assert steps[1..] == rest;
  }

  lemma {:induction false} Continue(s: State, first: seq<Step>, second: seq<Step>)
    requires WellFormed(s) && Schedule(s, first) && Schedule(Execute(s, first), second)
    ensures Schedule(s, first + second) && Execute(s, first + second) == Execute(Execute(s, first), second)
    decreases |first|
  {
    if first == [] {
      assert first + second == second;
    } else {
      NextWellFormed(s, first[0]);
      Continue(Next(s, first[0]), first[1..], second);
      assert (first + second)[1..] == first[1..] + second;
    }
  }

  /** The scheduler finishes reading while autoconf stands still. */
  lemma {:induction false} ReadToTheEnd(s: State) returns (steps: seq<Step>)
    requires WellFormed(s) && s.scheduler.Loading? && (forall c :: c in ALL ==> s.generated[c] <= s.saved[c])
    ensures Schedule(s, steps)
    ensures var t := Execute(s, steps);
            && t == s.(generated := t.generated, scheduler := Clearing(s.scheduler.clear))
            && (forall c :: c in ALL ==> t.generated[c] <= t.saved[c])
    decreases |s.scheduler.todo|
  {
    NextWellFormed(s, Load);
    var s' := Next(s, Load);
    if s.scheduler.todo == [] {
      steps := Prepend(s, Load, []);
    } else {
      var rest := ReadToTheEnd(s');
      steps := Prepend(s, Load, rest);
    }
  }

  /** Autoconf saves the rest, raises its flags, and the scheduler lowers all of them unread. */
  lemma {:induction false} SaveRaiseAndClear(s: State, c: Kind) returns (steps: seq<Step>)
    requires WellFormed(s) && s.scheduler == Clearing(ALL) && s.autoconf.Writing? && c in ALL
    requires forall k :: k in ALL ==> s.generated[k] <= s.saved[k]
    requires c in s.autoconf.todo || s.generated[c] < s.saved[c]
    ensures Schedule(s, steps) && !NoLostUpdate(Execute(s, steps))
    decreases |s.autoconf.todo|
  {
    if s.autoconf.todo == [] {
      var s1 := Next(s, Raise);
      var s2 := Next(s1, Clear);
      forall k | k in s2.flags ensures false { KindsAreListed(k); }
      assert !(Fresh(s2, c) || c in s2.flags || InFlight(s2, c) || ToBeLoaded(s2, c));
      var rest := Prepend(s1, Clear, []);
      steps := Prepend(s, Raise, rest);
    } else {
      NextWellFormed(s, Save);
      KindsAreListed(s.autoconf.todo[0]);
      var rest := SaveRaiseAndClear(Next(s, Save), c);
      steps := Prepend(s, Save, rest);
    }
  }

  /** With no flag up an idle autoconf can slip a whole apply in before the flags are lowered. */
  lemma ApplySlipsIn(s: State) returns (steps: seq<Step>)
    requires WellFormed(s) && s.scheduler == Clearing(ALL) && s.flags == {}
    requires || s.autoconf.Awaiting? || s.autoconf.Idle?
             || (s.autoconf.Writing? && s.autoconf.todo == [] && s.autoconf.raised == {})
    requires forall k :: k in ALL ==> s.generated[k] <= s.saved[k]
    ensures Schedule(s, steps) && !NoLostUpdate(Execute(s, steps))
    decreases match s.autoconf case Writing(_, _, _) => 2 case Idle => 1 case Awaiting => 0
  {
    match s.autoconf
    case Writing(_, _, _) =>
      var rest := ApplySlipsIn(Next(s, Raise));
      steps := Prepend(s, Raise, rest);
    case Idle =>
      var rest := ApplySlipsIn(Next(s, Begin));
      steps := Prepend(s, Begin, rest);
    case Awaiting =>
      var step := PassWait([Instances], false);
      var rest := SaveRaiseAndClear(Next(s, step), Instances);
      steps := Prepend(s, step, rest);
  }

  lemma UnblockedFirstPassCanLose(s: State) returns (steps: seq<Step>)
    requires FirstPass(s) && !Blocked(s)
    ensures Schedule(s, steps) && !NoLostUpdate(Execute(s, steps))
  {
    var read := ReadToTheEnd(s);
    var t := Execute(s, read);
    var rest;
    if s.autoconf.Writing? && s.autoconf.todo != [] {
      KindsAreListed(s.autoconf.todo[0]);
      rest := SaveRaiseAndClear(t, s.autoconf.todo[0]);
    } else {
      rest := ApplySlipsIn(t);
    }
    Continue(s, read, rest);
    steps := read + rest;
  }

  /**
    The hand-over loses no update in any interleaving exactly when autoconf cannot save between
    the scheduler's first read and its first clear: a flag is up (the config saver raised it), or
    autoconf has saved everything and only has flags left to raise.
   */
  lemma LosesNothingIffFirstPassBlocked(s: State)
    requires FirstPass(s)
    ensures NeverLoses(s) <==> Blocked(s)
  {
    if Blocked(s) {
      BlockedFirstPassNeverLoses(s);
    } else {
      var steps := UnblockedFirstPassCanLose(s);
      assert Schedule(s, steps) && !NoLostUpdate(Execute(s, steps));
    }
  }

  /**
    After a blocked start: when the scheduler is back at polling, no flag is up and autoconf is
    not writing, everything that was ever saved has been read for the last generation.
   */
  lemma QuietMeansGenerated(s: State, steps: seq<Step>, c: Kind)
    requires FirstPass(s) && Blocked(s) && Schedule(s, steps)
    requires var t := Execute(s, steps); t.scheduler.Polling? && t.flags == {} && !t.autoconf.Writing?
    ensures c in Execute(s, steps).saved && c in Execute(s, steps).generated
    ensures Execute(s, steps).generated[c] == Execute(s, steps).saved[c]
  {
    BlockedFirstPassNeverLoses(s);
    var t := Execute(s, steps);
    assert Fresh(t, c) || c in t.flags || InFlight(t, c) || ToBeLoaded(t, c);
    KindsAreListed(c);
  }

  /** Autoconf and the scheduler never work on the database at the same time after a blocked start. */
  lemma WritesAndReadsExclude(s: State, steps: seq<Step>)
    requires FirstPass(s) && Blocked(s) && Schedule(s, steps)
    ensures var t := Execute(s, steps);
            t.scheduler.Loading? && t.autoconf.Writing? ==> t.autoconf.todo == [] && t.scheduler.clear == ALL
  {
    forall c ensures ToBeLoaded(s, c) && c in ALL { KindsAreListed(c); }
    RunKeepsInvariant(s, steps);
  }

  // ------------------------------------------------------------------ one pass of the scheduler

  /**
    What a pass that finds these flags up reads anew: the kinds whose flag is up, everything if the
    instances changed, and the settings of the plugins in any case.
   */
  predicate AskedFor(flags: set<Kind>, c: Kind) {
    c in flags || Instances in flags || (c == PluginsConfig && flags != {})
  }

  lemma NeedsIff(flags: set<Kind>, c: Kind)
    ensures c in Needs(flags) <==> AskedFor(flags, c)
  {
    KindsAreListed(c);
    forall k | k in flags ensures k in ALL { KindsAreListed(k); }
  }

  predicate NoClear(steps: seq<Step>) {
    forall k :: 0 <= k < |steps| ==> steps[k] != Clear
  }

  /** What the scheduler has still to read. */
  function ToRead(s: State): seq<Kind> {
    if s.scheduler.Loading? then s.scheduler.todo else []
  }

  lemma LoadingStep(s: State, step: Step, c: Kind)
    requires WellFormed(s) && Enabled(s, step) && step != Clear && !s.scheduler.Polling?
    ensures WellFormed(Next(s, step)) && !Next(s, step).scheduler.Polling?
    ensures c in s.saved && c in s.generated && c in Next(s, step).saved && c in Next(s, step).generated
    ensures Next(s, step).saved[c] >= s.saved[c] && Next(s, step).scheduler.clear == s.scheduler.clear
    ensures c !in ToRead(s) ==> c !in ToRead(Next(s, step)) && Next(s, step).generated[c] == s.generated[c]
    ensures c in ToRead(s) && c !in ToRead(Next(s, step)) ==> Next(s, step).generated[c] == s.saved[c]
  {
    NextWellFormed(s, step);
    KindsAreListed(c);
  }

  /** While a pass is under way, what was to be read is read, no older than when the pass began, and nothing else is. */
  lemma {:induction false} LoadingGoesOn(s: State, steps: seq<Step>, c: Kind)
    requires WellFormed(s) && Schedule(s, steps) && NoClear(steps) && !s.scheduler.Polling?
    ensures var t := Execute(s, steps);
            && c in s.saved && c in s.generated && c in t.generated
            && !t.scheduler.Polling? && t.scheduler.clear == s.scheduler.clear
            && (c !in ToRead(s) ==> t.generated[c] == s.generated[c])
            && (c in ToRead(s) && t.scheduler.Clearing? ==> t.generated[c] >= s.saved[c])
    decreases |steps|
  {
    hide Next, Enabled;
    KindsAreListed(c);
    if steps != [] {
      NextWellFormed(s, steps[0]);
      LoadingStep(s, steps[0], c);
      LoadingGoesOn(Next(s, steps[0]), steps[1..], c);
    }
  }

  predicate Takes(s: State, step: Step, after: State) {
    WellFormed(s) && Enabled(s, step) && after == Next(s, step)
  }

  predicate Runs(s: State, steps: seq<Step>, after: State) {
    WellFormed(s) && Schedule(s, steps) && after == Execute(s, steps)
  }

  /**
    A pass that begins with some flag up reads anew just what the flags ask for, none of it older
    than it was saved when the pass began; then it lowers the flags of what it read, and no others.
   */
  lemma PassReadsWhatIsAskedFor(s: State, begun: State, steps: seq<Step>, read: State, after: State, c: Kind)
    requires s.flags != {} && Takes(s, Poll, begun)
    requires Runs(begun, steps, read) && NoClear(steps) && Takes(read, Clear, after)
    ensures c in s.saved && c in s.generated && c in after.generated
    ensures if AskedFor(s.flags, c) then after.generated[c] >= s.saved[c] else after.generated[c] == s.generated[c]
    ensures c in after.flags <==> c in read.flags && !AskedFor(s.flags, c)
    ensures after.scheduler.Polling?
  {
    hide Needs, Schedule, Execute;
    KindsAreListed(c);
    NeedsIff(s.flags, c);
    NeedsIff(s.flags, PluginsConfig);
    LoadingGoesOn(begun, steps, c);
  }

  // ------------------------------------------------------------------ one apply of autoconf

  predicate NoRaise(steps: seq<Step>) {
    forall k :: 0 <= k < |steps| ==> steps[k] != Raise
  }

  /** What autoconf has still to save. */
  function ToSave(s: State): seq<Kind> {
    if s.autoconf.Writing? then s.autoconf.todo else []
  }

  lemma WritingStep(s: State, step: Step, c: Kind)
    requires WellFormed(s) && Enabled(s, step) && step != Raise && s.autoconf.Writing?
    ensures WellFormed(Next(s, step)) && Next(s, step).autoconf.Writing?
    ensures c in s.saved && c in Next(s, step).saved && Next(s, step).saved[c] >= s.saved[c]
    ensures Next(s, step).autoconf.raised == s.autoconf.raised
    ensures c in ToSave(s) && c !in ToSave(Next(s, step)) ==> Next(s, step).saved[c] > s.saved[c]
  {
    NextWellFormed(s, step);
    KindsAreListed(c);
  }

  lemma {:induction false} WritingGoesOn(s: State, steps: seq<Step>, c: Kind)
    requires WellFormed(s) && Schedule(s, steps) && NoRaise(steps) && s.autoconf.Writing?
    ensures var t := Execute(s, steps);
            && c in s.saved && c in t.saved && t.saved[c] >= s.saved[c]
            && t.autoconf.Writing? && t.autoconf.raised == s.autoconf.raised
            && (c in ToSave(s) && c !in ToSave(t) ==> t.saved[c] > s.saved[c])
    decreases |steps|
  {
    hide Next, Enabled;
    KindsAreListed(c);
    if steps != [] {
      NextWellFormed(s, steps[0]);
      WritingStep(s, steps[0], c);
      WritingGoesOn(Next(s, steps[0]), steps[1..], c);
    }
  }

  /**
    An apply of autoconf waits for all flags to be down, saves each kind that changed, whatever the
    scheduler does meanwhile, and raises the flags of just these; if nothing changed at all it
    raises every flag but that of the plugins' settings.
   */
  lemma ApplySavesAndRaises(s: State, changes: seq<Kind>, others: bool, begun: State, steps: seq<Step>, written: State,
                            after: State, c: Kind)
    requires Takes(s, PassWait(changes, others), begun) && Runs(begun, steps, written) && NoRaise(steps)
    requires Takes(written, Raise, after)
    ensures s.flags == {} && c in s.saved && c in after.saved && after.autoconf.Idle?
    ensures c in changes ==> after.saved[c] > s.saved[c]
    ensures c in after.flags
            <==> c in written.flags || c in changes || (changes == [] && !others && c != PluginsConfig)
  {
    hide Schedule, Execute;
    KindsAreListed(c);
    WritingGoesOn(begun, steps, c);
  }
}
