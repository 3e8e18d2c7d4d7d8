/**
  Backends that an ingress refers to but that are not visible yet: they are polled with
  exponentially growing delays and given up after a number of attempts.
 */
module BackendRetry {

  type Key = (string, string)

  datatype Entry = Entry(attempts: nat, nextRetryAt: real)

  type Backlog = map<Key, Entry>

  datatype Policy = Policy(maxAttempts: nat, baseDelay: real)

  function Power(n: nat): (p: nat)
    ensures p >= 1
  {
    if n == 0 then 1 else 2 * Power(n - 1)
  }

  // ------------------------------------------------------------------ one entry

  predicate IsDue(e: Entry, now: real) {
    e.nextRetryAt <= now
  }

  datatype Fate = Kept(entry: Entry) | Recovered | GivenUp

  /** An entry whose poll found nothing: the next delay is twice as long. */
  function Postponed(e: Entry, now: real, policy: Policy): Entry {
    Entry(e.attempts + 1, now + policy.baseDelay * Power(e.attempts + 1) as real)
  }

  /** What a pass of the worker does to an entry. */
  function FateOf(e: Entry, visible: bool, now: real, policy: Policy): Fate {
    if !IsDue(e, now) then Kept(e)
    else if visible then Recovered
    else if e.attempts + 1 >= policy.maxAttempts then GivenUp
    else Kept(Postponed(e, now, policy))
  }

  // ------------------------------------------------------------------ the backlog

  function Noted(b: Backlog, key: Key, now: real, policy: Policy): Backlog {
    if key.0 == "" || key.1 == "" || key in b then b else b[key := Entry(0, now + policy.baseDelay)]
  }

  function Worked(b: Backlog, visible: set<Key>, now: real, policy: Policy): Backlog {
    map k | k in b && FateOf(b[k], k in visible, now, policy).Kept? :: FateOf(b[k], k in visible, now, policy).entry
  }

  class Controller {
    var pending: Backlog
    const policy: Policy

    constructor (policy: Policy)
      ensures pending == map[] && this.policy == policy
    {
      this.policy := policy;
      pending := map[];
    }

    method NoteMissingBackend(namespace: string, service: string, now: real)
      modifies this
      ensures pending == Noted(old(pending), (namespace, service), now, policy)
    {
      if namespace == "" || service == "" { return; }
      var key := (namespace, service);
      if key !in pending {
        pending := pending[key := Entry(0, now + policy.baseDelay)];
      }
    }

    /** One pass of the worker; the answer says which backends are there now and which were given up. */
    method Work(visible: set<Key>, now: real) returns (ready: set<Key>, givenUp: set<Key>)
      modifies this
      ensures pending == Worked(old(pending), visible, now, policy)
      ensures ready == set k | k in old(pending) && FateOf(old(pending)[k], k in visible, now, policy).Recovered?
      ensures givenUp == set k | k in old(pending) && FateOf(old(pending)[k], k in visible, now, policy).GivenUp?
    {
      hide Settled, FateOf, Worked;
      ghost var before := pending;
      ready, givenUp := {}, {};
      var due := set k | k in pending && IsDue(pending[k], now);
      forall k | k in before && k !in due ensures Settled(before[k], before[k], false, false, k in visible, now, policy) {
        RestIsSettled(before[k], k in visible, now, policy);
      }
      while due != {}
        invariant due <= before.Keys && pending.Keys == before.Keys
        invariant forall k :: k in due ==> IsDue(before[k], now)
        invariant forall k :: k in due ==> pending[k] == before[k] && k !in ready && k !in givenUp
        invariant ready <= before.Keys && givenUp <= before.Keys
        invariant forall k :: k in before && k !in due ==> Settled(before[k], pending[k], k in ready, k in givenUp,
            k in visible, now, policy)
        decreases |due|
      {
        var key :| key in due;
        var e := pending[key];
        DueIsSettled(e, key in visible, now, policy);
        if key in visible {
          ready := ready + {key};
        } else {
          var attempts := pending[key].attempts + 1;
          if attempts >= policy.maxAttempts {
            givenUp := givenUp + {key};
          } else {
            pending := pending[key := Entry(attempts, now + policy.baseDelay * Power(attempts) as real)];
            assert pending[key] == Postponed(e, now, policy);
          }
        }
        due := due - {key};
      }
      PassIsComplete(before, pending, ready, givenUp, visible, now, policy);
      pending := pending - ready - givenUp;
    }
  }

  /** How far a pass has come with an entry: `now` stands in the backlog, and in one of the two lists or in none. */
  ghost predicate Settled(was: Entry, current: Entry, ready: bool, givenUp: bool, visible: bool, now: real,
                          policy: Policy) {
    match FateOf(was, visible, now, policy)
    case Kept(e) => current == e && !ready && !givenUp
    case Recovered => ready && !givenUp
    case GivenUp => givenUp && !ready
  }

  lemma RestIsSettled(e: Entry, visible: bool, now: real, policy: Policy)
    requires !IsDue(e, now)
    ensures Settled(e, e, false, false, visible, now, policy)
  {
    hide Power;
  }

  lemma DueIsSettled(e: Entry, visible: bool, now: real, policy: Policy)
    requires IsDue(e, now)
    ensures visible ==> Settled(e, e, true, false, visible, now, policy)
    ensures !visible && e.attempts + 1 >= policy.maxAttempts ==> Settled(e, e, false, true, visible, now, policy)
    ensures !visible && e.attempts + 1 < policy.maxAttempts ==>
              Settled(e, Postponed(e, now, policy), false, false, visible, now, policy)
  {
    hide Postponed;
  }

  lemma PassIsComplete(before: Backlog, after: Backlog, ready: set<Key>, givenUp: set<Key>, visible: set<Key>,
                       now: real, policy: Policy)
    requires after.Keys == before.Keys && ready <= before.Keys && givenUp <= before.Keys
    requires forall k :: k in before ==> Settled(before[k], after[k], k in ready, k in givenUp, k in visible, now, policy)
    ensures after - ready - givenUp == Worked(before, visible, now, policy)
    ensures ready == set k | k in before && FateOf(before[k], k in visible, now, policy).Recovered?
    ensures givenUp == set k | k in before && FateOf(before[k], k in visible, now, policy).GivenUp?
  {
    hide Power, FateOf;
    forall k | k in before
      ensures k in ready <==> FateOf(before[k], k in visible, now, policy).Recovered?
      ensures k in givenUp <==> FateOf(before[k], k in visible, now, policy).GivenUp?
    {
      assert Settled(before[k], after[k], k in ready, k in givenUp, k in visible, now, policy);
    }
    var rest, worked := after - ready - givenUp, Worked(before, visible, now, policy);
    forall k ensures k in rest <==> k in worked
             ensures k in rest && k in worked ==> rest[k] == worked[k] {}
  }

  // ------------------------------------------------------------------ runs

  /** What happens to the backlog: someone misses a backend, or the worker passes. */
  datatype Event = Miss(at: real, key: Key) | Pass(at: real, visible: set<Key>)

  function Next(b: Backlog, e: Event, policy: Policy): Backlog {
    match e
    case Miss(at, key) => Noted(b, key, at, policy)
    case Pass(at, visible) => Worked(b, visible, at, policy)
  }

  /** The backlog after the first `n` events. */
  function After(b: Backlog, events: seq<Event>, n: nat, policy: Policy): Backlog
    requires n <= |events|
  {
    if n == 0 then b else Next(After(b, events, n - 1, policy), events[n - 1], policy)
  }

  /** The event polls the backend. */
  predicate Polls(b: Backlog, e: Event, key: Key) {
    e.Pass? && key in b && IsDue(b[key], e.at)
  }

  function PollCount(b: Backlog, events: seq<Event>, n: nat, key: Key, policy: Policy): nat
    requires n <= |events|
  {
    if n == 0 then 0
    else
      PollCount(b, events, n - 1, key, policy)
      + if Polls(After(b, events, n - 1, policy), events[n - 1], key) then 1 else 0
  }

  /** The first event queues the backend, which then stays queued until the first `n` events are over. */
  ghost predicate Queued(b: Backlog, events: seq<Event>, n: nat, key: Key, policy: Policy)
    requires n <= |events|
  {
    && 1 <= n && key !in b && key.0 != "" && key.1 != ""
    && events[0] == Miss(events[0].at, key)
    && forall i :: 1 <= i <= n ==> key in After(b, events, i, policy)
  }

  function Deadline(queued: real, attempts: nat, policy: Policy): real {
    queued + policy.baseDelay * (Power(attempts) - 1) as real
  }

  /** Waiting out one more delay moves from one deadline to the next. */
  lemma DeadlineGrows(queued: real, attempts: nat, policy: Policy, now: real)
    requires now >= Deadline(queued, attempts, policy)
    ensures now + policy.baseDelay * Power(attempts) as real >= Deadline(queued, attempts + 1, policy)
  {
    var p := Power(attempts);
    assert Power(attempts + 1) == 2 * p;
    assert (2 * p - 1) as real == (p - 1) as real + p as real;
    assert policy.baseDelay * (2 * p - 1) as real == policy.baseDelay * (p - 1) as real + policy.baseDelay * p as real;
  }

  lemma StaysQueued(b: Backlog, e: Event, key: Key, queued: real, policy: Policy)
    requires key in b && key in Next(b, e, policy)
    requires b[key].nextRetryAt >= Deadline(queued, b[key].attempts + 1, policy)
    ensures var entry := Next(b, e, policy)[key];
            if Polls(b, e, key) then
              && entry.attempts == b[key].attempts + 1 < policy.maxAttempts
              && entry.nextRetryAt >= Deadline(queued, entry.attempts + 1, policy)
            else entry == b[key]
  {
    hide Deadline, Power;
    if Polls(b, e, key) {
      DeadlineGrows(queued, b[key].attempts + 1, policy, e.at);
    }
  }

  /** A queued entry has counted its polls and its next poll is not before the deadline of the next attempt. */
  lemma {:induction false} QueuedEntry(b: Backlog, events: seq<Event>, n: nat, key: Key, policy: Policy)
    requires n <= |events| && Queued(b, events, n, key, policy) && policy.maxAttempts >= 1
    ensures var e := After(b, events, n, policy)[key];
            && e.attempts == PollCount(b, events, n, key, policy) < policy.maxAttempts
            && e.nextRetryAt >= Deadline(events[0].at, e.attempts + 1, policy)
  {
    hide Deadline, Power, Next, Polls;
    if n == 1 {
      FirstDeadline(events[0].at, policy);
      assert After(b, events, 0, policy) == b;
      assert PollCount(b, events, 0, key, policy) == 0;
      FirstEntry(b, events[0].at, key, policy);
    } else {
      var before := After(b, events, n - 1, policy);
      QueuedEntry(b, events, n - 1, key, policy);
      assert key in After(b, events, n, policy);
      StaysQueued(before, events[n - 1], key, events[0].at, policy);
    }
  }

  lemma FirstEntry(b: Backlog, at: real, key: Key, policy: Policy)
    requires key !in b && key.0 != "" && key.1 != ""
    ensures key in Next(b, Miss(at, key), policy) && Next(b, Miss(at, key), policy)[key] == Entry(0,
        at + policy.baseDelay)
    ensures !Polls(b, Miss(at, key), key)
  {
  }

  lemma FirstDeadline(queued: real, policy: Policy)
    ensures Deadline(queued, 1, policy) == queued + policy.baseDelay
  {
    assert Power(1) == 2 * Power(0);
  }

  /**
    A queued backend leaves the backlog in one of two ways only: a poll finds it, or it is polled
    exactly as often as allowed, and then not before all the doubling delays have passed since it
    was queued.  How the passes are timed, and how often it is missed again, makes no difference.
   */
  lemma LeavesWhenFoundOrExhausted(b: Backlog, events: seq<Event>, n: nat, key: Key, policy: Policy)
    requires n < |events| && Queued(b, events, n, key, policy) && policy.maxAttempts >= 1
    requires key !in After(b, events, n + 1, policy)
    ensures events[n].Pass?
    ensures || key in events[n].visible
            || (&& PollCount(b, events, n + 1, key, policy) == policy.maxAttempts
                && events[n].at >= Deadline(events[0].at, policy.maxAttempts, policy))
  {
    hide Deadline;
    QueuedEntry(b, events, n, key, policy);
    var before := After(b, events, n, policy);
    assert After(b, events, n + 1, policy) == Next(before, events[n], policy);
    assert events[n].Pass? && !FateOf(before[key], key in events[n].visible, events[n].at, policy).Kept?;
    assert Polls(before, events[n], key);
  }

  /** Conversely a poll that finds the backend, or the last allowed one, does remove it. */
  lemma LastPollRemoves(b: Backlog, events: seq<Event>, n: nat, key: Key, policy: Policy)
    requires n < |events| && Queued(b, events, n, key, policy) && policy.maxAttempts >= 1
    requires Polls(After(b, events, n, policy), events[n], key)
    ensures key in After(b, events, n + 1, policy)
            <==> key !in events[n].visible && PollCount(b, events, n + 1, key, policy) < policy.maxAttempts
  {
    hide Deadline;
    QueuedEntry(b, events, n, key, policy);
  }

  /** Whom a miss queues, and when the first poll is due. */
  lemma MissQueuesIff(b: Backlog, at: real, key: Key, k: Key, policy: Policy)
    ensures var after := Next(b, Miss(at, key), policy);
            && (k in after <==> k in b || (k == key && key.0 != "" && key.1 != ""))
            && (k in b ==> after[k] == b[k])
            && (k in after && k !in b ==> forall visible, now :: Polls(after, Pass(now, visible), k)
                                                                <==> now >= at + policy.baseDelay)
  {
  }

  lemma {:induction false} UnpolledStays(b: Backlog, events: seq<Event>, m: nat, n: nat, key: Key, policy: Policy)
    requires m <= n <= |events| && key in After(b, events, m, policy)
    requires forall i :: m <= i < n ==> !Polls(After(b, events, i, policy), events[i], key)
    ensures key in After(b, events, n, policy) && After(b, events, n, policy)[key] == After(b, events, m, policy)[key]
  {
    hide Power;
    if m < n { UnpolledStays(b, events, m, n - 1, key, policy); }
  }

  /**
    A backend that a poll does not find, and that stays queued, is polled again by the first pass
    that comes after the next delay, which doubles with every poll: not earlier, and not later.
   */
  lemma NextPollIff(b: Backlog, events: seq<Event>, m: nat, n: nat, key: Key, policy: Policy)
    requires m < n < |events| && Queued(b, events, m, key, policy) && policy.maxAttempts >= 1
    requires Polls(After(b, events, m, policy), events[m], key) && key in After(b, events, m + 1, policy)
    requires forall i :: m < i < n ==> !Polls(After(b, events, i, policy), events[i], key)
    ensures Polls(After(b, events, n, policy), events[n], key)
            <==> events[n].Pass?
                 && events[n].at >= events[m].at
                                    + policy.baseDelay * Power(PollCount(b, events, m + 1, key, policy)) as real
  {
    hide Deadline, Power, After, PollCount, Next, Queued;
    PollPostpones(b, events, m, key, policy);
    UnpolledStays(b, events, m + 1, n, key, policy);
  }

  lemma PollPostpones(b: Backlog, events: seq<Event>, m: nat, key: Key, policy: Policy)
    requires m < |events| && Queued(b, events, m, key, policy) && policy.maxAttempts >= 1
    requires Polls(After(b, events, m, policy), events[m], key) && key in After(b, events, m + 1, policy)
    ensures After(b, events, m + 1, policy)[key].nextRetryAt
            == events[m].at + policy.baseDelay * Power(PollCount(b, events, m + 1, key, policy)) as real
  {
    hide Deadline, Power, Queued, Next, Polls;
    var before := After(b, events, m, policy);
    QueuedEntry(b, events, m, key, policy);
    assert PollCount(b, events, m + 1, key, policy) == PollCount(b, events, m, key, policy) + 1;
    assert After(b, events, m + 1, policy) == Next(before, events[m], policy);
    PolledEntry(before, events[m], key, policy);
  }

  lemma PolledEntry(b: Backlog, e: Event, key: Key, policy: Policy)
    requires Polls(b, e, key) && key in Next(b, e, policy)
    ensures Next(b, e, policy)[key].nextRetryAt == e.at + policy.baseDelay * Power(b[key].attempts + 1) as real
  {
    hide Power;
  }

  /** With five attempts and a delay of one second a backend that never appears is kept for 31 seconds. */
  lemma DefaultPatience(queued: real)
    ensures Deadline(queued, 5, Policy(5, 1.0)) == queued + 31.0
  {
    assert Power(1) == 2 && Power(2) == 4 && Power(3) == 8 && Power(4) == 16 && Power(5) == 32;
  }
}
