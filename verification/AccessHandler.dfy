/**
  The access-phase handler that hands a request body to the firewall: it may be entered many times
  for one request, and a callback tells it when the body has been read.
 */
module AccessHandler {

  type Bytes = seq<bv8>

  /** One buffer of the chain that holds the body. */
  datatype Buffer = Buffer(data: Bytes, last: bool)

  /** What asking for the body answers. */
  datatype ReadResult = ReadFailed(code: int) | ReadAgain | ReadOk

  /** What the handler finds when it is entered. */
  datatype Entry = Entry(
    enabled: bool,
    read: ReadResult,
    chain: seq<Buffer>,
    inFile: bool,
    fileNameFits: bool,
    verdictAfter: nat -> int,  // the intervention asked for after the k-th buffer
    lastVerdict: int,          // the intervention asked for after processing
    errorPage: bool
  )

  datatype Answer = Declined | Wait | InternalError | Status(code: int)

  /** The flags of a request, and what the firewall has been given for it. */
  datatype State = State(
    bodyRequested: bool,
    waiting: bool,
    processed: bool,
    intervened: bool,
    appended: Bytes,
    fileReads: nat,
    requests: nat,
    processings: nat
  )

  const START := State(false, false, false, false, [], 0, 0, 0)

  // ------------------------------------------------------------------ the chain

  datatype Inspection = Inspection(appended: Bytes, verdict: int)

  /** Appends the buffers from `i` on, until the last one or an intervention. */
  function InspectedFrom(chain: seq<Buffer>, i: nat, verdictAfter: nat -> int): Inspection
    requires i <= |chain|
    decreases |chain| - i
  {
    if i == |chain| then Inspection([], 0)
    else if chain[i].last then Inspection(chain[i].data, 0)
    else if verdictAfter(i) > 0 then Inspection(chain[i].data, verdictAfter(i))
    else
      var rest := InspectedFrom(chain, i + 1, verdictAfter);
      Inspection(chain[i].data + rest.appended, rest.verdict)
  }

  /** The bytes of the buffers up to the one that is marked as the last. */
  function Body(chain: seq<Buffer>): Bytes {
    if chain == [] then [] else if chain[0].last then chain[0].data else chain[0].data + Body(chain[1..])
  }

  // ------------------------------------------------------------------ one entry

  function Requested(s: State, e: Entry): State {
    s.(bodyRequested := true, requests := s.requests + 1, waiting := s.waiting || e.read.ReadAgain?)
  }

  function Finished(s: State, e: Entry): (State, Answer) {
    var after := s.(processed := true, processings := s.processings + 1);
    (after, if e.errorPage || e.lastVerdict <= 0 then Declined else Status(e.lastVerdict))
  }

  function Inspected(s: State, e: Entry): (State, Answer) {
    if e.inFile then
      if e.fileNameFits then Finished(s.(fileReads := s.fileReads + 1), e) else (s, InternalError)
    else
      var found := InspectedFrom(e.chain, 0, e.verdictAfter);
      var after := s.(appended := s.appended + found.appended);
      if found.verdict > 0 then (after, Status(found.verdict)) else Finished(after, e)
  }

  function Entered(s: State, e: Entry): (State, Answer) {
    if !e.enabled || s.processed || s.intervened then (s, Declined)
    else if s.waiting then (s, Wait)
    else if s.bodyRequested then Inspected(s, e)
    else
      var after := Requested(s, e);
      match e.read
      case ReadFailed(code) => (after, Status(code))
      case ReadAgain => (after, Wait)
      case ReadOk => Inspected(after, e)
  }

  /** The callback: when the handler is waiting, it stops waiting and the phases run again. */
  function BodyRead(s: State): State {
    s.(waiting := false)
  }

  class Context {
    var bodyRequested: bool
    var waiting: bool
    var processed: bool
    var intervened: bool
    ghost var appended: Bytes
    ghost var fileReads: nat
    ghost var requests: nat
    ghost var processings: nat

    ghost function Current(): State
      reads this
    {
      State(bodyRequested, waiting, processed, intervened, appended, fileReads, requests, processings)
    }

    constructor ()
      ensures Current() == START
    {
      bodyRequested, waiting, processed, intervened := false, false, false, false;
      appended, fileReads, requests, processings := [], 0, 0, 0;
    }

    method RequestRead() returns (runPhases: bool)
      modifies this
      ensures Current() == BodyRead(old(Current())) && runPhases == old(waiting)
    {
      runPhases := waiting;
      if waiting { waiting := false; }
    }

    /** The loop over the chain; a positive verdict ends it early. */
    method InspectChain(chain: seq<Buffer>, verdictAfter: nat -> int) returns (verdict: int)
      modifies this`appended
      ensures var found := InspectedFrom(chain, 0, verdictAfter);
              appended == old(appended) + found.appended && verdict == found.verdict
    {
      var i := 0;
      ghost var before := appended;
      ghost var found := InspectedFrom(chain, 0, verdictAfter);
      while i < |chain|
        invariant i <= |chain|
        invariant before + found.appended == appended + InspectedFrom(chain, i, verdictAfter).appended
        invariant found.verdict == InspectedFrom(chain, i, verdictAfter).verdict
        decreases |chain| - i
      {
        appended := appended + chain[i].data;
        if chain[i].last { return 0; }
        verdict := verdictAfter(i);
        if verdict > 0 { return; }
        i := i + 1;
      }
      return 0;
    }

    method AccessHandler(e: Entry) returns (answer: Answer)
      modifies this
      ensures (Current(), answer) == Entered(old(Current()), e)
    {
      if !e.enabled { return Declined; }
      if processed { return Declined; }
      if intervened { return Declined; }
      if waiting { return Wait; }
      if !bodyRequested {
        bodyRequested := true;
        requests := requests + 1;
        match e.read {
          case ReadFailed(code) => return Status(code);
          case ReadAgain => waiting := true; return Wait;
          case ReadOk =>
        }
      }
      if e.inFile {
        if !e.fileNameFits { return InternalError; }
        fileReads := fileReads + 1;
      } else {
        var verdict := InspectChain(e.chain, e.verdictAfter);
        if verdict > 0 { return Status(verdict); }
      }
      processings := processings + 1;
      processed := true;
      if e.errorPage { return Declined; }
      if e.lastVerdict > 0 { return Status(e.lastVerdict); }
      return Declined;
    }
  }

  // ------------------------------------------------------------------ one request

  /** What happens to a request; another phase may have intervened. */
  datatype Event = Enter(entry: Entry) | Callback | Intervene

  function Next(s: State, e: Event): State {
    match e
    case Enter(entry) => Entered(s, entry).0
    case Callback => BodyRead(s)
    case Intervene => s.(intervened := true)
  }

  function After(events: seq<Event>): State {
    if events == [] then START else Next(After(events[..|events| - 1]), events[|events| - 1])
  }

  predicate Sound(s: State) {
    && s.requests == (if s.bodyRequested then 1 else 0)
    && s.processings == (if s.processed then 1 else 0)
    && (s.processed || s.waiting ==> s.bodyRequested)
    && !(s.processed && s.waiting)
  }

  /**
    Whatever entries, callbacks and interventions a request goes through, its body is asked for at
    most once and processed at most once, and it is never both processed and still awaited.
   */
  lemma {:induction false} RequestIsSound(events: seq<Event>)
    ensures Sound(After(events))
    ensures After(events).requests <= 1 && After(events).processings <= 1
  {
    if events != [] { RequestIsSound(events[..|events| - 1]); }
  }

  /** Processing happens on an entry, with the body asked for and no longer awaited. */
  lemma ProcessingNeverWaits(events: seq<Event>, e: Event)
    requires After(events + [e]).processings != After(events).processings
    ensures e.Enter? && !After(events).waiting && !After(events + [e]).waiting
    ensures After(events + [e]).bodyRequested
  {
    hide InspectedFrom;
    assert (events + [e])[..|events|] == events;
    RequestIsSound(events);
  }

  lemma {:induction false} InspectionWithoutVerdict(chain: seq<Buffer>, i: nat, verdictAfter: nat -> int)
    requires i <= |chain| && InspectedFrom(chain, i, verdictAfter).verdict <= 0
    ensures InspectedFrom(chain, i, verdictAfter).appended == Body(chain[i..])
    decreases |chain| - i
  {
    if i < |chain| && !chain[i].last {
      InspectionWithoutVerdict(chain, i + 1, verdictAfter);
      assert chain[i..][1..] == chain[i + 1..];
    }
  }

  lemma {:induction false} InspectionIsPrefix(chain: seq<Buffer>, i: nat, verdictAfter: nat -> int)
    requires i <= |chain|
    ensures InspectedFrom(chain, i, verdictAfter).appended <= Body(chain[i..])
    decreases |chain| - i
  {
    if i < |chain| && !chain[i].last {
      InspectionIsPrefix(chain, i + 1, verdictAfter);
      assert chain[i..][1..] == chain[i + 1..];
    }
  }

  predicate ProcessesInMemory(s: State, e: Entry) {
    Entered(s, e).0.processed && !s.processed && !e.inFile
  }

  /** An entry that processes a body held in memory has appended the whole body in this very entry. */
  lemma ProcessedBodyIsAppended(s: State, e: Entry)
    requires ProcessesInMemory(s, e)
    ensures Entered(s, e).0.appended == s.appended + Body(e.chain)
  {
    hide InspectedFrom, Body;
    assert e.chain[0..] == e.chain;
    if InspectedFrom(e.chain, 0, e.verdictAfter).verdict <= 0 {
      InspectionWithoutVerdict(e.chain, 0, e.verdictAfter);
    }
  }

  /** An entry that stopped at an intervention after giving the firewall part of the body. */
  predicate LeavesPartOfBody(s: State, e: Event) {
    && e.Enter? && Next(s, e).appended != s.appended && !Next(s, e).processed
  }

  lemma {:induction false} NothingIsLeft(events: seq<Event>)
    requires !After(events).processed
    ensures After(events).appended == []
            <==> forall n :: 0 <= n < |events| ==> !LeavesPartOfBody(After(events[..n]), events[n])
  {
    hide InspectedFrom, Body;
    if events != [] {
      var last := |events| - 1;
      var front := events[..last];
      StaysProcessed(After(front), events[last]);
      NothingIsLeft(front);
      assert forall n :: 0 <= n <= last ==> front[..n] == events[..n];
      AppendedGrows(After(front), events[last]);
      if After(events).appended != [] && After(front).appended != [] {
        var n :| 0 <= n < last && LeavesPartOfBody(After(front[..n]), front[n]);
        assert LeavesPartOfBody(After(events[..n]), events[n]);
      }
      if After(events).appended == [] {
        forall n | 0 <= n <= last ensures !LeavesPartOfBody(After(events[..n]), events[n]) {
          if n < last { assert !LeavesPartOfBody(After(front[..n]), front[n]); }
        }
      }
    }
  }

  lemma StaysProcessed(s: State, e: Event)
    ensures s.processed ==> Next(s, e).processed
  {
  }

  lemma AppendedGrows(s: State, e: Event)
    ensures s.appended <= Next(s, e).appended
    ensures Next(s, e).appended != s.appended ==> e.Enter?
  {
    hide InspectedFrom;
  }

  /** From buffer `i` on, the first intervention is asked for after buffer `k`, and no buffer up to it is the last one. */
  predicate StopsAt(chain: seq<Buffer>, verdictAfter: nat -> int, i: nat, k: nat) {
    && i <= k < |chain| && verdictAfter(k) > 0
    && (forall j :: i <= j <= k ==> !chain[j].last)
    && (forall j :: i <= j < k ==> verdictAfter(j) <= 0)
  }

  /** One of the buffers from `i` to `k` holds something. */
  predicate SomeBytes(chain: seq<Buffer>, i: nat, k: nat)
    requires k < |chain|
  {
    exists m :: i <= m <= k && chain[m].data != []
  }

  /** Where the loop stops, and whether it has appended anything by then. */
  lemma {:induction false} InspectionStops(chain: seq<Buffer>, i: nat, verdictAfter: nat -> int) returns (k: nat)
    requires i < |chain|
    ensures k < |chain|
    ensures InspectedFrom(chain, i, verdictAfter).verdict > 0 <==> StopsAt(chain, verdictAfter, i, k)
    ensures forall l :: StopsAt(chain, verdictAfter, i, l) ==> l == k
    ensures StopsAt(chain, verdictAfter, i, k) ==>
              && (InspectedFrom(chain, i, verdictAfter).appended != [] <==> SomeBytes(chain, i, k))
              && InspectedFrom(chain, i, verdictAfter).verdict == verdictAfter(k)
    decreases |chain| - i
  {
    k := i;
    if !chain[i].last && verdictAfter(i) <= 0 && i + 1 < |chain| {
      k := InspectionStops(chain, i + 1, verdictAfter);
      StopsLater(chain, i, verdictAfter);
      if StopsAt(chain, verdictAfter, i, k) {
        var rest := InspectedFrom(chain, i + 1, verdictAfter);
        assert |chain[i].data + rest.appended| == |chain[i].data| + |rest.appended|;
        if m :| i <= m <= k && chain[m].data != [] {
          assert m == i || SomeBytes(chain, i + 1, k);
        }
      }
    } else {
      assert SomeBytes(chain, i, i) <==> chain[i].data != [];
    }
  }

  lemma StopsLater(chain: seq<Buffer>, i: nat, verdictAfter: nat -> int)
    requires i < |chain| && !chain[i].last && verdictAfter(i) <= 0
    ensures forall k :: StopsAt(chain, verdictAfter, i, k) <==> StopsAt(chain, verdictAfter, i + 1, k)
  {
  }

  /**
    The entry is one that inspects a body in memory, and the firewall asks for an intervention
    before the last buffer, when it has been given something.
   */
  ghost predicate CutShort(s: State, e: Event) {
    && e.Enter? && e.entry.enabled && !e.entry.inFile
    && !s.processed && !s.intervened && !s.waiting && (s.bodyRequested || e.entry.read.ReadOk?)
    && exists k :: StopsAt(e.entry.chain, e.entry.verdictAfter, 0, k) && SomeBytes(e.entry.chain, 0, k)
  }

  /** The handler is on, has not finished with the request, and is not waiting for its body. */
  predicate Active(s: State, e: Entry) {
    e.enabled && !s.processed && !s.intervened && !s.waiting
  }

  /** The body is there. */
  predicate Ready(s: State, e: Entry) {
    Active(s, e) && (s.bodyRequested || e.read.ReadOk?)
  }

  /** The firewall asks for an intervention before the last buffer, and the first one it asks for is `code`. */
  ghost predicate Intervenes(e: Entry, code: int) {
    exists k :: StopsAt(e.chain, e.verdictAfter, 0, k) && e.verdictAfter(k) == code
  }

  /** What the loop over the buffers finds, told from the buffers. */
  lemma InspectionFinds(e: Entry)
    ensures var verdict := InspectedFrom(e.chain, 0, e.verdictAfter).verdict;
            && (verdict > 0 ==> Intervenes(e, verdict))
            && forall code :: Intervenes(e, code) ==> verdict == code > 0
  {
    hide InspectedFrom;
    if e.chain == [] {
      NothingToInspect(e.verdictAfter);
      NowhereToStop(e.chain, e.verdictAfter);
    } else {
      var k := InspectionStops(e.chain, 0, e.verdictAfter);
      forall code | Intervenes(e, code) ensures InspectedFrom(e.chain, 0, e.verdictAfter).verdict == code > 0 {}
    }
  }

  /**
    When a body is processed, and how the handler answers: a verdict of the firewall is the answer
    unless an error page is being served, a body still to come is waited for, a failure to read it
    is passed on, and the request goes on only when it is processed, or is none of the handler's.
   */
  lemma AnswerIff(s: State, e: Entry)
    ensures var (after, answer) := Entered(s, e);
            var processes := Ready(s, e) && if e.inFile then e.fileNameFits else !exists code :: Intervenes(e, code);
            && (after.processed <==> s.processed || processes)
            && (after.bodyRequested <==> s.bodyRequested || Active(s, e))
            && (after.waiting <==> s.waiting || (Active(s, e) && !s.bodyRequested && e.read.ReadAgain?))
            && after.fileReads == s.fileReads + (if processes && e.inFile then 1 else 0)
            && ((Ready(s, e) && !e.inFile) || after.appended == s.appended)
            && (answer == Wait <==> e.enabled && !s.processed && !s.intervened
                                    && (s.waiting || (!s.bodyRequested && e.read.ReadAgain?)))
            && (answer == InternalError <==> Ready(s, e) && e.inFile && !e.fileNameFits)
            && (forall code :: answer == Status(code)
                               <==> || (Active(s, e) && !s.bodyRequested && e.read == ReadFailed(code))
                                    || (Ready(s, e) && !e.inFile && Intervenes(e, code))
                                    || (processes && !e.errorPage && e.lastVerdict == code > 0))
            && (answer == Declined <==> !e.enabled || s.processed || s.intervened
                                        || (processes && (e.errorPage || e.lastVerdict <= 0)))
  {
    hide InspectedFrom, StopsAt, Intervenes;
    InspectionFinds(e);
  }

  /** A body that comes late is processed once the callback has run, whatever else was asked before. */
  lemma LateBodyIsProcessed(events: seq<Event>, asking: Entry, late: Entry)
    requires var s := After(events); Active(s, asking) && !s.bodyRequested && asking.read.ReadAgain?
    requires late.enabled && if late.inFile then late.fileNameFits else !exists code :: Intervenes(late, code)
    ensures var s := After(events);
            && Entered(s, asking).1 == Wait
            && Entered(Next(s, Enter(asking)), late).1 == Wait
            && After(events + [Enter(asking), Callback, Enter(late)]).processed
  {
    hide InspectedFrom, Intervenes, Entered;
    var s := After(events);
    var all := events + [Enter(asking), Callback, Enter(late)];
    assert all[..|events| + 2] == events + [Enter(asking), Callback];
    assert all[..|events| + 2][..|events| + 1] == events + [Enter(asking)];
    assert (events + [Enter(asking)])[..|events|] == events;
    var asked := Next(s, Enter(asking));
    AnswerIff(s, asking);
    AnswerIff(asked, late);
    AnswerIff(BodyRead(asked), late);
    EnteringKeepsIntervention(s, asking);
    assert After(events + [Enter(asking)]) == asked;
    assert After(events + [Enter(asking), Callback]) == BodyRead(asked);
    assert After(all) == Entered(BodyRead(asked), late).0;
  }

  lemma EnteringKeepsIntervention(s: State, e: Entry)
    ensures Entered(s, e).0.intervened == s.intervened
  {
    hide InspectedFrom;
  }

  /** Once another phase has intervened, the handler leaves the request alone for good. */
  lemma {:induction false} InterventionIsFinal(events: seq<Event>, n: nat, e: Entry)
    requires n < |events| && events[n] == Intervene
    ensures After(events).intervened && Entered(After(events), e) == (After(events), Declined)
  {
    hide InspectedFrom;
    var last := |events| - 1;
    if n < last {
      InterventionIsFinal(events[..last], n, e);
      if events[last].Enter? { EnteringKeepsIntervention(After(events[..last]), events[last].entry); }
    }
  }

  /** Just such an entry leaves part of the body behind. */
  lemma CutShortIff(s: State, e: Event)
    ensures CutShort(s, e) <==> LeavesPartOfBody(s, e)
  {
    hide InspectedFrom, StopsAt, SomeBytes;
    if e.Enter? {
      var n := e.entry;
      if n.chain == [] {
        NothingToInspect(n.verdictAfter);
        assert forall k :: !StopsAt(n.chain, n.verdictAfter, 0, k) by { NowhereToStop(n.chain, n.verdictAfter); }
      } else {
        var k := InspectionStops(n.chain, 0, n.verdictAfter);
        var found := InspectedFrom(n.chain, 0, n.verdictAfter);
        assert |s.appended + found.appended| == |s.appended| + |found.appended|;
      }
    }
  }

  lemma NothingToInspect(verdictAfter: nat -> int)
    ensures InspectedFrom([], 0, verdictAfter) == Inspection([], 0)
  {
  }

  lemma NowhereToStop(chain: seq<Buffer>, verdictAfter: nat -> int)
    requires chain == []
    ensures forall k :: !StopsAt(chain, verdictAfter, 0, k)
  {
  }

  /**
    The firewall processes exactly the body, once, if and only if no earlier entry was cut short by
    an intervention before the last buffer: an entry after such a one appends the body again from
    its start.
   */
  lemma ProcessesExactBodyIff(events: seq<Event>, e: Entry)
    requires ProcessesInMemory(After(events), e)
    ensures After(events + [Enter(e)]).appended == Body(e.chain)
            <==> forall n :: 0 <= n < |events| ==> !CutShort(After(events[..n]), events[n])
  {
    hide Entered, Body, LeavesPartOfBody, CutShort;
    assert (events + [Enter(e)])[..|events|] == events;
    ProcessedBodyIsAppended(After(events), e);
    NothingIsLeft(events);
    forall n | 0 <= n < |events|
      ensures CutShort(After(events[..n]), events[n]) <==> LeavesPartOfBody(After(events[..n]), events[n])
    {
      CutShortIff(After(events[..n]), events[n]);
    }
    assert |After(events).appended + Body(e.chain)| == |After(events).appended| + |Body(e.chain)|;
  }

  /** Such a run exists: a first buffer that provokes an intervention is given to the firewall twice. */
  lemma ReentryAppendsAgain(first: Bytes, rest: Bytes)
    requires first != []
    ensures var chain := [Buffer(first, false), Buffer(rest, true)];
            var blocked := Entry(true, ReadOk, chain, false, true, k => 403, 0, false);
            var passed := Entry(true, ReadOk, chain, false, true, k => 0, 0, false);
            var s := After([Enter(blocked), Enter(passed)]);
            s.processed && s.appended == first + Body(chain) && s.appended != Body(chain)
  {
    var chain := [Buffer(first, false), Buffer(rest, true)];
    var blocked := Entry(true, ReadOk, chain, false, true, k => 403, 0, false);
    var passed := Entry(true, ReadOk, chain, false, true, k => 0, 0, false);
    var events := [Enter(blocked), Enter(passed)];
    assert events[..1] == [Enter(blocked)] && [Enter(blocked)][..0] == [];
    assert InspectedFrom(chain, 0, blocked.verdictAfter) == Inspection(first, 403);
    assert After([Enter(blocked)]).appended == first;
    assert InspectedFrom(chain, 1, passed.verdictAfter) == Inspection(rest, 0);
    ProcessedBodyIsAppended(After([Enter(blocked)]), passed);
  }
}
