/** The two RPC demultiplexers, `codexConn` of `codexws.go` and `codexQueue` of
    `codexqueue.go`: many callers and one reader share a map of pending calls. Every critical
    section, channel operation and choice of a `select` is one step, and the steps of callers
    and reader interleave in any order. */
module RpcDemux {
  import opened Wrappers

  datatype Kind = Conn | Queue

  // ---- the shared map and counter ----

  /** `nextID` and `pending`. A channel is named by the caller that made it. */
  datatype Table = Table(nextID: nat, pending: map<int, nat>) {
    function Allocate(): Table {
      this.(nextID := nextID + 1)
    }

    function Register(id: int, caller: nat): Table {
      this.(pending := pending[id := caller])
    }

    function Without(id: int): Table {
      this.(pending := pending - {id})
    }
  }

  /** The fields themselves, as the critical sections change them. */
  class Calls {
    var nextID: nat
    var pending: map<int, nat>

    constructor ()
      ensures Contents() == Table(0, map[])
    {
      nextID, pending := 0, map[];
    }

    ghost function Contents(): Table
      reads this
    {
      Table(nextID, pending)
    }

    method Allocate() returns (id: nat)
      modifies this
      ensures Contents() == old(Contents()).Allocate() && id == Contents().nextID
    {
      nextID := nextID + 1;
      id := nextID;
    }

    method Register(id: int, caller: nat)
      modifies this
      ensures Contents() == old(Contents()).Register(id, caller)
    {
      pending := pending[id := caller];
    }

    /** The reader's section: find the channel and delete the entry. */
    method Take(id: int) returns (caller: Option<nat>)
      modifies this
      ensures Contents() == old(Contents()).Without(id)
      ensures caller == if id in old(pending) then Some(old(pending)[id]) else None
    {
      caller := if id in pending then Some(pending[id]) else None;
      pending := pending - {id};
    }

    method Forget(id: int)
      modifies this
      ensures Contents() == old(Contents()).Without(id)
    {
      pending := pending - {id};
    }
  }

  // ---- what the reader reads ----

  /** A result or an error object, whatever it holds. */
  type Reply = string

  datatype Response = Response(id: int, reply: Reply)

  datatype Message = Malformed | Message(id: Option<int>, named: bool, reply: Option<Reply>)

  datatype Reading = Skip | Fail | Answer(response: Response)

  /** Where the two differ: a queue sidecar may send nothing but notifications and well-formed
      responses, while a bridge connection ignores what it does not understand. */
  function Classify(kind: Kind, m: Message): Reading {
    match m
    case Malformed => if kind == Queue then Fail else Skip
    case Message(id, named, reply) =>
      match kind
      case Conn => if id.Some? && reply.Some? then Answer(Response(id.value, reply.value)) else Skip
      case Queue =>
        if named then if id.Some? then Fail else Skip
        else if id.None? || reply.None? then Fail
        else Answer(Response(id.value, reply.value))
  }

  // ---- callers, reader and their steps ----

  datatype Outcome = Answered(r: Response) | WriteFailed | TimedOut | ConnectionClosed

  /** `Leaving` has decided on an error but not yet forgotten its entry. */
  datatype Phase = Allocated | Registered | Waiting | Leaving(why: Outcome) | Done(outcome: Outcome)

  /** One invocation of `call`: its id, its channel of capacity one, and how often the reader
      has ever sent on it. */
  datatype Caller = Caller(id: nat, phase: Phase, chan: seq<Response>, sends: nat)

  /** `inFlight` is the response the reader has taken out of the map but not yet sent. */
  datatype State = State(
    table: Table, callers: seq<Caller>, inFlight: Option<(nat, Response)>, closed: bool, readerDone: bool)

  const START := State(Table(0, map[]), [], None, false, false)

  datatype Event =
    | Start
    | Register(c: nat)
    | WriteSucceeds(c: nat)
    | WriteFails(c: nat)
    | Reads(m: Message)
    | Sends
    | Receives(c: nat)
    | TimesOut(c: nat)
    | SeesClosed(c: nat)
    | Forgets(c: nat)
    | Close
    | StreamEnds

  predicate In(s: State, c: nat, phase: Phase) {
    c < |s.callers| && s.callers[c].phase == phase
  }

  predicate Enabled(s: State, e: Event) {
    match e
    case Start => true
    case Register(c) => In(s, c, Allocated)
    case WriteSucceeds(c) => In(s, c, Registered)
    case WriteFails(c) => In(s, c, Registered)
    case Reads(_) => !s.readerDone && s.inFlight.None?
    case Sends => s.inFlight.Some? && s.inFlight.value.0 < |s.callers| && s.callers[s.inFlight.value.0].chan == []
    case Receives(c) => In(s, c, Waiting) && s.callers[c].chan != []
    case TimesOut(c) => In(s, c, Waiting)
    case SeesClosed(c) => In(s, c, Waiting) && s.closed
    case Forgets(c) => c < |s.callers| && s.callers[c].phase.Leaving?
    case Close => true
    case StreamEnds => !s.readerDone && s.inFlight.None?
  }

  function With(s: State, c: nat, phase: Phase): State
    requires c < |s.callers|
  {
    s.(callers := s.callers[c := s.callers[c].(phase := phase)])
  }

  /** A caller takes the response out of its channel. */
  function Received(s: State, c: nat): State
    requires c < |s.callers| && s.callers[c].chan != []
  {
    var call := s.callers[c];
    s.(callers := s.callers[c := call.(phase := Done(Answered(call.chan[0])), chan := call.chan[1..])])
  }

  /** One step. A queue that times out closes itself; seeing it closed, a queue caller looks
      into its channel once more, a bridge caller does not. */
  function Step(kind: Kind, s: State, e: Event): State
    requires Enabled(s, e)
  {
    match e
    case Start =>
      var table := s.table.Allocate();
      s.(table := table, callers := s.callers + [Caller(table.nextID, Allocated, [], 0)])
    case Register(c) => With(s, c, Registered).(table := s.table.Register(s.callers[c].id, c))
    case WriteSucceeds(c) => With(s, c, Waiting)
    case WriteFails(c) => With(s, c, Leaving(WriteFailed))
    case Reads(m) =>
      (match Classify(kind, m)
       case Skip => s
       case Fail => s.(closed := true, readerDone := true)
       case Answer(r) =>
         s.(table := s.table.Without(r.id),
            inFlight := if r.id in s.table.pending then Some((s.table.pending[r.id], r)) else None))
    case Sends =>
      var (c, r) := s.inFlight.value;
      var call := s.callers[c];
      s.(callers := s.callers[c := call.(chan := call.chan + [r], sends := call.sends + 1)], inFlight := None)
    case Receives(c) => Received(s, c)
    case TimesOut(c) => With(s, c, Leaving(TimedOut)).(closed := s.closed || kind == Queue)
    case SeesClosed(c) =>
      if kind == Conn then With(s, c, Done(ConnectionClosed))
      else if s.callers[c].chan != [] then Received(s, c)
      else With(s, c, Leaving(ConnectionClosed))
    case Forgets(c) => With(s, c, Done(s.callers[c].phase.why)).(table := s.table.Without(s.callers[c].id))
    case Close => s.(closed := true)
    case StreamEnds => s.(closed := true, readerDone := true)
  }

  /** A run takes any steps in any order; an event that is not enabled does not happen. */
  function Run(kind: Kind, s: State, es: seq<Event>): State
    decreases |es|
  {
    if es == [] then s else Run(kind, if Enabled(s, es[0]) then Step(kind, s, es[0]) else s, es[1..])
  }

  // ---- the invariant ----

  predicate InFlightFor(s: State, c: nat) {
    s.inFlight.Some? && s.inFlight.value.0 == c
  }

  function Count(b: bool): nat {
    if b then 1 else 0
  }

  /** Ids are handed out once, in order; an entry of the map leads to the caller with that id;
      a channel is sent to at most once, whatever is still to come; what a caller gets carries
      its own id; and a caller that returned has left the map, unless a bridge connection was
      closed under it. */
  predicate Inv(kind: Kind, s: State) {
    && s.table.nextID == |s.callers|
    && (forall c: nat :: c < |s.callers| ==> s.callers[c].id == c + 1)
    && (forall id :: id in s.table.pending ==> s.table.pending[id] < |s.callers| && id == s.table.pending[id] + 1)
    && (s.inFlight.Some? ==> s.inFlight.value.0 < |s.callers| && s.inFlight.value.1.id == s.inFlight.value.0 + 1)
    && (s.readerDone ==> s.closed && s.inFlight.None?)
    && (forall c: nat :: c < |s.callers| ==> CallerInv(kind, s, c))
  }

  predicate CallerInv(kind: Kind, s: State, c: nat)
    requires c < |s.callers|
  {
    var call := s.callers[c];
    && call.sends + Count(InFlightFor(s, c)) + Count(c + 1 in s.table.pending) <= 1
    && |call.chan| <= call.sends
    && (forall r <- call.chan :: r.id == c + 1)
    && (call.phase == Allocated ==> call.sends == 0 && !InFlightFor(s, c) && c + 1 !in s.table.pending)
    && (call.phase.Done? && call.phase.outcome.Answered? ==> call.phase.outcome.r.id == c + 1)
    && (call.phase.Leaving? ==> !call.phase.why.Answered?)
    && (call.phase.Done? && (kind == Queue || call.phase.outcome != ConnectionClosed) ==> c + 1 !in s.table.pending)
  }

  predicate OfReader(e: Event) {
    e.Reads? || e.Sends? || e.StreamEnds? || e.Close?
  }

  lemma ReaderKeepsCaller(kind: Kind, s: State, e: Event, c: nat)
    requires Inv(kind, s) && Enabled(s, e) && c < |s.callers| && OfReader(e)
    ensures CallerInv(kind, Step(kind, s, e), c)
  {
    hide Classify;
    assert CallerInv(kind, s, c);
  }

  /** A step of another caller leaves this one as it was. */
  lemma OthersKeepCaller(kind: Kind, s: State, e: Event, c: nat)
    requires Inv(kind, s) && Enabled(s, e) && c < |s.callers| && !OfReader(e) && (e.Start? || e.c != c)
    ensures CallerInv(kind, Step(kind, s, e), c)
  {
    assert CallerInv(kind, s, c);
    if !e.Start? {
      assert CallerInv(kind, s, e.c);
    }
  }

  lemma OwnStepKeepsCaller(kind: Kind, s: State, e: Event)
    requires Inv(kind, s) && Enabled(s, e) && !OfReader(e) && !e.Start?
    ensures CallerInv(kind, Step(kind, s, e), e.c)
  {
    assert CallerInv(kind, s, e.c);
  }

  lemma NewCallerInv(kind: Kind, s: State)
    requires Inv(kind, s)
    ensures CallerInv(kind, Step(kind, s, Start), |s.callers|)
  {
  }

  lemma StepKeepsInv(kind: Kind, s: State, e: Event)
    requires Inv(kind, s) && Enabled(s, e)
    ensures Inv(kind, Step(kind, s, e))
  {
    hide CallerInv, Classify;
    forall c: nat | c < |Step(kind, s, e).callers| ensures CallerInv(kind, Step(kind, s, e), c) {
      if OfReader(e) {
        ReaderKeepsCaller(kind, s, e, c);
      } else if e.Start? && c == |s.callers| {
        NewCallerInv(kind, s);
      } else if !e.Start? && e.c == c {
        OwnStepKeepsCaller(kind, s, e);
      } else {
        OthersKeepCaller(kind, s, e, c);
      }
    }
  }

  lemma {:induction false} RunKeepsInv(kind: Kind, s: State, es: seq<Event>)
    requires Inv(kind, s)
    ensures Inv(kind, Run(kind, s, es))
    decreases |es|
  {
    hide Inv, Enabled, Step;
    if es != [] {
      if Enabled(s, es[0]) {
        StepKeepsInv(kind, s, es[0]);
        RunKeepsInv(kind, Step(kind, s, es[0]), es[1..]);
      } else {
        RunKeepsInv(kind, s, es[1..]);
      }
    }
  }

  // ---- what the reader makes of a message ----

  /** A queue may be sent notifications, which name a method and carry no id. A bridge connection
      goes on over everything that is not a response. */
  predicate GoesOn(kind: Kind, m: Message) {
    match kind
    case Queue => m.Message? && m.named && m.id == None
    case Conn => m.Malformed? || m.id == None || m.reply == None
  }

  /** What a queue sidecar must not send: no JSON, a request, or a response without an id or
      without an answer. */
  predicate EndsQueue(m: Message) {
    m.Malformed? || (if m.named then m.id != None else m.id == None || m.reply == None)
  }

  /** The run without the messages the reader goes on over. */
  function WithoutNotes(kind: Kind, es: seq<Event>): seq<Event> {
    if es == [] then []
    else (if es[0].Reads? && GoesOn(kind, es[0].m) then [] else [es[0]]) + WithoutNotes(kind, es[1..])
  }

  /** Whatever notifications come in between, and whatever a bridge connection does not
      understand, the run ends as it does without them: no call is disturbed. */
  lemma {:induction false} NotesDisturbNothing(kind: Kind, s: State, es: seq<Event>)
    ensures Run(kind, s, es) == Run(kind, s, WithoutNotes(kind, es))
    decreases |es|
  {
    if es != [] {
      var e, rest := es[0], WithoutNotes(kind, es[1..]);
      RunTurn(kind, s, es);
      if e.Reads? && GoesOn(kind, e.m) {
        if Enabled(s, e) {
          NoteTurn(kind, s, e.m);
        }
        hide Run, Step, Enabled;
        NotesDisturbNothing(kind, s, es[1..]);
        assert [] + rest == rest;
      } else {
        var next := if Enabled(s, e) then Step(kind, s, e) else s;
        hide Step, Enabled;
        NotesDisturbNothing(kind, next, es[1..]);
        assert ([e] + rest)[1..] == rest;
        RunTurn(kind, s, [e] + rest);
      }
    }
  }

  lemma NoteTurn(kind: Kind, s: State, m: Message)
    requires GoesOn(kind, m) && Enabled(s, Reads(m))
    ensures Step(kind, s, Reads(m)) == s
  {
  }

  /** Anything a queue sidecar must not send ends the queue: its stream counts as closed, and its
      reader reads no more. */
  lemma BadMessageEndsQueue(s: State, m: Message)
    requires EndsQueue(m) && Enabled(s, Reads(m))
    ensures Step(Queue, s, Reads(m)) == s.(closed := true, readerDone := true)
  {
  }

  /** Behind the end of its stream, or behind a message that ends a queue, a client stays closed and
      reads nothing more in any run. */
  lemma {:induction false} NothingIsReadBehindTheEnd(kind: Kind, s: State, end: Event, es: seq<Event>, m: Message)
    requires Enabled(s, end)
    requires end == StreamEnds || (kind == Queue && end.Reads? && EndsQueue(end.m))
    ensures var t := Run(kind, Step(kind, s, end), es); t.closed && !Enabled(t, Reads(m)) && !Enabled(t, StreamEnds)
    ensures Step(kind, s, end).table == s.table && Step(kind, s, end).callers == s.callers
  {
    DoneStaysDone(kind, Step(kind, s, end), es);
  }

  lemma {:induction false} DoneStaysDone(kind: Kind, s: State, es: seq<Event>)
    requires s.closed && s.readerDone
    ensures Run(kind, s, es).closed && Run(kind, s, es).readerDone
    decreases |es|
  {
    if es != [] { DoneStaysDone(kind, if Enabled(s, es[0]) then Step(kind, s, es[0]) else s, es[1..]); }
  }

  /** A message is of one of three kinds: the reader goes on, the queue ends, or it is a response. */
  lemma MessagesAreOfThreeKinds(kind: Kind, m: Message)
    ensures !(GoesOn(Queue, m) && EndsQueue(m))
    ensures !GoesOn(kind, m) && (kind == Queue ==> !EndsQueue(m)) ==> m.Message? && m.id.Some? && m.reply.Some?
  {
  }

  /** What a caller waits for is in the map, in flight or sent. */
  predicate AccountedFor(s: State, c: nat) {
    c < |s.callers| && (s.callers[c].phase == Registered || s.callers[c].phase == Waiting) ==>
      s.callers[c].sends + Count(InFlightFor(s, c)) + Count(c + 1 in s.table.pending) == 1
  }

  lemma StepAccounts(kind: Kind, s: State, e: Event, c: nat)
    requires Inv(kind, s) && Enabled(s, e) && AccountedFor(s, c)
    ensures AccountedFor(Step(kind, s, e), c)
  {
    if c < |s.callers| {
      assert CallerInv(kind, s, c);
    }
  }

  lemma {:induction false} RunAccounts(kind: Kind, s: State, es: seq<Event>, c: nat)
    requires Inv(kind, s) && AccountedFor(s, c)
    ensures AccountedFor(Run(kind, s, es), c)
    decreases |es|
  {
    RunTurn(kind, s, es);
    hide Inv, AccountedFor, Enabled, Step, Run;
    if es != [] {
      if Enabled(s, es[0]) {
        StepKeepsInv(kind, s, es[0]);
        StepAccounts(kind, s, es[0], c);
        RunAccounts(kind, Step(kind, s, es[0]), es[1..], c);
      } else {
        RunAccounts(kind, s, es[1..], c);
      }
    }
  }

  /** In every run, the first response read for a caller that still waits, or still writes, is on
      its way to that caller and to no other. */
  lemma ResponseFindsItsCaller(kind: Kind, es: seq<Event>, c: nat, m: Message)
    requires var s := Run(kind, START, es);
             && c < |s.callers| && (s.callers[c].phase == Registered || s.callers[c].phase == Waiting)
             && s.callers[c].sends == 0 && Enabled(s, Reads(m))
    requires m.Message? && m.id == Some(c + 1) && m.reply.Some? && (kind == Queue ==> !m.named)
    ensures var s := Run(kind, START, es);
            Step(kind, s, Reads(m)).inFlight == Some((c, Response(c + 1, m.reply.value)))
  {
    hide Run;
    RunKeepsInv(kind, START, es);
    RunAccounts(kind, START, es, c);
  }

  /** A timeout closes a queue for all its callers, and a bridge connection for none. */
  lemma TimeoutClosesQueueOnly(kind: Kind, s: State, c: nat, other: nat)
    requires Enabled(s, TimesOut(c)) && other != c && In(s, other, Waiting)
    ensures Enabled(Step(kind, s, TimesOut(c)), SeesClosed(other)) <==> s.closed || kind == Queue
  {
  }

  // ---- main results ----

  /** Ids are never used twice. */
  lemma IdsAreUnique(kind: Kind, es: seq<Event>, a: nat, b: nat)
    requires a < b < |Run(kind, START, es).callers|
    ensures Run(kind, START, es).callers[a].id != Run(kind, START, es).callers[b].id
  {
    RunKeepsInv(kind, START, es);
  }

  /** Whatever responses and duplicates arrive, the reader can always finish the send it is
      about to make: it never blocks on a caller. */
  lemma ReaderNeverBlocks(kind: Kind, es: seq<Event>)
    ensures var s := Run(kind, START, es); s.inFlight.Some? ==> Enabled(s, Sends)
  {
    hide Step, Run;
    RunKeepsInv(kind, START, es);
    var s := Run(kind, START, es);
    if s.inFlight.Some? {
      assert CallerInv(kind, s, s.inFlight.value.0);
    }
  }

  /** Every channel is sent to at most once, and a caller that is answered is answered with a
      response to its own request. */
  lemma OnlyOwnResponse(kind: Kind, es: seq<Event>, c: nat)
    requires c < |Run(kind, START, es).callers|
    ensures var call := Run(kind, START, es).callers[c];
            && call.sends <= 1
            && (call.phase.Done? && call.phase.outcome.Answered? ==> call.phase.outcome.r.id == call.id)
  {
    hide Step, Run;
    RunKeepsInv(kind, START, es);
    assert CallerInv(kind, Run(kind, START, es), c);
  }

  // ---- a response against the end of the stream ----

  /** The caller has sent, or is sending, its request and has not decided on an outcome. */
  predicate Active(s: State, c: nat) {
    In(s, c, Registered) || In(s, c, Waiting)
  }

  predicate AnsweredWith(s: State, c: nat, r: Response) {
    In(s, c, Done(Answered(r)))
  }

  /** The caller's own timer fired, or its own write did not return success. */
  predicate GivenUp(s: State, c: nat) {
    c < |s.callers| &&
    match s.callers[c].phase
    case Leaving(why) => why == TimedOut || why == WriteFailed
    case Done(outcome) => outcome == TimedOut || outcome == WriteFailed
    case _ => false
  }

  predicate GivesUp(e: Event, c: nat) {
    e == TimesOut(c) || e == WriteFails(c)
  }

  predicate AnyGivesUp(es: seq<Event>, c: nat) {
    exists e <- es :: GivesUp(e, c)
  }

  lemma GivesUpTurn(es: seq<Event>, c: nat)
    requires es != []
    ensures AnyGivesUp(es, c) <==> GivesUp(es[0], c) || AnyGivesUp(es[1..], c)
  {
    assert es == [es[0]] + es[1..];
    if AnyGivesUp(es[1..], c) {
      var e :| e in es[1..] && GivesUp(e, c);
      assert e in es;
    }
  }

  /** The response is in its caller's channel or received, or the caller itself gave up. */
  predicate Secured(s: State, c: nat, r: Response, gaveUp: bool) {
    (Active(s, c) && s.callers[c].chan == [r]) || AnsweredWith(s, c, r) || (gaveUp && GivenUp(s, c))
  }

  lemma RunTurn(kind: Kind, s: State, es: seq<Event>)
    ensures es == [] ==> Run(kind, s, es) == s
    ensures es != [] ==> Run(kind, s, es) == Run(kind, if Enabled(s, es[0]) then Step(kind, s, es[0]) else s, es[1..])
  {
  }

  lemma {:induction false} RunConcat(kind: Kind, s: State, a: seq<Event>, b: seq<Event>)
    ensures Run(kind, s, a + b) == Run(kind, Run(kind, s, a), b)
    decreases |a|
  {
    hide Enabled, Step;
    if a == [] {
      assert a + b == b;
    } else {
      assert (a + b)[1..] == a[1..] + b;
      RunConcat(kind, if Enabled(s, a[0]) then Step(kind, s, a[0]) else s, a[1..], b);
    }
  }

  lemma StepKeepsCallers(kind: Kind, s: State, e: Event)
    requires Enabled(s, e)
    ensures |Step(kind, s, e).callers| >= |s.callers|
  {
    hide Classify;
  }

  lemma SecuredStep(s: State, c: nat, r: Response, e: Event, gaveUp: bool)
    requires c < |s.callers| && CallerInv(Queue, s, c) && Secured(s, c, r, gaveUp) && Enabled(s, e)
    ensures Secured(Step(Queue, s, e), c, r, gaveUp || GivesUp(e, c))
  {
    hide Classify;
  }

  /** In a queue, whatever closes the stream and whoever else times out, a delivered response
      stays with its caller until it is received, unless that caller itself gives up. */
  lemma {:induction false} DeliveredReachesCaller(s: State, c: nat, r: Response, more: seq<Event>, gaveUp: bool)
    requires Inv(Queue, s) && c < |s.callers| && Secured(s, c, r, gaveUp)
    ensures Secured(Run(Queue, s, more), c, r, gaveUp || AnyGivesUp(more, c))
    decreases |more|
  {
    RunTurn(Queue, s, more);
    hide Run, Step, CallerInv, Enabled;
    if more != [] {
      GivesUpTurn(more, c);
      hide AnyGivesUp, GivesUp;
      if Enabled(s, more[0]) {
        StepKeepsInv(Queue, s, more[0]);
        StepKeepsCallers(Queue, s, more[0]);
        SecuredStep(s, c, r, more[0], gaveUp);
        DeliveredReachesCaller(Step(Queue, s, more[0]), c, r, more[1..], gaveUp || GivesUp(more[0], c));
      } else {
        DeliveredReachesCaller(s, c, r, more[1..], gaveUp);
      }
    }
  }

  /** Nobody else ends the stream: no `Close`, and no other caller's timer, which would close the
      queue too. Its reader may end it at any time, and `c` may time out itself. */
  predicate Undisturbed(es: seq<Event>, c: nat) {
    forall e <- es :: e != Close && (e.TimesOut? ==> e.c == c)
  }

  /** `r` is in the channel of `c`, or it is in flight and the stream is open. */
  predicate Arrives(s: State, c: nat, r: Response, gaveUp: bool) {
    Secured(s, c, r, gaveUp) || (Active(s, c) && s.inFlight == Some((c, r)) && !s.closed)
  }

  lemma FlightStep(s: State, c: nat, r: Response, e: Event)
    requires c < |s.callers| && CallerInv(Queue, s, c) && Enabled(s, e)
    requires Active(s, c) && s.inFlight == Some((c, r)) && !s.closed && e != Close && (e.TimesOut? ==> e.c == c)
    ensures Arrives(Step(Queue, s, e), c, r, GivesUp(e, c))
  {
    hide Classify;
  }

  lemma ArrivesStep(s: State, c: nat, r: Response, e: Event, gaveUp: bool)
    requires c < |s.callers| && CallerInv(Queue, s, c) && Arrives(s, c, r, gaveUp) && Enabled(s, e)
    requires e != Close && (e.TimesOut? ==> e.c == c)
    ensures Arrives(Step(Queue, s, e), c, r, gaveUp || GivesUp(e, c))
  {
    hide Step, CallerInv, Enabled, Active, GivesUp;
    if Secured(s, c, r, gaveUp) {
      SecuredStep(s, c, r, e, gaveUp);
    } else {
      FlightStep(s, c, r, e);
    }
  }

  /** While nobody else ends the stream, every response that was read for a caller is received
      by it or still on its way, even if the end of the stream was read right behind it. */
  lemma {:induction false} ReadBeforeEndArrives(s: State, c: nat, r: Response, more: seq<Event>, gaveUp: bool)
    requires Inv(Queue, s) && c < |s.callers| && Arrives(s, c, r, gaveUp) && Undisturbed(more, c)
    ensures Arrives(Run(Queue, s, more), c, r, gaveUp || AnyGivesUp(more, c))
    decreases |more|
  {
    RunTurn(Queue, s, more);
    hide Run, Step, CallerInv, Enabled;
    if more != [] {
      GivesUpTurn(more, c);
      hide AnyGivesUp, GivesUp;
      if Enabled(s, more[0]) {
        StepKeepsInv(Queue, s, more[0]);
        StepKeepsCallers(Queue, s, more[0]);
        assert more[0] in more;
        ArrivesStep(s, c, r, more[0], gaveUp);
        ReadBeforeEndArrives(Step(Queue, s, more[0]), c, r, more[1..], gaveUp || GivesUp(more[0], c));
      } else {
        ReadBeforeEndArrives(s, c, r, more[1..], gaveUp);
      }
    }
  }

  /** The reader is about to read a response to `c`. */
  predicate ReadsFor(s: State, m: Message, c: nat) {
    && Enabled(s, Reads(m)) && Classify(Queue, m).Answer?
    && var id := Classify(Queue, m).response.id;
       id in s.table.pending && s.table.pending[id] == c
  }

  /** From the reading of a response to its caller, in any run: if the stream is open when it is
      read and nobody else ends it before it is sent (`before`), the call returns it, whatever
      happens afterwards (`after`), unless the caller's own timer fires or its own write fails. */
  lemma ReadResponseIsTheAnswer(es: seq<Event>, c: nat, m: Message, before: seq<Event>, after: seq<Event>)
    requires var s := Run(Queue, START, es); Active(s, c) && !s.closed && ReadsFor(s, m, c)
    requires Undisturbed(before, c)
    requires Run(Queue, Step(Queue, Run(Queue, START, es), Reads(m)), before).inFlight != Some((c, Classify(Queue, m).response))
    ensures var r := Classify(Queue, m).response;
            var t := Run(Queue, Step(Queue, Run(Queue, START, es), Reads(m)), before + after);
            && r.id == c + 1 && Secured(t, c, r, AnyGivesUp(before, c) || AnyGivesUp(after, c))
            && (t.callers[c].phase.Done? && !AnyGivesUp(before, c) && !AnyGivesUp(after, c) ==> AnsweredWith(t, c, r))
  {
    hide Run, Classify, AnyGivesUp;
    RunKeepsInv(Queue, START, es);
    var s, r := Run(Queue, START, es), Classify(Queue, m).response;
    StepKeepsInv(Queue, s, Reads(m));
    var read := Step(Queue, s, Reads(m));
    ReadBeforeEndArrives(read, c, r, before, false);
    RunKeepsInv(Queue, read, before);
    DeliveredReachesCaller(Run(Queue, read, before), c, r, after, AnyGivesUp(before, c));
    RunConcat(Queue, read, before, after);
  }

  // ---- where a response can be lost ----

  /** The caller is told that the connection closed. */
  predicate Lost(s: State, c: nat) {
    In(s, c, Leaving(ConnectionClosed)) || In(s, c, Done(ConnectionClosed))
  }

  /** A step that neither calls `Close` nor lets a timer fire. */
  predicate Calm(e: Event) {
    e != Close && !e.TimesOut?
  }

  predicate LosingRun(kind: Kind, s: State, c: nat, more: seq<Event>) {
    (forall e <- more :: Calm(e) && (kind == Conn ==> e != StreamEnds)) && Lost(Run(kind, s, more), c)
  }

  lemma SeesClosedLoses(kind: Kind, s: State, c: nat)
    requires Active(s, c) && s.closed && (kind == Queue ==> s.callers[c].chan == [])
    ensures exists more :: LosingRun(kind, s, c, more)
  {
    var t := if In(s, c, Registered) then Step(kind, s, WriteSucceeds(c)) else s;
    var more := (if In(s, c, Registered) then [WriteSucceeds(c)] else []) + [SeesClosed(c)];
    RunTurn(kind, s, more);
    assert more[1..] == if In(s, c, Registered) then [SeesClosed(c)] else [];
    RunTurn(kind, t, [SeesClosed(c)]);
    RunTurn(kind, Step(kind, t, SeesClosed(c)), []);
    assert Run(kind, s, more) == Step(kind, t, SeesClosed(c));
    assert forall e <- more :: Calm(e);
    assert LosingRun(kind, s, c, more);
  }

  /** In a queue too a response can be lost, although it was read while its caller waited:
      without any further `Close` or timer, it can be lost exactly when the queue is closed
      before the reader has sent it. */
  lemma QueueLosesExactlyWhenClosedBeforeSent(s: State, c: nat, r: Response)
    requires Inv(Queue, s) && Active(s, c) && (s.callers[c].chan == [r] || s.inFlight == Some((c, r)))
    ensures s.closed && s.callers[c].chan == [] <==> exists more :: LosingRun(Queue, s, c, more)
  {
    hide Run, Step, Enabled;
    assert CallerInv(Queue, s, c);
    if s.closed && s.callers[c].chan == [] {
      SeesClosedLoses(Queue, s, c);
    } else if more :| LosingRun(Queue, s, c, more) {
      assert Undisturbed(more, c);
      ReadBeforeEndArrives(s, c, r, more, false);
    }
  }

  predicate Open(s: State, c: nat) {
    !s.closed && c < |s.callers| && !Lost(s, c)
  }

  lemma {:induction false} OpenStaysOpen(s: State, c: nat, more: seq<Event>)
    requires Open(s, c) && forall e <- more :: Calm(e) && e != StreamEnds
    ensures Open(Run(Conn, s, more), c)
    decreases |more|
  {
    if more != [] {
      var t := if Enabled(s, more[0]) then Step(Conn, s, more[0]) else s;
      assert Calm(more[0]) by { assert more[0] in more; }
      assert Open(t, c);
      OpenStaysOpen(t, c, more[1..]);
    }
  }

  /** A bridge caller whose response is already in its channel can still be told that the
      connection closed, and exactly when it is closed by then: the two are ready together and
      either may be chosen. */
  lemma ConnLosesExactlyWhenClosed(s: State, c: nat)
    requires In(s, c, Waiting) && s.callers[c].chan != []
    ensures s.closed <==> exists more :: LosingRun(Conn, s, c, more)
  {
    if s.closed {
      SeesClosedLoses(Conn, s, c);
    } else if more :| LosingRun(Conn, s, c, more) {
      OpenStaysOpen(s, c, more);
    }
  }

  // ---- both losses in runs from the start ----

  /** A run told step by step, by the states it goes through. */
  predicate Goes(kind: Kind, ss: seq<State>, es: seq<Event>) {
    |ss| == |es| + 1 && forall i :: 0 <= i < |es| ==> Takes(kind, ss[i], es[i], ss[i + 1])
  }

  predicate Takes(kind: Kind, s: State, e: Event, t: State) {
    Enabled(s, e) && Step(kind, s, e) == t
  }

  lemma {:induction false} RunGoes(kind: Kind, ss: seq<State>, es: seq<Event>)
    requires Goes(kind, ss, es)
    ensures Run(kind, ss[0], es) == ss[|es|]
    decreases |es|
  {
    if es != [] {
      assert Takes(kind, ss[0], es[0], ss[1]);
      hide Step, Enabled;
      forall i | 0 <= i < |es| - 1 ensures Takes(kind, ss[1..][i], es[1..][i], ss[1..][i + 1]) {
        assert Takes(kind, ss[i + 1], es[i + 1], ss[i + 2]);
      }
      RunGoes(kind, ss[1..], es[1..]);
    }
  }

  function Answering(reply: Reply): Message {
    Message(Some(1), false, Some(reply))
  }

  /** One request and where it has come to; `listed` says that the map still holds it. */
  function One(listed: bool, phase: Phase, chan: seq<Response>, inFlight: Option<(nat, Response)>, closed: bool): State {
    State(Table(1, if listed then map[1 := 0] else map[]), [Caller(1, phase, chan, |chan|)], inFlight, closed, false)
  }

  lemma AskingTakes(kind: Kind, reply: Reply)
    ensures Takes(kind, START, Start, State(Table(1, map[]), [Caller(1, Allocated, [], 0)], None, false, false))
    ensures Takes(kind, State(Table(1, map[]), [Caller(1, Allocated, [], 0)], None, false, false), Register(0),
                  One(true, Registered, [], None, false))
    ensures Takes(kind, One(true, Registered, [], None, false), WriteSucceeds(0), One(true, Waiting, [], None, false))
    ensures Takes(kind, One(true, Waiting, [], None, false), Reads(Answering(reply)),
                  One(false, Waiting, [], Some((0, Response(1, reply))), false))
  {
    var pending: map<int, nat> := map[1 := 0];
    assert pending - {1} == map[];
  }

  lemma QueueClosingTakes(reply: Reply)
    ensures var r := Response(1, reply);
            && Takes(Queue, One(false, Waiting, [], Some((0, r)), false), Close, One(false, Waiting, [], Some((0, r)), true))
            && Takes(Queue, One(false, Waiting, [], Some((0, r)), true), SeesClosed(0),
                     One(false, Leaving(ConnectionClosed), [], Some((0, r)), true))
            && Takes(Queue, One(false, Leaving(ConnectionClosed), [], Some((0, r)), true), Forgets(0),
                     One(false, Done(ConnectionClosed), [], Some((0, r)), true))
            && Takes(Queue, One(false, Done(ConnectionClosed), [], Some((0, r)), true), Sends,
                     One(false, Done(ConnectionClosed), [r], None, true))
  {
    var none: map<int, nat>, chan: seq<Response> := map[], [];
    assert none - {1} == map[] && chan + [Response(1, reply)] == [Response(1, reply)];
  }

  lemma ConnClosingTakes(reply: Reply)
    ensures var r := Response(1, reply);
            && Takes(Conn, One(false, Waiting, [], Some((0, r)), false), Sends, One(false, Waiting, [r], None, false))
            && Takes(Conn, One(false, Waiting, [r], None, false), Close, One(false, Waiting, [r], None, true))
            && Takes(Conn, One(false, Waiting, [r], None, true), SeesClosed(0), One(false, Done(ConnectionClosed), [r], None, true))
  {
    var chan: seq<Response> := [];
    assert chan + [Response(1, reply)] == [Response(1, reply)];
  }

  /** A queue is closed by someone else between the reader's two steps, taking the entry out of
      the map and sending on its channel: the only caller, whose timer never fires, is told that
      the connection closed. */
  lemma QueueLosesReadResponse(reply: Reply)
    ensures var es := [Start, Register(0), WriteSucceeds(0), Reads(Answering(reply)), Close, SeesClosed(0), Forgets(0), Sends];
            var s := Run(Queue, START, es);
            In(s, 0, Done(ConnectionClosed)) && s.callers[0].chan == [Response(1, reply)] && !AnyGivesUp(es, 0)
  {
    var r := Response(1, reply);
    var es := [Start, Register(0), WriteSucceeds(0), Reads(Answering(reply)), Close, SeesClosed(0), Forgets(0), Sends];
    var ss := [
      START, State(Table(1, map[]), [Caller(1, Allocated, [], 0)], None, false, false),
      One(true, Registered, [], None, false), One(true, Waiting, [], None, false),
      One(false, Waiting, [], Some((0, r)), false), One(false, Waiting, [], Some((0, r)), true),
      One(false, Leaving(ConnectionClosed), [], Some((0, r)), true), One(false, Done(ConnectionClosed), [], Some((0, r)), true),
      One(false, Done(ConnectionClosed), [r], None, true)];
    AskingTakes(Queue, reply);
    QueueClosingTakes(reply);
    hide Takes, Run;
    RunGoes(Queue, ss, es);
  }

  /** A bridge connection is closed behind the delivery: the caller is told so with its response
      in the channel. */
  lemma ConnLosesDeliveredResponse(reply: Reply)
    ensures var es := [Start, Register(0), WriteSucceeds(0), Reads(Answering(reply)), Sends, Close, SeesClosed(0)];
            var s := Run(Conn, START, es);
            In(s, 0, Done(ConnectionClosed)) && s.callers[0].chan == [Response(1, reply)]
  {
    var r := Response(1, reply);
    var es := [Start, Register(0), WriteSucceeds(0), Reads(Answering(reply)), Sends, Close, SeesClosed(0)];
    var ss := [
      START, State(Table(1, map[]), [Caller(1, Allocated, [], 0)], None, false, false),
      One(true, Registered, [], None, false), One(true, Waiting, [], None, false),
      One(false, Waiting, [], Some((0, r)), false), One(false, Waiting, [r], None, false),
      One(false, Waiting, [r], None, true), One(false, Done(ConnectionClosed), [r], None, true)];
    AskingTakes(Conn, reply);
    ConnClosingTakes(reply);
    hide Takes, Run;
    RunGoes(Conn, ss, es);
  }
}
