/** The session status kept by the TUI plugin `cbus-tui.js`: one event loop in which status
    reads overlap, fail and are retried while status events, deletions and reconnects arrive. */
module TuiStatus {
  import opened Wrappers

  const RETRY_MIN: nat := 250
  const RETRY_MAX: nat := 10_000

  type Session = string

  /** What a server says about a session; a session it does not list is idle. */
  datatype Status = Idle | Other(name: string)

  datatype Known = Unknown | Is(status: Status)

  datatype Message =
    | StatusChanged(session: Session, state: Known)
    | RouteChanged(route: Option<(Session, Known)>)
    | SessionDeleted(session: Session)
    | ServerConnected
    | Dispose

  /** The closure variables of `start`, and what the watchers were sent. */
  datatype Plugin = Plugin(
    statuses: map<Session, Status>, racing: map<Session, Status>, refreshing: bool, generation: nat,
    retryArmed: bool, retryDelay: nat, reported: Option<(Session, Known)>,
    shown: Option<Session>, lastShown: Option<Session>, disposed: bool, sent: seq<Message>)
  {
    function Lookup(s: Session): Status {
      if s in statuses then statuses[s] else Idle
    }

    function StateOf(s: Session): Known {
      if refreshing then Unknown else Is(Lookup(s))
    }

    function Emit(m: Message): Plugin {
      this.(sent := sent + [m])
    }

    /** Watchers see only changes. */
    function Report(s: Session, state: Known): Plugin {
      if reported == Some((s, state)) then this
      else Emit(StatusChanged(s, state)).(reported := Some((s, state)))
    }

    /** The first half of a refresh, up to the request. */
    function Begin(): Plugin {
      this.(generation := generation + 1, refreshing := true, racing := map[], retryArmed := false)
    }

    /** The second half: the answer to request `mine`, or its failure. */
    function Land(mine: nat, answer: Option<map<Session, Status>>): Plugin {
      if mine != generation || disposed then this
      else match answer
        case None =>
          this.(retryArmed := true, retryDelay := if retryDelay * 2 < RETRY_MAX then retryDelay * 2 else RETRY_MAX)
        case Some(f) =>
          var p := this.(retryDelay := RETRY_MIN, statuses := f + racing, refreshing := false);
          if shown.None? then p else p.Report(shown.value, p.StateOf(shown.value))
    }

    function OnStatus(s: Session, status: Status): Plugin {
      var p := this.(
        statuses := statuses[s := status],
        racing := if refreshing then racing[s := status] else racing);
      if Some(s) == shown && !refreshing then p.Report(s, Is(status)) else p
    }

    function OnDeleted(s: Session): Plugin {
      this.(statuses := statuses - {s}).Emit(SessionDeleted(s))
    }

    function Key(): Option<(Session, Known)> {
      if shown.None? then None else Some((shown.value, StateOf(shown.value)))
    }

    function Poll(): Plugin {
      if shown == lastShown then this
      else this.(lastShown := shown, reported := Key()).Emit(RouteChanged(Key()))
    }

    /** The first read has returned: the route is polled from here on. */
    function Opened(): Plugin {
      this.(lastShown := shown)
    }

    function Close(): Plugin {
      if disposed then this else this.(disposed := true, retryArmed := false).Emit(Dispose)
    }
  }

  // ---- the handlers themselves ----

  class Handlers {
    var statuses: map<Session, Status>
    var racing: map<Session, Status>
    var refreshing: bool
    var generation: nat
    var retryArmed: bool
    var retryDelay: nat
    var reported: Option<(Session, Known)>
    var shown: Option<Session>
    var lastShown: Option<Session>
    var disposed: bool
    var sent: seq<Message>

    constructor (shown: Option<Session>)
      ensures Now() == Created(shown)
    {
      statuses, racing, refreshing, generation := map[], map[], false, 0;
      retryArmed, retryDelay, reported := false, RETRY_MIN, None;
      this.shown, lastShown, disposed, sent := shown, shown, false, [];
    }

    ghost function Now(): Plugin
      reads this
    {
      Plugin(statuses, racing, refreshing, generation, retryArmed, retryDelay, reported, shown, lastShown, disposed, sent)
    }

    method StateOf(s: Session) returns (state: Known)
      ensures state == Now().StateOf(s)
    {
      if refreshing {
        return Unknown;
      }
      state := Is(if s in statuses then statuses[s] else Idle);
    }

    method ReportState(s: Session, state: Known)
      modifies this
      ensures Now() == old(Now()).Report(s, state)
    {
      if reported == Some((s, state)) {
        return;
      }
      reported := Some((s, state));
      sent := sent + [StatusChanged(s, state)];
    }

    method BeginRefresh() returns (mine: nat)
      modifies this
      ensures Now() == old(Now()).Begin() && mine == generation
    {
      generation := generation + 1;
      mine := generation;
      refreshing := true;
      racing := map[];
      retryArmed := false;
    }

    method FinishRefresh(mine: nat, answer: Option<map<Session, Status>>)
      modifies this
      ensures Now() == old(Now()).Land(mine, answer)
    {
      if mine != generation || disposed {
        return;
      }
      if answer.None? {
        retryArmed := true;
        retryDelay := if retryDelay * 2 < RETRY_MAX then retryDelay * 2 else RETRY_MAX;
        return;
      }
      retryDelay := RETRY_MIN;
      statuses := answer.value + racing;
      refreshing := false;
      if shown.Some? {
        var state := StateOf(shown.value);
        ReportState(shown.value, state);
      }
    }

    method OnStatus(s: Session, status: Status)
      modifies this
      ensures Now() == old(Now()).OnStatus(s, status)
    {
      statuses := statuses[s := status];
      if refreshing {
        racing := racing[s := status];
      }
      if Some(s) == shown && !refreshing {
        ReportState(s, Is(status));
      }
    }

    method OnDeleted(s: Session)
      modifies this
      ensures Now() == old(Now()).OnDeleted(s)
    {
      statuses := statuses - {s};
      sent := sent + [SessionDeleted(s)];
    }

    method Poll()
      modifies this
      ensures Now() == old(Now()).Poll()
    {
      if shown == lastShown {
        return;
      }
      lastShown := shown;
      reported := None;
      if shown.Some? {
        var state := StateOf(shown.value);
        reported := Some((shown.value, state));
      }
      sent := sent + [RouteChanged(reported)];
    }

    method Open()
      modifies this
      ensures Now() == old(Now()).Opened()
    {
      lastShown := shown;
    }

    method Close()
      modifies this
      ensures Now() == old(Now()).Close()
    {
      if disposed {
        return;
      }
      disposed := true;
      retryArmed := false;
      sent := sent + [Dispose];
    }
  }

  function Created(shown: Option<Session>): Plugin {
    Plugin(map[], map[], false, 0, false, RETRY_MIN, None, shown, shown, false, [])
  }

  // ---- every run of the event loop ----

  /** An event about one session, in the order it was handled. */
  datatype Heard = Said(session: Session, status: Status) | Gone(session: Session)

  /** `pending` holds the requests that are still outstanding, and `since` what was heard since
      the newest one began. Until the first read has returned, well or not, `started` is false and
      no handler is registered; only the route may change under the plugin. */
  datatype World = World(p: Plugin, pending: set<nat>, since: seq<Heard>, started: bool)

  datatype Event =
    | Lands(mine: nat, answer: Option<map<Session, Status>>)
    | RetryFires
    | Reconnects
    | Hears(h: Heard)
    | Shows(shown: Option<Session>)
    | Polls
    | Watches
    | Closes

  function Refresh(w: World): World {
    var p := w.p.Begin();
    World(p, w.pending + {p.generation}, [], w.started)
  }

  /** After disposal, only answers to outstanding requests still come in. */
  predicate Enabled(w: World, e: Event) {
    match e
    case Lands(mine, _) => mine in w.pending
    case RetryFires => w.p.retryArmed
    case Shows(_) => !w.p.disposed
    case _ => w.started && !w.p.disposed
  }

  function Step(w: World, e: Event): World {
    if !Enabled(w, e) then w
    else match e
      case Lands(mine, answer) =>
        var p := w.p.Land(mine, answer);
        w.(p := if w.started then p else p.Opened(), pending := w.pending - {mine}, started := true)
      case RetryFires => Refresh(w)
      case Reconnects => Refresh(w.(p := w.p.Emit(ServerConnected)))
      case Hears(h) =>
        w.(p := match h case Said(s, status) => w.p.OnStatus(s, status) case Gone(s) => w.p.OnDeleted(s),
           since := w.since + [h])
      case Shows(shown) => w.(p := w.p.(shown := shown))
      case Polls => w.(p := w.p.Poll())
      case Watches => w.(p := w.p.(reported := w.p.Key()))
      case Closes => w.(p := w.p.Close())
  }

  /** Start-up begins the first read. */
  function Start(shown: Option<Session>): World {
    Refresh(World(Created(shown), {}, [], false))
  }

  function Run(w: World, es: seq<Event>): World
    decreases |es|
  {
    if es == [] then w else Run(Step(w, es[0]), es[1..])
  }

  /** The last status said about a session, whatever was said about its deletion. */
  function LastSaid(since: seq<Heard>, s: Session): Option<Status> {
    if since == [] then None
    else
      var h := since[|since| - 1];
      if h.Said? && h.session == s then Some(h.status) else LastSaid(since[..|since| - 1], s)
  }

  function Entry(m: map<Session, Status>, s: Session): Option<Status> {
    if s in m then Some(m[s]) else None
  }

  predicate NewestOutstanding(w: World) {
    w.p.generation in w.pending
  }

  ghost predicate Inv(w: World) {
    && (forall g <- w.pending :: g <= w.p.generation)
    && (w.p.retryArmed ==> !NewestOutstanding(w) && !w.p.disposed)
    && (!w.p.disposed ==> (w.p.refreshing <==> NewestOutstanding(w) || w.p.retryArmed))
    && (w.p.disposed && NewestOutstanding(w) ==> w.p.refreshing)
    && (w.p.refreshing ==> forall s :: Entry(w.p.racing, s) == LastSaid(w.since, s))
    && RETRY_MIN <= w.p.retryDelay <= RETRY_MAX
  }

  lemma StepKeepsInv(w: World, e: Event)
    requires Inv(w)
    ensures Inv(Step(w, e))
  {
    if Enabled(w, e) && e.Hears? {
      forall s ensures LastSaid(w.since + [e.h], s) ==
                       if e.h.Said? && e.h.session == s then Some(e.h.status) else LastSaid(w.since, s) {
        assert (w.since + [e.h])[..|w.since|] == w.since;
      }
    }
  }

  lemma {:induction false} RunKeepsInv(w: World, es: seq<Event>)
    requires Inv(w)
    ensures Inv(Run(w, es))
    decreases |es|
  {
    hide Inv, Step;
    if es != [] {
      StepKeepsInv(w, es[0]);
      RunKeepsInv(Step(w, es[0]), es[1..]);
    }
  }

  lemma StartInv(shown: Option<Session>)
    ensures Inv(Start(shown))
  {
  }

  // ---- main results ----

  /** Delivery is held by "unknown" exactly while the newest read is outstanding or its retry is
      scheduled, and never by both. */
  lemma UnknownExactlyWhileReading(shown: Option<Session>, es: seq<Event>, s: Session)
    requires !Run(Start(shown), es).p.disposed
    ensures var w := Run(Start(shown), es);
            && (w.p.StateOf(s) == Unknown <==> NewestOutstanding(w) || w.p.retryArmed)
            && !(NewestOutstanding(w) && w.p.retryArmed)
  {
    hide Run, Step;
    StartInv(shown);
    RunKeepsInv(Start(shown), es);
  }

  /** The two differ at most in whether the stale answer `stale` is still to come. */
  ghost predicate SameButStale(a: World, b: World, stale: nat) {
    && a.p == b.p && a.since == b.since && a.started && b.started && stale < a.p.generation
    && forall g :: g != stale ==> (g in a.pending <==> g in b.pending)
  }

  lemma SameStep(a: World, b: World, stale: nat, e: Event)
    requires SameButStale(a, b, stale)
    ensures SameButStale(Step(a, e), Step(b, e), stale)
  {
  }

  lemma {:induction false} SameRun(a: World, b: World, stale: nat, es: seq<Event>)
    requires SameButStale(a, b, stale)
    ensures SameButStale(Run(a, es), Run(b, es), stale)
    decreases |es|
  {
    hide SameButStale, Step;
    if es != [] {
      SameStep(a, b, stale, es[0]);
      SameRun(Step(a, es[0]), Step(b, es[0]), stale, es[1..]);
    }
  }

  /** Whether, when and with what the server answers a read that is no longer the newest makes no
      difference to anything the plugin ever does. */
  lemma SupersededChangesNothing(
    shown: Option<Session>, es: seq<Event>, mine: nat, answer: Option<map<Session, Status>>, more: seq<Event>)
    requires var w := Run(Start(shown), es); w.started && mine < w.p.generation
    ensures var w := Run(Start(shown), es); Run(Step(w, Lands(mine, answer)), more).p == Run(w, more).p
  {
    hide Run;
    var w := Run(Start(shown), es);
    assert SameButStale(Step(w, Lands(mine, answer)), w, mine);
    SameRun(Step(w, Lands(mine, answer)), w, mine, more);
  }

  /** What the newest read leaves behind. */
  function Landed(since: seq<Heard>, answer: map<Session, Status>, s: Session): Status {
    match LastSaid(since, s)
    case Some(status) => status
    case None => if s in answer then answer[s] else Idle
  }

  /** When the newest read lands, every session has the last status heard since that read began,
      else the value it read, else idle. */
  lemma NewestReadLands(shown: Option<Session>, es: seq<Event>, answer: map<Session, Status>, s: Session)
    requires var w := Run(Start(shown), es); NewestOutstanding(w) && !w.p.disposed
    ensures var w := Run(Start(shown), es);
            var t := Step(w, Lands(w.p.generation, Some(answer)));
            t.p.StateOf(s) == Is(Landed(w.since, answer, s))
  {
    hide Run, LastSaid;
    StartInv(shown);
    RunKeepsInv(Start(shown), es);
    var w := Run(Start(shown), es);
    assert w.p.refreshing;
    assert Entry(w.p.racing, s) == LastSaid(w.since, s);
  }

  // ---- deletions during a read ----

  predicate About(h: Heard, s: Session) {
    h.session == s
  }

  /** The last thing heard about the session is its deletion. */
  predicate EndsGone(since: seq<Heard>, s: Session) {
    since != [] &&
    var last := since[|since| - 1];
    if About(last, s) then last.Gone? else EndsGone(since[..|since| - 1], s)
  }

  /** What a map that remembered deletions would say. */
  function Remembered(since: seq<Heard>, answer: map<Session, Status>, s: Session): Status {
    if since == [] then if s in answer then answer[s] else Idle
    else
      var last := since[|since| - 1];
      if !About(last, s) then Remembered(since[..|since| - 1], answer, s)
      else match last
        case Said(_, status) => status
        case Gone(_) => Idle
  }

  /** The session was last said to be busy, or, if nothing was said, is listed as busy. */
  predicate BusyBefore(since: seq<Heard>, answer: map<Session, Status>, s: Session) {
    match LastSaid(since, s)
    case Some(status) => status != Idle
    case None => s in answer && answer[s] != Idle
  }

  lemma {:induction false} ForgottenInList(since: seq<Heard>, answer: map<Session, Status>, s: Session)
    ensures Landed(since, answer, s) != Remembered(since, answer, s) <==>
            EndsGone(since, s) && BusyBefore(since, answer, s)
    decreases |since|
  {
    if since != [] {
      var last := since[|since| - 1];
      if !About(last, s) {
        ForgottenInList(since[..|since| - 1], answer, s);
      }
    }
  }

  /** In any run, the newest read forgets the deletion of a session exactly when the deletion is
      the last thing heard of it and the session was busy before: it comes back busy. */
  lemma DeletionIsForgottenExactly(shown: Option<Session>, es: seq<Event>, answer: map<Session, Status>, s: Session)
    requires var w := Run(Start(shown), es); NewestOutstanding(w) && !w.p.disposed
    ensures var w := Run(Start(shown), es);
            var t := Step(w, Lands(w.p.generation, Some(answer)));
            t.p.StateOf(s) != Is(Remembered(w.since, answer, s)) <==>
            EndsGone(w.since, s) && BusyBefore(w.since, answer, s)
  {
    hide Run, Step, Landed, Remembered, EndsGone, BusyBefore;
    NewestReadLands(shown, es, answer, s);
    ForgottenInList(Run(Start(shown), es).since, answer, s);
  }

  lemma RunFour(w: World, a: Event, b: Event, c: Event, d: Event, rest: seq<Event>)
    ensures Run(w, [a, b, c, d] + rest) == Run(Step(Step(Step(Step(w, a), b), c), d), rest)
  {
    hide Step;
    var es := [a, b, c, d] + rest;
    var w1 := Step(w, a);
    var w2 := Step(w1, b);
    var w3 := Step(w2, c);
    assert es[1..][1..] == es[2..] && es[2..][1..] == es[3..] && es[3..][1..] == es[4..] == rest;
    assert Run(w, es) == Run(w1, es[1..]) == Run(w2, es[2..]) == Run(w3, es[3..]) == Run(Step(w3, d), es[4..]);
  }

  lemma NoEvents(w: World)
    ensures Run(w, []) == w
  {
  }

  /** A concrete run: a busy session is deleted while the read after a reconnect, which still
      lists it, is under way. */
  lemma DeletedSessionComesBack(shown: Option<Session>, s: Session, busy: Status)
    requires busy != Idle
    ensures var listed := Some(map[s := busy]);
            var w := Run(Start(shown), [Lands(1, listed), Reconnects, Hears(Gone(s)), Lands(2, listed)]);
            SessionDeleted(s) in w.p.sent && w.p.StateOf(s) == Is(busy)
  {
    var listed := Some(map[s := busy]);
    RunFour(Start(shown), Lands(1, listed), Reconnects, Hears(Gone(s)), Lands(2, listed), []);
    var es := [Lands(1, listed), Reconnects, Hears(Gone(s)), Lands(2, listed)];
    assert es + [] == es;
    var w2 := Step(Step(Start(shown), es[0]), es[1]);
    var w3 := Step(w2, es[2]);
    var w4 := Step(w3, es[3]);
    NoEvents(w4);
    hide Run;
    assert w3.p.sent[|w2.p.sent|] == SessionDeleted(s);
    assert w4.p.sent[|w2.p.sent|] == SessionDeleted(s);
  }

  // ---- failures, announcements and the end ----

  function Pow2(n: nat): nat {
    if n == 0 then 1 else 2 * Pow2(n - 1)
  }

  /** The newest read fails and its retry begins the next one, `n` times in a row. */
  function Failing(w: World, n: nat): World {
    if n == 0 then w
    else
      var v := Failing(w, n - 1);
      Step(Step(v, Lands(v.p.generation, None)), RetryFires)
  }

  function Capped(n: nat): nat {
    if n < 10_000 then n else 10_000
  }

  lemma CappedTwice(d: nat, p: nat)
    ensures Capped(Capped(d * p) * 2) == Capped(d * (2 * p))
  {
    assert d * (2 * p) == (d * p) * 2;
  }

  lemma FailureDoubles(w: World)
    requires Inv(w) && NewestOutstanding(w) && !w.p.disposed
    ensures var v := Step(Step(w, Lands(w.p.generation, None)), RetryFires);
            && Inv(v) && NewestOutstanding(v) && !v.p.disposed
            && v.p.retryDelay == Capped(w.p.retryDelay * 2)
  {
    StepKeepsInv(w, Lands(w.p.generation, None));
    StepKeepsInv(Step(w, Lands(w.p.generation, None)), RetryFires);
  }

  /** Every failure in a row doubles the delay of the next retry, up to ten seconds; a read that
      lands sets it back to a quarter of a second. */
  lemma {:induction false} RetriesBackOff(w: World, n: nat, answer: map<Session, Status>)
    requires Inv(w) && NewestOutstanding(w) && !w.p.disposed
    ensures var v := Failing(w, n);
            && Inv(v) && NewestOutstanding(v) && !v.p.disposed
            && v.p.retryDelay == Capped(w.p.retryDelay * Pow2(n))
            && Step(v, Lands(v.p.generation, Some(answer))).p.retryDelay == 250
  {
    hide Inv, NewestOutstanding, Step, Capped;
    if n > 0 {
      RetriesBackOff(w, n - 1, answer);
      FailureDoubles(Failing(w, n - 1));
      CappedTwice(w.p.retryDelay, Pow2(n - 1));
    } else {
      DelayIsBounded(w);
    }
    LandingResets(Failing(w, n), answer);
  }

  lemma DelayIsBounded(w: World)
    requires Inv(w)
    ensures Capped(w.p.retryDelay * 1) == w.p.retryDelay
  {
  }

  lemma LandingResets(w: World, answer: map<Session, Status>)
    requires NewestOutstanding(w) && !w.p.disposed
    ensures Step(w, Lands(w.p.generation, Some(answer))).p.retryDelay == 250
  {
  }

  /** From the first read on, a poll announces the route exactly when it is another one than at that
      read or the poll before, with the state of what is shown now. */
  lemma RouteIsAnnouncedExactly(w: World, e: Event, shown: Option<Session>)
    requires Enabled(w, e) && !w.p.disposed && if w.started then e == Polls else e.Lands?
    ensures var t := Step(w, e).p;
            Step(Step(Step(w, e), Shows(shown)), Polls).p.sent ==
            t.sent + if shown == w.p.shown then [] else [RouteChanged(match shown case None => None case Some(s) => Some((s, t.StateOf(s))))]
  {
    hide Plugin.Land, Plugin.Poll;
    PolledAsShown(w, e);
    var t := Step(w, e);
    assert Step(Step(t, Shows(shown)), Polls).p == t.p.(shown := shown).Poll();
    NextPoll(t.p, shown);
  }

  lemma PolledAsShown(w: World, e: Event)
    requires Enabled(w, e) && !w.p.disposed && if w.started then e == Polls else e.Lands?
    ensures var t := Step(w, e);
            t.started && !t.p.disposed && t.p.shown == w.p.shown && t.p.lastShown == w.p.shown
  {
  }

  lemma NextPoll(p: Plugin, shown: Option<Session>)
    requires p.lastShown == p.shown
    ensures p.(shown := shown).Poll().sent ==
            p.sent + if shown == p.shown then [] else [RouteChanged(match shown case None => None case Some(s) => Some((s, p.StateOf(s))))]
  {
  }

  /** Reconnects, deletions and the end are announced as what they are, once each; a reconnect
      makes every state unknown. */
  lemma EventsAreAnnounced(w: World, s: Session)
    requires w.started && !w.p.disposed
    ensures Step(w, Reconnects).p.sent == w.p.sent + [ServerConnected] && Step(w, Reconnects).p.StateOf(s) == Unknown
    ensures Step(w, Hears(Gone(s))).p.sent == w.p.sent + [SessionDeleted(s)]
    ensures Step(w, Closes).p.sent == w.p.sent + [Dispose] && Step(w, Closes).p.disposed
  {
  }

  /** After that nothing happens any more, whatever reads still come in: nothing is sent, and no
      state changes. */
  lemma {:induction false} DisposedIsSilent(w: World, es: seq<Event>)
    requires Inv(w) && w.started && w.p.disposed
    ensures Run(w, es).p == w.p
    decreases |es|
  {
    hide Run;
    RunOne(w, es);
    if es != [] {
      StepKeepsInv(w, es[0]);
      DisposedIsSilent(Step(w, es[0]), es[1..]);
    }
  }

  lemma RunOne(w: World, es: seq<Event>)
    ensures Run(w, es) == if es == [] then w else Run(Step(w, es[0]), es[1..])
  {
  }

  // ---- what watchers were told ----

  /** Once nothing is being read, what watchers were last told is the state of the shown session. */
  predicate Informed(p: Plugin) {
    !p.refreshing && p.shown.Some? ==> p.reported == p.Key()
  }

  /** The two steps that can leave watchers with an old state: showing another session, until the
      route is polled, and deleting the shown session while it is not idle. */
  predicate Misleads(w: World, e: Event) {
    && Enabled(w, e) && !w.p.refreshing
    && match e
       case Shows(shown) =>
         shown.Some? &&
         (if w.p.shown.Some? then shown != w.p.shown
          else w.p.reported != Some((shown.value, Is(w.p.Lookup(shown.value)))))
       case Hears(Gone(s)) => w.p.shown == Some(s) && w.p.Lookup(s) != Idle
       case _ => false
  }

  lemma LandInforms(p: Plugin, mine: nat, answer: Option<map<Session, Status>>)
    requires Informed(p)
    ensures Informed(p.Land(mine, answer)) && Informed(p.Land(mine, answer).Opened())
  {
  }

  lemma StepInforms(w: World, e: Event)
    requires Informed(w.p)
    ensures Informed(Step(w, e).p) <==> !Misleads(w, e)
  {
    hide Plugin.Land;
    if e.Lands? {
      LandInforms(w.p, e.mine, e.answer);
    }
  }

  predicate NeverMisleads(w: World, es: seq<Event>)
    decreases |es|
  {
    es == [] || (!Misleads(w, es[0]) && NeverMisleads(Step(w, es[0]), es[1..]))
  }

  predicate InformedThroughout(w: World, es: seq<Event>)
    decreases |es|
  {
    Informed(w.p) && (es == [] || InformedThroughout(Step(w, es[0]), es[1..]))
  }

  /** Watchers that are informed stay so throughout a run exactly when no step is one of these two. */
  lemma {:induction false} RunInforms(w: World, es: seq<Event>)
    requires Informed(w.p)
    ensures InformedThroughout(w, es) <==> NeverMisleads(w, es)
    decreases |es|
  {
    hide Informed, Step, Misleads;
    if es != [] {
      StepInforms(w, es[0]);
      if !Misleads(w, es[0]) {
        RunInforms(Step(w, es[0]), es[1..]);
      }
    }
  }

  /** A status message is news: it is about the shown session, says the state it has now, which
      is never unknown, and differs from what watchers were told last. */
  lemma StatusMessagesAreNews(w: World, e: Event)
    requires |Step(w, e).p.sent| > |w.p.sent| && Step(w, e).p.sent[|w.p.sent|].StatusChanged?
    ensures var p, m := Step(w, e).p, Step(w, e).p.sent[|w.p.sent|];
            && p.sent == w.p.sent + [m]
            && p.shown == Some(m.session) && m.state == p.StateOf(m.session) && m.state != Unknown
            && w.p.reported != Some((m.session, m.state)) && p.reported == Some((m.session, m.state))
  {
  }

  /** A poll of the route after another session was shown tells watchers the state of it. */
  lemma PollInforms(w: World)
    requires w.started && !w.p.disposed && w.p.shown != w.p.lastShown
    ensures var p := Step(w, Polls).p; p.reported == p.Key() && p.sent == w.p.sent + [RouteChanged(w.p.Key())]
  {
  }

  /** An event, or a visit: another session is shown and the route is polled before anything else. */
  datatype Act = Turn(e: Event) | Visit(shown: Option<Session>)

  function Do(w: World, a: Act): World {
    match a
    case Turn(e) => Step(w, e)
    case Visit(shown) => Step(Step(w, Shows(shown)), Polls)
  }

  function DoAll(w: World, acts: seq<Act>): World
    decreases |acts|
  {
    if acts == [] then w else DoAll(Do(w, acts[0]), acts[1..])
  }

  /** Sessions are shown by visits only. */
  predicate VisitsOnly(acts: seq<Act>) {
    forall a <- acts :: a.Turn? ==> !a.e.Shows?
  }

  /** The shown session is deleted while it is not idle. */
  predicate DeletesShown(w: World, a: Act) {
    && a.Turn? && a.e.Hears? && a.e.h.Gone? && Enabled(w, a.e) && !w.p.refreshing
    && w.p.shown == Some(a.e.h.session) && w.p.Lookup(a.e.h.session) != Idle
  }

  predicate NeverDeletesShown(w: World, acts: seq<Act>)
    decreases |acts|
  {
    acts == [] || (!DeletesShown(w, acts[0]) && NeverDeletesShown(Do(w, acts[0]), acts[1..]))
  }

  predicate InformedAfterEach(w: World, acts: seq<Act>)
    decreases |acts|
  {
    Informed(w.p) && (acts == [] || InformedAfterEach(Do(w, acts[0]), acts[1..]))
  }

  lemma ActInforms(w: World, a: Act)
    requires Informed(w.p) && w.started && w.p.shown == w.p.lastShown && VisitsOnly([a])
    ensures var t := Do(w, a);
            (Informed(t.p) <==> !DeletesShown(w, a)) && t.started && t.p.shown == t.p.lastShown
  {
    assert a in [a];
    match a {
      case Turn(e) => StepInforms(w, e);
      case Visit(shown) =>
        if !w.p.disposed && shown != w.p.shown {
          PollInforms(Step(w, Shows(shown)));
        }
    }
  }

  /** Whatever sessions are visited in whatever order, watchers are informed after each act,
      exactly as long as the shown session is not deleted while it is busy. */
  lemma {:induction false} VisitsInform(w: World, acts: seq<Act>)
    requires Informed(w.p) && w.started && w.p.shown == w.p.lastShown && VisitsOnly(acts)
    ensures InformedAfterEach(w, acts) <==> NeverDeletesShown(w, acts)
    decreases |acts|
  {
    hide Informed, Do, DeletesShown;
    if acts != [] {
      ActInforms(w, acts[0]);
      if !DeletesShown(w, acts[0]) {
        VisitsInform(Do(w, acts[0]), acts[1..]);
      }
    }
  }

  // ---- a session left and shown again between two polls ----

  predicate NoStatusIn(ms: seq<Message>) {
    forall m <- ms :: !m.StatusChanged?
  }

  lemma NoStatusInBoth(x: seq<Message>, y: seq<Message>)
    ensures NoStatusIn(x + y) <==> NoStatusIn(x) && NoStatusIn(y)
  {
    assert (forall m <- x :: m in x + y) && forall m <- y :: m in x + y;
  }

  /** What can happen while `a` is not shown and the route is not polled. */
  predicate Aside(e: Event, a: Session) {
    !e.Polls? && !e.Closes? && e != Shows(Some(a))
  }

  predicate Away(w: World, a: Session) {
    w.started && !w.p.disposed && w.p.shown != Some(a) && w.p.lastShown == Some(a)
  }

  predicate ReportedAnother(p: Plugin, a: Session) {
    p.reported.Some? ==> p.reported.value.0 != a
  }

  /** What watchers were told last stays, until they are told a status or a new one asks; then it
      is not about `a`. */
  lemma AwayStep(w: World, e: Event, a: Session)
    requires Away(w, a) && Aside(e, a)
    ensures var t := Step(w, e);
            && Away(t, a) && w.p.sent <= t.p.sent
            && if !e.Watches? && NoStatusIn(t.p.sent[|w.p.sent|..]) then t.p.reported == w.p.reported
               else ReportedAnother(t.p, a)
  {
    var t := Step(w, e);
    if |t.p.sent| > |w.p.sent| {
      assert t.p.sent[|w.p.sent|..] == [t.p.sent[|w.p.sent|]];
      assert t.p.sent[|w.p.sent|] in t.p.sent[|w.p.sent|..];
    }
  }

  lemma {:induction false} AwayRun(w: World, es: seq<Event>, a: Session)
    requires Away(w, a) && forall e <- es :: Aside(e, a)
    ensures var v := Run(w, es);
            && Away(v, a) && w.p.sent <= v.p.sent
            && if Watches !in es && NoStatusIn(v.p.sent[|w.p.sent|..]) then v.p.reported == w.p.reported
               else ReportedAnother(v.p, a)
    decreases |es|
  {
    hide Away, Step, Aside;
    if es != [] {
      var t := Step(w, es[0]);
      AwayStep(w, es[0], a);
      AwayRun(t, es[1..], a);
      var v := Run(w, es);
      assert v.p.sent[|w.p.sent|..] == t.p.sent[|w.p.sent|..] + v.p.sent[|t.p.sent|..];
      NoStatusInBoth(t.p.sent[|w.p.sent|..], v.p.sent[|t.p.sent|..]);
      assert es == [es[0]] + es[1..];
    }
  }
  /** A session is left and shown again before the route is polled. Watchers know its state
      after the poll exactly when a read is under way, or nobody new asked and no status was sent
      meanwhile and the session still has the status that was reported before it was left. */
  lemma FlipInformsExactly(w: World, a: Session, b: Option<Session>, es: seq<Event>)
    requires w.started && !w.p.disposed && w.p.shown == w.p.lastShown == Some(a) && b != Some(a)
    requires forall e <- es :: Aside(e, a)
    ensures var v := Run(Step(w, Shows(b)), es);
            var t := Step(Step(v, Shows(Some(a))), Polls);
            && w.p.sent <= v.p.sent && t.p.sent == v.p.sent && t.p.shown == Some(a)
            && (Informed(t.p) <==>
                v.p.refreshing ||
                (&& w.p.reported == Some((a, Is(v.p.Lookup(a)))) && Watches !in es
                 && NoStatusIn(v.p.sent[|w.p.sent|..])))
  {
    hide Run;
    AwayRun(Step(w, Shows(b)), es, a);
  }

  /** From informed watchers: they stay so exactly when the status is the one it was, and nothing
      was sent or asked about the other sessions that were shown. */
  lemma FlipGoesUnnoticedExactly(w: World, a: Session, b: Option<Session>, es: seq<Event>)
    requires w.started && !w.p.disposed && w.p.shown == w.p.lastShown == Some(a) && b != Some(a)
    requires Informed(w.p) && !w.p.refreshing
    requires forall e <- es :: Aside(e, a)
    ensures var v := Run(Step(w, Shows(b)), es);
            var t := Step(Step(v, Shows(Some(a))), Polls);
            && w.p.sent <= v.p.sent
            && (Informed(t.p) <==>
                v.p.refreshing ||
                (&& v.p.Lookup(a) == w.p.Lookup(a) && Watches !in es
                 && forall m <- v.p.sent[|w.p.sent|..] :: !m.StatusChanged?))
  {
    hide Run, Step;
    FlipInformsExactly(w, a, b, es);
  }

  /** A run that shows `b` and then `a` again between two polls, with one thing heard meanwhile. */
  function Flip(a: Session, b: Session, h: Heard): (es: seq<Event>) {
    [Lands(1, Some(map[])), Shows(Some(b)), Hears(h), Shows(Some(a)), Polls]
  }

  lemma FlipSteps(a: Session, b: Session, h: Heard)
    ensures var w := Start(Some(a));
            Run(w, Flip(a, b, h)) ==
            Step(Step(Step(Step(Step(w, Lands(1, Some(map[]))), Shows(Some(b))), Hears(h)), Shows(Some(a))), Polls)
  {
    hide Step;
    var w := Start(Some(a));
    var es := Flip(a, b, h);
    RunFour(w, es[0], es[1], es[2], es[3], [Polls]);
    assert es == [es[0], es[1], es[2], es[3]] + [Polls];
    var w4 := Step(Step(Step(Step(w, es[0]), es[1]), es[2]), es[3]);
    assert Run(w4, [Polls]) == Run(Step(w4, Polls), [Polls][1..]) == Step(w4, Polls);
  }

  /** One cause: the session itself changes meanwhile. Watchers still take it for idle while it is
      busy, although the route is polled. */
  lemma FlipGoesUnnoticed(a: Session, b: Session, busy: Status)
    requires a != b && busy != Idle
    ensures var p := Run(Start(Some(a)), Flip(a, b, Said(a, busy))).p;
            p.reported == Some((a, Is(Idle))) && p.shown == Some(a) && p.StateOf(a) == Is(busy)
  {
    FlipSteps(a, b, Said(a, busy));
    hide Run;
  }

  /** The other cause: watchers are told a status of the other session meanwhile. The session
      itself was idle all along, but they were last told that the other one is busy. */
  lemma FlipLeavesTheOther(a: Session, b: Session, busy: Status)
    requires a != b && busy != Idle
    ensures var p := Run(Start(Some(a)), Flip(a, b, Said(b, busy))).p;
            p.reported == Some((b, Is(busy))) && p.shown == Some(a) && p.StateOf(a) == Is(Idle)
  {
    FlipSteps(a, b, Said(b, busy));
    hide Run;
  }
}
