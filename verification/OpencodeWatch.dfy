/** The watches of the OpenCode endpoints, `daemon_opencode_watch.go`: starts, stops, endpoint
    changes, watcher exits and shutdown interleave lock section by lock section. */
module OpencodeWatch {
  import opened Wrappers

  type ID = string

  type Endpoint = string

  /** `Running` is inside the loop, `Leaving` behind it but not yet cleaned up, `Cleaned` has
      been through the map, and `Finished` has left the wait group too. */
  datatype Phase = Running | Leaving | Cleaned | Finished

  /** One started watch; `cancelled` is its own cancel function having been called. */
  datatype Watch = Watch(id: ID, endpoint: Endpoint, cancelled: bool, phase: Phase)

  /** `watches` holds every watch ever started, and a watch is named by its index. `held` are
      those that a stop has taken out of the map and is about to cancel. */
  datatype State = State(
    watches: seq<Watch>, entries: map<ID, nat>, held: set<nat>, workers: int, closing: bool,
    connections: set<ID>, probeNow: set<ID>, nextTry: map<ID, int>)
  {
    function Entry(id: ID): Option<nat> {
      if id in entries then Some(entries[id]) else None
    }

    function SetWatch(w: nat, watch: Watch): State
      requires w < |watches|
    {
      this.(watches := watches[w := watch])
    }

    function Cancel(w: nat): State {
      if w < |watches| then SetWatch(w, watches[w].(cancelled := true)) else this
    }

    function Enter(w: nat, phase: Phase): State
      requires w < |watches|
    {
      SetWatch(w, watches[w].(phase := phase))
    }

    /** The lock section of `startOpencodeWatch`. */
    function Start(id: ID, e: Endpoint): State {
      var former := Entry(id);
      if closing || (former.Some? && former.value < |watches| && watches[former.value].endpoint == e) then this
      else
        var s := if former.Some? then Cancel(former.value) else this;
        s.(watches := s.watches + [Watch(id, e, false, Running)],
           entries := s.entries[id := |s.watches|], workers := s.workers + 1)
    }

    /** The lock section of `stopOpencodeWatch`; the cancel comes after it. */
    function Take(id: ID): State {
      this.(entries := entries - {id}, held := held + if id in entries then {entries[id]} else {})
    }

    function CancelHeld(w: nat): State {
      Cancel(w).(held := held - {w})
    }

    /** The deferred lock section of `runOpencodeWatch`. */
    function CleanUp(w: nat): State
      requires w < |watches|
    {
      var id := watches[w].id;
      Enter(w, Cleaned).(entries := if Entry(id) == Some(w) then entries - {id} else entries)
    }

    function Hint(id: ID): State {
      if id !in connections then this else this.(probeNow := probeNow + {id}, nextTry := nextTry - {id})
    }

    function TakeProbe(id: ID): State {
      this.(probeNow := probeNow - {id})
    }
  }

  datatype ConnectionState = Disconnected | Detached | BindingRequired | OtherState

  /** What the scheduler knows of a connection; `exited` is its consumer's TUI having exited. */
  datatype Connection = Connection(id: ID, endpoint: Option<Endpoint>, state: ConnectionState, exited: bool)

  // ---- the lock sections themselves ----

  class Daemon {
    var watches: seq<Watch>
    var entries: map<ID, nat>
    var held: set<nat>
    var workers: int
    var closing: bool
    var connections: set<ID>
    var probeNow: set<ID>
    var nextTry: map<ID, int>

    constructor (connections: set<ID>)
      ensures Now() == Fresh(connections)
    {
      watches, entries, held, workers, closing := [], map[], {}, 0, false;
      this.connections, probeNow, nextTry := connections, {}, map[];
    }

    ghost function Now(): State
      reads this
    {
      State(watches, entries, held, workers, closing, connections, probeNow, nextTry)
    }

    method CancelWatch(w: nat)
      modifies this`watches
      ensures Now() == old(Now()).Cancel(w)
    {
      if w < |watches| {
        watches := watches[w := watches[w].(cancelled := true)];
      }
    }

    method StartWatch(id: ID, e: Endpoint)
      modifies this
      ensures Now() == old(Now()).Start(id, e)
    {
      if closing {
        return;
      }
      if id in entries {
        var w := entries[id];
        if w < |watches| && watches[w].endpoint == e {
          return;
        }
        CancelWatch(w);
      }
      entries := entries[id := |watches|];
      watches := watches + [Watch(id, e, false, Running)];
      workers := workers + 1;
    }

    method TakeWatch(id: ID) returns (w: Option<nat>)
      modifies this
      ensures Now() == old(Now()).Take(id) && w == old(Now()).Entry(id)
    {
      if id !in entries {
        entries := entries - {id};
        return None;
      }
      w := Some(entries[id]);
      held := held + {entries[id]};
      entries := entries - {id};
    }

    /** A stop that nothing interrupts. */
    method StopWatch(id: ID)
      modifies this
      ensures var s := old(Now());
              Now() == if id in s.entries then s.Take(id).CancelHeld(s.entries[id]) else s
    {
      var w := TakeWatch(id);
      if w.Some? {
        CancelWatch(w.value);
        held := held - {w.value};
      }
    }

    /** `startOpencodeWatch`: a connection that has nothing to stream loses its watch, any other
        one goes through the start section with its present endpoint. */
    method Schedule(c: Connection)
      modifies this
      ensures var s := old(Now());
              Now() == if c.endpoint.Some? && c.state == OtherState && !c.exited then s.Start(c.id, c.endpoint.value)
                       else if c.id in s.entries then s.Take(c.id).CancelHeld(s.entries[c.id]) else s
    {
      if c.endpoint.None? || c.state in {Disconnected, Detached, BindingRequired} || c.exited {
        StopWatch(c.id);
        return;
      }
      StartWatch(c.id, c.endpoint.value);
    }

    method CleanUp(w: nat)
      requires w < |watches|
      modifies this
      ensures Now() == old(Now()).CleanUp(w)
    {
      var id := watches[w].id;
      if id in entries && entries[id] == w {
        entries := entries - {id};
      }
      watches := watches[w := watches[w].(phase := Cleaned)];
    }

    method Hint(id: ID)
      modifies this
      ensures Now() == old(Now()).Hint(id)
    {
      if id !in connections {
        return;
      }
      probeNow := probeNow + {id};
      nextTry := nextTry - {id};
    }

    method TakeProbeNow(id: ID) returns (due: bool)
      modifies this
      ensures Now() == old(Now()).TakeProbe(id) && due == (id in old(probeNow))
    {
      due := id in probeNow;
      probeNow := probeNow - {id};
    }
  }

  function Fresh(connections: set<ID>): State {
    State([], map[], {}, 0, false, connections, {}, map[])
  }

  // ---- every interleaving ----

  datatype Event =
    | Starts(id: ID, e: Endpoint)
    | StopTakes(id: ID)
    | StopCancels(w: nat)
    | Leaves(w: nat)
    | CleansUp(w: nat)
    | Finishes(w: nat)
    | Closes
    | Hints(id: ID)
    | TakesProbe(id: ID)
    | Retries(id: ID, at: int)
    | ClearsRetry(id: ID)
    | Connects(id: ID)
    | Removes(id: ID)

  predicate In(s: State, w: nat, phase: Phase) {
    w < |s.watches| && s.watches[w].phase == phase
  }

  function Step(s: State, e: Event): State {
    match e
    case Starts(id, e) => s.Start(id, e)
    case StopTakes(id) => s.Take(id)
    case StopCancels(w) => if w in s.held then s.CancelHeld(w) else s
    case Leaves(w) => if In(s, w, Running) then s.Enter(w, Leaving) else s
    case CleansUp(w) => if In(s, w, Leaving) then s.CleanUp(w) else s
    case Finishes(w) => if In(s, w, Cleaned) then s.Enter(w, Finished).(workers := s.workers - 1) else s
    case Closes => s.(closing := true)
    case Hints(id) => s.Hint(id)
    case TakesProbe(id) => s.TakeProbe(id)
    case Retries(id, at) => s.(nextTry := s.nextTry[id := at])
    case ClearsRetry(id) => s.(nextTry := s.nextTry - {id})
    case Connects(id) => s.(connections := s.connections + {id})
    case Removes(id) => s.(connections := s.connections - {id}, nextTry := s.nextTry - {id})
  }

  function Run(s: State, es: seq<Event>): State {
    if es == [] then s else Step(Run(s, es[..|es| - 1]), es[|es| - 1])
  }

  // ---- the invariant ----

  function Active(watches: seq<Watch>): nat {
    if watches == [] then 0
    else Active(watches[..|watches| - 1]) + if watches[|watches| - 1].phase == Finished then 0 else 1
  }

  function Weight(w: Watch): nat {
    if w.phase == Finished then 0 else 1
  }

  lemma {:induction false} ActiveUpdate(watches: seq<Watch>, w: nat, watch: Watch)
    requires w < |watches|
    ensures Active(watches[w := watch]) == Active(watches) - Weight(watches[w]) + Weight(watch)
  {
    var n := |watches| - 1;
    if w < n {
      assert watches[w := watch][..n] == watches[..n][w := watch];
      ActiveUpdate(watches[..n], w, watch);
    } else {
      assert watches[w := watch][..n] == watches[..n];
    }
  }

  lemma ActiveMore(watches: seq<Watch>, watch: Watch)
    ensures Active(watches + [watch]) == Active(watches) + Weight(watch)
  {
    assert (watches + [watch])[..|watches|] == watches;
  }

  predicate Looping(w: Watch) {
    w.phase == Running || w.phase == Leaving
  }

  /** A watch that still runs and nobody has told, or is about to tell, to stop. */
  predicate Untold(s: State, w: nat) {
    w < |s.watches| && Looping(s.watches[w]) && !s.watches[w].cancelled && w !in s.held && !s.closing
  }

  predicate WatchInv(s: State, w: nat) {
    Untold(s, w) ==> s.Entry(s.watches[w].id) == Some(w)
  }

  predicate EntryInv(s: State, id: ID) {
    id in s.entries ==>
      var w := s.entries[id];
      w < |s.watches| && s.watches[w].id == id && Looping(s.watches[w]) && !s.watches[w].cancelled && w !in s.held
  }

  ghost predicate Inv(s: State) {
    && (forall w: nat :: WatchInv(s, w))
    && (forall id :: EntryInv(s, id))
    && (forall w <- s.held :: w < |s.watches|)
    && s.workers == Active(s.watches)
  }

  lemma WorkersStep(s: State, e: Event)
    requires Inv(s)
    ensures Step(s, e).workers == Active(Step(s, e).watches)
  {
    hide Active, WatchInv;
    match e {
      case Starts(id, endpoint) =>
        assert EntryInv(s, id);
        var o := s.Entry(id);
        var t := if o.Some? then s.Cancel(o.value) else s;
        if o.Some? {
          ActiveUpdate(s.watches, o.value, s.watches[o.value].(cancelled := true));
        }
        ActiveMore(t.watches, Watch(id, endpoint, false, Running));
      case StopCancels(w) =>
        if w in s.held {
          ActiveUpdate(s.watches, w, s.watches[w].(cancelled := true));
        }
      case Leaves(w) =>
        if In(s, w, Running) {
          ActiveUpdate(s.watches, w, s.watches[w].(phase := Leaving));
        }
      case CleansUp(w) =>
        if In(s, w, Leaving) {
          ActiveUpdate(s.watches, w, s.watches[w].(phase := Cleaned));
        }
      case Finishes(w) =>
        if In(s, w, Cleaned) {
          ActiveUpdate(s.watches, w, s.watches[w].(phase := Finished));
        }
      case _ =>
    }
  }

  lemma StepKeepsWatch(s: State, e: Event, w: nat)
    requires Inv(s)
    ensures WatchInv(Step(s, e), w)
  {
    hide Active;
    assert WatchInv(s, w);
    match e {
      case Starts(id, _) => assert EntryInv(s, id);
      case CleansUp(v) =>
        if In(s, v, Leaving) {
          assert EntryInv(s, s.watches[v].id);
        }
      case _ =>
    }
  }

  lemma StepKeepsEntry(s: State, e: Event, id: ID)
    requires Inv(s)
    ensures EntryInv(Step(s, e), id)
  {
    hide Active, WatchInv;
    assert EntryInv(s, id);
    match e {
      case Starts(i, _) => assert EntryInv(s, i);
      case StopTakes(i) => assert EntryInv(s, i);
      case _ =>
    }
  }

  lemma HeldStaysKnown(s: State, e: Event)
    requires Inv(s)
    ensures forall w <- Step(s, e).held :: w < |Step(s, e).watches|
  {
    hide Active, WatchInv;
    if e.StopTakes? {
      assert EntryInv(s, e.id);
    }
  }

  lemma StepKeepsInv(s: State, e: Event)
    requires Inv(s)
    ensures Inv(Step(s, e))
  {
    WorkersStep(s, e);
    HeldStaysKnown(s, e);
    hide Active, Step, WatchInv, EntryInv;
    forall w: nat ensures WatchInv(Step(s, e), w) {
      StepKeepsWatch(s, e, w);
    }
    forall id ensures EntryInv(Step(s, e), id) {
      StepKeepsEntry(s, e, id);
    }
  }

  lemma {:induction false} RunKeepsInv(connections: set<ID>, es: seq<Event>)
    ensures Inv(Run(Fresh(connections), es))
    decreases |es|
  {
    if es != [] {
      RunKeepsInv(connections, es[..|es| - 1]);
      hide Inv, Step;
      StepKeepsInv(Run(Fresh(connections), es[..|es| - 1]), es[|es| - 1]);
    }
  }

  // ---- main results ----

  /** Every running watch is the map's entry, or cancelled, or held by a stop about to cancel
      it, or ended by the shutdown; so no two of one connection go on side by side. */
  lemma EveryWatchIsAccountedFor(connections: set<ID>, es: seq<Event>, w: nat)
    requires In(Run(Fresh(connections), es), w, Running)
    ensures var s := Run(Fresh(connections), es);
            s.Entry(s.watches[w].id) == Some(w) || s.watches[w].cancelled || w in s.held || s.closing
  {
    hide Run, Step;
    RunKeepsInv(connections, es);
    var s := Run(Fresh(connections), es);
    assert WatchInv(s, w);
  }

  lemma AtMostOneGoesOn(connections: set<ID>, es: seq<Event>, a: nat, b: nat)
    requires var s := Run(Fresh(connections), es);
             Untold(s, a) && Untold(s, b) && s.watches[a].id == s.watches[b].id
    ensures a == b
  {
    hide Run, Step;
    RunKeepsInv(connections, es);
    var s := Run(Fresh(connections), es);
    assert WatchInv(s, a) && WatchInv(s, b);
  }

  /** A stop tells every watch of its connection to end: behind it, none goes on untold in any run in
      which the connection is not started again, and uninterrupted it leaves them all cancelled or
      ended. The other connections keep theirs. */
  lemma StoppedUntilStarted(connections: set<ID>, es: seq<Event>, id: ID, more: seq<Event>, w: nat, other: ID)
    requires other != id && forall e <- more :: !(e.Starts? && e.id == id)
    ensures var s := Run(Fresh(connections), es);
            var t := Run(Fresh(connections), es + [StopTakes(id)] + more);
            && id !in t.entries && (w < |t.watches| && t.watches[w].id == id ==> !Untold(t, w))
            && Step(s, StopTakes(id)).Entry(other) == s.Entry(other) && Step(s, StopTakes(id)).watches == s.watches
            && (id in s.entries ==>
                  && s.entries[id] < |s.watches|
                  && var u := Step(Step(s, StopTakes(id)), StopCancels(s.entries[id]));
                     u.watches == s.watches[s.entries[id] := s.watches[s.entries[id]].(cancelled := true)] && u.held == s.held)
  {
    hide Run, Step, EntryInv;
    StaysOut(connections, es, id, more);
    RunKeepsInv(connections, es + [StopTakes(id)] + more);
    assert WatchInv(Run(Fresh(connections), es + [StopTakes(id)] + more), w);
    RunKeepsInv(connections, es);
    StopTurn(Run(Fresh(connections), es), id, other);
  }

  lemma StopTurn(s: State, id: ID, other: ID)
    requires Inv(s) && other != id
    ensures Step(s, StopTakes(id)).Entry(other) == s.Entry(other) && Step(s, StopTakes(id)).watches == s.watches
    ensures id in s.entries ==>
              && s.entries[id] < |s.watches|
              && var u := Step(Step(s, StopTakes(id)), StopCancels(s.entries[id]));
                 u.watches == s.watches[s.entries[id] := s.watches[s.entries[id]].(cancelled := true)] && u.held == s.held
  {
    assert EntryInv(s, id);
  }

  lemma {:induction false} StaysOut(connections: set<ID>, es: seq<Event>, id: ID, more: seq<Event>)
    requires forall e <- more :: !(e.Starts? && e.id == id)
    ensures id !in Run(Fresh(connections), es + [StopTakes(id)] + more).entries
    decreases |more|
  {
    var all := es + [StopTakes(id)] + more;
    var n := |more| - 1;
    if more == [] {
      assert all[..|all| - 1] == es && all[|all| - 1] == StopTakes(id);
    } else {
      assert all[..|all| - 1] == es + [StopTakes(id)] + more[..n] && all[|all| - 1] == more[n];
      assert forall e <- more[..n] :: e in more;
      StaysOut(connections, es, id, more[..n]);
      assert more[n] in more;
    }
  }

  /** The connection has an entry on the endpoint, whatever became of its watch. */
  predicate EntryOn(s: State, id: ID, e: Endpoint) {
    id in s.entries && s.entries[id] < |s.watches| && s.watches[s.entries[id]].endpoint == e
  }

  /** The connection has a watch on the endpoint that is inside its loop and not cancelled. */
  predicate Watching(s: State, id: ID, e: Endpoint) {
    EntryOn(s, id, e) && s.watches[s.entries[id]].phase == Running && !s.watches[s.entries[id]].cancelled
  }

  /** Scheduling a connection that streams leaves it with a running watch on its endpoint, except
      exactly when it had none and the daemon is closing, or its entry on that endpoint is a watch
      that has left its loop and not cleaned up yet. */
  lemma ScheduledIsWatchedExactly(connections: set<ID>, es: seq<Event>, id: ID, e: Endpoint)
    ensures var s := Run(Fresh(connections), es);
            Watching(s.Start(id, e), id, e) <==> Watching(s, id, e) || (!s.closing && !EntryOn(s, id, e))
  {
    hide Run;
    RunKeepsInv(connections, es);
    assert EntryInv(Run(Fresh(connections), es), id);
  }

  /** A concrete run: the watch leaves its loop, the connection is scheduled again, and then the
      watch cleans up. The connection is left with no entry and without any running watch. */
  lemma LeavingWatchIsKept(connections: set<ID>, id: ID, e: Endpoint)
    ensures var s := Run(Fresh(connections), [Starts(id, e), Leaves(0), Starts(id, e), CleansUp(0)]);
            !s.closing && id !in s.entries && forall w <- s.watches :: w.phase != Running
  {
    var es := [Starts(id, e), Leaves(0), Starts(id, e), CleansUp(0)];
    var s0 := Fresh(connections);
    assert es[..3][..2] == es[..2] && es[..2][..1] == es[..1] && es[..1][..0] == [];
    assert Run(s0, es[..1]) == Step(s0, es[0]);
    assert Run(s0, es[..2]) == Step(Run(s0, es[..1]), es[1]);
    assert Run(s0, es[..3]) == Step(Run(s0, es[..2]), es[2]);
    assert Run(s0, es) == Step(Run(s0, es[..3]), es[3]);
  }

  /** A step that may take the entry of `w` away: its own clean-up, a stop, or a start on another
      endpoint. */
  predicate Displaces(s: State, e: Event, id: ID, w: nat) {
    e == CleansUp(w) || e == StopTakes(id) || (e.Starts? && e.id == id && !(w < |s.watches| && s.watches[w].endpoint == e.e))
  }

  lemma EntryStep(s: State, e: Event, id: ID, w: nat)
    requires s.Entry(id) == Some(w) && w < |s.watches| && !Displaces(s, e, id, w)
    ensures var t := Step(s, e);
            t.Entry(id) == Some(w) && w < |t.watches| && t.watches[w].endpoint == s.watches[w].endpoint
  {
  }

  /** An entry stays through any run until its own watch cleans up, a stop takes it or a start
      moves it to another endpoint: however many older watches of the connection clean up late,
      none of them removes it. */
  lemma {:induction false} CleanUpKeepsNewer(s: State, id: ID, w: nat, more: seq<Event>)
    requires s.Entry(id) == Some(w) && w < |s.watches| && forall e <- more :: !Displaces(s, e, id, w)
    ensures var t := Run(s, more);
            t.Entry(id) == Some(w) && w < |t.watches| && t.watches[w].endpoint == s.watches[w].endpoint
    decreases |more|
  {
    hide Step;
    if more != [] {
      var before := more[..|more| - 1];
      assert forall e <- before :: e in more;
      CleanUpKeepsNewer(s, id, w, before);
      assert more[|more| - 1] in more;
      EntryStep(Run(s, before), more[|more| - 1], id, w);
    }
  }

  /** The wait group counts the watches that have not finished, so its wait ends exactly when
      they all have. */
  lemma WorkersAreTheUnfinished(connections: set<ID>, es: seq<Event>)
    ensures var s := Run(Fresh(connections), es);
            && s.workers == Active(s.watches)
            && (s.workers == 0 <==> forall w <- s.watches :: w.phase == Finished)
  {
    hide Run, Step;
    RunKeepsInv(connections, es);
    NoneActive(Run(Fresh(connections), es).watches);
  }

  lemma {:induction false} NoneActive(watches: seq<Watch>)
    ensures Active(watches) == 0 <==> forall w <- watches :: w.phase == Finished
  {
    if watches != [] {
      var n := |watches| - 1;
      NoneActive(watches[..n]);
      assert watches == watches[..n] + [watches[n]];
    }
  }

  lemma ClosingStep(s: State, e: Event)
    requires s.closing
    ensures var t := Step(s, e); t.closing && t.workers <= s.workers && |t.watches| == |s.watches|
  {
  }

  /** Once the daemon is closing, nothing that still happens adds to the wait group its shutdown
      waits for. */
  lemma {:induction false} ClosingAddsNoWorker(s: State, more: seq<Event>)
    requires s.closing
    ensures var t := Run(s, more); t.closing && t.workers <= s.workers && |t.watches| == |s.watches|
    decreases |more|
  {
    hide Step;
    if more != [] {
      ClosingAddsNoWorker(s, more[..|more| - 1]);
      ClosingStep(Run(s, more[..|more| - 1]), more[|more| - 1]);
    }
  }

  /** The event at `i` is a hint for a connection that is known then. */
  predicate HintAt(connections: set<ID>, es: seq<Event>, id: ID, i: nat) {
    i < |es| && es[i] == Hints(id) && id in Run(Fresh(connections), es[..i]).connections
  }

  predicate Probes(es: seq<Event>, id: ID, j: nat) {
    j < |es| && es[j] == TakesProbe(id)
  }

  lemma ProbesBefore(es: seq<Event>, id: ID, j: nat)
    requires es != [] && j < |es| - 1
    ensures Probes(es[..|es| - 1], id, j) <==> Probes(es, id, j)
  {
  }

  /** Such a hint came, and no probe was taken behind it. */
  predicate Hinted(connections: set<ID>, es: seq<Event>, id: ID) {
    exists i :: 0 <= i < |es| && HintAt(connections, es, id, i) && forall j :: i < j < |es| ==> !Probes(es, id, j)
  }

  lemma ProbeStep(s: State, e: Event, id: ID)
    ensures id in Step(s, e).probeNow <==>
            if e == TakesProbe(id) then false
            else id in s.probeNow || (e == Hints(id) && id in s.connections)
  {
  }

  lemma HintAtBefore(connections: set<ID>, es: seq<Event>, id: ID, i: nat)
    requires es != [] && i < |es| - 1
    ensures HintAt(connections, es[..|es| - 1], id, i) <==> HintAt(connections, es, id, i)
  {
    assert es[..|es| - 1][..i] == es[..i];
  }

  lemma LastHint(connections: set<ID>, es: seq<Event>, id: ID)
    requires es != []
    ensures HintAt(connections, es, id, |es| - 1) <==>
            es[|es| - 1] == Hints(id) && id in Run(Fresh(connections), es[..|es| - 1]).connections
  {
  }

  lemma HintedTurn(connections: set<ID>, es: seq<Event>, id: ID)
    requires es != []
    ensures var n := |es| - 1;
            Hinted(connections, es, id) <==>
            HintAt(connections, es, id, n) || (!Probes(es, id, n) && Hinted(connections, es[..n], id))
  {
    hide HintAt, Run, Probes;
    var n := |es| - 1;
    var before := es[..n];
    forall i: nat | i < n ensures HintAt(connections, before, id, i) <==> HintAt(connections, es, id, i) {
      HintAtBefore(connections, es, id, i);
    }
    forall j: nat | j < n ensures Probes(before, id, j) <==> Probes(es, id, j) {
      ProbesBefore(es, id, j);
    }
    if Hinted(connections, es, id) {
      var i :| 0 <= i <= n && HintAt(connections, es, id, i) && forall j :: i < j <= n ==> !Probes(es, id, j);
      if i < n {
        assert HintAt(connections, before, id, i);
      }
    }
    if Hinted(connections, before, id) && !Probes(es, id, n) {
      var i :| 0 <= i < n && HintAt(connections, before, id, i) && forall j :: i < j < n ==> !Probes(before, id, j);
      assert HintAt(connections, es, id, i);
    }
  }

  /** No hint is lost and none is invented: the next probe is due exactly when a hint came since
      the last one, whatever else happened in between. */
  lemma {:induction false} HintsAreKept(connections: set<ID>, es: seq<Event>, id: ID)
    ensures id in Run(Fresh(connections), es).probeNow <==> Hinted(connections, es, id)
    decreases |es|
  {
    if es != [] {
      var n := |es| - 1;
      assert Run(Fresh(connections), es) == Step(Run(Fresh(connections), es[..n]), es[n]);
      hide Run, Step, Hinted;
      HintsAreKept(connections, es[..n], id);
      ProbeStep(Run(Fresh(connections), es[..n]), es[n], id);
      HintedTurn(connections, es, id);
      LastHint(connections, es, id);
    }
  }

  predicate RetryAt(es: seq<Event>, id: ID, i: nat) {
    i < |es| && es[i].Retries? && es[i].id == id
  }

  /** The event at `j` ends a backoff: the scheduler clears it, the connection is removed, or a
      hint for it comes while it is known. */
  predicate EndsRetry(connections: set<ID>, es: seq<Event>, id: ID, j: nat) {
    j < |es| && (es[j] == ClearsRetry(id) || es[j] == Removes(id) || HintAt(connections, es, id, j))
  }

  /** A retry was scheduled, and nothing after it ended it. */
  predicate BackedOff(connections: set<ID>, es: seq<Event>, id: ID) {
    exists i :: 0 <= i < |es| && RetryAt(es, id, i) && forall j :: i < j < |es| ==> !EndsRetry(connections, es, id, j)
  }

  lemma RetryStep(s: State, e: Event, id: ID)
    ensures id in Step(s, e).nextTry <==>
            (e.Retries? && e.id == id)
            || (id in s.nextTry && e != ClearsRetry(id) && e != Removes(id) && !(e == Hints(id) && id in s.connections))
  {
  }

  lemma BackedOffTurn(connections: set<ID>, es: seq<Event>, id: ID)
    requires es != []
    ensures var n := |es| - 1;
            BackedOff(connections, es, id) <==>
            RetryAt(es, id, n) || (!EndsRetry(connections, es, id, n) && BackedOff(connections, es[..n], id))
  {
    var n := |es| - 1;
    var before := es[..n];
    forall j: nat | j < n ensures EndsRetry(connections, before, id, j) <==> EndsRetry(connections, es, id, j) {
      HintAtBefore(connections, es, id, j);
    }
    hide EndsRetry;
    if BackedOff(connections, es, id) {
      var i :| 0 <= i <= n && RetryAt(es, id, i) && forall j :: i < j <= n ==> !EndsRetry(connections, es, id, j);
      if i < n {
        assert RetryAt(before, id, i);
      }
    }
    if BackedOff(connections, before, id) && !EndsRetry(connections, es, id, n) {
      var i :| 0 <= i < n && RetryAt(before, id, i) && forall j :: i < j < n ==> !EndsRetry(connections, before, id, j);
      assert RetryAt(es, id, i);
    }
    if RetryAt(es, id, n) {
      assert BackedOff(connections, es, id);
    }
  }

  /** A hint ends the backoff of its connection; otherwise only the scheduler or a removal does. */
  lemma {:induction false} HintsEndBackoff(connections: set<ID>, es: seq<Event>, id: ID)
    ensures id in Run(Fresh(connections), es).nextTry <==> BackedOff(connections, es, id)
    decreases |es|
  {
    if es != [] {
      var n := |es| - 1;
      assert Run(Fresh(connections), es) == Step(Run(Fresh(connections), es[..n]), es[n]);
      hide Run, Step, BackedOff, HintAt;
      HintsEndBackoff(connections, es[..n], id);
      RetryStep(Run(Fresh(connections), es[..n]), es[n], id);
      BackedOffTurn(connections, es, id);
      LastHint(connections, es, id);
    }
  }
}
