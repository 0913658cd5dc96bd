/** Who coordinates a seat, `coordinator.go`: the record a launch writes, the session that binds
    it, and the undo of a launch that did not happen. */
module Coordinator {
  import opened Wrappers

  /** A channel and an alias. */
  type Seat = (string, string)

  type Session = string

  datatype Door = Apply | Bootstrap | Spawn | Branch | NoDoor

  const SECOND: int := 1_000_000_000
  const BIND_WINDOW: int := 24 * 3600 * SECOND

  /** An empty session is a launch nobody has answered; `ts` is a whole second. */
  datatype Record = Record(coordinator: string, door: Door, session: Session, ts: int)

  /** What a record file can hold. The JSON text of a record determines it and the other way
      round, so comparing bytes is comparing records. */
  datatype File = Holds(record: Record) | Junk

  /** `core.ValidStoreName`. */
  type Names = string -> bool

  /** The index of the first slash, or the length. */
  function Slash(s: string): (i: nat)
    ensures i <= |s| && (i < |s| ==> s[i] == '/') && forall k :: 0 <= k < i ==> s[k] != '/'
  {
    if s == [] || s[0] == '/' then 0 else 1 + Slash(s[1..])
  }

  predicate ValidAddress(names: Names, addr: string) {
    var i := Slash(addr);
    i < |addr| && names(addr[..i]) && names(addr[i + 1..])
  }

  /** What `time.RFC3339` keeps of a time. */
  function WholeSecond(t: int): (ts: int)
    ensures ts <= t < ts + SECOND
  {
    t - t % SECOND
  }

  function ReadRecord(names: Names, f: Option<File>): Option<Record> {
    if f.Some? && f.value.Holds? && ValidAddress(names, f.value.record.coordinator) then Some(f.value.record) else None
  }

  /** What a file says about a seat held by `holder`. */
  function Answer(names: Names, f: Option<File>, holder: Option<Session>): Option<string> {
    var r := ReadRecord(names, f);
    if r.Some? && r.value.session != "" && holder == Some(r.value.session) then Some(r.value.coordinator) else None
  }

  // ---- the store ----

  /** A launch that can still be undone: what it wrote, if it named anybody, and what was there. */
  datatype Undo = Undo(seat: Seat, wrote: Option<File>, prev: Option<File>)

  datatype Store = Store(files: map<Seat, File>, holders: map<Seat, Session>, now: int) {
    function FileAt(seat: Seat): Option<File> {
      if seat in files then Some(files[seat]) else None
    }

    function Holder(seat: Seat): Option<Session> {
      if seat in holders then Some(holders[seat]) else None
    }

    function Put(seat: Seat, f: Option<File>): Store {
      this.(files := if f.Some? then files[seat := f.value] else files - {seat})
    }

    function CoordinatorOf(names: Names, seat: Seat): Option<string> {
      if !names(seat.0) || !names(seat.1) then None else Answer(names, FileAt(seat), Holder(seat))
    }

    function Written(coord: string, door: Door, session: Session): Option<File> {
      if coord == "" then None else Some(Holds(Record(coord, door, session, WholeSecond(now))))
    }

    /** A session that takes the seat now would bind the unanswered record. */
    predicate Binds(names: Names, seat: Seat, session: Session) {
      var r := ReadRecord(names, FileAt(seat));
      r.Some? && session != "" && r.value.session == "" && now - r.value.ts < BIND_WINDOW
    }

    /** `settleCoordinatorRecord`; `saves` says whether the write or removal it needs goes through. */
    function Settle(names: Names, seat: Seat, session: Session, saves: bool): Store {
      if seat !in files || !saves then this
      else
        var r := ReadRecord(names, FileAt(seat));
        if r.Some? && session != "" && r.value.session == session then this
        else if Binds(names, seat, session) then Put(seat, Some(Holds(r.value.(session := session))))
        else Put(seat, None)
    }

    /** The undo of a launch. */
    function TakeBack(u: Undo, goesThrough: bool): Store {
      if FileAt(u.seat) != u.wrote || !goesThrough then this else Put(u.seat, u.prev)
    }

    /** `moveCoordinatorRecord`. */
    function Move(from: Seat, dest: Seat): Store {
      if from == dest then this else Put(dest, FileAt(from)).Put(from, None)
    }
  }

  /** The operations themselves, over the files below `.coordinators` and the peer metas. */
  class Coordinators {
    const names: Names
    var files: map<Seat, File>
    var holders: map<Seat, Session>
    var now: int

    constructor (names: Names, now: int)
      ensures Now() == Store(map[], map[], now) && this.names == names
    {
      this.names, files, holders, this.now := names, map[], map[], now;
    }

    ghost function Now(): Store
      reads this
    {
      Store(files, holders, now)
    }

    method Read(seat: Seat) returns (r: Option<Record>)
      ensures r == ReadRecord(names, Now().FileAt(seat))
    {
      if seat !in files || files[seat].Junk? || !ValidAddress(names, files[seat].record.coordinator) {
        return None;
      }
      return Some(files[seat].record);
    }

    method CoordinatorOf(seat: Seat) returns (addr: Option<string>)
      ensures addr == Now().CoordinatorOf(names, seat)
    {
      if !names(seat.0) || !names(seat.1) {
        return None;
      }
      var rec := Read(seat);
      if rec.None? || rec.value.session == "" {
        return None;
      }
      if seat !in holders || holders[seat] != rec.value.session {
        return None;
      }
      return Some(rec.value.coordinator);
    }

    /** `writeCoordinatorLocked`: the new record in place of the old, or none when nobody is named. */
    method Write(seat: Seat, coord: string, door: Door, session: Session, saves: bool) returns (undo: Option<Undo>)
      modifies this`files
      ensures var s := old(Now());
              && undo == (if saves then Some(Undo(seat, s.Written(coord, door, session), s.FileAt(seat))) else None)
              && Now() == (if saves then s.Put(seat, s.Written(coord, door, session)) else s)
    {
      var prev := if seat in files then Some(files[seat]) else None;
      if !saves {
        return None;
      }
      if coord == "" {
        files := files - {seat};
        return Some(Undo(seat, None, prev));
      }
      var wrote := Holds(Record(coord, door, session, WholeSecond(now)));
      files := files[seat := wrote];
      return Some(Undo(seat, Some(wrote), prev));
    }

    method TakeBack(u: Undo, goesThrough: bool)
      modifies this`files
      ensures Now() == old(Now()).TakeBack(u, goesThrough)
    {
      var cur := if u.seat in files then Some(files[u.seat]) else None;
      if (u.wrote.None? && cur.Some?) || (u.wrote.Some? && (cur.None? || cur != u.wrote)) {
        return;
      }
      if goesThrough {
        if u.prev.Some? {
          files := files[u.seat := u.prev.value];
        } else {
          files := files - {u.seat};
        }
      }
    }

    method Settle(seat: Seat, session: Session, saves: bool)
      modifies this`files
      ensures Now() == old(Now()).Settle(names, seat, session, saves)
    {
      if seat !in files {
        return;
      }
      var rec := Read(seat);
      if rec.Some? && session != "" && rec.value.session == session {
        return;
      }
      if !saves {
        return;
      }
      if rec.Some? && session != "" && rec.value.session == "" && now - rec.value.ts < BIND_WINDOW {
        files := files[seat := Holds(rec.value.(session := session))];
        return;
      }
      files := files - {seat};
    }

    method Move(from: Seat, dest: Seat)
      requires from != dest
      modifies this`files
      ensures Now() == old(Now()).Move(from, dest)
    {
      if from !in files {
        files := files - {dest} - {from};
        return;
      }
      files := files[dest := files[from]] - {from};
    }
  }

  // ---- every run ----

  /** A launch as it happened: who it named, for which session, and when. */
  datatype Launch = Launch(coordinator: string, session: Session, at: int)

  /** An unanswered record being bound by the session that takes its seat. */
  datatype Bind = Bind(record: Record, session: Session, at: int)

  /** The store with the launches that can still be undone, and what happened so far. */
  datatype World = World(store: Store, undos: seq<Undo>, launches: set<Launch>, binds: set<Bind>)

  datatype Event =
    | Launches(seat: Seat, coord: string, door: Door, session: Session, saves: bool)
    | Bootstraps(seat: Seat, coord: string, session: Session, saves: bool)
    | Undoes(i: nat, goesThrough: bool)
    | Takes(seat: Seat, session: Session, saves: bool)
    | Vacates(seat: Seat)
    | Renames(from: Seat, dest: Seat, moves: bool)
    | Clock(now: int)

  function Launched(w: World, seat: Seat, coord: string, door: Door, session: Session): World {
    var wrote := w.store.Written(coord, door, session);
    w.(store := w.store.Put(seat, wrote), launches := w.launches + {Launch(coord, session, w.store.now)})
  }

  function Step(names: Names, w: World, e: Event): World {
    var s := w.store;
    match e
    case Launches(seat, coord, door, session, saves) =>
      if !names(seat.0) || !names(seat.1) || !saves then w
      else Launched(w, seat, coord, door, session).(
             undos := w.undos + [Undo(seat, s.Written(coord, door, session), s.FileAt(seat))])
    case Bootstraps(seat, coord, session, saves) =>
      if !names(seat.0) || !names(seat.1) || !saves || s.Holder(seat).Some? then w
      else Launched(w, seat, coord, Bootstrap, session)
    case Undoes(i, goesThrough) =>
      if i < |w.undos| then w.(store := s.TakeBack(w.undos[i], goesThrough)) else w
    case Takes(seat, session, saves) =>
      w.(store := s.(holders := s.holders[seat := session]).Settle(names, seat, session, saves),
         binds := w.binds + if s.Binds(names, seat, session) && saves
                            then {Bind(s.files[seat].record, session, s.now)} else {})
    case Vacates(seat) => w.(store := s.(holders := s.holders - {seat}))
    case Renames(from, dest, moves) =>
      if from == dest || s.Holder(from).None? then w
      else
        var t := s.(holders := s.holders[dest := s.holders[from]] - {from});
        w.(store := if moves then t.Move(from, dest) else t)
    case Clock(now) => w.(store := s.(now := now))
  }

  function Run(names: Names, w: World, es: seq<Event>): World
    decreases |es|
  {
    if es == [] then w else Run(names, Step(names, w, es[0]), es[1..])
  }

  function Start(now: int): World {
    World(Store(map[], map[], now), [], {}, {})
  }

  /** `b` bound the record of `l`, a launch nobody had answered, while it was less than a day old. */
  predicate BindsLaunch(b: Bind, l: Launch) {
    && l.session == "" && b.record.session == "" && b.record.coordinator == l.coordinator
    && b.record.ts == WholeSecond(l.at) && b.at - l.at < BIND_WINDOW
  }

  predicate BoundInTime(w: World, l: Launch, session: Session) {
    exists b :: b in w.binds && b.session == session && BindsLaunch(b, l)
  }

  /** Some launch wrote the record, and its session is the one the launch named or the one that
      bound it in time. */
  ghost predicate Genuine(w: World, r: Record) {
    exists l :: l in w.launches && l.coordinator == r.coordinator && r.ts == WholeSecond(l.at) &&
                (r.session == l.session || BoundInTime(w, l, r.session))
  }

  ghost predicate Inv(w: World) {
    && (forall seat <- w.store.files :: w.store.files[seat].Holds? && Genuine(w, w.store.files[seat].record))
    && (forall b <- w.binds :: b.session != "")
    && (forall u <- w.undos :: u.prev.Some? ==> u.prev.value.Holds? && Genuine(w, u.prev.value.record))
  }

  lemma GenuineGrows(w: World, t: World, r: Record)
    requires Genuine(w, r) && w.launches <= t.launches && w.binds <= t.binds
    ensures Genuine(t, r)
  {
    hide BindsLaunch;
    var l :| l in w.launches && l.coordinator == r.coordinator && r.ts == WholeSecond(l.at) &&
             (r.session == l.session || BoundInTime(w, l, r.session));
    assert l in t.launches;
    if r.session != l.session {
      var b :| b in w.binds && b.session == r.session && BindsLaunch(b, l);
      assert b in t.binds;
    }
  }

  /** A session that takes a seat with a fresh unanswered record binds it in time. */
  lemma BindingIsGenuine(w: World, t: World, r: Record, session: Session)
    requires Genuine(w, r) && r.session == "" && session != "" && w.store.now - r.ts < BIND_WINDOW
    requires w.launches <= t.launches && w.binds <= t.binds && Bind(r, session, w.store.now) in t.binds
    requires forall b <- w.binds :: b.session != ""
    ensures Genuine(t, r.(session := session))
  {
    var l :| l in w.launches && l.coordinator == r.coordinator && r.ts == WholeSecond(l.at) &&
             (r.session == l.session || BoundInTime(w, l, r.session));
    assert BindsLaunch(Bind(r, session, w.store.now), l);
  }

  lemma LaunchIsGenuine(w: World, coord: string, door: Door, session: Session)
    requires Launch(coord, session, w.store.now) in w.launches
    ensures Genuine(w, Record(coord, door, session, WholeSecond(w.store.now)))
  {
  }

  lemma StepKeepsInv(names: Names, w: World, e: Event)
    requires Inv(w)
    ensures Inv(Step(names, w, e))
  {
    hide Genuine;
    var t := Step(names, w, e);
    forall r | Genuine(w, r) ensures Genuine(t, r) {
      GenuineGrows(w, t, r);
    }
    match e {
      case Launches(seat, coord, door, session, saves) =>
        if Launch(coord, session, w.store.now) in t.launches {
          LaunchIsGenuine(t, coord, door, session);
        }
      case Bootstraps(seat, coord, session, saves) =>
        if Launch(coord, session, w.store.now) in t.launches {
          LaunchIsGenuine(t, coord, Bootstrap, session);
        }
      case Takes(seat, session, saves) =>
        if w.store.Binds(names, seat, session) && saves {
          BindingIsGenuine(w, t, w.store.files[seat].record, session);
        }
      case _ =>
    }
  }

  lemma {:induction false} RunKeepsInv(names: Names, w: World, es: seq<Event>)
    requires Inv(w)
    ensures Inv(Run(names, w, es))
    decreases |es|
  {
    hide Inv, Step;
    if es != [] {
      StepKeepsInv(names, w, es[0]);
      RunKeepsInv(names, Step(names, w, es[0]), es[1..]);
    }
  }

  // ---- what the operations are for ----

  lemma SlashIs(a: string, b: string)
    requires '/' !in a
    ensures Slash(a + "/" + b) == |a| && (a + "/" + b)[..|a|] == a && (a + "/" + b)[|a| + 1..] == b
  {
    var s := a + "/" + b;
    assert forall k :: 0 <= k < |a| ==> s[k] == a[k] && s[k] in a;
    assert s[|a|] == '/';
  }

  /** An address is a channel and an alias, cut at the first slash, and both are valid names. */
  lemma AddressExactly(names: Names, channel: string, alias: string)
    requires '/' !in channel
    ensures ValidAddress(names, channel + "/" + alias) <==> names(channel) && names(alias)
    ensures !ValidAddress(names, channel)
  {
    SlashIs(channel, alias);
    assert forall k :: 0 <= k < |channel| ==> channel[k] in channel;
  }

  /** The child of a launch that named no session is answered with its coordinator exactly when
      it takes the seat within a day of the launch's second, with settling that works. */
  lemma ChildInTimeIsAnswered(
    names: Names, w: World, seat: Seat, coord: string, door: Door, later: int, session: Session, saves: bool)
    requires names(seat.0) && names(seat.1) && ValidAddress(names, coord) && session != ""
    ensures var launched := Step(names, w, Launches(seat, coord, door, "", true));
            var taken := Step(names, Step(names, launched, Clock(later)), Takes(seat, session, saves));
            taken.store.CoordinatorOf(names, seat) ==
            if saves && later - WholeSecond(w.store.now) < 24 * 3600 * 1_000_000_000 then Some(coord) else None
  {
  }

  /** The session that a launch names is answered as soon as it takes the seat, at any time, and
      taking it again changes nothing; any other session inherits nothing. */
  lemma NamedSessionIsAnswered(
    names: Names, w: World, seat: Seat, coord: string, door: Door, named: Session, session: Session, saves: bool)
    requires names(seat.0) && names(seat.1) && ValidAddress(names, coord) && named != ""
    ensures var taken := Step(names, Step(names, w, Launches(seat, coord, door, named, true)), Takes(seat, session, saves));
            && taken.store.CoordinatorOf(names, seat) == (if session == named then Some(coord) else None)
            && (session != named && saves ==> taken.store.FileAt(seat) == None)
            && Step(names, taken, Takes(seat, session, saves)).store.CoordinatorOf(names, seat) ==
               taken.store.CoordinatorOf(names, seat)
  {
  }

  /** A launch that names nobody leaves no answer, and an empty seat gives none. */
  lemma NobodyAnswers(names: Names, w: World, seat: Seat, door: Door, session: Session)
    requires names(seat.0) && names(seat.1)
    ensures Step(names, w, Launches(seat, "", door, session, true)).store.CoordinatorOf(names, seat) == None
    ensures Step(names, w, Vacates(seat)).store.CoordinatorOf(names, seat) == None
  {
  }

  /** Undoing a launch at once puts back what was there, whatever that was. */
  lemma UndoneLaunchLeavesNothing(names: Names, w: World, seat: Seat, coord: string, door: Door, session: Session)
    requires names(seat.0) && names(seat.1)
    ensures var launched := Step(names, w, Launches(seat, coord, door, session, true));
            Step(names, launched, Undoes(|w.undos|, true)).store == w.store
  {
    var launched := Step(names, w, Launches(seat, coord, door, session, true));
    var undone := Step(names, launched, Undoes(|w.undos|, true));
    assert undone.store.files == w.store.files;
  }

  /** A rename takes the answer along, and leaves none behind. */
  lemma RenameTakesTheAnswer(names: Names, w: World, from: Seat, dest: Seat)
    requires from != dest && w.store.Holder(from).Some?
    requires names(from.0) && names(from.1) && names(dest.0) && names(dest.1)
    ensures var t := Step(names, w, Renames(from, dest, true));
            && t.store.CoordinatorOf(names, dest) == w.store.CoordinatorOf(names, from)
            && t.store.CoordinatorOf(names, from) == None
  {
  }

  /** A bootstrap says nothing about a seat that is taken, and otherwise answers the session that
      it names once that takes the seat. */
  lemma BootstrapNamesASession(names: Names, w: World, seat: Seat, coord: string, session: Session, saves: bool)
    requires names(seat.0) && names(seat.1) && ValidAddress(names, coord) && session != ""
    ensures var t := Step(names, w, Bootstraps(seat, coord, session, true));
            && (w.store.Holder(seat).Some? ==> t == w)
            && (w.store.Holder(seat).None? ==>
                  Step(names, t, Takes(seat, session, saves)).store.CoordinatorOf(names, seat) == Some(coord))
  {
  }

  // ---- main results ----

  /** In every run of launches, undos, takeovers whose settling may fail, renames and clock
      steps, an address is only answered if a launch named it and the seat is held by the session
      that launch named, or by the one that bound its unanswered record within a day. */
  lemma AnswerIsGenuine(names: Names, now: int, es: seq<Event>, seat: Seat)
    requires Run(names, Start(now), es).store.CoordinatorOf(names, seat).Some?
    ensures var w := Run(names, Start(now), es);
            var addr, holder := w.store.CoordinatorOf(names, seat).value, w.store.holders[seat];
            && holder != "" && ValidAddress(names, addr)
            && exists l :: l in w.launches && l.coordinator == addr && (l.session == holder || BoundInTime(w, l, holder))
  {
    hide Run, Step;
    RunKeepsInv(names, Start(now), es);
    var w := Run(names, Start(now), es);
    assert Genuine(w, w.store.files[seat].record);
  }

  /** A stale record never speaks for a new holder, whether or not settling it worked. */
  lemma NewHolderIsNotSpokenFor(names: Names, w: World, seat: Seat, session: Session, saves: bool)
    requires var r := ReadRecord(names, w.store.FileAt(seat));
             r.Some? ==> r.value.session != session && (r.value.session != "" || w.store.now - r.value.ts >= BIND_WINDOW)
    ensures Step(names, w, Takes(seat, session, saves)).store.CoordinatorOf(names, seat).None?
  {
  }

  /** Undoing the launch discards an answer that the seat's session has by then. */
  predicate Discards(names: Names, w: World, u: Undo) {
    && w.store.CoordinatorOf(names, u.seat).Some?
    && w.store.TakeBack(u, true).CoordinatorOf(names, u.seat) != w.store.CoordinatorOf(names, u.seat)
  }

  predicate DiscardsAfter(names: Names, w: World, es: seq<Event>, u: Undo) {
    Discards(names, Run(names, w, es), u)
  }

  /** Undoing a launch written without a session never discards a record that a session has
      bound: in every state, the record a bound child owns is not what the launch wrote. */
  lemma UnansweredLaunchUndoesSafely(names: Names, w: World, u: Undo, goesThrough: bool)
    requires u.wrote.Some? ==> u.wrote.value.Holds? && u.wrote.value.record.session == ""
    requires ReadRecord(names, w.store.FileAt(u.seat)).Some? && ReadRecord(names, w.store.FileAt(u.seat)).value.session != ""
    ensures w.store.TakeBack(u, goesThrough) == w.store
  {
  }

  /** The undo of a launch can discard the answer of a session that has taken the seat exactly
      when the launch named that session, as a resume does, and what was there before does not
      answer the same: the record does not change when such a child answers. */
  lemma UndoDiscardsExactly(names: Names, w: World, seat: Seat, coord: string, door: Door, session: Session)
    requires names(seat.0) && names(seat.1) && ValidAddress(names, coord)
    ensures var u := Undo(seat, w.store.Written(coord, door, session), w.store.FileAt(seat));
            (exists es :: DiscardsAfter(names, Step(names, w, Launches(seat, coord, door, session, true)), es, u)) <==>
            session != "" && Answer(names, w.store.FileAt(seat), Some(session)) != Some(coord)
  {
    var u := Undo(seat, w.store.Written(coord, door, session), w.store.FileAt(seat));
    var t := Step(names, w, Launches(seat, coord, door, session, true));
    if session != "" && Answer(names, w.store.FileAt(seat), Some(session)) != Some(coord) {
      var es := [Takes(seat, session, true)];
      var taken := Step(names, t, es[0]);
      assert Run(names, t, es) == Run(names, taken, es[1..]) == taken;
      assert taken.store.FileAt(seat) == u.wrote;
      assert taken.store.CoordinatorOf(names, seat) == Some(coord);
      assert DiscardsAfter(names, t, es, u);
    }
    if es :| DiscardsAfter(names, t, es, u) {
      var v := Run(names, t, es);
      assert v.store.FileAt(seat) == u.wrote;
      assert v.store.Holder(seat) == Some(session);
    }
  }
}
