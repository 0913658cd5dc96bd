/** Where a follower begins to read, `resolveResume` of `cursor.go`, and why claiming the
    listener at join (`claimListenerAtJoin` of `codexwrap.go`) can never send it to the end of
    the inbox, wherever the claim is interrupted and whichever of its writes fail. */
module ListenerClaim {
  import opened CursorText
  import opened Storage
  import opened Wrappers

  datatype CursorFile = Absent | Unreadable | Holds(text: string)

  /** The parts of `meta.json` that matter here; a missing or torn file is `None`. */
  datatype Meta = Meta(daemonManaged: bool, listenerPid: nat)

  datatype Disk = Disk(cursor: CursorFile, meta: Option<Meta>)

  /** The identity and size of the inbox, `None` when it cannot be examined. */
  datatype Inbox = Inbox(dev: nat, ino: nat, size: nat)

  datatype CursorState = CursorAbsent | CursorCorrupt | CursorValid(position: Position)

  function ReadCursor(c: CursorFile): CursorState {
    match c
    case Absent => CursorAbsent
    case Unreadable => CursorCorrupt
    case Holds(text) =>
      match Parse(text)
      case None => CursorCorrupt
      case Some(p) => CursorValid(p)
  }

  datatype ResumePoint = SeekEnd | At(offset: nat)

  function ResolveResume(d: Disk, inbox: Option<Inbox>): ResumePoint {
    match ReadCursor(d.cursor)
    case CursorValid(p) =>
      if inbox.Some? && inbox.value.dev == p.dev && inbox.value.ino == p.ino && p.off <= inbox.value.size then At(p.off)
      else At(0)
    case CursorCorrupt => At(0)
    case CursorAbsent => if d.meta.Some? && d.meta.value.listenerPid != 0 then SeekEnd else At(0)
  }

  /** A cursor that was written for a position resumes there while its inbox is the same file and
      no shorter, and at byte 0 otherwise; a damaged cursor resumes at byte 0. */
  lemma ResumeExactly(p: Position, meta: Option<Meta>, inbox: Option<Inbox>, text: string)
    requires p.Valid()
    ensures ResolveResume(Disk(Holds(Print(p)), meta), inbox) ==
            At(if inbox.Some? && inbox.value.dev == p.dev && inbox.value.ino == p.ino && inbox.value.size >= p.off
               then p.off else 0)
    ensures ResolveResume(Disk(Unreadable, meta), inbox) == At(0)
    ensures Parse(text).None? ==> ResolveResume(Disk(Holds(text), meta), inbox) == At(0)
  {
    RoundTrip(p);
    hide Parse, Print;
  }

  /** Whatever became of the inbox, a follower starts at byte 0: nothing queued is skipped. */
  ghost predicate StartsAtZero(d: Disk) {
    forall inbox :: ResolveResume(d, inbox) == At(0)
  }

  /** The one bad state is a listener without a cursor. */
  predicate ListenerWithoutCursor(d: Disk) {
    d.cursor.Absent? && d.meta.Some? && d.meta.value.listenerPid != 0
  }

  predicate PastZero(d: Disk) {
    ReadCursor(d.cursor).CursorValid? && ReadCursor(d.cursor).position.off > 0
  }

  /** A follower starts at byte 0 in every disk state but two kinds: a listener without a cursor,
      and a valid cursor further on. */
  lemma StartsAtZeroExactly(d: Disk)
    ensures StartsAtZero(d) <==> !ListenerWithoutCursor(d) && !PastZero(d)
  {
    hide Parse;
    if ListenerWithoutCursor(d) {
      assert ResolveResume(d, None) != At(0);
    } else if PastZero(d) {
      var p := ReadCursor(d.cursor).position;
      assert ResolveResume(d, Some(Inbox(p.dev, p.ino, p.off))) != At(0);
    }
  }

  lemma SeekEndExactly(d: Disk, inbox: Option<Inbox>)
    ensures ResolveResume(d, inbox) == SeekEnd <==> ListenerWithoutCursor(d)
  {
    hide Parse;
  }

  /** What the operating system lets happen in one claim. */
  datatype Faults = Faults(
    locks: bool, startKnown: bool, writesTemp: bool, renames: bool, readsBack: bool, savesMeta: Save)

  /** The directory of one peer. `trail` records every state the disk goes through, so that
      a crash at any point leaves one of its states behind. */
  class PeerDir {
    var cursor: CursorFile
    var meta: Option<Meta>
    ghost var trail: seq<Disk>

    constructor (cursor: CursorFile, meta: Option<Meta>)
      ensures Now() == Disk(cursor, meta) && trail == []
    {
      this.cursor, this.meta, trail := cursor, meta, [];
    }

    ghost function Now(): Disk
      reads this
    {
      Disk(cursor, meta)
    }

    /** A temporary file renamed into place: the old cursor or the new one, never a torn one. */
    method WriteCursor(p: Position, writesTemp: bool, renames: bool)
      modifies this
      ensures meta == old(meta)
      ensures cursor == if writesTemp && renames then Holds(Print(p)) else old(cursor)
      ensures trail == old(trail) + [Now()]
    {
      if writesTemp && renames {
        cursor := Holds(Print(p));
      }
      trail := trail + [Disk(cursor, meta)];
    }

    method ArmMeta(pid: nat, save: Save)
      modifies this
      ensures cursor == old(cursor)
      ensures meta == if old(meta).Some? && !old(meta).value.daemonManaged && save.Reached()
                      then Some(old(meta).value.(listenerPid := pid)) else old(meta)
      ensures trail == old(trail) + [Now()]
    {
      if meta.Some? && !meta.value.daemonManaged && save.Reached() {
        meta := Some(meta.value.(listenerPid := pid));
      }
      trail := trail + [Disk(cursor, meta)];
    }

    /** The claim: seed the cursor, read it back, and only then name the listener. Started where
        a follower would start at byte 0, which a fresh join and every interrupted claim leave
        behind, it goes through such states only. It claims when nothing fails. */
    method ClaimListener(pid: nat, inbox: Option<Inbox>, f: Faults)
      requires StartsAtZero(Now())
      requires inbox.Some? ==> Position(inbox.value.dev, inbox.value.ino, 0).Valid()
      modifies this
      ensures old(trail) <= trail && forall i :: |old(trail)| <= i < |trail| ==> StartsAtZero(trail[i])
      ensures StartsAtZero(Now())
      ensures pid != 0 && f.locks && f.startKnown && f.writesTemp && f.renames && f.readsBack && f.savesMeta.Reached() &&
              inbox.Some? && old(meta).Some? && !old(meta).value.daemonManaged ==>
                && meta == Some(Meta(false, pid))
                && cursor == Holds(Print(Position(inbox.value.dev, inbox.value.ino, 0)))
      ensures meta != old(meta) ==> ReadCursor(cursor).CursorValid?
      ensures old(meta).Some? && old(meta).value.daemonManaged ==> Now() == old(Now()) && trail == old(trail)
    {
      hide Parse, Print, StartsAtZero, PastZero, ListenerWithoutCursor;
      if !f.locks || (meta.Some? && meta.value.daemonManaged) || !f.startKnown || inbox.None? {
        return;
      }
      var seed := Position(inbox.value.dev, inbox.value.ino, 0);
      WriteCursor(seed, f.writesTemp, f.renames);
      SeedStartsAtZero(old(Now()), seed);
      assert StartsAtZero(Now());
      var back := ReadCursor(if f.readsBack then cursor else Unreadable);
      if back != CursorValid(seed) {
        return;
      }
      ArmMeta(pid, f.savesMeta);
      SeededStartsAtZero(Now(), seed);
    }
  }

  lemma SeedStartsAtZero(d: Disk, seed: Position)
    requires StartsAtZero(d) && seed.Valid() && seed.off == 0
    ensures StartsAtZero(d.(cursor := Holds(Print(seed))))
    ensures ReadCursor(Holds(Print(seed))) == CursorValid(seed)
  {
    RoundTrip(seed);
    hide Parse, Print;
    StartsAtZeroExactly(d.(cursor := Holds(Print(seed))));
  }

  /** Behind a readable seed, it does not matter what is recorded as the listener. */
  lemma SeededStartsAtZero(d: Disk, seed: Position)
    requires ReadCursor(d.cursor) == CursorValid(seed) && seed.off == 0
    ensures StartsAtZero(d)
  {
    hide Parse;
    StartsAtZeroExactly(d);
  }

  /** A peer that has just joined: no cursor, and no listener recorded. */
  predicate Fresh(d: Disk) {
    d.cursor.Absent? && (d.meta.Some? ==> d.meta.value.listenerPid == 0)
  }

  lemma FreshStartsAtZero(d: Disk)
    requires Fresh(d)
    ensures StartsAtZero(d)
  {
  }

  /** The order of the two writes is what keeps it so: with the listener named first, a crash
      before the seed loses what is queued. */
  lemma ClaimBeforeSeedSeeksEnd(d: Disk, pid: nat, inbox: Option<Inbox>)
    requires d.cursor.Absent? && d.meta.Some? && pid != 0
    ensures ResolveResume(d.(meta := Some(d.meta.value.(listenerPid := pid))), inbox) == SeekEnd
  {
  }

  /** Any number of claims, each interrupted anywhere: a follower still starts at byte 0. */
  method ClaimAgainAndAgain(dir: PeerDir, pids: seq<nat>, inboxes: seq<Option<Inbox>>, fs: seq<Faults>)
    requires StartsAtZero(dir.Now())
    requires |inboxes| == |fs| == |pids|
    requires forall inbox <- inboxes :: inbox.Some? ==> Position(inbox.value.dev, inbox.value.ino, 0).Valid()
    modifies dir
    ensures StartsAtZero(dir.Now())
    ensures old(dir.trail) <= dir.trail && forall i :: |old(dir.trail)| <= i < |dir.trail| ==> StartsAtZero(dir.trail[i])
  {
    hide StartsAtZero;
    for k := 0 to |fs|
      invariant StartsAtZero(dir.Now())
      invariant old(dir.trail) <= dir.trail
      invariant forall i :: |old(dir.trail)| <= i < |dir.trail| ==> StartsAtZero(dir.trail[i])
    {
      assert inboxes[k] in inboxes;
      dir.ClaimListener(pids[k], inboxes[k], fs[k]);
    }
  }

  /** For a freshly joined peer, at every crash point and for every combination of failed writes
      of any number of claims, a follower starts at byte 0 and never seeks the end. `trail` is
      every state its disk goes through. */
  method ClaimFreshPeer(meta: Option<Meta>, pids: seq<nat>, inboxes: seq<Option<Inbox>>, fs: seq<Faults>)
    returns (dir: PeerDir, ghost trail: seq<Disk>)
    requires Fresh(Disk(Absent, meta))
    requires |inboxes| == |fs| == |pids|
    requires forall inbox <- inboxes :: inbox.Some? ==> Position(inbox.value.dev, inbox.value.ino, 0).Valid()
    ensures fresh(dir) && trail == [Disk(Absent, meta)] + dir.trail
    ensures forall d <- trail, inbox :: ResolveResume(d, inbox) == At(0)
    ensures forall inbox :: ResolveResume(dir.Now(), inbox) == At(0)
  {
    hide ResolveResume;
    dir := new PeerDir(Absent, meta);
    FreshStartsAtZero(dir.Now());
    assert StartsAtZero(dir.Now());
    ClaimAgainAndAgain(dir, pids, inboxes, fs);
    trail := [Disk(Absent, meta)] + dir.trail;
  }
}
