/** Exactly-once counting of compactions over whole runs: appends, restarts, failed saves and
    observation passes on one rollout file. */
module CompactionRuns {
  import opened Bytes
  import opened Storage
  import opened Wrappers
  import opened Compaction

  // ---- the invariant of one record ----

  /** Where counting began: the file, the cursor, the counter and the notices prepared by then. */
  datatype Base = Base(dev: nat, ino: nat, renumber: bool, offset: nat, completed: nat, posts: nat)

  function CountPosts(log: seq<Transition>): nat {
    if log == [] then 0 else CountPosts(log[..|log| - 1]) + if log[|log| - 1] == CompactPost then 1 else 0
  }

  /** The record's counter, and for a local connection its notices, have grown by exactly the
      compacted lines between the base and the record's cursor, which is on a line boundary. */
  predicate Counted(cl: Classifier, s: Bytes, b: Base, c: Conn) {
    && c.Valid() && c.state != Disconnected && c.compaction.Some?
    && var o := c.compaction.value;
       && DevMatches(b.renumber, b.dev, o.dev) && o.ino == b.ino
       && b.offset <= o.offset && Boundary(s, o.offset)
       && o.completed == b.completed + CountCompacted(cl, Lines(s, b.offset, o.offset))
       && (c.local ==> CountPosts(c.log) == b.posts + CountCompacted(cl, Lines(s, b.offset, o.offset)))
  }

  lemma CountOneMore(log: seq<Transition>, t: Transition)
    ensures CountPosts(log + [t]) == CountPosts(log) + if t == CompactPost then 1 else 0
  {
    assert (log + [t])[..|log|] == log;
  }

  lemma {:induction false} PostsCounted(log: seq<Transition>, n: nat)
    ensures CountPosts(WithPosts(log, n)) == CountPosts(log) + n
    ensures |WithPosts(log, n)| == |log| + n
  {
    hide CountPosts;
    if n > 0 {
      PostsCounted(log, n - 1);
      CountOneMore(WithPosts(log, n - 1), CompactPost);
    }
  }

  /** Reading on from a counted record counts what it passes. */
  lemma AdvanceCounted(cl: Classifier, s: Bytes, b: Base, c: Conn, p: Pass)
    requires Counted(cl, s, b, c) && p.seen == s && Advance(cl, c, p).Some?
    ensures Counted(cl, s, b, Advance(cl, c, p).value)
  {
    var o := c.compaction.value;
    var batch := Drain(cl, s, o.offset);
    LinesSplit(s, b.offset, o.offset, batch.end);
    CountSplit(cl, Lines(s, b.offset, o.offset), Lines(s, o.offset, batch.end));
    PostsCounted(c.log, batch.count);
  }

  lemma AppendKeepsCounted(cl: Classifier, s: Bytes, more: Bytes, b: Base, c: Conn)
    requires Counted(cl, s, b, c)
    ensures Counted(cl, s + more, b, c)
  {
    LinesAppend(s, more, b.offset, c.compaction.value.offset);
  }

  // ---- runs ----

  datatype System = System(memory: Conn, disk: Conn, file: Bytes)

  /** `Look` is one pass: the file has its current size when inspected, and `grown` is appended
      before the reader meets its end. Other transitions share the log and the outbox. */
  datatype Event =
    | Append(more: Bytes)
    | Restart
    | Look(opens: bool, dev: nat, grown: Bytes, restamp: Save, commit: Save, prepares: nat)
    | Flush(sent: nat, save: Save)
    | Presence(event: Transition, save: Save)

  predicate Allowed(b: Base, e: Event) {
    && (e.Look? ==> DevMatches(b.renumber, b.dev, e.dev))
    && (e.Presence? ==> e.event != CompactPost)
  }

  function PassOf(b: Base, s: Bytes, e: Event): Pass
    requires e.Look?
  {
    Pass(e.opens, e.dev, b.ino, |s|, s + e.grown, e.restamp, e.commit, e.prepares)
  }

  function Step(cl: Classifier, b: Base, sys: System, e: Event): System
    requires sys.memory.Valid()
  {
    var System(memory, disk, s) := sys;
    match e
    case Append(more) => sys.(file := s + more)
    case Restart => sys.(memory := disk)
    case Look(_, _, grown, _, _, _) =>
      var (m, d) := Observe(cl, b.renumber, memory, disk, PassOf(b, s, e));
      System(m, d, s + grown)
    case Flush(sent, save) =>
      var next := memory.(flushed := if memory.flushed + sent <= |memory.log| then memory.flushed + sent else |memory.log|);
      var (m, d) := Commit(memory, disk, next, save);
      System(m, d, s)
    case Presence(event, save) =>
      var (m, d) := Commit(memory, disk, memory.(log := memory.log + [event]), save);
      System(m, d, s)
  }

  predicate SysCounted(cl: Classifier, b: Base, sys: System) {
    Counted(cl, sys.file, b, sys.memory) && Counted(cl, sys.file, b, sys.disk)
  }

  lemma StampedKeepsCounted(cl: Classifier, s: Bytes, b: Base, c: Conn, disk: Conn, p: Pass)
    requires Counted(cl, s, b, c) && Counted(cl, s, b, disk) && p.seen == s && !Rebaselines(c, p)
    ensures var (m, d) := ObserveStamped(cl, c, disk, p); Counted(cl, s, b, m) && Counted(cl, s, b, d)
  {
    if Advance(cl, c, p).Some? {
      AdvanceCounted(cl, s, b, c, p);
    }
  }

  lemma LookKeepsCounted(cl: Classifier, b: Base, sys: System, e: Event)
    requires SysCounted(cl, b, sys) && Allowed(b, e) && e.Look?
    ensures SysCounted(cl, b, Step(cl, b, sys, e))
  {
    var s := sys.file + e.grown;
    var p := PassOf(b, sys.file, e);
    AppendKeepsCounted(cl, sys.file, e.grown, b, sys.memory);
    AppendKeepsCounted(cl, sys.file, e.grown, b, sys.disk);
    var c := sys.memory;
    if c.harness == Codex && Watched(c) && p.opens {
      if Restamps(b.renumber, c, p) {
        var stamped := c.(compaction := Some(c.compaction.value.(dev := p.dev)));
        var (m, d) := Commit(c, sys.disk, stamped, p.restamp);
        if p.restamp == Saved {
          StampedKeepsCounted(cl, s, b, m, d, p);
        }
      } else {
        StampedKeepsCounted(cl, s, b, c, sys.disk, p);
      }
    }
  }

  lemma StepKeepsCounted(cl: Classifier, b: Base, sys: System, e: Event)
    requires SysCounted(cl, b, sys) && Allowed(b, e)
    ensures SysCounted(cl, b, Step(cl, b, sys, e))
  {
    match e
    case Append(more) =>
      AppendKeepsCounted(cl, sys.file, more, b, sys.memory);
      AppendKeepsCounted(cl, sys.file, more, b, sys.disk);
    case Restart =>
    case Look(_, _, _, _, _, _) => LookKeepsCounted(cl, b, sys, e);
    case Flush(_, _) =>
    case Presence(event, _) => CountOneMore(sys.memory.log, event);
  }

  function Run(cl: Classifier, b: Base, sys: System, events: seq<Event>): System
    requires SysCounted(cl, b, sys) && forall i :: 0 <= i < |events| ==> Allowed(b, events[i])
    decreases |events|
  {
    if events == [] then sys
    else
      StepKeepsCounted(cl, b, sys, events[0]);
      Run(cl, b, Step(cl, b, sys, events[0]), events[1..])
  }

  /** Over any run, whatever the limits cut, whichever saves fail or half succeed, and wherever
      the daemon restarts, both the record in memory and the one on disk have counted every
      compacted line before their cursor exactly once, and a local connection has prepared
      exactly one notice for each. */
  lemma {:induction false} CountedExactlyOnce(cl: Classifier, b: Base, sys: System, events: seq<Event>)
    requires SysCounted(cl, b, sys) && forall i :: 0 <= i < |events| ==> Allowed(b, events[i])
    ensures SysCounted(cl, b, Run(cl, b, sys, events))
    ensures sys.file <= Run(cl, b, sys, events).file
    decreases |events|
  {
    if events != [] {
      StepKeepsCounted(cl, b, sys, events[0]);
      CountedExactlyOnce(cl, b, Step(cl, b, sys, events[0]), events[1..]);
    }
  }

  /** A first pass over an unwatched rollout starts such a run: it counts nothing that was there
      before and puts the cursor on the last line boundary. */
  lemma BaselineStartsCount(cl: Classifier, c: Conn, p: Pass, renumber: bool)
    requires c.Valid() && c.compaction.None? && c.state != Disconnected && Watched(c) && c.harness == Codex
    requires p.opens && p.size <= |p.seen| && p.commit == Saved
    ensures var (m, d) := Observe(cl, renumber, c, c, p);
            var b := Base(p.dev, p.ino, renumber, CompleteEnd(p.seen, p.size), 0, CountPosts(c.log));
            m == d && Counted(cl, p.seen, b, m) && m.log == c.log
  {
    var end := CompleteEnd(p.seen, p.size);
    assert Boundary(p.seen, end);
    assert Lines(p.seen, end, end) == [];
  }

  /** While a connection is disconnected, no pass counts or notes anything: the cursor goes to the
      last line boundary of the file, where the save goes through. */
  lemma DisconnectedPassOnlyMoves(cl: Classifier, renumber: bool, c: Conn, disk: Conn, p: Pass)
    requires c.Valid() && c.harness == Codex && c.hasRollout && c.state == Disconnected && p.opens
    ensures var (m, d) := Observe(cl, renumber, c, disk, p);
            var completed := if c.compaction.Some? then c.compaction.value.completed else 0;
            var moved := c.(compaction := Some(Observation(p.dev, p.ino, CompleteEnd(p.seen, Clip(p.seen, p.size)), completed)));
            && m == (if p.commit == Saved then moved else c)
            && d == (if p.commit == FailedBefore || c == moved then disk else moved)
  {
    hide CompleteEnd;
  }

  /** A pass over a connection that is not Codex's, has no rollout, is detached or still to be bound,
      or whose rollout cannot be opened and identified, does nothing; any other first pass saves a
      baseline if it can. */
  lemma WatchedExactly(cl: Classifier, renumber: bool, c: Conn, disk: Conn, p: Pass)
    requires c.Valid() && c.compaction.None? && p.commit == Saved
    ensures var (m, d) := Observe(cl, renumber, c, disk, p);
            if c.harness != Codex || !c.hasRollout || c.state == Detached || c.state == BindingRequired || !p.opens
            then m == c && d == disk
            else m.compaction.Some? && m.compaction.value.completed == 0 && m.compaction.value.ino == p.ino && d == m
  {
    hide CompleteEnd;
  }

  // ---- no batch boundary is visible ----

  /** Every record from `off` on is well formed and within the record limit, and so is the
      unfinished tail. */
  predicate Readable(cl: Classifier, s: Bytes, off: nat)
    requires off <= |s|
    decreases |s| - off
  {
    match NextRecord(s, off)
    case Tail => true
    case TooLong => false
    case Record(e) => cl(s[off..e]) != Invalid && Readable(cl, s, e)
  }

  lemma ReadableTurn(cl: Classifier, s: Bytes, start: nat, off: nat, records: nat)
    requires start <= off <= |s| && records <= MAX_RECORDS && Readable(cl, s, off)
    ensures var n := NextRecord(s, off);
            && !n.TooLong? && (n.Record? ==> n.end <= |s| && cl(s[off..n.end]) != Invalid && Readable(cl, s, n.end))
            && BatchStop(s, start, off, records) ==
               if records == MAX_RECORDS || n.Tail? then At(off)
               else if n.end - start >= MAX_BATCH then At(n.end) else BatchStop(s, start, n.end, records + 1)
  {
    hide NextRecord;
  }

  lemma ValidCons(cl: Classifier, line: Bytes, rest: seq<Bytes>)
    requires cl(line) != Invalid && AllValid(cl, rest)
    ensures AllValid(cl, [line] + rest)
  {
  }

  /** A readable batch is never discarded, and passes at least one record when there is one. */
  lemma {:induction false} ReadableBatch(cl: Classifier, s: Bytes, start: nat, off: nat, records: nat)
    requires start <= off <= |s| && records <= MAX_RECORDS && Readable(cl, s, off)
    ensures var stop := BatchStop(s, start, off, records);
            && stop.At? && stop.end <= |s| && Readable(cl, s, stop.end) && AllValid(cl, Lines(s, off, stop.end))
            && (records < MAX_RECORDS && NextRecord(s, off).Record? ==> off < stop.end)
    decreases |s| - off
  {
    hide BatchStop, NextRecord, Lines, Readable, AllValid;
    ReadableTurn(cl, s, start, off, records);
    var n := NextRecord(s, off);
    if records == MAX_RECORDS || n.Tail? {
      NoLinesBefore(s, off, off);
      NothingInvalid(cl);
    } else {
      if n.end - start < MAX_BATCH {
        ReadableBatch(cl, s, start, n.end, records + 1);
      } else {
        NoLinesBefore(s, n.end, n.end);
        NothingInvalid(cl);
      }
      BatchTurn(s, start, off, records);
      ValidCons(cl, s[off..n.end], Lines(s, n.end, BatchStop(s, start, off, records).end));
    }
  }

  lemma NothingInvalid(cl: Classifier)
    ensures AllValid(cl, [])
  {
  }

  lemma ReadableDrain(cl: Classifier, s: Bytes, off: nat)
    requires Boundary(s, off) && Readable(cl, s, off)
    ensures var b := Drain(cl, s, off);
            && b.Done? && off <= b.end && Boundary(s, b.end) && Readable(cl, s, b.end)
            && (b.end == off ==> b.count == 0 && !NextRecord(s, off).Record?)
  {
    ReadableBatch(cl, s, off, off, 0);
    assert Lines(s, off, off) == [];
  }

  /** Batch after batch until one finds nothing; that this ends is the progress of each. */
  function DrainAll(cl: Classifier, s: Bytes, off: nat): (nat, nat)
    requires Boundary(s, off) && Readable(cl, s, off)
    decreases |s| - off
  {
    ReadableDrain(cl, s, off);
    var b := Drain(cl, s, off);
    if b.end == off then (off, 0)
    else
      var (end, rest) := DrainAll(cl, s, b.end);
      (end, b.count + rest)
  }

  /** Batches of at most 256 records and about 8 MiB together consume every complete line, and
      count what one unlimited pass would. */
  lemma {:induction false} BatchesCountAll(cl: Classifier, s: Bytes, off: nat)
    requires Boundary(s, off) && Readable(cl, s, off)
    ensures DrainAll(cl, s, off) == (CompleteEnd(s, |s|), CountCompacted(cl, Lines(s, off, |s|)))
    decreases |s| - off
  {
    hide Drain, Lines, Readable, CountCompacted;
    ReadableDrain(cl, s, off);
    var b := Drain(cl, s, off);
    if b.end == off {
      NothingLeft(cl, s, off);
    } else {
      BatchesCountAll(cl, s, b.end);
      BatchAndRest(cl, s, off, b.end, b.count);
    }
  }

  lemma NothingLeft(cl: Classifier, s: Bytes, off: nat)
    requires Boundary(s, off) && Readable(cl, s, off) && !NextRecord(s, off).Record?
    ensures CompleteEnd(s, |s|) == off && CountCompacted(cl, Lines(s, off, |s|)) == 0
  {
    CompleteEndUnique(s, |s|, off);
  }

  lemma BatchAndRest(cl: Classifier, s: Bytes, off: nat, end: nat, count: nat)
    requires Boundary(s, off) && Drain(cl, s, off) == Done(end, count)
    ensures end <= |s| &&
            CountCompacted(cl, Lines(s, off, |s|)) == count + CountCompacted(cl, Lines(s, end, |s|))
  {
    LinesSplit(s, off, end, |s|);
    CountSplit(cl, Lines(s, off, end), Lines(s, end, |s|));
  }

  // ---- the two implementations ----

  /** One look at the rollout. Before it, the daemon has sent off `sent` of the notices waiting in
      its outbox. */
  datatype Look = Look(sent: nat, p: Pass)

  function Flushed(c: Conn, sent: nat): (d: Conn)
    requires c.Valid()
    ensures d.Valid() && d == c.(flushed := d.flushed)
  {
    c.(flushed := if c.flushed + sent <= |c.log| then c.flushed + sent else |c.log|)
  }

  /** The bridge's cursor and total over a list of looks at the rollout. */
  function BridgeRun(cl: Classifier, o: Option<Observation>, total: nat, looks: seq<Look>): (Option<Observation>, nat)
    decreases |looks|
  {
    if looks == [] then (o, total)
    else
      var p := looks[0].p;
      match Bridge(cl, p.opens, p.dev, p.ino, p.size, p.seen, o)
      case None => BridgeRun(cl, o, total, looks[1..])
      case Some(step) => BridgeRun(cl, Some(step.0), total + step.1, looks[1..])
  }

  /** One look of the daemon. */
  function DaemonLook(cl: Classifier, memory: Conn, disk: Conn, l: Look): (r: (Conn, Conn))
    requires memory.Valid() && disk.Valid()
    ensures r.0.Valid() && r.1.Valid()
  {
    ObserveKeepsValid(cl, false, Flushed(memory, l.sent), Flushed(disk, l.sent), l.p);
    Observe(cl, false, Flushed(memory, l.sent), Flushed(disk, l.sent), l.p)
  }

  /** The daemon's record over the same looks. */
  function DaemonRun(cl: Classifier, memory: Conn, disk: Conn, looks: seq<Look>): Conn
    requires memory.Valid() && disk.Valid()
    decreases |looks|
  {
    if looks == [] then memory
    else
      var (m, d) := DaemonLook(cl, memory, disk, looks[0]);
      DaemonRun(cl, m, d, looks[1..])
  }

  lemma ObserveKeepsValid(cl: Classifier, renumber: bool, memory: Conn, disk: Conn, p: Pass)
    requires memory.Valid() && disk.Valid()
    ensures var (m, d) := Observe(cl, renumber, memory, disk, p); m.Valid() && d.Valid()
  {
    hide Drain, CompleteEnd, Room, WithPosts;
    if memory.compaction.Some? && Drain(cl, p.seen, memory.compaction.value.offset).Done? {
      PostsCounted(memory.log, Drain(cl, p.seen, memory.compaction.value.offset).count);
    }
  }

  /** A connection whose rollout is watched. */
  predicate Observed(c: Conn) {
    c.Valid() && c.harness == Codex && Watched(c) && c.state != Disconnected
  }

  /** The two cursors are the same, and the daemon counted `base` more than the bridge. */
  predicate SameCount(c: Conn, o: Option<Observation>, total: nat, base: nat) {
    match o
    case None => c.compaction.None? && total == 0 && base == 0
    case Some(b) =>
      && c.compaction.Some? && c.compaction.value.completed == base + total
      && c.compaction.value.(completed := b.completed) == b
  }

  /** A look at a file that does not change while it is read, whose save succeeds. */
  predicate Undisturbed(p: Pass) {
    p.size == |p.seen| && p.commit == Saved
  }

  /** The daemon can do what the bridge does: there is nothing to post, or room for its notices. */
  predicate Keeps(cl: Classifier, c: Conn, p: Pass, o: Option<Observation>)
    requires c.Valid()
  {
    var r := Bridge(cl, p.opens, p.dev, p.ino, p.size, p.seen, o);
    r.Some? ==> BridgeRebaselines(o, p.dev, p.ino, p.size) || CanPost(c, p, r.value.1)
  }

  lemma NothingToDrain(cl: Classifier, s: Bytes)
    ensures Drain(cl, s, |s|) == Done(|s|, 0)
  {
    assert Lines(s, |s|, |s|) == [];
  }

  lemma EmptyDrainCountsNothing(cl: Classifier, s: Bytes, off: nat)
    requires off <= |s| && Drain(cl, s, off).Done? && Drain(cl, s, off).end == off
    ensures Drain(cl, s, off).count == 0
  {
    assert Lines(s, off, off) == [];
  }

  /** From the same cursor, one look takes both to the same cursor and count exactly when the
      daemon, which tells local peers of every compaction, has room for its notices. */
  lemma AgreeStep(cl: Classifier, c: Conn, disk: Conn, p: Pass, o: Option<Observation>, total: nat, base: nat)
    requires Observed(c) && SameCount(c, o, total, base) && Undisturbed(p)
    ensures var (m, _) := Observe(cl, false, c, disk, p);
            var r := Bridge(cl, p.opens, p.dev, p.ino, p.size, p.seen, o);
            && Observed(m)
            && (r.None? ==> SameCount(m, o, total, base))
            && (r.Some? ==> (SameCount(m, Some(r.value.0), total + r.value.1, base) <==> Keeps(cl, c, p, o)))
  {
    hide Drain, CompleteEnd, WithPosts;
    ObserveKeepsValid(cl, false, c, c, p);
    if o.Some? {
      if p.size == o.value.offset {
        NothingToDrain(cl, p.seen);
      } else if p.size > o.value.offset && Drain(cl, p.seen, o.value.offset).Done? {
        if Drain(cl, p.seen, o.value.offset).end == o.value.offset {
          EmptyDrainCountsNothing(cl, p.seen, o.value.offset);
        }
      }
    }
  }

  /** Every look of a run finds room for the notices it needs. */
  predicate EveryLookKeeps(cl: Classifier, c: Conn, disk: Conn, looks: seq<Look>, o: Option<Observation>)
    requires c.Valid() && disk.Valid()
    decreases |looks|
  {
    looks == [] ||
    var l := looks[0];
    var (m, d) := DaemonLook(cl, c, disk, l);
    var r := Bridge(cl, l.p.opens, l.p.dev, l.p.ino, l.p.size, l.p.seen, o);
    Keeps(cl, Flushed(c, l.sent), l.p, o) && EveryLookKeeps(cl, m, d, looks[1..], if r.Some? then Some(r.value.0) else o)
  }

  /** Over any list of looks at rollouts that grow, shrink, are replaced or cannot be read, while
      the notices of local connections find room, the daemon and the bridge reach the same cursor
      and count the same compactions. */
  lemma {:induction false} DaemonAndBridgeAgree(
    cl: Classifier, c: Conn, disk: Conn, looks: seq<Look>, o: Option<Observation>, total: nat, base: nat)
    requires Observed(c) && disk.Valid() && SameCount(c, o, total, base) && forall l <- looks :: Undisturbed(l.p)
    requires EveryLookKeeps(cl, c, disk, looks, o)
    ensures var (end, sum) := BridgeRun(cl, o, total, looks); SameCount(DaemonRun(cl, c, disk, looks), end, sum, base)
    decreases |looks|
  {
    hide Observe, Bridge, Undisturbed, Keeps;
    if looks != [] {
      var l := looks[0];
      assert l in looks;
      var p := l.p;
      AgreeStep(cl, Flushed(c, l.sent), Flushed(disk, l.sent), p, o, total, base);
      var (m, d) := DaemonLook(cl, c, disk, l);
      var r := Bridge(cl, p.opens, p.dev, p.ino, p.size, p.seen, o);
      hide SameCount;
      if r.None? {
        DaemonAndBridgeAgree(cl, m, d, looks[1..], o, total, base);
      } else {
        DaemonAndBridgeAgree(cl, m, d, looks[1..], Some(r.value.0), total + r.value.1, base);
      }
    }
  }

  /** A connection that notifies nobody keeps up with every look. */
  lemma {:induction false} SilentKeepsUp(cl: Classifier, c: Conn, disk: Conn, looks: seq<Look>, o: Option<Observation>)
    requires c.Valid() && disk.Valid() && !c.local
    ensures EveryLookKeeps(cl, c, disk, looks, o)
    decreases |looks|
  {
    hide Drain, Bridge, CompleteEnd;
    if looks != [] {
      var l := looks[0];
      var (m, d) := DaemonLook(cl, c, disk, l);
      var r := Bridge(cl, l.p.opens, l.p.dev, l.p.ino, l.p.size, l.p.seen, o);
      SilentKeepsUp(cl, m, d, looks[1..], if r.Some? then Some(r.value.0) else o);
    }
  }
}
