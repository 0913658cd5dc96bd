/** Where the counting of a rollout goes on to its end, and where it stops for good. */
module CompactionProgress {
  import opened Bytes
  import opened Storage
  import opened Wrappers
  import opened Compaction
  import opened CompactionRuns

  // ---- catching up ----

  /** How many batches lie between `off` and the end of the file. */
  function Batches(cl: Classifier, s: Bytes, off: nat): nat
    requires Boundary(s, off) && Readable(cl, s, off)
    decreases |s| - off
  {
    ReadableDrain(cl, s, off);
    var b := Drain(cl, s, off);
    if b.end == off then 0 else 1 + Batches(cl, s, b.end)
  }

  /** None of them has more compactions than the outbox holds. */
  predicate BatchesFit(cl: Classifier, s: Bytes, off: nat)
    requires Boundary(s, off) && Readable(cl, s, off)
    decreases |s| - off
  {
    ReadableDrain(cl, s, off);
    var b := Drain(cl, s, off);
    b.end == off || (b.count <= MAX_OUTBOX && BatchesFit(cl, s, b.end))
  }

  /** Looks at one file that stays as it is, each after the outbox was sent off. */
  predicate LooksAt(looks: seq<Look>, s: Bytes, dev: nat, ino: nat) {
    forall l <- looks ::
      && l.sent >= MAX_OUTBOX && l.p.prepares >= MAX_OUTBOX && l.p.opens && l.p.dev == dev && l.p.ino == ino
      && l.p.seen == s && Undisturbed(l.p)
  }

  lemma NoLooks(cl: Classifier, o: Observation, total: nat)
    ensures BridgeRun(cl, Some(o), total, []) == (Some(o), total)
  {
  }

  lemma BridgeTurn(cl: Classifier, s: Bytes, o: Observation, total: nat, looks: seq<Look>)
    requires Boundary(s, o.offset) && Drain(cl, s, o.offset).Done? && looks != [] && LooksAt(looks, s, o.dev, o.ino)
    ensures var b := Drain(cl, s, o.offset);
            && LooksAt(looks[1..], s, o.dev, o.ino)
            && BridgeRun(cl, Some(o), total, looks) ==
               BridgeRun(cl, Some(o.(offset := b.end)), total + b.count, looks[1..])
  {
    hide Drain;
    assert looks[0] in looks && forall l <- looks[1..] :: l in looks;
  }

  /** The first batch, and the rest. */
  lemma DrainAllTurn(cl: Classifier, s: Bytes, off: nat)
    requires Boundary(s, off) && Readable(cl, s, off)
    ensures var b := Drain(cl, s, off);
            && b.Done? && Boundary(s, b.end) && Readable(cl, s, b.end)
            && var (end, rest) := DrainAll(cl, s, b.end);
               && DrainAll(cl, s, off) == (end, b.count + rest)
               && (Batches(cl, s, off) == 0 ==> DrainAll(cl, s, off) == (off, 0))
               && Batches(cl, s, b.end) == if Batches(cl, s, off) == 0 then 0 else Batches(cl, s, off) - 1
  {
    hide Drain, Readable;
    ReadableDrain(cl, s, off);
  }

  lemma {:induction false} BridgeCatchesUp(cl: Classifier, s: Bytes, o: Observation, total: nat, looks: seq<Look>)
    requires Boundary(s, o.offset) && Readable(cl, s, o.offset) && LooksAt(looks, s, o.dev, o.ino)
    requires |looks| >= Batches(cl, s, o.offset)
    ensures var (end, count) := DrainAll(cl, s, o.offset);
            BridgeRun(cl, Some(o), total, looks) == (Some(o.(offset := end)), total + count)
    decreases |looks|
  {
    hide Drain, DrainAll, Batches, Readable, BridgeRun, LooksAt, Bridge;
    DrainAllTurn(cl, s, o.offset);
    if looks == [] {
      NoLooks(cl, o, total);
    } else {
      BridgeTurn(cl, s, o, total, looks);
      var b := Drain(cl, s, o.offset);
      var next, sum := o.(offset := b.end), total + b.count;
      BridgeCatchesUp(cl, s, next, sum, looks[1..]);
    }
  }

  /** A pass never fills the outbox beyond its size. */
  lemma OutboxIsBounded(cl: Classifier, c: Conn, disk: Conn, p: Pass)
    requires c.Valid() && c.Waiting() <= MAX_OUTBOX
    ensures var m := Observe(cl, false, c, disk, p).0; m.Valid() && m.local == c.local && m.Waiting() <= MAX_OUTBOX
  {
    hide Drain, CompleteEnd, WithPosts;
    if c.compaction.Some? && Drain(cl, p.seen, c.compaction.value.offset).Done? {
      PostsCounted(c.log, Drain(cl, p.seen, c.compaction.value.offset).count);
    }
  }

  lemma {:induction false} FittingLooksKeep(
    cl: Classifier, s: Bytes, c: Conn, disk: Conn, looks: seq<Look>, o: Observation, total: nat, base: nat)
    requires Observed(c) && disk.Valid() && SameCount(c, Some(o), total, base)
    requires Boundary(s, o.offset) && Readable(cl, s, o.offset) && LooksAt(looks, s, o.dev, o.ino)
    requires c.Waiting() <= MAX_OUTBOX && (c.local ==> BatchesFit(cl, s, o.offset))
    ensures EveryLookKeeps(cl, c, disk, looks, Some(o))
    decreases |looks|
  {
    ReadableDrain(cl, s, o.offset);
    hide Drain, Readable, Observe, Boundary;
    if looks != [] {
      var l := looks[0];
      assert l in looks && forall k <- looks[1..] :: k in looks;
      var f, b := Flushed(c, l.sent), Drain(cl, s, o.offset);
      assert f.Waiting() == 0;
      assert Bridge(cl, true, o.dev, o.ino, |s|, s, Some(o)) == Some((o.(offset := b.end), b.count));
      assert Keeps(cl, f, l.p, Some(o));
      AgreeStep(cl, f, Flushed(disk, l.sent), l.p, Some(o), total, base);
      OutboxIsBounded(cl, f, Flushed(disk, l.sent), l.p);
      var (m, d) := DaemonLook(cl, c, disk, l);
      hide Bridge, Keeps, SameCount, Observed;
      FittingLooksKeep(cl, s, m, d, looks[1..], o.(offset := b.end), total + b.count, base);
    }
  }

  /** The daemon catches up: where no batch has more compactions than the outbox holds, as many
      passes as there are batches, with the outbox sent off in between, take it to the last line
      boundary with every compaction counted, and so does the bridge. */
  lemma DaemonCatchesUp(cl: Classifier, s: Bytes, c: Conn, disk: Conn, looks: seq<Look>)
    requires Observed(c) && disk.Valid() && c.compaction.Some? && c.Waiting() <= MAX_OUTBOX
    requires var o := c.compaction.value;
             && Boundary(s, o.offset) && Readable(cl, s, o.offset) && LooksAt(looks, s, o.dev, o.ino)
             && |looks| >= Batches(cl, s, o.offset) && (c.local ==> BatchesFit(cl, s, o.offset))
    ensures var o := c.compaction.value;
            var end, count := CompleteEnd(s, |s|), CountCompacted(cl, Lines(s, o.offset, |s|));
            && BridgeRun(cl, Some(o), 0, looks) == (Some(o.(offset := end)), count)
            && DaemonRun(cl, c, disk, looks).compaction == Some(o.(offset := end, completed := o.completed + count))
  {
    hide DaemonRun, BridgeRun, Readable, Lines, CompleteEnd, CountCompacted, Batches, BatchesFit, Observed;
    hide EveryLookKeeps, Undisturbed;
    var o := c.compaction.value;
    var end, count := CompleteEnd(s, |s|), CountCompacted(cl, Lines(s, o.offset, |s|));
    assert BridgeRun(cl, Some(o), 0, looks) == (Some(o.(offset := end)), count) by {
      BatchesCountAll(cl, s, o.offset);
      BridgeCatchesUp(cl, s, o, 0, looks);
    }
    FittingLooksKeep(cl, s, c, disk, looks, o, 0, o.completed);
    DaemonAndBridgeAgree(cl, c, disk, looks, Some(o), 0, o.completed);
  }

  // ---- where progress stops ----

  lemma HealthyDrain(cl: Classifier, s: Bytes, off: nat)
    requires Boundary(s, off) && Readable(cl, s, off) && NextRecord(s, off).Record?
    ensures var b := Drain(cl, s, off); b.Done? && b.end > off && b.count <= MAX_RECORDS
  {
    hide BatchStop, Lines, Readable, CountCompacted, AllValid;
    ReadableBatch(cl, s, off, off, 0);
    BatchIsBounded(s, off, off, 0);
    CountAtMost(cl, Lines(s, off, BatchStop(s, off, off, 0).end));
  }

  /** A pass over a healthy batch moves the cursor exactly when its notices fit the outbox. */
  lemma ProgressExactlyWhenNoticesFit(cl: Classifier, renumber: bool, c: Conn, p: Pass)
    requires c.Valid() && c.harness == Codex && Watched(c) && p.opens && !Rebaselines(c, p)
    requires p.size > c.compaction.value.offset && p.size <= |p.seen| && Boundary(p.seen, c.compaction.value.offset)
    requires Readable(cl, p.seen, c.compaction.value.offset) && NextRecord(p.seen, c.compaction.value.offset).Record?
    requires p.commit == Saved && p.prepares >= MAX_RECORDS
    ensures var off := c.compaction.value.offset;
            var b := Drain(cl, p.seen, off);
            && b.Done?
            && (Observe(cl, renumber, c, c, p).0.compaction.value.offset > off
                <==> !c.local || b.count == 0 || c.Waiting() + b.count <= MAX_OUTBOX)
            && (Observe(cl, renumber, c, c, p).0.compaction.value.offset <= off ==> Observe(cl, renumber, c, c, p) == (c, c))
  {
    hide Drain, Readable, CompleteEnd, WithPosts;
    HealthyDrain(cl, p.seen, c.compaction.value.offset);
  }

  lemma {:induction false} CountAtMost(cl: Classifier, lines: seq<Bytes>)
    ensures CountCompacted(cl, lines) <= |lines|
  {
    if lines != [] {
      CountAtMost(cl, lines[..|lines| - 1]);
    }
  }

  /** More compactions in one batch than the outbox holds are refused by a pass as a whole, not
      even an empty outbox has room for them: both records stay as they were. */
  lemma BurstIsNeverPassed(cl: Classifier, renumber: bool, c: Conn, disk: Conn, p: Pass)
    requires c.Valid() && c.local && c.compaction.Some? && c.compaction.value.offset < p.size <= |p.seen|
    requires !Rebaselines(c, p) && !Restamps(renumber, c, p)
    requires var off := c.compaction.value.offset;
             var b := Drain(cl, p.seen, off);
             b.Done? && b.count > MAX_OUTBOX
    ensures Observe(cl, renumber, c, disk, p) == (c, disk)
  {
  }

  function Copies(l: Bytes, n: nat): Bytes {
    if n == 0 then [] else l + Copies(l, n - 1)
  }

  /** A record as it stands in a file: its only newline ends it. */
  predicate IsLine(l: Bytes) {
    l != [] && l[|l| - 1] == NL && forall k :: 0 <= k < |l| - 1 ==> l[k] != NL
  }

  lemma LineIsNext(pre: Bytes, l: Bytes, rest: Bytes)
    requires IsLine(l)
    ensures NextNewline(pre + l + rest, |pre|) == |pre| + |l| - 1
    ensures (pre + l + rest)[|pre|..|pre| + |l|] == l
  {
    var s := pre + l + rest;
    assert s[|pre|..|pre| + |l|] == l;
    assert forall k :: |pre| <= k < |pre| + |l| ==> s[k] == l[k - |pre|];
    NextNewlineUnique(s, |pre|, |pre| + |l| - 1);
  }

  /** Copies of one compacted record, within the limits of one batch. */
  lemma {:induction false} CopiesInOneBatch(cl: Classifier, start: nat, pre: Bytes, l: Bytes, n: nat, records: nat)
    requires IsLine(l) && cl(l) == Compacted && records + n <= MAX_RECORDS
    requires start <= |pre| && |pre + Copies(l, n)| - start < MAX_BATCH
    ensures var s := pre + Copies(l, n);
            && BatchStop(s, start, |pre|, records) == At(|s|)
            && AllValid(cl, Lines(s, |pre|, |s|)) && CountCompacted(cl, Lines(s, |pre|, |s|)) == n
    decreases n
  {
    hide Lines, BatchStop, CountCompacted, AllValid, IsLine, NextRecord;
    var s := pre + Copies(l, n);
    if n == 0 {
      assert s == pre;
      AtTheEnd(cl, start, s, records);
    } else {
      var rest := Copies(l, n - 1);
      assert s == pre + l + rest;
      hide Copies;
      LineIsNext(pre, l, rest);
      CopiesInOneBatch(cl, start, pre + l, l, n - 1, records + 1);
      LinesCons(s, |pre|, |s|);
      BatchGoesOn(s, start, |pre|, records);
      ConsCounts(cl, l, Lines(s, |pre + l|, |s|));
    }
  }

  lemma AtTheEnd(cl: Classifier, start: nat, s: Bytes, records: nat)
    requires start <= |s| && records <= MAX_RECORDS
    ensures BatchStop(s, start, |s|, records) == At(|s|)
    ensures AllValid(cl, Lines(s, |s|, |s|)) && CountCompacted(cl, Lines(s, |s|, |s|)) == 0
  {
    assert Lines(s, |s|, |s|) == [];
  }

  lemma ConsCounts(cl: Classifier, l: Bytes, rest: seq<Bytes>)
    requires cl(l) == Compacted
    ensures AllValid(cl, rest) ==> AllValid(cl, [l] + rest)
    ensures CountCompacted(cl, [l] + rest) == 1 + CountCompacted(cl, rest)
  {
    CountSplit(cl, [l], rest);
    CountSnoc(cl, [], l);
    assert [] + [l] == [l];
  }

  lemma BatchGoesOn(s: Bytes, start: nat, off: nat, records: nat)
    requires start <= off < |s| && |s| - start < MAX_BATCH && NextNewline(s, off) < |s| && records < MAX_RECORDS
    ensures BatchStop(s, start, off, records) == BatchStop(s, start, NextNewline(s, off) + 1, records + 1)
  {
  }

  /** Whatever a compacted record looks like and whatever was read before, 129 of it behind the
      cursor are such a batch as long as they stay below its byte limit. */
  lemma BurstExists(cl: Classifier, before: Bytes, l: Bytes, renumber: bool, c: Conn, disk: Conn, p: Pass)
    requires IsLine(l) && cl(l) == Compacted && |Copies(l, MAX_OUTBOX + 1)| < MAX_BATCH
    requires p.seen == before + Copies(l, MAX_OUTBOX + 1) && p.size == |p.seen| > |before|
    requires c.Valid() && c.local && c.compaction.Some? && c.state != Disconnected
    requires var o := c.compaction.value; o.dev == p.dev && o.ino == p.ino && o.offset == |before|
    ensures Drain(cl, p.seen, |before|) == Done(|p.seen|, MAX_OUTBOX + 1)
    ensures Observe(cl, renumber, c, disk, p) == (c, disk)
  {
    CopiesInOneBatch(cl, |before|, before, l, MAX_OUTBOX + 1, 0);
    hide Copies;
    assert Drain(cl, p.seen, |before|) == Done(|p.seen|, MAX_OUTBOX + 1);
    BurstIsNeverPassed(cl, renumber, c, disk, p);
  }

  // ---- stopped for good, over whole runs ----

  /** A pass from `off` fails: its batch holds an invalid or overlong record, or more compactions
      than the outbox of a local connection ever holds. */
  predicate Blocked(cl: Classifier, s: Bytes, off: nat, local: bool) {
    match Drain(cl, s, off)
    case Broken => true
    case Done(_, count) => local && count > MAX_OUTBOX
  }

  /** Appending leaves a complete record, or too long a tail, what it was. */
  lemma NextRecordAppend(s: Bytes, more: Bytes, off: nat)
    requires off <= |s|
    ensures !NextRecord(s, off).Tail? ==> NextRecord(s + more, off) == NextRecord(s, off)
  {
    NextNewlineAppend(s, more, off);
  }

  lemma {:induction false} BatchStopAppend(s: Bytes, more: Bytes, start: nat, off: nat, records: nat)
    requires start <= off <= |s| && records <= MAX_RECORDS
    ensures var r, t := BatchStop(s, start, off, records), BatchStop(s + more, start, off, records);
            t.At? ==> r.At? && r.end <= t.end
    decreases |s| - off
  {
    NextRecordAppend(s, more, off);
    var n := NextRecord(s, off);
    hide NextRecord;
    if records < MAX_RECORDS && n.Record? && n.end - start < MAX_BATCH {
      BatchStopAppend(s, more, start, n.end, records + 1);
    }
  }

  /** A file only grows, and growing does not unblock it. */
  lemma BlockedAppend(cl: Classifier, s: Bytes, more: Bytes, off: nat, local: bool)
    requires off <= |s| && Blocked(cl, s, off, local)
    ensures Blocked(cl, s + more, off, local)
  {
    hide Lines, BatchStop, CountCompacted, AllValid;
    BatchStopAppend(s, more, off, off, 0);
    var r, t := BatchStop(s, off, off, 0), BatchStop(s + more, off, off, 0);
    if t.At? {
      LinesAppend(s, more, off, r.end);
      StopIsBoundary(s, more, off);
      if r.end == off {
        NothingPassed(cl, s, off);
      } else {
        DrainBeyond(cl, s + more, off, r.end, t.end);
      }
    }
  }

  lemma NothingPassed(cl: Classifier, s: Bytes, off: nat)
    requires off <= |s|
    ensures AllValid(cl, Lines(s, off, off)) && CountCompacted(cl, Lines(s, off, off)) == 0
  {
    assert Lines(s, off, off) == [];
  }

  lemma StopIsBoundary(s: Bytes, more: Bytes, off: nat)
    requires off <= |s| && BatchStop(s, off, off, 0).At? && BatchStop(s + more, off, off, 0).At?
    ensures var e := BatchStop(s, off, off, 0).end; e == off || (e <= |s| && Boundary(s + more, e))
    ensures BatchStop(s + more, off, off, 0).end <= |s + more|
  {
  }

  /** Both records stand at `off`, with `completed` counted. */
  predicate StandAt(sys: System, off: nat, completed: nat) {
    && sys.memory.compaction.Some? && sys.disk.compaction.Some?
    && sys.memory.compaction.value.offset == off && sys.disk.compaction.value.offset == off
    && sys.memory.compaction.value.completed == completed && sys.disk.compaction.value.completed == completed
    && sys.memory.local == sys.disk.local
  }

  lemma BlockedLook(cl: Classifier, b: Base, sys: System, e: Event, off: nat, completed: nat)
    requires SysCounted(cl, b, sys) && Allowed(b, e) && e.Look?
    requires StandAt(sys, off, completed) && Blocked(cl, sys.file, off, sys.memory.local)
    ensures var t := Step(cl, b, sys, e); StandAt(t, off, completed) && t.memory.local == sys.memory.local
  {
    hide Drain, WithPosts, CompleteEnd, CountCompacted, Lines, CountPosts;
    BlockedAppend(cl, sys.file, e.grown, off, sys.memory.local);
  }

  lemma BlockedStep(cl: Classifier, b: Base, sys: System, e: Event, off: nat, completed: nat)
    requires SysCounted(cl, b, sys) && Allowed(b, e)
    requires StandAt(sys, off, completed) && Blocked(cl, sys.file, off, sys.memory.local)
    ensures var t := Step(cl, b, sys, e);
            StandAt(t, off, completed) && Blocked(cl, t.file, off, t.memory.local) && t.memory.local == sys.memory.local
  {
    hide Blocked, Drain;
    match e
    case Append(more) => BlockedAppend(cl, sys.file, more, off, sys.memory.local);
    case Look(_, _, grown, _, _, _) =>
      BlockedLook(cl, b, sys, e, off, completed);
      BlockedAppend(cl, sys.file, grown, off, sys.memory.local);
    case _ =>
  }

  predicate AllAllowed(b: Base, events: seq<Event>) {
    forall i :: 0 <= i < |events| ==> Allowed(b, events[i])
  }

  /** Where a pass is blocked, counting stays blocked: neither appends nor restarts, neither sent
      notices nor failed saves nor any later pass moves either record past it. */
  lemma {:induction false} BlockedForever(
    cl: Classifier, b: Base, sys: System, events: seq<Event>, off: nat, completed: nat)
    requires SysCounted(cl, b, sys) && AllAllowed(b, events)
    requires StandAt(sys, off, completed) && Blocked(cl, sys.file, off, sys.memory.local)
    ensures StandAt(Run(cl, b, sys, events), off, completed)
    decreases |events|
  {
    assert sys.memory.Valid();
    hide SysCounted, StandAt, Blocked, Step, Allowed;
    if events != [] {
      StepKeepsCounted(cl, b, sys, events[0]);
      BlockedStep(cl, b, sys, events[0], off, completed);
      BlockedForever(cl, b, Step(cl, b, sys, events[0]), events[1..], off, completed);
    }
  }

  /** The notices that wait are sent off, and then the rollout is read with nothing failing. */
  function SendAndLook(c: Conn): seq<Event>
    requires c.compaction.Some?
  {
    [Flush(|c.log|, Saved), Event.Look(true, c.compaction.value.dev, [], Saved, Saved, MAX_RECORDS)]
  }

  lemma RunTwo(cl: Classifier, b: Base, sys: System, first: Event, second: Event)
    requires SysCounted(cl, b, sys) && Allowed(b, first) && Allowed(b, second)
    ensures var t := Step(cl, b, sys, first);
            SysCounted(cl, b, t) && Run(cl, b, sys, [first, second]) == Step(cl, b, t, second)
  {
    assert sys.memory.Valid();
    StepKeepsCounted(cl, b, sys, first);
    var t := Step(cl, b, sys, first);
    assert t.memory.Valid();
    StepKeepsCounted(cl, b, t, second);
    var es := [first, second];
    assert es[1..] == [second] && es[1..][1..] == [];
    hide Step, SysCounted, Allowed;
    assert Run(cl, b, t, [second]) == Run(cl, b, Step(cl, b, t, second), []);
  }

  /** A look with nothing waiting, at a batch that is not blocked. */
  lemma LookMoves(cl: Classifier, c: Conn, disk: Conn, renumber: bool, p: Pass)
    requires c.Valid() && c.Waiting() == 0 && c.harness == Codex && Watched(c) && c.state != Disconnected
    requires c.compaction.Some? && p.opens && p.commit == Saved && p.prepares >= MAX_RECORDS
    requires var o := c.compaction.value;
             && o.dev == p.dev && o.ino == p.ino && o.offset < p.size && !Blocked(cl, p.seen, o.offset, c.local)
             && Drain(cl, p.seen, o.offset).end > o.offset
    ensures Observe(cl, renumber, c, disk, p).0.compaction.value.offset > c.compaction.value.offset
  {
    hide Drain, WithPosts, CompleteEnd;
  }

  lemma UnblockedMoves(cl: Classifier, b: Base, sys: System, off: nat, completed: nat)
    requires SysCounted(cl, b, sys) && StandAt(sys, off, completed)
    requires sys.memory.harness == Codex && Watched(sys.memory) && NextRecord(sys.file, off).Record?
    requires !Blocked(cl, sys.file, off, sys.memory.local)
    ensures var es := SendAndLook(sys.memory);
            AllAllowed(b, es) && !StandAt(Run(cl, b, sys, es), off, completed)
  {
    hide Run, Blocked, Drain, CountCompacted, Lines, CountPosts, NextRecord, Observe;
    var es, c := SendAndLook(sys.memory), sys.memory;
    assert Allowed(b, es[0]) && Allowed(b, es[1]);
    RunTwo(cl, b, sys, es[0], es[1]);
    var t := Step(cl, b, sys, es[0]);
    assert t.file == sys.file && t.memory == c.(flushed := |c.log|);
    FirstRecordPassed(cl, sys.file, off, c.local);
    assert sys.file + [] == sys.file;
    LookMoves(cl, t.memory, t.disk, b.renumber, PassOf(b, t.file, es[1]));
  }

  lemma FirstRecordPassed(cl: Classifier, s: Bytes, off: nat, local: bool)
    requires NextRecord(s, off).Record? && !Blocked(cl, s, off, local)
    ensures off < |s| && Drain(cl, s, off).Done? && Drain(cl, s, off).end > off
  {
  }

  /** A watched rollout with a complete record behind the cursor is stuck, whatever happens from
      there on, exactly when the next pass is blocked. */
  lemma StuckExactlyWhenBlocked(cl: Classifier, b: Base, sys: System, off: nat, completed: nat)
    requires SysCounted(cl, b, sys) && StandAt(sys, off, completed)
    requires sys.memory.harness == Codex && Watched(sys.memory) && NextRecord(sys.file, off).Record?
    ensures (forall events :: AllAllowed(b, events) ==> StandAt(Run(cl, b, sys, events), off, completed))
            <==> Blocked(cl, sys.file, off, sys.memory.local)
  {
    hide SysCounted, StandAt, Blocked, Run, SendAndLook;
    if Blocked(cl, sys.file, off, sys.memory.local) {
      forall events | AllAllowed(b, events) ensures StandAt(Run(cl, b, sys, events), off, completed) {
        BlockedForever(cl, b, sys, events, off, completed);
      }
    } else {
      UnblockedMoves(cl, b, sys, off, completed);
    }
  }

  /** 129 copies of any compacted record behind the cursor of a local connection stop its count
      for good, whatever happens from then on. */
  lemma BurstStopsTheCount(
    cl: Classifier, before: Bytes, l: Bytes, b: Base, sys: System, events: seq<Event>, completed: nat)
    requires IsLine(l) && cl(l) == Compacted && |Copies(l, MAX_OUTBOX + 1)| < MAX_BATCH
    requires sys.file == before + Copies(l, MAX_OUTBOX + 1)
    requires SysCounted(cl, b, sys) && StandAt(sys, |before|, completed) && sys.memory.local && AllAllowed(b, events)
    ensures StandAt(Run(cl, b, sys, events), |before|, completed)
  {
    hide Copies, Run;
    CopiesInOneBatch(cl, |before|, before, l, MAX_OUTBOX + 1, 0);
    assert Drain(cl, sys.file, |before|) == Done(|sys.file|, MAX_OUTBOX + 1);
    BlockedForever(cl, b, sys, events, |before|, completed);
  }

  // ---- a record that is never passed ----

  /** The record at `at` is not JSON, or longer than a record may be. */
  predicate BadRecord(cl: Classifier, s: Bytes, at: nat) {
    match NextRecord(s, at)
    case Tail => false
    case TooLong => true
    case Record(e) => cl(s[at..e]) == Invalid
  }

  lemma BadRecordAppend(cl: Classifier, s: Bytes, more: Bytes, at: nat)
    requires at <= |s| && BadRecord(cl, s, at)
    ensures BadRecord(cl, s + more, at)
  {
    NextRecordAppend(s, more, at);
    var n := NextRecord(s, at);
    if n.Record? {
      assert (s + more)[at..n.end] == s[at..n.end];
    }
  }

  lemma {:induction false} StopsBeforeTooLong(s: Bytes, start: nat, off: nat, records: nat, at: nat)
    requires start <= off <= at && records <= MAX_RECORDS && Boundary(s, at) && NextRecord(s, at).TooLong?
    requires BatchStop(s, start, off, records).At?
    ensures BatchStop(s, start, off, records).end <= at
    decreases |s| - off
  {
    if records < MAX_RECORDS && off < at {
      var e := NextNewline(s, off) + 1;
      assert e <= at;
      if e - start < MAX_BATCH {
        StopsBeforeTooLong(s, start, e, records + 1, at);
      }
    }
  }

  /** No batch that begins before a bad record reaches past it. */
  lemma BatchStopsAtBadRecord(cl: Classifier, s: Bytes, start: nat, at: nat)
    requires start <= at && Boundary(s, at) && BadRecord(cl, s, at) && Drain(cl, s, start).Done?
    ensures Drain(cl, s, start).end <= at
  {
    hide BatchStop, Lines, AllValid, CountCompacted;
    var end := BatchStop(s, start, start, 0).end;
    if NextRecord(s, at).TooLong? {
      StopsBeforeTooLong(s, start, start, 0, at);
    } else if end > at {
      StopReaches(s, start);
      var e := NextRecord(s, at).end;
      assert e <= end;
      DrainLine(cl, s, start, at, e);
      DrainBeyond(cl, s, start, e, end);
    }
  }

  lemma StopReaches(s: Bytes, start: nat)
    requires start <= |s| && BatchStop(s, start, start, 0).At?
    ensures var e := BatchStop(s, start, start, 0).end; e <= |s| && (e == start || Boundary(s, e))
  {
  }

  predicate Upto(c: Conn, at: nat) {
    c.compaction.Some? && c.compaction.value.offset <= at
  }

  predicate NotPast(sys: System, at: nat) {
    Upto(sys.memory, at) && Upto(sys.disk, at)
  }

  lemma StampedNotPast(cl: Classifier, c: Conn, disk: Conn, p: Pass, at: nat)
    requires c.Valid() && Upto(c, at) && Upto(disk, at) && !Rebaselines(c, p)
    requires Boundary(p.seen, at) && BadRecord(cl, p.seen, at)
    ensures var (m, d) := ObserveStamped(cl, c, disk, p); Upto(m, at) && Upto(d, at)
  {
    var off := c.compaction.value.offset;
    if Drain(cl, p.seen, off).Done? {
      BatchStopsAtBadRecord(cl, p.seen, off, at);
    }
    hide Drain, BadRecord, WithPosts;
  }

  /** A pass over the file that is being counted, once its device number is up to date. */
  lemma CountedFileIsKept(cl: Classifier, b: Base, sys: System, e: Event)
    requires SysCounted(cl, b, sys) && Allowed(b, e) && e.Look?
    ensures var c, p := sys.memory, PassOf(b, sys.file, e);
            if Restamps(b.renumber, c, p) then !Rebaselines(c.(compaction := Some(c.compaction.value.(dev := p.dev))), p)
            else !Rebaselines(c, p)
  {
    hide CountCompacted, Lines, CountPosts;
  }

  lemma LookNotPast(cl: Classifier, b: Base, sys: System, e: Event, at: nat)
    requires SysCounted(cl, b, sys) && Allowed(b, e) && e.Look?
    requires NotPast(sys, at) && Boundary(sys.file, at) && BadRecord(cl, sys.file, at)
    ensures NotPast(Step(cl, b, sys, e), at)
  {
    var c, p := sys.memory, PassOf(b, sys.file, e);
    BadRecordAppend(cl, sys.file, e.grown, at);
    assert Boundary(p.seen, at) && BadRecord(cl, p.seen, at);
    CountedFileIsKept(cl, b, sys, e);
    hide SysCounted, BadRecord, Boundary, Rebaselines, ObserveStamped;
    if Restamps(b.renumber, c, p) {
      var (m, d) := Commit(c, sys.disk, c.(compaction := Some(c.compaction.value.(dev := p.dev))), p.restamp);
      if p.restamp == Saved {
        StampedNotPast(cl, m, d, p, at);
      }
    } else {
      StampedNotPast(cl, c, sys.disk, p, at);
    }
  }

  lemma StepNotPast(cl: Classifier, b: Base, sys: System, e: Event, at: nat)
    requires SysCounted(cl, b, sys) && Allowed(b, e)
    requires NotPast(sys, at) && Boundary(sys.file, at) && BadRecord(cl, sys.file, at)
    ensures var t := Step(cl, b, sys, e); NotPast(t, at) && Boundary(t.file, at) && BadRecord(cl, t.file, at)
  {
    hide BadRecord;
    match e
    case Append(more) => BadRecordAppend(cl, sys.file, more, at);
    case Look(_, _, grown, _, _, _) =>
      LookNotPast(cl, b, sys, e, at);
      BadRecordAppend(cl, sys.file, grown, at);
    case _ =>
  }

  /** One record that is not JSON or too long stops the count for good: in no run does either
      record pass it. */
  lemma {:induction false} BadRecordIsNeverPassed(cl: Classifier, b: Base, sys: System, events: seq<Event>, at: nat)
    requires SysCounted(cl, b, sys) && AllAllowed(b, events)
    requires NotPast(sys, at) && Boundary(sys.file, at) && BadRecord(cl, sys.file, at)
    ensures NotPast(Run(cl, b, sys, events), at)
    decreases |events|
  {
    assert sys.memory.Valid();
    hide SysCounted, NotPast, BadRecord, Boundary, Step, Allowed;
    if events != [] {
      StepKeepsCounted(cl, b, sys, events[0]);
      StepNotPast(cl, b, sys, events[0], at);
      BadRecordIsNeverPassed(cl, b, Step(cl, b, sys, events[0]), events[1..], at);
    }
  }
}
