/** Counting the completed compactions of a Codex rollout from a durable cursor: the daemon's
    `observeCompaction`, the bridge's `bridgeCompactionStep`, the record reader they share, and
    the two backward searches for the last complete line. */
module Compaction {
  import opened Bytes
  import opened Storage
  import opened Wrappers

  const MAX_RECORDS: nat := 256
  const MAX_BATCH: nat := 0x80_0000
  const MAX_RECORD: nat := 0x400_0000
  const READ_BUFFER: nat := 0x1_0000
  const CHUNK: nat := 4096
  const MAX_OUTBOX: nat := 128

  /** The JSON type of one complete record: `compacted`, another one, or not JSON at all. */
  datatype Kind = Compacted | Other | Invalid

  type Classifier = Bytes -> Kind

  // ---- one record ----

  /** A record ending before `end`, an unfinished tail, or more bytes than a record may have. */
  datatype Next = Record(end: nat) | Tail | TooLong

  function NextRecord(s: Bytes, off: nat): (n: Next)
    ensures n.Record? ==> off < n.end <= |s| && s[n.end - 1] == NL
  {
    if off >= |s| then Tail
    else
      var e := NextNewline(s, off);
      if e == |s| then (if |s| - off > MAX_RECORD then TooLong else Tail)
      else if e + 1 - off > MAX_RECORD then TooLong else Record(e + 1)
  }

  /** Reading a record through a buffer of `buffer` bytes, whose parts are appended until one
      ends in a newline. However the record falls across the buffers, the outcome is that of
      `NextRecord`. */
  method ReadRolloutLine(s: Bytes, off: nat, buffer: nat) returns (n: Next)
    requires buffer > 0
    ensures n == NextRecord(s, off)
  {
    var end: nat := off;
    while true
      invariant off <= end && (end <= |s| || end == off)
      invariant forall k :: off <= k < end ==> s[k] != NL
      invariant end - off <= MAX_RECORD
      decreases |s| - end
    {
      if end >= |s| {
        if off < |s| {
          assert NextNewline(s, off) == |s|;
        }
        return Tail;
      }
      var i := NextNewline(s, end);
      if off < |s| {
        assert i == NextNewline(s, off) by {
          if i < |s| { NextNewlineUnique(s, off, i); }
        }
      }
      if i < |s| && i < end + buffer {
        return if i + 1 - off > MAX_RECORD then TooLong else Record(i + 1);
      }
      end := if end + buffer <= |s| then end + buffer else |s|;
      if end - off > MAX_RECORD {
        return TooLong;
      }
    }
  }

  /** A record ends with the first newline, unless it is longer than 64 MiB with it; nothing is said
      of a tail until it is longer than that without one. */
  lemma NextRecordExactly(s: Bytes, off: nat, end: nat)
    requires off <= |s|
    ensures NextRecord(s, off) == Record(end) <==>
            off < end <= |s| && end - off <= 0x400_0000 && s[end - 1] == 10 && 10 !in s[off..end - 1]
    ensures NextRecord(s, off).Tail? <==> 10 !in s[off..] && |s| - off <= 0x400_0000
  {
    var e := NextNewline(s, off);
    assert 10 !in s[off..e];
    assert 10 in s[off..] <==> e < |s| by {
      if e < |s| { assert s[off..][e - off] == 10; }
    }
    assert e < end - 1 < |s| ==> s[off..end - 1][e - off] == 10;
  }

  // ---- one batch ----

  /** Where a batch that began at `start` stops: after its last record, or before one that is
      too long. Neither depends on what the records say. */
  datatype Stop = At(end: nat) | Overlong

  function BatchStop(s: Bytes, start: nat, off: nat, records: nat): (r: Stop)
    requires start <= off && records <= MAX_RECORDS
    ensures r.At? ==> off <= r.end && (r.end == off || (r.end <= |s| && Boundary(s, r.end)))
    decreases |s| - off
  {
    if records == MAX_RECORDS then At(off)
    else match NextRecord(s, off)
      case Tail => At(off)
      case TooLong => Overlong
      case Record(e) => if e - start >= MAX_BATCH then At(e) else BatchStop(s, start, e, records + 1)
  }

  predicate AllValid(cl: Classifier, lines: seq<Bytes>) {
    forall i :: 0 <= i < |lines| ==> cl(lines[i]) != Invalid
  }

  function CountCompacted(cl: Classifier, lines: seq<Bytes>): nat {
    if lines == [] then 0
    else CountCompacted(cl, lines[..|lines| - 1]) + if cl(lines[|lines| - 1]) == Compacted then 1 else 0
  }

  /** A batch passes the lines up to its stop and counts the compacted ones, or an invalid or
      overlong record discards it. */
  datatype Batch = Done(end: nat, count: nat) | Broken

  function Drain(cl: Classifier, s: Bytes, start: nat): Batch {
    match BatchStop(s, start, start, 0)
    case Overlong => Broken
    case At(end) =>
      if start > |s| then Done(start, 0)
      else
        var lines := Lines(s, start, end);
        if AllValid(cl, lines) then Done(end, CountCompacted(cl, lines)) else Broken
  }

  lemma {:induction false} CountSplit(cl: Classifier, a: seq<Bytes>, b: seq<Bytes>)
    ensures CountCompacted(cl, a + b) == CountCompacted(cl, a) + CountCompacted(cl, b)
    decreases |b|
  {
    if b == [] {
      assert a + b == a;
    } else {
      CountSplit(cl, a, b[..|b| - 1]);
      assert (a + b)[..|a + b| - 1] == a + b[..|b| - 1];
    }
  }

  lemma CountSnoc(cl: Classifier, lines: seq<Bytes>, line: Bytes)
    ensures CountCompacted(cl, lines + [line]) == CountCompacted(cl, lines) + if cl(line) == Compacted then 1 else 0
  {
    assert (lines + [line])[..|lines|] == lines;
  }

  /** How far a drain loop has come: the batch stops where the loop will, and the lines passed
      so far are valid and hold `count` compactions. */
  predicate Underway(cl: Classifier, s: Bytes, start: nat, off: nat, records: nat, count: nat) {
    && start <= off && records <= MAX_RECORDS
    && (off == start || (off <= |s| && Boundary(s, off)))
    && BatchStop(s, start, start, 0) == BatchStop(s, start, off, records)
    && (start <= |s| ==> AllValid(cl, Lines(s, start, off)) && CountCompacted(cl, Lines(s, start, off)) == count)
    && (start > |s| ==> count == 0)
  }

  /** Passing one more line. */
  lemma DrainLine(cl: Classifier, s: Bytes, start: nat, off: nat, e: nat)
    requires start <= off <= |s| && (off == start || Boundary(s, off)) && NextNewline(s, off) == e - 1 < |s|
    ensures Boundary(s, e)
    ensures AllValid(cl, Lines(s, start, e)) <==> AllValid(cl, Lines(s, start, off)) && cl(s[off..e]) != Invalid
    ensures CountCompacted(cl, Lines(s, start, e)) ==
            CountCompacted(cl, Lines(s, start, off)) + if cl(s[off..e]) == Compacted then 1 else 0
  {
    hide Lines, CountCompacted;
    LinesStep(s, start, off, e);
    var lines, line := Lines(s, start, off), s[off..e];
    CountSnoc(cl, lines, line);
    assert (lines + [line])[|lines|] == line;
    assert forall i :: 0 <= i < |lines| ==> (lines + [line])[i] == lines[i];
  }

  /** Cutting a batch at a line boundary. */
  lemma DrainBeyond(cl: Classifier, s: Bytes, start: nat, e: nat, end: nat)
    requires start <= e <= end <= |s| && Boundary(s, e)
    ensures AllValid(cl, Lines(s, start, end)) ==> AllValid(cl, Lines(s, start, e))
    ensures CountCompacted(cl, Lines(s, start, end)) >= CountCompacted(cl, Lines(s, start, e))
  {
    hide Lines, CountCompacted;
    LinesSplit(s, start, e, end);
    var a, b := Lines(s, start, e), Lines(s, e, end);
    CountSplit(cl, a, b);
    assert forall i :: 0 <= i < |a| ==> (a + b)[i] == a[i];
  }

  /** One turn of either drain loop. */
  lemma DrainTurn(cl: Classifier, s: Bytes, start: nat, off: nat, records: nat, count: nat, e: nat)
    requires Underway(cl, s, start, off, records, count) && records < MAX_RECORDS && NextRecord(s, off) == Record(e)
    ensures cl(s[off..e]) == Invalid ==> Drain(cl, s, start) == Broken
    ensures cl(s[off..e]) != Invalid ==>
              var after := count + if cl(s[off..e]) == Compacted then 1 else 0;
              && (Drain(cl, s, start).Done? ==> Drain(cl, s, start).count >= after)
              && (e - start >= MAX_BATCH ==> Drain(cl, s, start) == Done(e, after))
              && (e - start < MAX_BATCH ==> Underway(cl, s, start, e, records + 1, after))
  {
    assert start <= off <= |s| && NextNewline(s, off) == e - 1 < |s|;
    DrainLine(cl, s, start, off, e);
    assert BatchStop(s, start, start, 0) == if e - start >= MAX_BATCH then At(e) else BatchStop(s, start, e, records + 1);
    hide BatchStop, Lines, CountCompacted, AllValid, NextRecord;
    var stop := BatchStop(s, start, start, 0);
    if stop.At? {
      DrainBeyond(cl, s, start, e, stop.end);
    }
  }

  /** Where either loop leaves off: before an unfinished tail or with its records used up, and
      before an overlong record. */
  lemma DrainLeavesOff(cl: Classifier, s: Bytes, start: nat, off: nat, records: nat, count: nat)
    requires Underway(cl, s, start, off, records, count)
    ensures records == MAX_RECORDS || NextRecord(s, off).Tail? ==> Drain(cl, s, start) == Done(off, count)
    ensures records < MAX_RECORDS && NextRecord(s, off).TooLong? ==> Drain(cl, s, start) == Broken
  {
  }

  lemma DrainStart(cl: Classifier, s: Bytes, start: nat)
    ensures Underway(cl, s, start, start, 0, 0)
  {
  }

  /** The first record of a batch, and the rest of it. */
  lemma BatchTurn(s: Bytes, start: nat, off: nat, records: nat)
    requires start <= off <= |s| && records < MAX_RECORDS && NextRecord(s, off).Record?
    requires BatchStop(s, start, off, records).At?
    ensures var e, stop := NextRecord(s, off).end, BatchStop(s, start, off, records);
            && stop == (if e - start >= MAX_BATCH then At(e) else BatchStop(s, start, e, records + 1))
            && e <= stop.end <= |s| && Lines(s, off, stop.end) == [s[off..e]] + Lines(s, e, stop.end)
  {
    hide Lines;
    LinesCons(s, off, BatchStop(s, start, off, records).end);
  }

  lemma NoRecord(s: Bytes, start: nat, off: nat, records: nat)
    requires start <= off <= |s| && records <= MAX_RECORDS && BatchStop(s, start, off, records).At?
    requires records == MAX_RECORDS || !NextRecord(s, off).Record?
    ensures BatchStop(s, start, off, records) == At(off) && Lines(s, off, off) == []
  {
  }

  /** A batch passes at most the remaining records. */
  lemma {:induction false} BatchIsBounded(s: Bytes, start: nat, off: nat, records: nat)
    requires start <= off <= |s| && records <= MAX_RECORDS && BatchStop(s, start, off, records).At?
    ensures |Lines(s, off, BatchStop(s, start, off, records).end)| <= MAX_RECORDS - records
    decreases |s| - off
  {
    hide Lines, BatchStop, NextRecord;
    if records < MAX_RECORDS && NextRecord(s, off).Record? {
      BatchTurn(s, start, off, records);
      var e := NextRecord(s, off).end;
      if e - start < MAX_BATCH {
        BatchIsBounded(s, start, e, records + 1);
      } else {
        NoLinesBefore(s, e, e);
      }
    } else {
      NoRecord(s, start, off, records);
    }
  }

  /** Where a batch ends: at 256 records, at the first record that ends 8 MiB or more behind its
      start, or before a tail, whatever comes first. */
  lemma {:induction false} BatchEndsExactly(s: Bytes, start: nat, off: nat, records: nat)
    requires start <= off <= |s| && records <= 256 && off - start < 0x80_0000
    requires BatchStop(s, start, off, records).At?
    ensures var end := BatchStop(s, start, off, records).end;
            end <= |s| &&
            var lines := Lines(s, off, end);
            && (records + |lines| == 256 || end - start >= 0x80_0000 || NextRecord(s, end).Tail?)
            && (lines != [] ==> end - |lines[|lines| - 1]| - start < 0x80_0000)
    decreases |s| - off
  {
    hide Lines, BatchStop, NextRecord;
    if records < MAX_RECORDS && NextRecord(s, off).Record? {
      BatchTurn(s, start, off, records);
      var e, end := NextRecord(s, off).end, BatchStop(s, start, off, records).end;
      var rest := Lines(s, e, end);
      if e - start < MAX_BATCH {
        BatchEndsExactly(s, start, e, records + 1);
        assert ([s[off..e]] + rest)[|rest|] == if rest == [] then s[off..e] else rest[|rest| - 1];
        if rest == [] {
          NothingTaken(s, start, e, records + 1);
        }
      } else {
        NoLinesBefore(s, e, e);
      }
    } else {
      NoRecord(s, start, off, records);
      TailStops(s, start, off, records);
    }
  }

  lemma TailStops(s: Bytes, start: nat, off: nat, records: nat)
    requires start <= off <= |s| && records <= MAX_RECORDS && BatchStop(s, start, off, records).At?
    ensures records < MAX_RECORDS && !NextRecord(s, off).Record? ==> NextRecord(s, off).Tail?
  {
  }

  /** A batch without a line ends where it began. */
  lemma NothingTaken(s: Bytes, start: nat, off: nat, records: nat)
    requires start <= off <= |s| && records <= MAX_RECORDS && BatchStop(s, start, off, records).At?
    requires BatchStop(s, start, off, records).end <= |s| && Lines(s, off, BatchStop(s, start, off, records).end) == []
    ensures BatchStop(s, start, off, records).end == off
  {
    if records < MAX_RECORDS && NextRecord(s, off).Record? {
      BatchTurn(s, start, off, records);
    } else {
      NoRecord(s, start, off, records);
    }
  }

  // ---- the daemon's connection record ----

  /** The adapter of a connection; an absent name means codex, and a name of none of the three
      is refused. */
  datatype Harness = Codex | Claude | Opencode | Unsupported

  /** The connection states that compaction tells apart. */
  datatype Lifecycle = Attached | Detached | BindingRequired | Disconnected

  /** Presence transitions: a completed compaction, or one of the others by its event name. */
  datatype Transition = CompactPost | OtherEvent(name: string)

  datatype Observation = Observation(dev: nat, ino: nat, offset: nat, completed: nat)

  /** The fields of a connection that compaction touches. `log` is every presence transition
      ever prepared for it, so that its length is the presence sequence; the outbox is what
      follows the flushed ones. */
  datatype Conn = Conn(
    harness: Harness, hasRollout: bool, state: Lifecycle, local: bool,
    compaction: Option<Observation>, log: seq<Transition>, flushed: nat)
  {
    predicate Valid() {
      flushed <= |log|
    }

    /** The length of the outbox. */
    function Waiting(): nat
      requires Valid()
    {
      |log| - flushed
    }
  }

  /** One pass as its surroundings make it: the opened file's identity, its size when it was
      inspected, the bytes the reader then met before the end of the file, the outcome of the
      two saves, and how many notices can be prepared before one is refused. */
  datatype Pass = Pass(
    opens: bool, dev: nat, ino: nat, size: nat, seen: Bytes, restamp: Save, commit: Save, prepares: nat)

  /** `devMayRenumber`: whether a reboot may change the device number of the same file. */
  predicate DevMatches(renumber: bool, recorded: nat, current: nat) {
    current == recorded || renumber
  }

  predicate Watched(c: Conn) {
    c.hasRollout && c.state !in {Detached, BindingRequired}
  }

  predicate Restamps(renumber: bool, c: Conn, p: Pass) {
    && c.compaction.Some?
    && c.compaction.value.dev != p.dev && DevMatches(renumber, c.compaction.value.dev, p.dev)
    && c.compaction.value.ino == p.ino && p.size >= c.compaction.value.offset && c.state != Disconnected
  }

  predicate Rebaselines(c: Conn, p: Pass) {
    || c.compaction.None?
    || c.compaction.value.dev != p.dev || c.compaction.value.ino != p.ino
    || p.size < c.compaction.value.offset || c.state == Disconnected
  }

  function WithPosts(log: seq<Transition>, n: nat): seq<Transition> {
    if n == 0 then log else WithPosts(log, n - 1) + [CompactPost]
  }

  /** Notices go out for local connections only. */
  function PostsAfter(c: Conn, n: nat): seq<Transition> {
    Noticed(c.local, c.log, n)
  }

  /** How many notices one pass can prepare before the outbox is full or the recipients cannot
      be read. */
  function Room(c: Conn, p: Pass): nat
    requires c.Valid()
  {
    var free := if c.Waiting() < MAX_OUTBOX then MAX_OUTBOX - c.Waiting() else 0;
    if p.prepares < free then p.prepares else free
  }

  predicate CanPost(c: Conn, p: Pass, n: nat)
    requires c.Valid()
  {
    c.local ==> n <= Room(c, p)
  }

  /** The records in memory and on disk after a save, and whether it succeeded. */
  function Commit(memory: Conn, disk: Conn, next: Conn, save: Save): (Conn, Conn) {
    (if save == Saved then next else memory, if save.Reached() then next else disk)
  }

  /** The captured size, as far as the file still has it. */
  function Clip(s: Bytes, size: nat): nat {
    if size < |s| then size else |s|
  }

  function Baseline(c: Conn, p: Pass): Conn {
    var end := CompleteEnd(p.seen, Clip(p.seen, p.size));
    c.(compaction := Some(Observation(p.dev, p.ino, end, if c.compaction.Some? then c.compaction.value.completed else 0)))
  }

  /** What a pass that reads on from the cursor makes of the record; `None` is an error that
      leaves it as it was. */
  function Advance(cl: Classifier, c: Conn, p: Pass): Option<Conn>
    requires c.Valid() && c.compaction.Some?
  {
    var o := c.compaction.value;
    match Drain(cl, p.seen, o.offset)
    case Broken => None
    case Done(end, n) =>
      if !CanPost(c, p, n) then None
      else Some(c.(log := PostsAfter(c, n), compaction := Some(o.(offset := end, completed := o.completed + n))))
  }

  function Observe(cl: Classifier, renumber: bool, memory: Conn, disk: Conn, p: Pass): (Conn, Conn)
    requires memory.Valid()
  {
    if memory.harness != Codex || !Watched(memory) || !p.opens then (memory, disk)
    else if Restamps(renumber, memory, p) then
      var (m, d) := Commit(memory, disk, memory.(compaction := Some(memory.compaction.value.(dev := p.dev))), p.restamp);
      if p.restamp != Saved then (m, d) else ObserveStamped(cl, m, d, p)
    else ObserveStamped(cl, memory, disk, p)
  }

  function ObserveStamped(cl: Classifier, memory: Conn, disk: Conn, p: Pass): (Conn, Conn)
    requires memory.Valid()
  {
    if Rebaselines(memory, p) then
      var next := Baseline(memory, p);
      if memory.compaction == next.compaction then (memory, disk) else Commit(memory, disk, next, p.commit)
    else if p.size == memory.compaction.value.offset then (memory, disk)
    else match Advance(cl, memory, p)
      case None => (memory, disk)
      case Some(next) =>
        if next.compaction.value.offset == memory.compaction.value.offset then (memory, disk)
        else Commit(memory, disk, next, p.commit)
  }

  function Noticed(local: bool, base: seq<Transition>, n: nat): seq<Transition> {
    if local then WithPosts(base, n) else base
  }

  /** `preparePresence` for one more compaction, where the connection is local. */
  method Notice(local: bool, room: nat, base: seq<Transition>, count: nat, log: seq<Transition>)
    returns (ok: bool, next: seq<Transition>)
    requires log == Noticed(local, base, count) && (local ==> count <= room)
    ensures ok == !(local && count == room)
    ensures ok ==> next == Noticed(local, base, count + 1)
  {
    if !local {
      return true, log;
    }
    if count >= room {
      return false, log;
    }
    return true, log + [CompactPost];
  }

  /** What one turn of the loop comes to: another record passed, or the end of the pass. */
  datatype Turn = Passed(offset: nat, count: nat, log: seq<Transition>) | Left | Over(batch: Batch, log: seq<Transition>)

  /** The pass as far as it has come, and as it will end. */
  predicate Reading(
    cl: Classifier, seen: Bytes, start: nat, local: bool, room: nat, base: seq<Transition>,
    offset: nat, records: nat, count: nat, log: seq<Transition>)
  {
    Underway(cl, seen, start, offset, records, count) && log == Noticed(local, base, count) && (local ==> count <= room)
  }

  predicate Ends(
    cl: Classifier, seen: Bytes, start: nat, local: bool, room: nat, base: seq<Transition>, r: Batch, log: seq<Transition>)
  {
    var b := Drain(cl, seen, start);
    r == (if b.Done? && local && b.count > room then Batch.Broken else b) && (r.Done? ==> log == Noticed(local, base, r.count))
  }

  method ReadRecord(
    cl: Classifier, seen: Bytes, start: nat, local: bool, room: nat, base: seq<Transition>,
    offset: nat, records: nat, count: nat, log: seq<Transition>)
    returns (t: Turn)
    requires records < MAX_RECORDS && Reading(cl, seen, start, local, room, base, offset, records, count, log)
    ensures t.Passed? ==> Reading(cl, seen, start, local, room, base, t.offset, records + 1, t.count, t.log)
    ensures t.Left? ==> NextRecord(seen, offset).Tail?
    ensures t.Over? ==> Ends(cl, seen, start, local, room, base, t.batch, t.log)
  {
    hide Drain, Underway, Noticed, NextRecord;
    var n := ReadRolloutLine(seen, offset, READ_BUFFER);
    if n.Tail? {
      return Left;
    }
    if n.TooLong? {
      DrainLeavesOff(cl, seen, start, offset, records, count);
      return Over(Batch.Broken, log);
    }
    var kind := cl(seen[offset..n.end]);
    DrainTurn(cl, seen, start, offset, records, count, n.end);
    if kind == Invalid {
      return Over(Batch.Broken, log);
    }
    var after, next := count, log;
    if kind == Compacted {
      var ok;
      ok, next := Notice(local, room, base, count, log);
      if !ok {
        return Over(Batch.Broken, log);
      }
      after := count + 1;
    }
    if n.end - start >= MAX_BATCH {
      return Over(Done(n.end, after), next);
    }
    return Passed(n.end, after, next);
  }

  /** The loop of a pass. For a local connection it prepares one notice per compaction, and a
      notice that cannot be prepared discards the pass. The caller commits the new cursor and
      the new log together. */
  method ReadOn(cl: Classifier, seen: Bytes, start: nat, local: bool, room: nat, base: seq<Transition>)
    returns (r: Batch, log: seq<Transition>)
    ensures Ends(cl, seen, start, local, room, base, r, log)
  {
    hide Drain, Underway;
    var offset: nat, count: nat, records: nat := start, 0, 0;
    log := base;
    DrainStart(cl, seen, start);
    assert Reading(cl, seen, start, local, room, base, offset, records, count, log);
    while records < MAX_RECORDS
      invariant records <= MAX_RECORDS && Reading(cl, seen, start, local, room, base, offset, records, count, log)
    {
      hide Reading;
      var t := ReadRecord(cl, seen, start, local, room, base, offset, records, count, log);
      match t {
        case Left => break;
        case Over(batch, last) => return batch, last;
        case Passed(next, passed, noticed) =>
          offset, count, log := next, passed, noticed;
          records := records + 1;
      }
    }
    DrainLeavesOff(cl, seen, start, offset, records, count);
    r := Done(offset, count);
  }

  class Daemon {
    var memory: Conn
    var disk: Conn

    constructor (c: Conn)
      ensures memory == c && disk == c
    {
      memory, disk := c, c;
    }

    method SaveRecord(next: Conn, outcome: Save) returns (ok: bool)
      modifies this`disk
      ensures disk == if outcome.Reached() then next else old(disk)
      ensures ok == (outcome == Saved)
    {
      if outcome.Reached() {
        disk := next;
      }
      ok := outcome == Saved;
    }

    /** A file that is not the one observed so far is not replayed: counting goes on from its
        last complete line. */
    method SaveBaseline(p: Pass) returns (ok: bool)
      requires memory.Valid()
      modifies this
      ensures (memory, disk) ==
              var next := Baseline(old(memory), p);
              if old(memory).compaction == next.compaction then (old(memory), old(disk))
              else Commit(old(memory), old(disk), next, p.commit)
    {
      var end := RolloutCompleteEnd(p.seen, p.size);
      var completed := 0;
      if memory.compaction.Some? {
        var o := memory.compaction.value;
        completed := o.completed;
        if o.dev == p.dev && o.ino == p.ino && o.offset == end {
          return true;
        }
      }
      var next := memory.(compaction := Some(Observation(p.dev, p.ino, end, completed)));
      ok := SaveRecord(next, p.commit);
      if ok {
        memory := next;
      }
    }

    /** Counting on from the cursor. The cursor and the notices of a pass are saved together; the
        flush that follows a successful pass is a step of its own. */
    method CountOn(cl: Classifier, p: Pass) returns (ok: bool)
      requires memory.Valid() && !Rebaselines(memory, p)
      modifies this
      ensures (memory, disk) == ObserveStamped(cl, old(memory), old(disk), p)
    {
      var o := memory.compaction.value;
      if p.size == o.offset {
        return true;
      }
      var batch, log := ReadOn(cl, p.seen, o.offset, memory.local, Room(memory, p), memory.log);
      if batch.Broken? {
        return false;
      }
      ok := true;
      if batch.end != o.offset {
        var next := memory.(log := log, compaction := Some(o.(offset := batch.end, completed := o.completed + batch.count)));
        ok := SaveRecord(next, p.commit);
        if ok {
          memory := next;
        }
      }
    }

    method ObserveCompaction(cl: Classifier, renumber: bool, p: Pass) returns (ok: bool)
      requires memory.Valid()
      modifies this
      ensures (memory, disk) == Observe(cl, renumber, old(memory), old(disk), p)
    {
      if memory.harness in {Claude, Opencode} {
        return true;
      }
      if memory.harness != Codex {
        return false;
      }
      if !memory.hasRollout || memory.state in {Detached, BindingRequired} {
        return true;
      }
      if !p.opens {
        return false;
      }
      if Restamps(renumber, memory, p) {
        var restamped := memory.(compaction := Some(memory.compaction.value.(dev := p.dev)));
        ok := SaveRecord(restamped, p.restamp);
        if !ok {
          return;
        }
        memory := restamped;
      }
      if Rebaselines(memory, p) {
        ok := SaveBaseline(p);
      } else {
        ok := CountOn(cl, p);
      }
    }
  }

  // ---- the bridge ----

  predicate BridgeRebaselines(previous: Option<Observation>, dev: nat, ino: nat, size: nat) {
    previous.None? || previous.value.dev != dev || previous.value.ino != ino || size < previous.value.offset
  }

  /** What one step of the bridge returns: the cursor and how many compactions it passed, or
      nothing when the rollout cannot be read, in which case the caller keeps its cursor. */
  function Bridge(cl: Classifier, opens: bool, dev: nat, ino: nat, size: nat, seen: Bytes, previous: Option<Observation>)
    : Option<(Observation, nat)>
  {
    if !opens then None
    else if BridgeRebaselines(previous, dev, ino, size) then
      Some((Observation(dev, ino, CompleteEnd(seen, Clip(seen, size)), 0), 0))
    else match Drain(cl, seen, previous.value.offset)
      case Broken => None
      case Done(end, n) => Some((previous.value.(offset := end), n))
  }

  /** The bridge's loop over one batch. */
  method DrainFrom(cl: Classifier, seen: Bytes, start: nat) returns (r: Batch)
    ensures r == Drain(cl, seen, start)
  {
    hide Drain, Underway, NextRecord;
    var offset: nat, count: nat, records: nat := start, 0, 0;
    DrainStart(cl, seen, start);
    while records < MAX_RECORDS
      invariant records <= MAX_RECORDS && Underway(cl, seen, start, offset, records, count)
    {
      var n := ReadRolloutLine(seen, offset, READ_BUFFER);
      if n.Tail? {
        break;
      }
      if n.TooLong? {
        DrainLeavesOff(cl, seen, start, offset, records, count);
        return Batch.Broken;
      }
      var kind := cl(seen[offset..n.end]);
      DrainTurn(cl, seen, start, offset, records, count, n.end);
      if kind == Invalid {
        return Batch.Broken;
      }
      if kind == Compacted {
        count := count + 1;
      }
      offset := n.end;
      records := records + 1;
      if offset - start >= MAX_BATCH {
        return Done(offset, count);
      }
    }
    DrainLeavesOff(cl, seen, start, offset, records, count);
    return Done(offset, count);
  }

  /** `bridgeCompactionStep`: the second implementation of the same drain, on a cursor the
      caller keeps. */
  method BridgeStep(cl: Classifier, opens: bool, dev: nat, ino: nat, size: nat, seen: Bytes, previous: Option<Observation>)
    returns (r: Option<(Observation, nat)>)
    ensures r == Bridge(cl, opens, dev, ino, size, seen, previous)
  {
    if !opens {
      return None;
    }
    if previous.None? || previous.value.dev != dev || previous.value.ino != ino || size < previous.value.offset {
      var end := RolloutCompleteEnd(seen, size);
      return Some((Observation(dev, ino, end, 0), 0));
    }
    var batch := DrainFrom(cl, seen, previous.value.offset);
    return match batch case Broken => None case Done(end, n) => Some((previous.value.(offset := end), n));
  }

  // ---- the backward searches ----

  /** The last newline in `s[from..to]`. */
  method LastNewline(s: Bytes, from: nat, to: nat) returns (i: Option<nat>)
    requires from <= to <= |s|
    ensures i.Some? ==> from <= i.value < to && s[i.value] == NL && forall k :: i.value < k < to ==> s[k] != NL
    ensures i.None? ==> forall k :: from <= k < to ==> s[k] != NL
  {
    var j := to;
    while j > from
      invariant from <= j <= to
      invariant forall k :: j <= k < to ==> s[k] != NL
    {
      j := j - 1;
      if s[j] == NL {
        return Some(j);
      }
    }
    return None;
  }

  /** The daemon's search reads whatever is left of the captured size, and answers 0 when there
      is no complete line. */
  method RolloutCompleteEnd(s: Bytes, size: nat) returns (end: nat)
    ensures end == CompleteEnd(s, Clip(s, size))
  {
    ghost var limit := Clip(s, size);
    var e := size;
    while e > 0
      invariant 0 <= e <= size
      invariant forall k :: e <= k < limit ==> s[k] != NL
    {
      var start := if e < CHUNK then 0 else e - CHUNK;
      var stop := if e < |s| then e else |s|;
      if start < stop {
        var i := LastNewline(s, start, stop);
        if i.Some? {
          CompleteEndUnique(s, limit, i.value + 1);
          return i.value + 1;
        }
      }
      e := start;
    }
    CompleteEndUnique(s, limit, 0);
    return 0;
  }

  /** The transcript search refuses a file shorter than its captured size, and a file without a
      complete line. */
  method CompleteTranscriptOffset(s: Bytes, size: nat) returns (end: Option<nat>)
    ensures end == if size > |s| || CompleteEnd(s, size) == 0 then None else Some(CompleteEnd(s, size))
  {
    var e := size;
    if e > 0 && e > |s| {
      return None;
    }
    while e > 0
      invariant 0 <= e <= size <= |s|
      invariant forall k :: e <= k < size ==> s[k] != NL
    {
      var start := if e < CHUNK then 0 else e - CHUNK;
      var i := LastNewline(s, start, e);
      if i.Some? {
        CompleteEndUnique(s, size, i.value + 1);
        return Some(i.value + 1);
      }
      e := start;
    }
    CompleteEndUnique(s, size, 0);
    return None;
  }
}
