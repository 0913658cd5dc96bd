/** The stop hook of `codexstophook.go`: polls of an inbox that grows meanwhile, with a cursor
    that may fail to be written, and the merge of several inboxes by timestamp. */
module StopHook {
  import opened Bytes
  import opened CursorText
  import opened Wrappers

  /** A rendered frame with the timestamp pulled off its line. */
  datatype TimedFrame = TimedFrame(ts: Bytes, frame: Bytes)

  /** `frameKind`, `core.LocalEmit` and `lineTS`, which look at one line each. */
  datatype Rendering = Rendering(presence: Bytes -> bool, emit: Bytes -> Option<Bytes>, ts: Bytes -> Bytes)

  /** The frames of a list of lines: chat only, and only what renders. */
  function FramesOf(r: Rendering, lines: seq<Bytes>): seq<TimedFrame> {
    if lines == [] then []
    else
      var line := lines[0];
      (if !r.presence(line) && r.emit(line).Some? then [TimedFrame(r.ts(line), r.emit(line).value)] else [])
      + FramesOf(r, lines[1..])
  }

  lemma {:induction false} FramesConcat(r: Rendering, a: seq<Bytes>, b: seq<Bytes>)
    ensures FramesOf(r, a + b) == FramesOf(r, a) + FramesOf(r, b)
  {
    if a == [] {
      assert a + b == b;
    } else {
      assert (a + b)[1..] == a[1..] + b;
      FramesConcat(r, a[1..], b);
    }
  }

  /** A line of presence, or one that does not render, gives no frame; any other line gives one,
      with its own timestamp. With `FramesConcat`, this says what the frames of any lines are. */
  lemma FrameOfLine(r: Rendering, line: Bytes)
    ensures FramesOf(r, [line]) ==
            if r.presence(line) then []
            else match r.emit(line)
              case None => []
              case Some(frame) => [TimedFrame(r.ts(line), frame)]
  {
    assert [line][1..] == [];
  }

  // ---- one poll ----

  /** An inbox can never reach the size that an offset could not express. */
  type Content = s: Bytes | |s| <= MAX_INT64

  datatype Identity = Identity(dev: nat, ino: nat) {
    predicate Valid() {
      dev <= MAX_UINT64 && ino <= MAX_UINT64
    }
  }

  /** The bytes of `.stop-cursor`, `None` when absent or unreadable. */
  type CursorFile = Option<string>

  /** Where a poll starts to read an inbox that was `size` bytes long when it was examined. */
  function StartOf(id: Identity, size: nat, cursor: CursorFile): (start: nat)
    ensures start <= size
  {
    var p := if cursor.Some? then Parse(cursor.value) else None;
    if p.Some? && p.value.dev == id.dev && p.value.ino == id.ino && p.value.off <= size then p.value.off else 0
  }

  /** A poll resumes where the cursor of the same file says, if the file is still that long, and
      at byte 0 without a cursor, behind another file's, and behind a longer one. */
  lemma StartOfExactly(id: Identity, size: nat, p: Position, text: string)
    requires p.Valid()
    ensures StartOf(id, size, Some(Print(p))) == if id == Identity(p.dev, p.ino) && size >= p.off then p.off else 0
    ensures StartOf(id, size, None) == 0
    ensures Parse(text).None? ==> StartOf(id, size, Some(text)) == 0
  {
    RoundTrip(p);
    hide Parse, Print;
  }

  function PollFrames(r: Rendering, id: Identity, content: Content, size: nat, cursor: CursorFile): seq<TimedFrame>
    requires size <= |content|
  {
    FramesOf(r, Lines(content, StartOf(id, size, cursor), |content|))
  }

  function PollCursor(id: Identity, content: Content, size: nat, cursor: CursorFile, writes: bool): CursorFile {
    var end := CompleteEnd(content, |content|);
    if end > StartOf(id, size, cursor) && writes then Some(Print(Position(id.dev, id.ino, end))) else cursor
  }

  /** The read loop: what the lines from `start` on render to, and where the last one ends. */
  method ReadLines(r: Rendering, s: Bytes, start: nat) returns (frames: seq<TimedFrame>, consumed: nat)
    requires start <= |s|
    ensures frames == FramesOf(r, Lines(s, start, |s|))
    ensures consumed == if CompleteEnd(s, |s|) > start then CompleteEnd(s, |s|) else start
  {
    hide FramesOf, CompleteEnd, Lines;
    consumed := start;
    frames := [];
    while true
      invariant start <= consumed <= |s|
      invariant FramesOf(r, Lines(s, start, |s|)) == frames + FramesOf(r, Lines(s, consumed, |s|))
      invariant consumed == start || Boundary(s, consumed)
      decreases |s| - consumed
    {
      var e := NextNewline(s, consumed);
      if e == |s| {
        LastLine(r, s, start, consumed);
        return;
      }
      FramesTurn(r, s, consumed);
      var line := s[consumed..e + 1];
      consumed := e + 1;
      if !r.presence(line) {
        var frame := r.emit(line);
        if frame.Some? {
          frames := frames + [TimedFrame(r.ts(line), frame.value)];
        }
      }
    }
  }

  class Inbox {
    var content: Content
    var cursor: CursorFile
    const id: Identity

    constructor (id: Identity, content: Content, cursor: CursorFile)
      ensures this.id == id && this.content == content && this.cursor == cursor
    {
      this.id, this.content, this.cursor := id, content, cursor;
    }

    /** `readNewInboxFrames`: the frames of every complete line from the cursor on, and the
        cursor moved behind them if it can be written. The inbox was `size` bytes long when it
        was examined and may have grown since. */
    method ReadNewFrames(r: Rendering, size: nat, writes: bool) returns (frames: seq<TimedFrame>)
      requires size <= |content|
      modifies this`cursor
      ensures frames == PollFrames(r, id, content, size, old(cursor))
      ensures cursor == PollCursor(id, content, size, old(cursor), writes)
    {
      hide Parse, Print, FramesOf, CompleteEnd, Lines;
      var start := 0;
      var p := if cursor.Some? then Parse(cursor.value) else None;
      if p.Some? && p.value.dev == id.dev && p.value.ino == id.ino && p.value.off <= size {
        start := p.value.off;
      }
      var consumed;
      frames, consumed := ReadLines(r, content, start);
      if consumed > start && writes {
        cursor := Some(Print(Position(id.dev, id.ino, consumed)));
      }
    }
  }

  lemma FramesTurn(r: Rendering, s: Bytes, o: nat)
    requires o <= |s| && NextNewline(s, o) < |s|
    ensures var e := NextNewline(s, o) + 1;
            var line := s[o..e];
            FramesOf(r, Lines(s, o, |s|)) ==
            (if !r.presence(line) && r.emit(line).Some? then [TimedFrame(r.ts(line), r.emit(line).value)] else [])
            + FramesOf(r, Lines(s, e, |s|))
  {
    var e := NextNewline(s, o) + 1;
    assert Lines(s, o, |s|)[1..] == Lines(s, e, |s|);
  }

  /** Behind the last newline, the end of the complete lines has been reached. */
  lemma LastLine(r: Rendering, s: Bytes, start: nat, o: nat)
    requires start <= o <= |s| && NextNewline(s, o) == |s| && (o == start || Boundary(s, o))
    ensures FramesOf(r, Lines(s, o, |s|)) == []
    ensures o == if CompleteEnd(s, |s|) > start then CompleteEnd(s, |s|) else start
  {
    if o > start {
      CompleteEndUnique(s, |s|, o);
    }
  }

  // ---- runs of appends and polls ----

  /** One inbox with the frames all polls so far returned. `reached` is the end of the lines
      that some poll has returned; `failed` says that a cursor write has failed. */
  datatype System = System(content: Content, cursor: CursorFile, shown: seq<TimedFrame>, reached: nat, failed: bool)

  /** `grown` arrives between the examination of the inbox and the reading of it. */
  datatype Event = Append(more: Bytes) | Poll(grown: Bytes, writes: bool)

  predicate Fits(s: System, e: Event) {
    |s.content| + (match e case Append(more) => |more| case Poll(grown, _) => |grown|) <= MAX_INT64
  }

  function Step(r: Rendering, id: Identity, s: System, e: Event): System {
    if !Fits(s, e) then s
    else match e
      case Append(more) => s.(content := s.content + more)
      case Poll(grown, writes) =>
        var content: Content := s.content + grown;
        System(
          content, PollCursor(id, content, |s.content|, s.cursor, writes),
          s.shown + PollFrames(r, id, content, |s.content|, s.cursor),
          if CompleteEnd(content, |content|) > s.reached then CompleteEnd(content, |content|) else s.reached,
          s.failed || !writes)
  }

  function Run(r: Rendering, id: Identity, s: System, es: seq<Event>): System
    decreases |es|
  {
    if es == [] then s else Run(r, id, Step(r, id, s, es[0]), es[1..])
  }

  /** `a` is what is left of `b` when some of its elements are crossed out. */
  predicate Subsequence<T(==)>(a: seq<T>, b: seq<T>) {
    a == [] || (b != [] && ((a[0] == b[0] && Subsequence(a[1..], b[1..])) || Subsequence(a, b[1..])))
  }

  lemma {:induction false} SuffixIsSubsequence<T>(x: seq<T>, c: seq<T>)
    ensures Subsequence(c, x + c)
  {
    if x != [] {
      assert (x + c)[1..] == x[1..] + c;
      SuffixIsSubsequence(x[1..], c);
    } else {
      assert x + c == c;
      Reflexive(c);
    }
  }

  lemma {:induction false} Reflexive<T>(c: seq<T>)
    ensures Subsequence(c, c)
  {
    if c != [] {
      Reflexive(c[1..]);
    }
  }

  lemma {:induction false} SubsequenceGrows<T>(a: seq<T>, b: seq<T>, x: seq<T>, c: seq<T>)
    requires Subsequence(a, b)
    ensures Subsequence(a + c, b + x + c)
    decreases |b|
  {
    if a == [] {
      assert a + c == c;
      SuffixIsSubsequence(b + x, c);
    } else {
      assert (b + x + c)[1..] == b[1..] + x + c;
      if a[0] == b[0] && Subsequence(a[1..], b[1..]) {
        assert (a + c)[1..] == a[1..] + c;
        SubsequenceGrows(a[1..], b[1..], x, c);
      } else {
        SubsequenceGrows(a, b[1..], x, c);
      }
    }
  }

  /** The frames of the lines up to `stop`. */
  function FramesTo(r: Rendering, s: Bytes, from: nat, stop: nat): seq<TimedFrame>
    requires from <= stop <= |s|
  {
    FramesOf(r, Lines(s, from, stop))
  }

  predicate CursorSits(id: Identity, s: System) {
    s.cursor.None? || exists off: nat ::
      off <= s.reached && Boundary(s.content, off) && s.cursor.value == Print(Position(id.dev, id.ino, off))
  }

  /** The cursor is on a line boundary that was reached; every line that was reached has been
      returned, in order; and without a failed write it was returned once. */
  ghost predicate Inv(r: Rendering, id: Identity, s: System) {
    && id.Valid()
    && s.reached <= |s.content| && Boundary(s.content, s.reached)
    && CursorSits(id, s)
    && Subsequence(FramesTo(r, s.content, 0, s.reached), s.shown)
    && (!s.failed ==> s.shown == FramesTo(r, s.content, 0, s.reached) && StartOf(id, |s.content|, s.cursor) == s.reached)
  }

  lemma StartSits(id: Identity, s: System, size: nat)
    requires id.Valid() && CursorSits(id, s) && s.reached <= |s.content| && s.reached <= size
    ensures var p := StartOf(id, size, s.cursor);
            p <= s.reached && Boundary(s.content, p) && p == StartOf(id, |s.content|, s.cursor)
  {
    hide Parse, Print;
    if s.cursor.Some? {
      var off: nat :| off <= s.reached && Boundary(s.content, off) && s.cursor.value == Print(Position(id.dev, id.ino, off));
      RoundTrip(Position(id.dev, id.ino, off));
    }
  }

  lemma AppendKeepsInv(r: Rendering, id: Identity, s: System, more: Bytes)
    requires Inv(r, id, s) && Fits(s, Append(more))
    ensures Inv(r, id, s.(content := s.content + more))
  {
    hide Print, Subsequence, StartOf, FramesOf;
    var t := s.(content := s.content + more);
    LinesAppend(s.content, more, 0, s.reached);
    assert CursorSits(id, t);
    StartSits(id, t, |s.content|);
    StartSits(id, t, |t.content|);
  }

  /** A poll returns again what it had returned without recording it, and then what is new. */
  lemma PollShows(r: Rendering, s: Bytes, start: nat, reached: nat)
    requires start <= reached <= |s| && Boundary(s, start) && Boundary(s, reached)
    ensures var end := CompleteEnd(s, |s|);
            && reached <= end
            && FramesOf(r, Lines(s, start, |s|)) == FramesTo(r, s, start, reached) + FramesTo(r, s, reached, end)
            && FramesTo(r, s, 0, end) == FramesTo(r, s, 0, reached) + FramesTo(r, s, reached, end)
  {
    hide FramesOf;
    var end := CompleteEnd(s, |s|);
    assert reached <= end;
    LinesReachCompleteEnd(s, start, |s|);
    LinesSplit(s, start, reached, end);
    LinesSplit(s, 0, reached, end);
    FramesConcat(r, Lines(s, start, reached), Lines(s, reached, end));
    FramesConcat(r, Lines(s, 0, reached), Lines(s, reached, end));
  }

  /** The cursor behind a poll. */
  lemma PollMoves(id: Identity, s: System, size: nat, writes: bool)
    requires id.Valid() && CursorSits(id, s) && s.reached <= size <= |s.content| && s.reached <= CompleteEnd(s.content, |s.content|)
    ensures var end := CompleteEnd(s.content, |s.content|);
            var t := s.(cursor := PollCursor(id, s.content, size, s.cursor, writes), reached := end);
            CursorSits(id, t) && (writes ==> StartOf(id, |s.content|, t.cursor) == end)
  {
    hide Print, Parse;
    var end := CompleteEnd(s.content, |s.content|);
    var t := s.(cursor := PollCursor(id, s.content, size, s.cursor, writes), reached := end);
    StartSits(id, s, size);
    if end > StartOf(id, size, s.cursor) && writes {
      RoundTrip(Position(id.dev, id.ino, end));
      assert t.cursor.value == Print(Position(id.dev, id.ino, end));
    }
  }

  lemma PollKeepsInv(r: Rendering, id: Identity, s: System, size: nat, writes: bool)
    requires Inv(r, id, s) && s.reached <= size <= |s.content|
    ensures var end := CompleteEnd(s.content, |s.content|);
            && s.reached <= end
            && Inv(r, id, System(
                     s.content, PollCursor(id, s.content, size, s.cursor, writes),
                     s.shown + PollFrames(r, id, s.content, size, s.cursor), end, s.failed || !writes))
  {
    hide Print, Subsequence, StartOf, FramesOf, Parse, CompleteEnd, FramesTo, PollCursor;
    var start := StartOf(id, size, s.cursor);
    StartSits(id, s, size);
    PollShows(r, s.content, start, s.reached);
    PollMoves(id, s, size, writes);
    var end := CompleteEnd(s.content, |s.content|);
    var again, added := FramesTo(r, s.content, start, s.reached), FramesTo(r, s.content, s.reached, end);
    SubsequenceGrows(FramesTo(r, s.content, 0, s.reached), s.shown, again, added);
    assert s.shown + (again + added) == s.shown + again + added;
    if !s.failed {
      assert again == [] by { NothingBetween(r, s.content, s.reached); }
      assert s.shown + again + added == s.shown + added;
    }
  }

  lemma NothingBetween(r: Rendering, s: Bytes, k: nat)
    requires k <= |s|
    ensures FramesTo(r, s, k, k) == []
  {
  }

  lemma StepKeepsInv(r: Rendering, id: Identity, s: System, e: Event)
    requires Inv(r, id, s)
    ensures Inv(r, id, Step(r, id, s, e))
  {
    hide PollCursor, PollFrames, Subsequence, FramesTo, Inv, CompleteEnd;
    if Fits(s, e) {
      assert s.reached <= |s.content| by { ReachedIsInside(r, id, s); }
      match e {
        case Append(more) => AppendKeepsInv(r, id, s, more);
        case Poll(grown, writes) =>
          AppendKeepsInv(r, id, s, grown);
          PollKeepsInv(r, id, s.(content := s.content + grown), |s.content|, writes);
      }
    }
  }

  lemma ReachedIsInside(r: Rendering, id: Identity, s: System)
    requires Inv(r, id, s)
    ensures s.reached <= |s.content|
  {
  }

  lemma {:induction false} RunKeepsInv(r: Rendering, id: Identity, s: System, es: seq<Event>)
    requires Inv(r, id, s)
    ensures Inv(r, id, Run(r, id, s, es))
    decreases |es|
  {
    hide Inv, Step;
    if es != [] {
      StepKeepsInv(r, id, s, es[0]);
      RunKeepsInv(r, id, Step(r, id, s, es[0]), es[1..]);
    }
  }

  /** A joined inbox that no stop hook has polled yet. */
  function Joined(content: Content): System {
    System(content, None, [], 0, false)
  }

  lemma JoinedInv(r: Rendering, id: Identity, content: Content)
    requires id.Valid()
    ensures Inv(r, id, Joined(content))
  {
  }

  // ---- main results ----

  /** Behind any run that ends with a poll: the frames of all complete lines have been returned,
      in order, at least once; each exactly once if every cursor write succeeded; and the cursor
      is on a line boundary. */
  lemma EveryLineIsReturned(r: Rendering, id: Identity, content: Content, es: seq<Event>, grown: Bytes, writes: bool)
    requires id.Valid()
    requires Fits(Run(r, id, Joined(content), es), Poll(grown, writes))
    ensures var t := Step(r, id, Run(r, id, Joined(content), es), Poll(grown, writes));
            var all := FramesTo(r, t.content, 0, CompleteEnd(t.content, |t.content|));
            && Subsequence(all, t.shown)
            && (!t.failed ==> t.shown == all)
            && CursorSits(id, t)
  {
    hide Step, Fits, CompleteEnd, PollCursor, PollFrames;
    JoinedInv(r, id, content);
    RunKeepsInv(r, id, Joined(content), es);
    var s := Run(r, id, Joined(content), es);
    StepKeepsInv(r, id, s, Poll(grown, writes));
    PollReachesEnd(r, id, s, grown, writes);
  }

  lemma PollReachesEnd(r: Rendering, id: Identity, s: System, grown: Bytes, writes: bool)
    requires Inv(r, id, s) && Fits(s, Poll(grown, writes))
    ensures var t := Step(r, id, s, Poll(grown, writes)); t.reached == CompleteEnd(t.content, |t.content|)
  {
    hide PollCursor, PollFrames, Subsequence, FramesTo;
    var content := s.content + grown;
    assert Boundary(content, s.reached);
    ReachedWithinComplete(content, s.reached);
  }

  lemma ReachedWithinComplete(s: Bytes, k: nat)
    requires k <= |s| && Boundary(s, k)
    ensures k <= CompleteEnd(s, |s|)
  {
  }

  lemma FailedMeansAFailedWrite(r: Rendering, id: Identity, s: System, es: seq<Event>)
    requires !s.failed && forall e <- es :: e.Poll? ==> e.writes
    ensures !Run(r, id, s, es).failed
    decreases |es|
  {
    if es != [] {
      assert es[0] in es;
      FailedMeansAFailedWrite(r, id, Step(r, id, s, es[0]), es[1..]);
    }
  }

  /** While every cursor write succeeds, at every moment of a run: what was returned is exactly
      the frames of the lines before the cursor. */
  lemma ExactlyOnce(r: Rendering, id: Identity, content: Content, es: seq<Event>)
    requires id.Valid() && forall e <- es :: e.Poll? ==> e.writes
    ensures var t := Run(r, id, Joined(content), es);
            var p := StartOf(id, |t.content|, t.cursor);
            Boundary(t.content, p) && t.shown == FramesTo(r, t.content, 0, p)
  {
    hide Run, StartOf, FramesTo;
    JoinedInv(r, id, content);
    RunKeepsInv(r, id, Joined(content), es);
    FailedMeansAFailedWrite(r, id, Joined(content), es);
  }
}
