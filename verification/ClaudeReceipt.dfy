/** Finding the receipt of a submitted Claude message in an append-only transcript by bounded,
    resumable scans: `observeClaudeReceipt` and `claudeQueue.lookupMessage`, refined against
    one unbounded scan. */
module ClaudeReceipt {
  import opened Bytes
  import opened Uuid
  import opened Wrappers

  const MAX_SCAN: nat := 0x100_0000

  datatype Attachment =
    Attachment(kind: string, commandMode: string, sourceUUID: string, isMeta: bool, originKind: string)

  datatype Row =
    Row(kind: string, sessionID: string, uuid: string, isSidechain: Option<bool>, attachment: Attachment)

  /** JSON decoding of one complete row without its newline; `None` is a malformed row. */
  type RowParser = Bytes -> Option<Row>

  datatype Query = Query(parse: RowParser, sessionID: string, uuid: string)

  predicate IsPeerAttachment(row: Row, uuid: string) {
    && row.kind == "attachment" && row.isSidechain == Some(false)
    && row.attachment.kind == "queued_command" && row.attachment.sourceUUID == uuid
    && row.attachment.commandMode == "prompt" && row.attachment.isMeta && row.attachment.originKind == "peer"
  }

  predicate IsReceipt(row: Row, sessionID: string, uuid: string) {
    row.sessionID == sessionID && ((row.kind == "user" && row.uuid == uuid) || IsPeerAttachment(row, uuid))
  }

  // ---- the reference: one scan without a budget ----

  /** `Hit` ends after the matching row, `Miss` after the last complete row, `Bad` starts at a
      malformed row that comes before any match. */
  datatype Scan = Hit(end: nat) | Miss(end: nat) | Bad(at: nat)

  /** The scan of the rows from `from` that end by `stop`; `stop == |s|` is the unbounded scan. */
  function ScanAll(q: Query, s: Bytes, from: nat, stop: nat): (r: Scan)
    requires from <= stop <= |s|
    ensures r.Hit? ==> from < r.end <= stop
    ensures r.Miss? ==> from <= r.end <= stop
    decreases stop - from
  {
    var e := NextNewline(s, from);
    if e >= stop then Miss(from)
    else match q.parse(s[from..e])
      case None => Bad(from)
      case Some(row) =>
        if IsReceipt(row, q.sessionID, q.uuid) then Hit(e + 1) else ScanAll(q, s, e + 1, stop)
  }

  predicate Matches(q: Query, line: Bytes) {
    |line| > 0 && var row := q.parse(line[..|line| - 1]); row.Some? && IsReceipt(row.value, q.sessionID, q.uuid)
  }

  predicate Parses(q: Query, line: Bytes) {
    |line| > 0 && q.parse(line[..|line| - 1]).Some?
  }

  /** The index of the first complete line that matches, with every line before it well formed. */
  predicate FirstMatch(q: Query, lines: seq<Bytes>, i: nat) {
    i < |lines| && Matches(q, lines[i]) && forall j :: 0 <= j < i ==> Parses(q, lines[j]) && !Matches(q, lines[j])
  }

  predicate NoMatch(q: Query, lines: seq<Bytes>) {
    forall j :: 0 <= j < |lines| ==> Parses(q, lines[j]) && !Matches(q, lines[j])
  }

  lemma FirstMatchShift(q: Query, line: Bytes, rest: seq<Bytes>, i: nat)
    requires Parses(q, line) && !Matches(q, line)
    ensures FirstMatch(q, rest, i) <==> FirstMatch(q, [line] + rest, i + 1)
    ensures i < |rest| ==> |Concat(([line] + rest)[..i + 2])| == |line| + |Concat(rest[..i + 1])|
  {
    hide Parses, Matches;
    var lines := [line] + rest;
    assert forall j :: 0 <= j < |rest| ==> rest[j] == lines[j + 1];
    assert forall j :: 0 <= j < |lines| ==> lines[j] == if j == 0 then line else rest[j - 1];
    if i < |rest| {
      ConcatPrefix(line, rest, i + 1);
    }
  }

  lemma ConcatPrefix(line: Bytes, rest: seq<Bytes>, n: nat)
    requires n <= |rest|
    ensures Concat(([line] + rest)[..n + 1]) == line + Concat(rest[..n])
  {
    assert ([line] + rest)[..n + 1] == [line] + rest[..n];
    ConcatCons(line, rest[..n]);
  }

  /** One row of the scan and one line of the list. */
  lemma ScanTurn(q: Query, s: Bytes, from: nat, stop: nat)
    requires from <= stop <= |s| && NextNewline(s, from) < stop
    ensures var e := NextNewline(s, from) + 1;
            var line := s[from..e];
            && Lines(s, from, stop) == [line] + Lines(s, e, stop)
            && (!Parses(q, line) ==> ScanAll(q, s, from, stop) == Bad(from))
            && (Matches(q, line) ==> ScanAll(q, s, from, stop) == Hit(e))
            && (Parses(q, line) && !Matches(q, line) ==> ScanAll(q, s, from, stop) == ScanAll(q, s, e, stop))
  {
    var e := NextNewline(s, from);
    assert s[from..e + 1][..e - from] == s[from..e];
  }

  /** The reference scan, told by the list of complete lines: it misses exactly when every line
      is well formed and none matches. */
  lemma {:induction false} ScanMissMeaning(q: Query, s: Bytes, from: nat, stop: nat)
    requires from <= stop <= |s|
    ensures ScanAll(q, s, from, stop).Miss? <==> NoMatch(q, Lines(s, from, stop))
    decreases stop - from
  {
    var e := NextNewline(s, from) + 1;
    if e <= stop {
      ScanTurn(q, s, from, stop);
      ScanMissMeaning(q, s, e, stop);
      NoMatchCons(q, s[from..e], Lines(s, e, stop));
    }
  }

  lemma NoMatchCons(q: Query, line: Bytes, rest: seq<Bytes>)
    ensures NoMatch(q, [line] + rest) <==> Parses(q, line) && !Matches(q, line) && NoMatch(q, rest)
  {
    var lines := [line] + rest;
    assert lines[0] == line;
    assert forall j :: 0 <= j < |rest| ==> rest[j] == lines[j + 1];
  }

  /** It hits exactly at the end of the first matching line. */
  lemma {:induction false} ScanHitMeaning(q: Query, s: Bytes, from: nat, stop: nat, i: nat)
    requires from <= stop <= |s| && FirstMatch(q, Lines(s, from, stop), i)
    ensures ScanAll(q, s, from, stop) == Hit(from + |Concat(Lines(s, from, stop)[..i + 1])|)
    decreases stop - from
  {
    var lines := Lines(s, from, stop);
    var e := NextNewline(s, from) + 1;
    ScanTurn(q, s, from, stop);
    var line, rest := s[from..e], Lines(s, e, stop);
    assert lines[0] == line;
    if i == 0 {
      assert lines[..1] == [line] && Concat([line]) == line + Concat([]);
    } else {
      FirstMatchShift(q, line, rest, i - 1);
      ScanHitMeaning(q, s, e, stop, i - 1);
      ConcatPrefix(line, rest, i);
    }
  }

  lemma {:induction false} ScanHitExists(q: Query, s: Bytes, from: nat, stop: nat) returns (i: nat)
    requires from <= stop <= |s| && ScanAll(q, s, from, stop).Hit?
    ensures FirstMatch(q, Lines(s, from, stop), i)
    decreases stop - from
  {
    var e := NextNewline(s, from) + 1;
    ScanTurn(q, s, from, stop);
    if Matches(q, s[from..e]) {
      i := 0;
    } else {
      var j := ScanHitExists(q, s, e, stop);
      FirstMatchShift(q, s[from..e], Lines(s, e, stop), j);
      i := j + 1;
    }
  }

  /** A scan without a match ends at a line boundary, at the last one it could see, and needs no
      byte past it. */
  lemma {:induction false} ScanMissEnd(q: Query, s: Bytes, from: nat, a: nat)
    requires from <= a <= |s| && ScanAll(q, s, from, a).Miss?
    ensures var mid := ScanAll(q, s, from, a).end;
            && (Boundary(s, from) ==> Boundary(s, mid))
            && NextNewline(s, mid) >= a
            && ScanAll(q, s, from, mid) == Miss(mid)
    decreases a - from
  {
    var e := NextNewline(s, from);
    if e < a {
      ScanMissEnd(q, s, e + 1, a);
    }
  }

  /** Scanning on from where a scan without a match ended is scanning again from the start. */
  lemma {:induction false} ScanResume(q: Query, s: Bytes, from: nat, a: nat, stop: nat)
    requires from <= a <= stop <= |s| && ScanAll(q, s, from, a).Miss?
    ensures ScanAll(q, s, from, stop) == ScanAll(q, s, ScanAll(q, s, from, a).end, stop)
    decreases a - from
  {
    var e := NextNewline(s, from);
    if e < a {
      ScanResume(q, s, e + 1, a, stop);
    }
  }

  /** What a scan decides about a stretch stays decided further on. */
  lemma {:induction false} ScanStable(q: Query, s: Bytes, from: nat, a: nat, stop: nat)
    requires from <= a <= stop <= |s| && !ScanAll(q, s, from, a).Miss?
    ensures ScanAll(q, s, from, stop) == ScanAll(q, s, from, a)
    decreases a - from
  {
    var e := NextNewline(s, from);
    var row := q.parse(s[from..e]);
    if row.Some? && !IsReceipt(row.value, q.sessionID, q.uuid) {
      ScanStable(q, s, e + 1, a, stop);
    }
  }

  /** Appending to the file changes no scan of what was there. */
  lemma {:induction false} ScanAppend(q: Query, s: Bytes, more: Bytes, from: nat, stop: nat)
    requires from <= stop <= |s|
    ensures ScanAll(q, s + more, from, stop) == ScanAll(q, s, from, stop)
    decreases stop - from
  {
    NextNewlineAppend(s, more, from);
    var e := NextNewline(s, from);
    if e < stop {
      assert (s + more)[from..e] == s[from..e];
      ScanAppend(q, s, more, e + 1, stop);
    }
  }

  // ---- observeClaudeReceipt ----

  datatype Fault = InvalidInput | Unavailable | Cancelled | Malformed | RowLimit

  datatype Receipt = Receipt(observed: bool, nextOffset: nat, budgetExhausted: bool)

  function Min(a: nat, b: nat): nat {
    if a < b then a else b
  }

  /** The end of the section that one bounded scan may read. */
  function Window(s: Bytes, offset: nat, maxBytes: nat): nat
    requires offset <= |s|
  {
    offset + Min(maxBytes, |s| - offset)
  }

  /** One bounded scan in terms of the reference scan over the section it may read. A rest that
      fills the scanner's buffer without a newline is a row over the limit. */
  function Bounded(q: Query, s: Bytes, offset: nat, maxBytes: nat): Result<Receipt, Fault>
    requires offset <= |s|
  {
    var w := Window(s, offset, maxBytes);
    match ScanAll(q, s, offset, w)
    case Hit(e) => Success(Receipt(true, e, false))
    case Miss(e) => if w - e >= MAX_SCAN then Failure(RowLimit) else Success(Receipt(false, e, maxBytes < |s| - offset))
    case Bad(_) => Failure(Malformed)
  }

  predicate ValidInput(q: Query, offset: int, maxBytes: int) {
    UuidLike(q.sessionID) && UuidLike(q.uuid) && offset >= 0 && 0 < maxBytes <= MAX_SCAN
  }

  /** The scan loop. `checks` is how many checks of the context succeed before it is found
      cancelled; cancellation may turn any answer into an error, and nothing else. */
  method ObserveReceipt(q: Query, s: Bytes, offset: int, maxBytes: int, checks: nat)
    returns (r: Result<Receipt, Fault>)
    ensures !ValidInput(q, offset, maxBytes) ==> r == Failure(InvalidInput)
    ensures ValidInput(q, offset, maxBytes) && offset > |s| ==> r in {Failure(Unavailable), Failure(Cancelled)}
    ensures ValidInput(q, offset, maxBytes) && offset <= |s| ==>
              r == Failure(Cancelled) || r == Bounded(q, s, offset, maxBytes)
    ensures checks > |s| + 2 ==> r != Failure(Cancelled)
  {
    hide UuidLike, IsReceipt, NextNewline;
    if !UuidLike(q.sessionID) || !UuidLike(q.uuid) || offset < 0 || maxBytes <= 0 || maxBytes > MAX_SCAN {
      return Failure(InvalidInput);
    }
    if checks == 0 {
      return Failure(Cancelled);
    }
    if |s| < offset {
      return Failure(Unavailable);
    }
    var w := Window(s, offset, maxBytes);
    var next: nat := offset;
    var left := checks - 1;
    while true
      invariant offset <= next <= w
      invariant ScanAll(q, s, offset, w) == ScanAll(q, s, next, w)
      invariant checks > |s| + 2 ==> left > |s| + 1 - next
      decreases w - next
    {
      var e := NextNewline(s, next);
      if e >= w {
        break;
      }
      if left == 0 {
        return Failure(Cancelled);
      }
      left := left - 1;
      var row := q.parse(s[next..e]);
      if row.None? {
        return Failure(Malformed);
      }
      next := e + 1;
      if IsReceipt(row.value, q.sessionID, q.uuid) {
        return Success(Receipt(true, next, false));
      }
    }
    if w - next >= MAX_SCAN {
      return Failure(RowLimit);
    }
    if left == 0 {
      return Failure(Cancelled);
    }
    return Success(Receipt(false, next, maxBytes < |s| - offset));
  }

  // ---- claudeQueue.lookupMessage ----

  datatype Config = Config(
    parse: RowParser, digest: string -> Digest, sessionID: string, receiptOffset: nat, scanBytes: nat)
  {
    predicate Valid() {
      0 < scanBytes <= MAX_SCAN
    }

    function UUID(attempt: string): string {
      MessageUUID(digest(attempt))
    }

    function For(attempt: string): Query {
      Query(parse, sessionID, UUID(attempt))
    }
  }

  /** The two fields that survive between calls. */
  datatype Cursor = Cursor(attempt: string, offset: nat)

  /** One call as its caller and its surroundings make it: `bound` is the identity check of
      `inspect` and of the second open, `cancelled` a context that ends before the answer. */
  datatype Call = Call(threadID: string, attempt: string, bound: bool, cancelled: bool)

  datatype Lookup = Received(itemID: string, receiptOffset: nat) | NotFound | Failed(why: Fault)

  predicate Inspects(cfg: Config, call: Call, s: Bytes) {
    call.bound && call.threadID == cfg.sessionID && UuidLike(cfg.sessionID) && cfg.receiptOffset <= |s|
  }

  function Start(cfg: Config, c: Cursor, attempt: string): Cursor {
    if c.attempt != attempt then Cursor(attempt, cfg.receiptOffset) else c
  }

  function LookupStep(cfg: Config, c: Cursor, call: Call, s: Bytes): (Cursor, Lookup) {
    if call.attempt == "" then (c, Failed(InvalidInput))
    else if !Inspects(cfg, call, s) then (c, Failed(Unavailable))
    else
      var start := Start(cfg, c, call.attempt);
      if call.cancelled then (start, Failed(Cancelled))
      else if |s| < start.offset then (start, Failed(Unavailable))
      else match Bounded(cfg.For(call.attempt), s, start.offset, cfg.scanBytes)
        case Failure(f) => (start, Failed(f))
        case Success(r) =>
          if r.observed then (start, Received(cfg.UUID(call.attempt), r.nextOffset))
          else if r.budgetExhausted && r.nextOffset == start.offset then (start, Failed(RowLimit))
          else (Cursor(call.attempt, r.nextOffset), NotFound)
  }

  class ClaudeQueue {
    const cfg: Config
    var scanAttempt: string
    var scanOffset: nat

    constructor (cfg: Config)
      requires cfg.Valid()
      ensures this.cfg == cfg && State() == Cursor("", 0)
    {
      this.cfg := cfg;
      scanAttempt, scanOffset := "", 0;
    }

    function State(): Cursor
      reads this
    {
      Cursor(scanAttempt, scanOffset)
    }

    method LookupMessage(call: Call, s: Bytes, checks: nat) returns (r: Lookup)
      requires cfg.Valid()
      modifies this
      ensures (State(), r) == LookupStep(cfg, old(State()), call.(cancelled := r == Failed(Cancelled)), s)
      ensures checks > |s| + 2 ==> r != Failed(Cancelled)
    {
      if call.attempt == "" {
        return Failed(InvalidInput);
      }
      if !Inspects(cfg, call, s) {
        return Failed(Unavailable);
      }
      if scanAttempt != call.attempt {
        scanAttempt, scanOffset := call.attempt, cfg.receiptOffset;
      }
      MessageUUIDIsUuidLike(cfg.digest(call.attempt));
      var observed := ObserveReceipt(cfg.For(call.attempt), s, scanOffset, cfg.scanBytes, checks);
      if observed.Failure? {
        return Failed(observed.error);
      }
      var found := observed.value;
      if found.observed {
        return Received(cfg.UUID(call.attempt), found.nextOffset);
      }
      if found.budgetExhausted && found.nextOffset == scanOffset {
        return Failed(RowLimit);
      }
      scanOffset := found.nextOffset;
      return NotFound;
    }
  }

  // ---- runs of appends and calls ----

  datatype Event = Append(more: Bytes) | Look(call: Call)

  function Run(cfg: Config, c: Cursor, s: Bytes, events: seq<Event>): (Cursor, Bytes)
    decreases |events|
  {
    if events == [] then (c, s)
    else match events[0]
      case Append(more) => Run(cfg, c, s + more, events[1..])
      case Look(call) => Run(cfg, LookupStep(cfg, c, call, s).0, s, events[1..])
  }

  /** The saved cursor never passes a matching row of its attempt and sits where the reference
      scan of the bytes before it stops. */
  predicate Inv(cfg: Config, c: Cursor, s: Bytes) {
    c.attempt != "" ==>
      && cfg.receiptOffset <= c.offset <= |s|
      && ScanAll(cfg.For(c.attempt), s, cfg.receiptOffset, c.offset) == Miss(c.offset)
  }

  lemma InvAppend(cfg: Config, c: Cursor, s: Bytes, more: Bytes)
    requires Inv(cfg, c, s)
    ensures Inv(cfg, c, s + more)
  {
    if c.attempt != "" {
      ScanAppend(cfg.For(c.attempt), s, more, cfg.receiptOffset, c.offset);
    }
  }

  predicate BoundedRefines(q: Query, s: Bytes, base: nat, offset: nat, w: nat, answer: Result<Receipt, Fault>)
    requires base <= offset <= w <= |s|
  {
    match answer
    case Success(found) =>
      if found.observed then ScanAll(q, s, base, |s|) == Hit(found.nextOffset) && ScanAll(q, s, base, w).Hit?
      else
        && offset <= found.nextOffset <= w
        && ScanAll(q, s, base, w) == Miss(found.nextOffset)
        && ScanAll(q, s, base, found.nextOffset) == Miss(found.nextOffset)
        && (Boundary(s, base) ==> Boundary(s, found.nextOffset))
        && found.budgetExhausted == (w < |s|)
    case Failure(Malformed) => ScanAll(q, s, base, |s|).Bad?
    case Failure(f) => f == RowLimit && offset + MAX_SCAN <= w && NextNewline(s, offset) >= w
  }

  /** One bounded scan against the unbounded one from `base`, when the scan from `base` to the
      offset had found nothing. */
  lemma BoundedRefinesScan(q: Query, s: Bytes, base: nat, offset: nat, budget: nat)
    requires base <= offset <= |s| && budget <= MAX_SCAN && ScanAll(q, s, base, offset) == Miss(offset)
    ensures var w := Window(s, offset, budget);
            BoundedRefines(q, s, base, offset, w, Bounded(q, s, offset, budget))
  {
    var w := Window(s, offset, budget);
    ScanResume(q, s, base, offset, w);
    if ScanAll(q, s, offset, w).Miss? {
      ScanMissEnd(q, s, base, w);
    } else {
      ScanStable(q, s, base, w, |s|);
    }
  }

  /** What a lookup that was not refused promises, against the unbounded scan from the receipt
      offset: a receipt is the scan's first match, a miss moves the cursor to where the scan of
      the covered bytes stops, and a miss cut short by the budget makes progress. */
  predicate Refines(cfg: Config, start: Cursor, s: Bytes, c': Cursor, r: Lookup) {
    && cfg.receiptOffset <= start.offset <= |s|
    && var q, w := cfg.For(start.attempt), Window(s, start.offset, cfg.scanBytes);
       match r
       case Received(id, e) =>
         ScanAll(q, s, cfg.receiptOffset, |s|) == Hit(e) && ScanAll(q, s, cfg.receiptOffset, w).Hit? && id == q.uuid
       case NotFound =>
         && start.offset <= c'.offset <= w
         && ScanAll(q, s, cfg.receiptOffset, w) == Miss(c'.offset)
         && ScanAll(q, s, cfg.receiptOffset, c'.offset) == Miss(c'.offset)
         && (Boundary(s, cfg.receiptOffset) ==> Boundary(s, c'.offset))
         && (w < |s| ==> start.offset < c'.offset)
       case Failed(Malformed) => ScanAll(q, s, cfg.receiptOffset, |s|).Bad?
       case Failed(RowLimit) => start.offset + cfg.scanBytes <= w && NextNewline(s, start.offset) >= w
       case Failed(_) => true
  }

  lemma NothingBefore(cfg: Config, c: Cursor, attempt: string, s: Bytes)
    requires Inv(cfg, c, s) && cfg.receiptOffset <= |s|
    ensures Inv(cfg, Start(cfg, c, attempt), s)
  {
  }

  lemma LookupRefinesScan(cfg: Config, c: Cursor, call: Call, s: Bytes)
    requires cfg.Valid() && Inv(cfg, c, s) && call.attempt != "" && Inspects(cfg, call, s)
    ensures var (c', r) := LookupStep(cfg, c, call, s);
            && Inv(cfg, c', s) && c'.attempt == call.attempt
            && Refines(cfg, Start(cfg, c, call.attempt), s, c', r)
            && (r.Failed? ==> c' == Start(cfg, c, call.attempt))
            && (r.Failed? && !call.cancelled ==> r.why in {Malformed, RowLimit})
  {
    var start := Start(cfg, c, call.attempt);
    hide Bounded, MessageUUID;
    NothingBefore(cfg, c, call.attempt, s);
    if !call.cancelled {
      var q, w := cfg.For(call.attempt), Window(s, start.offset, cfg.scanBytes);
      BoundedRefinesScan(q, s, cfg.receiptOffset, start.offset, cfg.scanBytes);
      if ScanAll(q, s, cfg.receiptOffset, w).Miss? {
        ScanMissEnd(q, s, cfg.receiptOffset, w);
      }
      hide ScanAll, IsReceipt;
    }
  }

  lemma {:induction false} RunInv(cfg: Config, c: Cursor, s: Bytes, events: seq<Event>)
    requires cfg.Valid() && Inv(cfg, c, s)
    ensures var (c', s') := Run(cfg, c, s, events); Inv(cfg, c', s') && s <= s'
    decreases |events|
  {
    if events != [] {
      match events[0]
      case Append(more) =>
        InvAppend(cfg, c, s, more);
        RunInv(cfg, c, s + more, events[1..]);
      case Look(call) =>
        if call.attempt != "" && Inspects(cfg, call, s) {
          LookupRefinesScan(cfg, c, call, s);
        }
        RunInv(cfg, LookupStep(cfg, c, call, s).0, s, events[1..]);
    }
  }

  /** After any interleaving of appends and calls, for any attempts, an answered call reports
      the receipt exactly when one unbounded scan over the bytes covered so far sees it. */
  lemma ReceivedExactlyWhenScanned(cfg: Config, s0: Bytes, events: seq<Event>, call: Call)
    requires cfg.Valid()
    ensures var (c, s) := Run(cfg, Cursor("", 0), s0, events);
            var (c', r) := LookupStep(cfg, c, call, s);
            var start := Start(cfg, c, call.attempt);
            && Inv(cfg, c', s)
            && (!r.Failed? ==>
                  && Refines(cfg, start, s, c', r)
                  && (r.Received? <==>
                      ScanAll(cfg.For(call.attempt), s, cfg.receiptOffset, Window(s, start.offset, cfg.scanBytes)).Hit?))
  {
    RunInv(cfg, Cursor("", 0), s0, events);
    var (c, s) := Run(cfg, Cursor("", 0), s0, events);
    if call.attempt != "" && Inspects(cfg, call, s) {
      LookupRefinesScan(cfg, c, call, s);
    }
  }

  // ---- what a lookup refuses ----

  /** Without an attempt, for another thread, when the session is not exactly bound, or with a
      transcript shorter than it was, a lookup fails, and the cursor stays where it is. */
  lemma RefusedLookupsMoveNothing(cfg: Config, c: Cursor, call: Call, s: Bytes)
    requires call.attempt == "" || !call.bound || call.threadID != cfg.sessionID || !UuidLike(cfg.sessionID)
             || |s| < cfg.receiptOffset
    ensures LookupStep(cfg, c, call, s).0 == c && LookupStep(cfg, c, call, s).1.Failed?
  {
  }

  /** A lookup for another attempt starts over at the receipt offset, and one for the same attempt
      goes on where the last one left off. */
  lemma LookupStartsWhere(cfg: Config, c: Cursor, call: Call, s: Bytes)
    requires call.attempt != "" && call.bound && call.threadID == cfg.sessionID && UuidLike(cfg.sessionID)
    requires cfg.receiptOffset <= |s| && call.cancelled
    ensures LookupStep(cfg, c, call, s).0 ==
            if c.attempt == call.attempt then c else Cursor(call.attempt, cfg.receiptOffset)
    ensures LookupStep(cfg, c, call, s).1 == Failed(Cancelled)
  {
  }

  /** A lookup gives up on a row exactly when that row is the next one, has no end within the budget,
      and goes on behind it; a row that fills 16 MiB is given up even where the transcript ends. */
  lemma RowLimitExactly(cfg: Config, c: Cursor, call: Call, s: Bytes)
    requires cfg.Valid() && Inv(cfg, c, s) && call.attempt != "" && Inspects(cfg, call, s) && !call.cancelled
    ensures var at, budget := Start(cfg, c, call.attempt).offset, cfg.scanBytes;
            && at <= |s|
            && (LookupStep(cfg, c, call, s).1 == Failed(RowLimit) <==>
                && NextNewline(s, at) >= at + budget
                && if budget == MAX_SCAN then at + budget <= |s| else at + budget < |s|)
  {
    hide Bounded, UuidLike, ScanAll, NextNewline, IsReceipt, MessageUUID;
    BoundedGivesUp(cfg.For(call.attempt), s, Start(cfg, c, call.attempt).offset, cfg.scanBytes);
  }

  lemma BoundedGivesUp(q: Query, s: Bytes, at: nat, budget: nat)
    requires at <= |s| && 0 < budget <= MAX_SCAN
    ensures Bounded(q, s, at, budget) in {Failure(RowLimit), Success(Receipt(false, at, true))} <==>
              && NextNewline(s, at) >= at + budget
              && if budget == MAX_SCAN then at + budget <= |s| else at + budget < |s|
  {
    hide ScanAll, NextNewline, IsReceipt;
    StaysExactlyAt(q, s, at, Window(s, at, budget));
  }

  lemma StaysExactlyAt(q: Query, s: Bytes, at: nat, w: nat)
    requires at <= w <= |s|
    ensures ScanAll(q, s, at, w) == Miss(at) <==> NextNewline(s, at) >= w
  {
  }

  // ---- whose receipt it is ----

  /** A row of another session is no receipt, nor is one that is neither input nor an attachment.
      Of an attachment only the identity that it names as its source counts, not its own, and it
      has to be a prompt of a peer, queued on the main chain. */
  lemma OnlyPersistedInputIsReceipt(row: Row, sessionID: string, uuid: string, own: string)
    ensures row.sessionID != sessionID || row.kind !in {"user", "attachment"} ==> !IsReceipt(row, sessionID, uuid)
    ensures row.kind == "attachment" ==> (IsReceipt(row.(uuid := own), sessionID, uuid) <==> IsReceipt(row, sessionID, uuid))
    ensures row.kind == "attachment" && row.sessionID == sessionID ==>
              (IsReceipt(row, sessionID, uuid) <==>
               row.isSidechain == Some(false) && row.attachment == Attachment("queued_command", "prompt", uuid, true, "peer"))
    ensures row.kind == "user" && row.sessionID == sessionID ==> (IsReceipt(row, sessionID, uuid) <==> row.uuid == uuid)
  {
  }

  /** No row is the receipt of two messages whose digests differ in what an identity carries. */
  lemma ReceiptIsOfOne(cfg: Config, a: string, b: string, row: Row)
    requires !SameCarried(cfg.digest(a), cfg.digest(b))
    ensures !(IsReceipt(row, cfg.sessionID, cfg.UUID(a)) && IsReceipt(row, cfg.sessionID, cfg.UUID(b)))
  {
    hide MessageUUID, SameCarried;
    SameIdentityExactly(cfg.digest(a), cfg.digest(b));
  }

  /** In any run, a message is reported received only because of a row behind the receipt offset
      that is its receipt and no other message's, as far as the digests tell them apart. */
  lemma ReceivedHasItsOwnRow(cfg: Config, s0: Bytes, events: seq<Event>, call: Call)
    requires cfg.Valid()
    requires var (c, s) := Run(cfg, Cursor("", 0), s0, events); LookupStep(cfg, c, call, s).1.Received?
    ensures var (_, s) := Run(cfg, Cursor("", 0), s0, events);
            && cfg.receiptOffset <= |s|
            && exists line ::
                 && line in Lines(s, cfg.receiptOffset, |s|) && Matches(cfg.For(call.attempt), line)
                 && forall other :: !SameCarried(cfg.digest(other), cfg.digest(call.attempt)) ==> !Matches(cfg.For(other), line)
  {
    hide Run, LookupStep, Lines, IsReceipt, SameCarried, MessageUUID;
    var (c, s) := Run(cfg, Cursor("", 0), s0, events);
    ReceivedExactlyWhenScanned(cfg, s0, events, call);
    var q := cfg.For(call.attempt);
    var i := ScanHitExists(q, s, cfg.receiptOffset, |s|);
    var line := Lines(s, cfg.receiptOffset, |s|)[i];
    forall other | !SameCarried(cfg.digest(other), cfg.digest(call.attempt)) ensures !Matches(cfg.For(other), line) {
      ReceiptIsOfOne(cfg, other, call.attempt, cfg.parse(line[..|line| - 1]).value);
    }
  }

  // ---- how many calls it takes ----

  /** Every complete row fits the budget, and so does the unfinished tail. */
  predicate Fits(s: Bytes, from: nat, budget: nat)
    requires from <= |s|
    decreases |s| - from
  {
    var e := NextNewline(s, from);
    if e == |s| then |s| - from < budget else e + 1 - from <= budget && Fits(s, e + 1, budget)
  }

  lemma {:induction false} FitsAfterMiss(q: Query, s: Bytes, from: nat, a: nat, budget: nat)
    requires from <= a <= |s| && Fits(s, from, budget) && ScanAll(q, s, from, a).Miss?
    ensures Fits(s, ScanAll(q, s, from, a).end, budget)
    decreases a - from
  {
    var e := NextNewline(s, from);
    if e < a {
      FitsAfterMiss(q, s, e + 1, a, budget);
    }
  }

  /** Where the rows fit, one bounded scan answers as the scan of its window does, and a miss cut
      short by the budget makes progress. */
  lemma FittingBounded(q: Query, s: Bytes, offset: nat, budget: nat)
    requires offset <= |s| && budget <= MAX_SCAN && Fits(s, offset, budget)
    ensures var w := Window(s, offset, budget);
            match ScanAll(q, s, offset, w)
            case Hit(e) => Bounded(q, s, offset, budget) == Success(Receipt(true, e, false))
            case Miss(e) => Bounded(q, s, offset, budget) == Success(Receipt(false, e, w < |s|)) && (w < |s| ==> offset < e)
            case Bad(_) => Bounded(q, s, offset, budget) == Failure(Malformed)
  {
    var w := Window(s, offset, budget);
    if ScanAll(q, s, offset, w).Miss? {
      ScanMissEnd(q, s, offset, w);
    }
  }

  /** Where the rows fit, one call answers as the scan of its window does. */
  lemma FittingLookup(cfg: Config, c: Cursor, call: Call, s: Bytes)
    requires cfg.Valid() && Inv(cfg, c, s) && call.attempt != "" && Inspects(cfg, call, s) && !call.cancelled
    requires Start(cfg, c, call.attempt).offset <= |s|
    requires Fits(s, Start(cfg, c, call.attempt).offset, cfg.scanBytes)
    ensures var q, start := cfg.For(call.attempt), Start(cfg, c, call.attempt);
            LookupStep(cfg, c, call, s) ==
            match ScanAll(q, s, start.offset, Window(s, start.offset, cfg.scanBytes))
            case Hit(e) => (start, Received(cfg.UUID(call.attempt), e))
            case Miss(e) => (Cursor(call.attempt, e), NotFound)
            case Bad(_) => (start, Failed(Malformed))
  {
    FittingBounded(cfg.For(call.attempt), s, Start(cfg, c, call.attempt).offset, cfg.scanBytes);
  }

  /** Calling again while the budget cuts the scan short. That this terminates is the progress
      property. */
  function Poll(cfg: Config, c: Cursor, call: Call, s: Bytes): (Cursor, Lookup)
    requires cfg.Valid() && Inv(cfg, c, s) && call.attempt != "" && Inspects(cfg, call, s)
    decreases |s| - Start(cfg, c, call.attempt).offset
  {
    LookupRefinesScan(cfg, c, call, s);
    var (c', r) := LookupStep(cfg, c, call, s);
    if r.NotFound? && Window(s, Start(cfg, c, call.attempt).offset, cfg.scanBytes) < |s|
    then Poll(cfg, c', call, s) else (c', r)
  }

  /** When the rows fit the budget and nothing fails, polling decides: it ends with exactly the
      answer of one unbounded scan, wherever earlier calls had left the cursor. */
  lemma {:induction false} PollDecides(cfg: Config, c: Cursor, call: Call, s: Bytes)
    requires cfg.Valid() && Inv(cfg, c, s) && call.attempt != "" && Inspects(cfg, call, s) && !call.cancelled
    requires Start(cfg, c, call.attempt).offset <= |s|
    requires Fits(s, Start(cfg, c, call.attempt).offset, cfg.scanBytes)
    ensures Poll(cfg, c, call, s).1 ==
            match ScanAll(cfg.For(call.attempt), s, cfg.receiptOffset, |s|)
            case Hit(e) => Received(cfg.UUID(call.attempt), e)
            case Miss(_) => NotFound
            case Bad(_) => Failed(Malformed)
    decreases |s| - Start(cfg, c, call.attempt).offset
  {
    hide LookupStep, Bounded, ScanAll, Lines;
    var q, start := cfg.For(call.attempt), Start(cfg, c, call.attempt);
    var w := Window(s, start.offset, cfg.scanBytes);
    var (c', r) := LookupStep(cfg, c, call, s);
    NothingBefore(cfg, c, call.attempt, s);
    LookupRefinesScan(cfg, c, call, s);
    FittingLookup(cfg, c, call, s);
    if r.NotFound? && w < |s| {
      FitsAfterMiss(q, s, start.offset, w, cfg.scanBytes);
      assert Poll(cfg, c, call, s) == Poll(cfg, c', call, s);
      PollDecides(cfg, c', call, s);
    } else {
      assert Poll(cfg, c, call, s) == (c', r);
      ScanResume(q, s, cfg.receiptOffset, start.offset, w);
      if !r.NotFound? {
        ScanStable(q, s, cfg.receiptOffset, w, |s|);
      }
    }
  }
}
