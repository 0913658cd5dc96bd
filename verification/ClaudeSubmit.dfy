/** How far one Claude submission got, and why a sender that trusts the classification writes a
    message at most once: `submitClaudeSocket`, `claudeQueue.enqueue`, the predicates of
    `daemon_claude.go`, and the pending record that fences retries across crashes. */
module ClaudeSubmit {
  import opened Bytes
  import opened Storage
  import opened Uuid
  import opened Wrappers

  const MAX_LINE: nat := 0x10_0000

  datatype Stage = NotSubmitted | Uncertain | Submitted

  /** Errors with their wrapping chain, as `errors.As` walks it. */
  datatype Error =
    | Plain(text: string)
    | ContextEnded
    | RpcError(code: int)
    | OpencodeNotSubmittedError(inner: Error)
    | ClaudeNotSubmittedError(inner: Error)
    | AwaitingReceiptError(stage: Stage, cause: Option<Error>)

  function Unwrap(e: Error): (u: Option<Error>)
    ensures u.Some? ==> u.value < e
  {
    match e
    case OpencodeNotSubmittedError(inner) => Some(inner)
    case ClaudeNotSubmittedError(inner) => Some(inner)
    case AwaitingReceiptError(_, cause) => cause
    case _ => None
  }

  /** The first error in the chain that `pick` accepts. */
  function As(e: Error, pick: Error -> bool): (r: Option<Error>)
    ensures r.Some? ==> pick(r.value)
    decreases e
  {
    if pick(e) then Some(e)
    else match Unwrap(e)
      case None => None
      case Some(u) => As(u, pick)
  }

  predicate IsAwaiting(e: Error) { e.AwaitingReceiptError? }

  predicate IsRpc(e: Error) { e.RpcError? }

  predicate IsClaudeNotSubmitted(e: Error) { e.ClaudeNotSubmittedError? }

  predicate IsOpencodeNotSubmitted(e: Error) { e.OpencodeNotSubmittedError? }

  /** An absent harness name means codex. */
  function Harness(name: string): string {
    if name == "" then "codex" else name
  }

  predicate ClaudeCleanWrite(harness: string, err: Option<Error>) {
    Harness(harness) == "claude" && err.Some? &&
    var awaiting := As(err.value, IsAwaiting);
    awaiting.Some? && awaiting.value.stage == Submitted && awaiting.value.cause.None?
  }

  predicate ProvedNotSubmitted(harness: string, err: Option<Error>) {
    err.Some? &&
    match Harness(harness)
    case "codex" =>
      var rejection := As(err.value, IsRpc);
      rejection.Some? && rejection.value.code == -32600
    case "claude" => As(err.value, IsClaudeNotSubmitted).Some?
    case "opencode" => As(err.value, IsOpencodeNotSubmitted).Some?
    case _ => false
  }

  predicate Elementary(e: Error) {
    e.Plain? || e.ContextEnded?
  }

  /** A rejection and an awaited receipt around an elementary error cannot be confused. */
  lemma WrappersClassify(e: Error, stage: Stage, cause: Option<Error>)
    requires Elementary(e) && (cause.Some? ==> Elementary(cause.value))
    ensures ProvedNotSubmitted("claude", Some(ClaudeNotSubmittedError(e)))
    ensures !ClaudeCleanWrite("claude", Some(ClaudeNotSubmittedError(e)))
    ensures !ProvedNotSubmitted("claude", Some(AwaitingReceiptError(stage, cause)))
    ensures ClaudeCleanWrite("claude", Some(AwaitingReceiptError(stage, cause))) <==> stage == Submitted && cause.None?
  {
    assert As(e, IsAwaiting).None?;
    assert As(ClaudeNotSubmittedError(e), IsAwaiting).None?;
    if cause.Some? {
      assert As(cause.value, IsClaudeNotSubmitted).None?;
    }
    assert As(AwaitingReceiptError(stage, cause), IsClaudeNotSubmitted).None?;
  }

  /** The adapters prove it in different ways, and the proof of one is none for another. */
  lemma ProofsByHarness(e: Error, code: int)
    requires Elementary(e)
    ensures ProvedNotSubmitted("codex", Some(RpcError(code))) <==> code == -32600
    ensures ProvedNotSubmitted("", Some(RpcError(code))) <==> code == -32600
    ensures ProvedNotSubmitted("opencode", Some(OpencodeNotSubmittedError(e)))
    ensures !ProvedNotSubmitted("claude", Some(RpcError(code))) && !ProvedNotSubmitted("opencode", Some(RpcError(code)))
    ensures !ProvedNotSubmitted("codex", Some(ClaudeNotSubmittedError(e)))
    ensures !ProvedNotSubmitted("opencode", Some(ClaudeNotSubmittedError(e)))
    ensures !ProvedNotSubmitted("claude", Some(OpencodeNotSubmittedError(e)))
    ensures forall harness :: !ProvedNotSubmitted(harness, None) && !ProvedNotSubmitted(harness, Some(e))
  {
    assert As(e, IsRpc).None? && As(e, IsClaudeNotSubmitted).None? && As(e, IsOpencodeNotSubmitted).None?;
    assert As(ClaudeNotSubmittedError(e), IsRpc).None? && As(ClaudeNotSubmittedError(e), IsOpencodeNotSubmitted).None?;
    assert As(OpencodeNotSubmittedError(e), IsClaudeNotSubmitted).None?;
    assert As(RpcError(code), IsClaudeNotSubmitted).None? && As(RpcError(code), IsOpencodeNotSubmitted).None?;
  }

  // ---- the socket ----

  datatype Write = Write(payload: Bytes, n: nat, failed: bool) {
    predicate Whole() {
      !failed && n == |payload|
    }
  }

  /** A context that is found ended after `left` more checks, and stays ended. */
  class Context {
    var left: nat
    var ended: bool

    constructor (left: nat)
      ensures this.left == left && !ended
    {
      this.left, ended := left, false;
    }

    method Err() returns (err: Option<Error>)
      modifies this
      ensures err == if old(left) == 0 then Some(ContextEnded) else None
      ensures left == if old(left) == 0 then 0 else old(left) - 1
      ensures ended == (old(ended) || old(left) == 0)
    {
      if left == 0 {
        ended := true;
        return Some(ContextEnded);
      }
      left := left - 1;
      return None;
    }
  }

  /** What a dialled connection does with each write is up to the other side. */
  datatype Reply = Reply(n: nat, failed: bool)

  class Conn {
    var writes: seq<Write>

    constructor ()
      ensures writes == []
    {
      writes := [];
    }

    method Send(payload: Bytes, reply: Reply) returns (whole: bool)
      modifies this
      ensures writes == old(writes) + [Write(payload, reply.n, reply.failed)]
      ensures whole == Write(payload, reply.n, reply.failed).Whole()
    {
      writes := writes + [Write(payload, reply.n, reply.failed)];
      whole := !reply.failed && reply.n == |payload|;
    }
  }

  /** The JSON encoders of the two envelopes, without the trailing newline. */
  datatype Encoders = Encoders(auth: string -> Bytes, message: (string, string, string) -> Bytes)

  datatype Target = Target(endpointNamed: bool, sessionID: string)

  /** How the operating system and the peer answer each step of one submission. */
  datatype Surroundings = Surroundings(
    inspects: bool, currentSession: bool, token: Option<string>,
    dials: bool, validates: bool, authReply: Reply, messageReply: Reply)

  datatype Submission = Submission(uuid: string, stage: Stage)

  /** The target is exact, nothing is missing, and both envelopes keep within the line limit. */
  predicate Sendable(enc: Encoders, target: Target, token: string, attempt: string, uuid: string, payload: string) {
    && target.endpointNamed && UuidLike(target.sessionID) && token != "" && attempt != "" && payload != ""
    && |token| <= MAX_LINE && |payload| <= MAX_LINE
    && |enc.auth(token)| < MAX_LINE && |enc.message(target.sessionID, uuid, payload)| < MAX_LINE
  }

  /** The other side is reached, is the right one, and takes the whole authentication. */
  predicate Admits(around: Surroundings, auth: Bytes) {
    around.dials && around.validates && Write(auth, around.authReply.n, around.authReply.failed).Whole()
  }

  method WriteMessage(ctx: Context, dst: Conn, message: Bytes, reply: Reply, given: Submission)
    returns (result: Submission, err: Option<Error>)
    requires given.stage == NotSubmitted && !ctx.ended
    modifies ctx, dst
    ensures result.uuid == given.uuid
    ensures dst.writes == old(dst.writes) + if result.stage == NotSubmitted then [] else [Write(message, reply.n, reply.failed)]
    ensures result.stage == NotSubmitted <==> old(ctx.left) == 0
    ensures result.stage == Submitted <==> old(ctx.left) > 0 && Write(message, reply.n, reply.failed).Whole() && !ctx.ended
    ensures result.stage == Submitted <==> old(ctx.left) > 1 && Write(message, reply.n, reply.failed).Whole()
    ensures err.None? <==> result.stage == Submitted
    ensures err.Some? ==> Elementary(err.value)
  {
    result := given;
    err := ctx.Err();
    if err.Some? {
      return;
    }
    result := result.(stage := Uncertain);
    var whole := dst.Send(message, reply);
    if !whole {
      return result, Some(Plain("Claude socket message write is unconfirmed"));
    }
    err := ctx.Err();
    if err.Some? {
      return;
    }
    result := result.(stage := Submitted);
  }

  /** One submission over one fresh connection. The message write is begun exactly when the
      stage says so, after a whole authentication write, and the stage is `Submitted` exactly
      when the message went out whole with the context still live. */
  method SubmitSocket(
    ctx: Context, conn: Conn, enc: Encoders, target: Target, token: string, attempt: string, digest: Digest,
    payload: string, around: Surroundings)
    returns (result: Submission, err: Option<Error>)
    requires conn.writes == [] && !ctx.ended
    modifies ctx, conn
    ensures result.uuid == MessageUUID(digest)
    ensures result.stage == NotSubmitted ==> err.Some? && |conn.writes| <= 1
    ensures result.stage != NotSubmitted ==>
              && |conn.writes| == 2
              && conn.writes[0].payload == enc.auth(token) + [NL] && conn.writes[0].Whole()
              && conn.writes[1].payload == enc.message(target.sessionID, result.uuid, payload) + [NL]
              && |conn.writes[1].payload| <= MAX_LINE
              && UuidLike(target.sessionID) && token != "" && attempt != "" && payload != ""
    ensures result.stage == Submitted <==> |conn.writes| == 2 && conn.writes[1].Whole() && !ctx.ended
    ensures err.None? <==> result.stage == Submitted
    ensures err.Some? ==> Elementary(err.value)
    ensures result.stage != NotSubmitted <==>
              && Sendable(enc, target, token, attempt, MessageUUID(digest), payload)
              && Admits(around, enc.auth(token) + [NL]) && old(ctx.left) >= 4
    ensures result.stage == Submitted <==>
              && Sendable(enc, target, token, attempt, MessageUUID(digest), payload)
              && Admits(around, enc.auth(token) + [NL]) && old(ctx.left) >= 5
              && !around.messageReply.failed
              && around.messageReply.n == |enc.message(target.sessionID, MessageUUID(digest), payload)| + 1
  {
    hide MessageUUID, UuidLike;
    result := Submission(MessageUUID(digest), NotSubmitted);
    if !target.endpointNamed || !UuidLike(target.sessionID) || token == "" || attempt == "" || payload == "" {
      return result, Some(Plain("Claude socket requires a bounded context and an exact validated target"));
    }
    err := ctx.Err();
    if err.Some? {
      return;
    }
    var auth, message := enc.auth(token), enc.message(target.sessionID, result.uuid, payload);
    if |token| > MAX_LINE || |payload| > MAX_LINE || |auth| + 1 > MAX_LINE || |message| + 1 > MAX_LINE {
      return result, Some(Plain("Claude socket envelope exceeds the byte limit"));
    }
    if !around.dials {
      return result, Some(Plain("Claude socket dial failed"));
    }
    err := ctx.Err();
    if err.Some? || !around.validates {
      return result, Some(Plain("Claude socket identity validation failed"));
    }
    err := ctx.Err();
    if err.Some? {
      return;
    }
    assert Sendable(enc, target, token, attempt, MessageUUID(digest), payload);
    var whole := conn.Send(auth + [NL], around.authReply);
    assert whole == Admits(around, auth + [NL]);
    if !whole {
      return result, Some(Plain("Claude socket authentication write failed"));
    }
    result, err := WriteMessage(ctx, conn, message + [NL], around.messageReply, result);
  }

  // ---- claudeQueue.enqueue ----

  /** What one enqueue returned, and what it did on the wire. */
  datatype Enqueued = Enqueued(err: Option<Error>, begun: bool, clean: bool) {
    /** The error tells the truth: nothing was submitted exactly when the message write was
        never begun, and the write was clean exactly when all of it went out in time. */
    predicate Truthful() {
      && err.Some?
      && (ProvedNotSubmitted("claude", err) <==> !begun)
      && (ClaudeCleanWrite("claude", err) <==> begun && clean)
    }
  }

  method Enqueue(
    ctx: Context, conn: Conn, enc: Encoders, target: Target, threadBound: bool, attempt: string, digest: Digest,
    payload: string, around: Surroundings)
    returns (queueID: string, err: Option<Error>)
    requires conn.writes == [] && !ctx.ended
    modifies ctx, conn
    ensures queueID == "" && err.Some?
    ensures ProvedNotSubmitted("claude", err) <==> |conn.writes| < 2
    ensures ClaudeCleanWrite("claude", err) <==> |conn.writes| == 2 && conn.writes[1].Whole() && !ctx.ended
    ensures Enqueued(err, |conn.writes| == 2, |conn.writes| == 2 && conn.writes[1].Whole() && !ctx.ended).Truthful()
    ensures |conn.writes| <= 2
    ensures |conn.writes| == 2 <==>
              && threadBound && around.inspects && around.currentSession && around.token.Some?
              && Sendable(enc, target, around.token.value, attempt, MessageUUID(digest), payload)
              && Admits(around, enc.auth(around.token.value) + [NL]) && old(ctx.left) >= 4
    ensures |conn.writes| == 2 ==>
              conn.writes[1].payload == enc.message(target.sessionID, MessageUUID(digest), payload) + [NL]
  {
    hide MessageUUID, UuidLike;
    queueID := "";
    WrappersClassify(Plain("Claude message requires an attempt ID and content"), NotSubmitted, None);
    WrappersClassify(Plain("exact bound Claude session required"), NotSubmitted, None);
    WrappersClassify(Plain("Claude session changed"), NotSubmitted, None);
    WrappersClassify(Plain("credential unavailable"), NotSubmitted, None);
    if attempt == "" || payload == "" {
      return queueID, Reject(Plain("Claude message requires an attempt ID and content"));
    }
    if !threadBound || !around.inspects {
      return queueID, Reject(Plain("exact bound Claude session required"));
    }
    if !around.currentSession {
      return queueID, Reject(Plain("Claude session changed"));
    }
    if around.token.None? {
      return queueID, Reject(Plain("credential unavailable"));
    }
    var result, submitErr :=
      SubmitSocket(ctx, conn, enc, target, around.token.value, attempt, digest, payload, around);
    if result.stage == NotSubmitted {
      WrappersClassify(submitErr.value, NotSubmitted, None);
      return queueID, Reject(submitErr.value);
    }
    WrappersClassify(ContextEnded, result.stage, submitErr);
    err := Some(AwaitingReceiptError(result.stage, submitErr));
  }

  function Reject(e: Error): Option<Error> {
    Some(ClaudeNotSubmittedError(e))
  }

  // ---- the pending record across ticks, failed saves and crashes ----

  datatype Attempt = Attempt(key: string, submittedAt: Option<int>)

  /** What is recorded of one inbox line: not yet attempted, pending, or accepted. */
  datatype Status = Idle | Pending(attempt: Attempt) | Accepted

  /** The in-memory record, the record on disk, and how often the message write was begun. */
  datatype Ledger = Ledger(memory: Status, disk: Status, begun: nat)

  datatype Tick =
    | Deliver(key: string, reserve: Save, died: bool, sent: Enqueued, settle: Save, now: int)
    | Lookup(received: bool, settle: Save)
    | Restart

  /** Delivery of one line. A tick with a pending record only looks for the receipt. Otherwise
      the attempt is recorded durably before the enqueue, and only the adapter's proof that
      nothing was submitted releases it. `died` is a crash before the result is handled. */
  function Step(l: Ledger, t: Tick): Ledger {
    match t
    case Restart => l.(memory := l.disk)
    case Lookup(received, settle) =>
      if !l.memory.Pending? || !received then l
      else Ledger(
          if settle == Saved then Accepted else l.memory,
          if settle.Reached() then Accepted else l.disk,
          l.begun)
    case Deliver(key, reserve, died, sent, settle, now) =>
      if !l.memory.Idle? then l
      else
        var pending := Pending(Attempt(key, None));
        var reserved := if reserve.Reached() then l.(disk := pending) else l;
        if reserve != Saved then reserved
        else
          var after := Ledger(pending, pending, l.begun + if sent.begun then 1 else 0);
          if died then after.(memory := after.disk)
          else if ClaudeCleanWrite("claude", sent.err) then
            var submitted := Pending(Attempt(key, Some(now)));
            after.(memory := if settle == Saved then submitted else pending,
                   disk := if settle.Reached() then submitted else pending)
          else if ProvedNotSubmitted("claude", sent.err) then
            after.(memory := if settle == Saved then Idle else pending,
                   disk := if settle.Reached() then Idle else pending)
          else after
  }

  /** A lookup settles a pending record exactly when it finds the receipt, and says so for good
      where the save does. */
  lemma LookupSettles(l: Ledger, received: bool, settle: Save)
    ensures var t := Step(l, Lookup(received, settle));
            && t.begun == l.begun
            && (!received || !l.memory.Pending? ==> t == l)
            && (received && l.memory.Pending? ==>
                  match settle
                  case Saved => t.memory == Accepted && t.disk == Accepted
                  case FailedAfterRename => t.memory == l.memory && t.disk == Accepted
                  case FailedBefore => t == l)
  {
  }

  /** A delivery of a line that nothing was tried for, with saves that go through: the attempt
      stays on record when its write was begun, with the time when that was clean, and the line
      is free again when it was not. */
  lemma DeliverySettles(l: Ledger, key: string, sent: Enqueued, now: int)
    requires l.memory.Idle? && sent.Truthful()
    ensures var t := Step(l, Deliver(key, Saved, false, sent, Saved, now));
            && t.memory == t.disk && t.begun == l.begun + (if sent.begun then 1 else 0)
            && t.memory == if !sent.begun then Idle else Pending(Attempt(key, if sent.clean then Some(now) else None))
  {
  }

  /** Nothing is sent before the attempt is on record: a save that fails leaves at most the disk
      with it. And a crash behind the write leaves it on record everywhere. */
  lemma DeliveryInterrupted(l: Ledger, key: string, reserve: Save, sent: Enqueued, settle: Save, now: int)
    requires l.memory.Idle?
    ensures var pending := Pending(Attempt(key, None));
            && (reserve == FailedBefore ==> forall died :: Step(l, Deliver(key, reserve, died, sent, settle, now)) == l)
            && (reserve == FailedAfterRename ==>
                  forall died :: Step(l, Deliver(key, reserve, died, sent, settle, now)) == l.(disk := pending))
            && Step(l, Deliver(key, Saved, true, sent, settle, now)) ==
               Ledger(pending, pending, l.begun + if sent.begun then 1 else 0)
  {
  }

  /** While a record is pending or accepted, nothing is delivered. */
  lemma PendingIsNotDelivered(l: Ledger, key: string, reserve: Save, died: bool, sent: Enqueued, settle: Save, now: int)
    requires !l.memory.Idle?
    ensures Step(l, Deliver(key, reserve, died, sent, settle, now)) == l
  {
  }

  /** What was accepted stays accepted. */
  lemma {:induction false} AcceptedStays(l: Ledger, ticks: seq<Tick>)
    requires l.memory == Accepted && l.disk == Accepted
    ensures Run(l, ticks) == l
    decreases |ticks|
  {
    if ticks != [] {
      AcceptedStays(Step(l, ticks[0]), ticks[1..]);
    }
  }

  predicate Honest(t: Tick) {
    t.Deliver? ==> t.sent.Truthful()
  }

  function Run(l: Ledger, ticks: seq<Tick>): Ledger
    decreases |ticks|
  {
    if ticks == [] then l else Run(Step(l, ticks[0]), ticks[1..])
  }

  /** Once a write was begun, both records remember it. */
  predicate Fenced(l: Ledger) {
    l.begun <= 1 && (l.begun == 1 ==> !l.memory.Idle? && !l.disk.Idle?)
  }

  lemma {:induction false} RunFenced(l: Ledger, ticks: seq<Tick>)
    requires Fenced(l) && forall i :: 0 <= i < |ticks| ==> Honest(ticks[i])
    ensures Fenced(Run(l, ticks))
    decreases |ticks|
  {
    if ticks != [] {
      assert Honest(ticks[0]);
      RunFenced(Step(l, ticks[0]), ticks[1..]);
    }
  }

  /** Over any ticks, failed saves and crashes, with submissions that fail anywhere, the write
      of one message is begun at most once, and a message whose write was begun is never again
      taken for one that was not. */
  lemma WrittenAtMostOnce(ticks: seq<Tick>)
    requires forall i :: 0 <= i < |ticks| ==> Honest(ticks[i])
    ensures var l := Run(Ledger(Idle, Idle, 0), ticks);
            l.begun <= 1 && (l.begun == 1 ==> !l.memory.Idle? && !l.disk.Idle?)
  {
    RunFenced(Ledger(Idle, Idle, 0), ticks);
  }

  /** The fence needs the truthful classification: releasing an attempt whose write had begun
      would begin it again. */
  lemma UntruthfulReleaseDuplicates()
    ensures exists ticks: seq<Tick> :: Run(Ledger(Idle, Idle, 0), ticks).begun == 2
  {
    var lie := Deliver("k", Saved, false, Enqueued(Reject(Plain("")), true, true), Saved, 0);
    var one := Step(Ledger(Idle, Idle, 0), lie);
    WrappersClassify(Plain(""), NotSubmitted, None);
    assert one == Ledger(Idle, Idle, 1);
    var two := Step(one, lie);
    assert [lie, lie][1..] == [lie] && [lie][1..] == [];
    assert Run(one, [lie]) == Run(two, []);
    assert Run(Ledger(Idle, Idle, 0), [lie, lie]) == Run(one, [lie]);
  }

  // ---- what the daemon reports meanwhile ----

  const RECEIPT_TIMEOUT: int := 60

  /** A clean write waits for its receipt until the deadline; everything else is uncertain. */
  function PendingState(harness: string, status: Status, now: int): string {
    if Harness(harness) == "claude" && status.Pending? && status.attempt.submittedAt.Some?
       && now < status.attempt.submittedAt.value + RECEIPT_TIMEOUT
    then "awaiting-receipt" else "uncertain"
  }

  /** In any run, a pending message is reported as awaiting its receipt only after a clean write
      was begun for it and before that write's deadline. */
  predicate WaitsOnlyAfterWrite(l: Ledger) {
    && (l.memory.Pending? && l.memory.attempt.submittedAt.Some? ==> l.begun == 1)
    && (l.disk.Pending? && l.disk.attempt.submittedAt.Some? ==> l.begun == 1)
  }

  /** A message whose write was clean at `now` is reported as awaiting its receipt for the next
      sixty seconds, and as uncertain from then on, and so is every other pending one at once. */
  lemma AwaitedForAMinute(key: string, now: int, later: int)
    ensures PendingState("claude", Pending(Attempt(key, Some(now))), later) ==
            if later < now + 60 then "awaiting-receipt" else "uncertain"
    ensures PendingState("claude", Pending(Attempt(key, None)), later) == "uncertain"
    ensures PendingState("codex", Pending(Attempt(key, Some(now))), later) == "uncertain"
  {
  }

  lemma {:induction false} WaitingMeansWritten(l: Ledger, ticks: seq<Tick>, now: int)
    requires Fenced(l) && WaitsOnlyAfterWrite(l) && forall i :: 0 <= i < |ticks| ==> Honest(ticks[i])
    ensures WaitsOnlyAfterWrite(Run(l, ticks))
    ensures PendingState("claude", Run(l, ticks).memory, now) == "awaiting-receipt" ==> Run(l, ticks).begun == 1
    decreases |ticks|
  {
    if ticks != [] {
      assert Honest(ticks[0]);
      WaitingMeansWritten(Step(l, ticks[0]), ticks[1..], now);
    }
  }
}
