# cbus

cbus is a local message bus for coding agents. Its hardest logic keeps a position in a growing
file, or a promise about delivery, across restarts, partial writes and races. This project models
that logic in Dafny and proves what it promises. `dafny verify dfyconfig.toml` checks all of it.

The parts, file by file:

- `Bytes.dfy`: growing files and their newline-terminated lines, which every cursor counts in.
- `ClaudeReceipt.dfy`, `ClaudeSubmit.dfy`, `Uuid.dfy`: submitting a message over a socket that has
  no acknowledgement, classifying how far it got, and finding its receipt in an append-only
  transcript by bounded, resumable scans.
- `Compaction.dfy`, `CompactionRuns.dfy`, `CompactionProgress.dfy`, `Storage.dfy`: counting the
  compactions of a rollout exactly once from a durable cursor, in batches, across failed saves and
  restarts, and when that goes on or stops for good.
- `Jsonc.dfy`, `JsoncText.dfy`, `JsoncLayout.dfy`, `JsoncCommas.dfy`: the two-pass stripper of
  comments and trailing commas, what it does to any bytes, and what it keeps of the meaning of a
  document.
- `WebSocket.dfy`, `WebSocketIO.dfy`, `WebSocketMessages.dfy`: the frame codec, the loops that move
  frames over short reads and failing writes, and the reassembly of fragmented messages.
- `RpcDemux.dfy`: many callers and one reader around a map of pending calls, in both clients.
- `QueuePages.dfy`: paged search, the lookup over history and queue, and a bounded log.
- `CursorText.dfy`, `ListenerClaim.dfy`: the text of a cursor, and the order of writes that keeps a
  fresh listener from skipping its mail.
- `StopHook.dfy`, `InboxMerge.dfy`: polls of an inbox with a cursor, and the merge of inboxes.
- `TuiStatus.dfy`, `OpencodeWatch.dfy`, `CodexBridge.dfy`, `Coordinator.dfy`: state machines whose
  steps are taken in any order.
- `SymlinkWalk.dfy`, `CodexAsset.dfy`: a symlink walk against pathname resolution, and a two-file
  upgrade protocol.
- `HooksMerge.dfy`, `HookCommand.dfy`: a merge of hook settings, and the hook commands as they are
  written, read by a shell and judged by another cbus.

Where the source changes things step by step, a class or a loop does so here, and its contract ties
the new state to a function of the old one; the results below are about those functions, over
every run. A run is any list of steps, so that threads, crashes, restarts and failures appear as
steps that come in any order. Crashes inside an operation are states of its trail of writes.

JSON decoding, the rendering of frames, hashes (taken to be injective where that matters), the
validity of store names, process inspection and the answers of the other side are parameters: the
results hold for every choice of them.

## Where a promise does not hold as one might read it

- Compaction: a batch with more compacted records than the presence outbox holds (128) is refused
  as a whole on a local connection, and stops its count for good: no appends, restarts, sent
  notices or later passes get past it, and neither past a record that is not JSON or is too long
  (`BlockedForever`, `BurstStopsTheCount`, `BadRecordIsNeverPassed`). While the rollout is watched,
  nothing else stops it (`StuckExactlyWhenBlocked`).
- The comma pass is not idempotent on malformed input such as `[1,,]`; `CommaPassFixedPoint` says
  exactly when it is.
- The comment on `collectNewFrames` promises that the order inside each inbox is preserved. The
  stable sort by timestamp preserves it exactly for inboxes whose timestamps never decrease
  (`InboxKeepsOrderExactly`, `ClockStepReorders`); the model follows the code.
- TUI plugin: a deletion heard while a status read is under way is not remembered, so the read may
  bring the session back (`DeletionIsForgottenExactly`, `DeletedSessionComesBack`).
- Coordinator: the comment in the undo speaks of a child that has since answered. A launch that
  names its session, as a resume does, writes a record that does not change when that session
  answers, so its undo can discard it (`UndoDiscardsExactly`).
- `codexConn.call` may report a closed connection although its response was delivered
  (`ConnLosesExactlyWhenClosed`, `ConnLosesDeliveredResponse`). `codexQueue.call` looks into its
  channel again and never loses a delivered response, but it loses one that was read and not yet
  sent when somebody else closes the queue (`QueueLosesReadResponse`); exactly then, by
  `QueueLosesExactlyWhenClosedBeforeSent`.
- Daemon and bridge count the same compactions only while the daemon's notices find room
  (`AgreeStep`): the bridge moves on where the daemon waits.
- TUI plugin: after a session is left and shown again between two polls of the route, watchers may
  have an old state: because it changed meanwhile (`FlipGoesUnnoticed`), or because the last thing
  that was sent, or answered to a new watcher, was about the session shown in between
  (`FlipLeavesTheOther`). `FlipGoesUnnoticedExactly` says exactly when.
- Scheduling a streaming connection does not always leave it with a running watch, even before the
  shutdown: an entry whose watch has left its loop, and is about to clean up, counts as one
  (`LeavingWatchIsKept`). `ScheduledIsWatchedExactly` says exactly when it does.
- Hook settings: the verdict on an entry is meant to follow the shell. For a path without quotes
  below a home directory with a newline in its name, at which the shell splits, it does not look
  (`VerdictFollowsShell`, which says exactly when the two agree).
- The write of a Claude message happens at most once because the classification of errors is
  truthful; `UntruthfulReleaseDuplicates` shows that the pending record alone would not do.

## Model

| member | source | states |
|---|---|---|
| Bytes.LinesConcat | internal/client/codexstophook.go:91-130 | the complete lines between two offsets, glued together, are the consumed bytes, when the second offset is a line boundary: a cursor that moves by whole lines skips nothing and repeats nothing |
| Bytes.LinesSplit | internal/client/daemon_compaction.go:58-135 | cutting a stretch of a growing file at a line boundary cuts its list of lines there, so passes can stop and resume at boundaries |
| Bytes.LinesAppend | internal/client/claude_socket.go:106-164 | appending to a file changes none of the lines that were complete before |
| Uuid.MessageUUIDIsUuidLike | internal/client/claude_socket.go:33-37 | whatever the digest, the message identity passes the session-id check that the receipt scan makes of it |
| Uuid.MessageUUIDIsVersion8 | internal/client/claude_socket.go:33-37 | the identity is marked version 8 and carries the RFC 9562 variant |
| Uuid.IdentityCarriesDigest | internal/client/claude_socket.go:33-37 | every one of the first sixteen digest bytes can be read from its two digits of the identity, except for the four bits of the version and the two of the variant |
| Uuid.SameIdentityExactly | internal/client/claude_socket.go:33-37 | two messages have the same identity exactly when their digests agree in what is carried, so with other digests they differ |
| ClaudeReceipt.ScanMissMeaning | internal/client/claude_socket.go:106-164 | the reference scan misses exactly when every complete row of the stretch is well formed and none matches |
| ClaudeReceipt.ScanHitMeaning | internal/client/claude_socket.go:106-164 | the reference scan hits exactly behind the first matching row, with every row before it well formed |
| ClaudeReceipt.ScanHitExists | internal/client/claude_socket.go:106-164 | a hit always has such a first matching row |
| ClaudeReceipt.ScanResume | internal/client/claude_socket.go:102-164 | scanning on from where a scan without a match ended is scanning again from the start |
| ClaudeReceipt.ScanMissEnd | internal/client/claude_socket.go:102-164 | a scan without a match ends on a line boundary, at the last one it could see, and needs no byte past it |
| ClaudeReceipt.ScanStable | internal/client/claude_socket.go:106-164 | what a scan decides about a stretch stays decided however far it goes on |
| ClaudeReceipt.ScanAppend | internal/client/claude_socket.go:106-164 | appending to the transcript changes no scan of what was there |
| ClaudeReceipt.ObserveReceipt | internal/client/claude_socket.go:106-164 | the scan loop answers as the reference scan of the section it may read, for every offset, budget and moment of cancellation; invalid input, a short file, a malformed row and a row over the limit are each their own error |
| ClaudeReceipt.BoundedRefinesScan | internal/client/claude_socket.go:106-164 | one bounded scan against one unbounded scan: a receipt is the first match of the unbounded one, a miss is a miss of the bytes covered, a row over the limit really fills the budget without a newline |
| ClaudeReceipt.ClaudeQueue.LookupMessage | internal/client/claude_queue_native.go:93-126 | a call changes the saved attempt and offset, and answers, exactly as the lookup step does, for every file and cancellation |
| ClaudeReceipt.LookupRefinesScan | internal/client/claude_queue_native.go:93-126 | one call keeps the cursor in front of every unreported match and on a line boundary, and a miss cut short by the budget strictly advances it |
| ClaudeReceipt.RunInv | internal/client/claude_queue_native.go:93-126 | over any interleaving of appends and calls, for any attempts, the saved cursor never passes a match of its attempt |
| ClaudeReceipt.ReceivedExactlyWhenScanned | internal/client/claude_queue_native.go:93-126 | after any interleaving of appends and calls, an answered call says received exactly when one unbounded scan from the receipt offset over the bytes covered so far sees a matching row |
| ClaudeReceipt.OnlyPersistedInputIsReceipt | internal/client/claude_socket.go:130-151 | a row of another session, of another kind, or of a side chain is no receipt, and of an attachment its own identity does not count |
| ClaudeReceipt.ReceiptIsOfOne | internal/client/claude_socket.go:144-151 | no row is the receipt of two messages whose digests differ in what an identity carries |
| ClaudeReceipt.ReceivedHasItsOwnRow | internal/client/claude_queue_native.go:93-126 | in any run a message is reported received only because of a complete row behind the receipt offset that is its receipt, and no receipt of a message with another digest |
| ClaudeReceipt.RefusedLookupsMoveNothing | internal/client/claude_queue_native.go:93-110 | a lookup without an attempt, for another thread or without an exactly bound session fails and leaves the cursor alone |
| ClaudeReceipt.LookupStartsWhere | internal/client/claude_queue_native.go:110-118 | another attempt starts over at the receipt offset, the same one goes on |
| ClaudeReceipt.RowLimitExactly | internal/client/claude_queue_native.go:117-121 | a lookup gives up on a row exactly when it is the next one, has no end within the budget, and goes on behind it; a row of 16 MiB also where the transcript ends |
| ClaudeReceipt.PollDecides | internal/client/claude_queue_native.go:93-126 | where the rows fit the budget, calling again while the budget cuts the scan short ends, and ends with the answer of one unbounded scan, wherever earlier calls had left the cursor |
| ClaudeSubmit.WriteMessage | internal/client/claude_socket.go:79-94 | the stage is uncertain from before the write on, and submitted exactly when all bytes went out with the context still live; nothing is written when the context had ended |
| ClaudeSubmit.SubmitSocket | internal/client/claude_socket.go:42-77 | the message write is begun exactly when the target and the envelopes are in order, the other side is reached, validated and takes the whole authentication, and the context lasts until then; it is submitted exactly when the message goes out whole and the context lasts one check longer |
| ClaudeSubmit.WrappersClassify | internal/client/daemon_claude.go:26-52 | a rejection and an awaited receipt around an elementary error are never taken for each other |
| ClaudeSubmit.ProofsByHarness | internal/client/daemon_claude.go:37-52 | each adapter has its own proof that nothing was submitted, code -32600 for codex, which is also the absent name, and the proof of one is none for another |
| ClaudeSubmit.Enqueue | internal/client/claude_queue_native.go:58-91 | never returns nil; its error proves nothing was submitted exactly when the message write was not begun, and is a clean write exactly when the whole message went out in time; the write is begun exactly when the session is bound and current, the credential is there and the submission is admitted |
| ClaudeSubmit.RunFenced | internal/client/daemon.go:1056-1226 | once a write was begun, the records in memory and on disk both remember it, through failed saves and crashes |
| ClaudeSubmit.DeliverySettles | internal/client/daemon.go:1150-1226 | a delivery whose saves go through leaves the attempt on record when its write was begun, with the time of a clean one, and frees the line when it was not |
| ClaudeSubmit.DeliveryInterrupted | internal/client/daemon.go:1150-1226 | nothing is sent before the attempt is on record, a failed save leaves at most the disk with it, and a crash behind the write leaves it on record in memory and on disk |
| ClaudeSubmit.PendingIsNotDelivered | internal/client/daemon.go:1056-1150 | while an attempt is pending or the message accepted, nothing is delivered |
| ClaudeSubmit.LookupSettles | internal/client/daemon.go:1056-1150 | a lookup settles a pending record exactly when it finds the receipt, as far as the save goes |
| ClaudeSubmit.AcceptedStays | internal/client/daemon.go:1056-1226 | what was accepted stays accepted through every run |
| ClaudeSubmit.WrittenAtMostOnce | internal/client/daemon.go:1056-1226 | over any ticks, failed saves and crashes, the write of one message is begun at most once |
| ClaudeSubmit.UntruthfulReleaseDuplicates | internal/client/daemon_claude.go:37-52 | the fence rests on the classification: releasing an attempt whose write had begun would begin it twice |
| ClaudeSubmit.WaitingMeansWritten | internal/client/daemon_claude.go:16-24 | a message is reported as awaiting its receipt only if its write was begun |
| ClaudeSubmit.AwaitedForAMinute | internal/client/daemon_claude.go:16-24 | a clean write is reported as awaiting its receipt for sixty seconds and as uncertain from then on, any other pending one as uncertain at once |
| Compaction.ReadRolloutLine | internal/client/daemon_compaction.go:156-169 | however a record falls across the read buffers, it is read, left as a tail, or refused as too long, by its own bytes alone |
| Compaction.DrainTurn | internal/client/daemon_compaction.go:96-125 | one turn of the drain: a record passed counts once, an invalid one discards the batch, and the byte limit ends it |
| Compaction.BatchIsBounded | internal/client/daemon_compaction.go:96-125 | a batch passes at most 256 records |
| Compaction.NextRecordExactly | internal/client/daemon_compaction.go:156-169 | a record ends with the first newline unless it is longer than 64 MiB, and a tail is left alone until it is longer than that |
| Compaction.BatchEndsExactly | internal/client/daemon_compaction.go:95-125 | a batch ends at 256 records, at the first record that ends 8 MiB or more behind its start, or before a tail, whatever comes first |
| Compaction.ReadOn | internal/client/daemon_compaction.go:95-125 | a pass reads the batch the reference drain names, with exactly one notice for each compaction of a local connection, or nothing at all when a notice cannot be prepared |
| Compaction.Daemon.SaveBaseline | internal/client/daemon_compaction.go:69-88 | a file that is not the one observed so far is not replayed: the cursor goes to its last line boundary and the counter stays, in one save |
| Compaction.Daemon.CountOn | internal/client/daemon_compaction.go:89-135 | cursor, counter and notices reach memory and disk together, or not at all, for every outcome of the save |
| Compaction.Daemon.ObserveCompaction | internal/client/daemon_compaction.go:24-135 | a whole pass, with every early return and both saves, changes the two records as the reference pass does |
| Compaction.DrainFrom | internal/client/codexbridge_compaction.go:95-119 | the bridge's own loop reads the batch that the daemon's does |
| Compaction.BridgeStep | internal/client/codexbridge_compaction.go:74-120 | the bridge's step returns the reference cursor and count, for a first look, a replaced file and a shorter one too |
| Compaction.RolloutCompleteEnd | internal/client/daemon_compaction.go:171-188 | the backward chunked search finds one past the last newline of the captured size, or 0, for every content and size |
| Compaction.CompleteTranscriptOffset | internal/client/claudeconnect_identity.go:242-256 | the other backward search finds the same offset, and is an error exactly when there is no complete line or the file is shorter than captured |
| CompactionRuns.AdvanceCounted | internal/client/daemon_compaction.go:92-133 | reading on from a counted record counts exactly what it passes |
| CompactionRuns.CountedExactlyOnce | internal/client/daemon_compaction.go:24-135 | over any run of appends, restarts, failed or half-succeeded saves, other presence traffic and passes, in memory and on disk, the counter has grown by exactly the compacted lines before the cursor, and a local connection has exactly that many notices |
| CompactionRuns.BaselineStartsCount | internal/client/daemon_compaction.go:69-88 | a first pass starts such a run and counts nothing that was there before |
| CompactionRuns.WatchedExactly | internal/client/daemon_compaction.go:22-88 | which connections a first pass passes over, and that it saves a baseline for every other one |
| CompactionRuns.DisconnectedPassOnlyMoves | internal/client/daemon_compaction.go:67-88 | while a connection is disconnected a pass counts and notes nothing, and moves the cursor to the last line boundary as far as the save goes |
| CompactionRuns.BatchesCountAll | internal/client/daemon_compaction.go:95-125 | passes of at most 256 records and about 8 MiB together consume every complete line and count what one unlimited pass would |
| CompactionRuns.AgreeStep | internal/client/codexbridge_compaction.go:74-120 | from the same cursor, one look takes daemon and bridge to the same cursor and count if and only if the daemon, on a local connection, has room for its notices |
| CompactionRuns.DaemonAndBridgeAgree | internal/client/codexbridge_compaction.go:74-120 | over any list of looks at rollouts that grow, shrink, are replaced or cannot be read, with notices sent off in between, daemon and bridge reach the same cursor and count the same compactions while every look finds room for its notices |
| CompactionRuns.SilentKeepsUp | internal/client/daemon_compaction.go:111-117 | a connection that notifies nobody always does |
| CompactionProgress.BridgeCatchesUp | internal/client/codexbridge_compaction.go:74-120 | as many looks at a file that stays as it is as there are batches take the bridge to the end of all batches with all their compactions |
| CompactionProgress.DaemonCatchesUp | internal/client/daemon_compaction.go:24-135 | where no batch has more compactions than the outbox holds, as many passes as there are batches, with the outbox sent off in between, take the daemon to the last line boundary with every compaction counted, and the bridge to the same |
| CompactionProgress.ProgressExactlyWhenNoticesFit | internal/client/daemon_compaction.go:110-133 | a pass over a healthy batch moves the cursor exactly when its notices fit the outbox; otherwise it changes nothing |
| CompactionProgress.BurstIsNeverPassed | internal/client/daemon_presence.go:250-290 | one pass over a batch with more compactions than the outbox holds is refused as a whole, whatever the state of the outbox |
| CompactionProgress.BurstExists | internal/client/daemon_compaction.go:95-125 | whatever a compacted record looks like and whatever was read before, 129 copies of it behind the cursor, within the byte limit of a batch, are such a batch, and a pass over them changes nothing |
| CompactionProgress.BlockedForever | internal/client/daemon_compaction.go:24-135 | over any run of appends, restarts, sent notices, other presence traffic, failed or half-succeeded saves and passes: where the batch at the cursor is broken or, on a local connection, has more compactions than the outbox holds, the records in memory and on disk keep that cursor and count for good |
| CompactionProgress.StuckExactlyWhenBlocked | internal/client/daemon_compaction.go:24-135 | with a complete record behind the cursor of a watched rollout, every run leaves the cursor where it is if and only if the batch there is blocked in this way; otherwise sending the outbox off and one pass move it |
| CompactionProgress.BurstStopsTheCount | internal/client/daemon_compaction.go:95-135 | 129 copies of any compacted record behind the cursor of a local connection stop its count for good, in every run |
| CompactionProgress.BadRecordIsNeverPassed | internal/client/daemon_compaction.go:96-109 | one record that is not JSON, or longer than a record may be, stops the count for good: in no run does the record in memory or on disk pass it, wherever before it they stood |
| Jsonc.ScanJSONC | cmd/cbus/install_opencode.go:197-245 | the scan loop with its inner loops computes the reference pass on every input, including unterminated strings and comments |
| Jsonc.StripJSONC | cmd/cbus/install_opencode.go:184-192 | the two passes, and the failure of the first one |
| Jsonc.StringEndExactly | cmd/cbus/install_opencode.go:204-213 | from inside a string literal, the closing quote is the one that only units precede, a unit being a byte other than a quote and a backslash, or a backslash with any byte behind it |
| JsoncText.ScanMeaning | cmd/cbus/install_opencode.go:197-245 | any bytes, JSON or not, cut into string literals, comments and single bytes: a pass keeps of each piece what it says, dropping comments in one mode and, in the other, each comma that only white space separates from a close |
| JsoncText.TextInPieces | cmd/cbus/install_opencode.go:197-245 | and any bytes can be so cut, up to a tail that may be an open string or comment |
| JsoncText.ScanFailsExactly | cmd/cbus/install_opencode.go:194-196 | a pass fails exactly on texts that end in a string or a block comment that is never closed: these are never silently dropped, and nothing else is an error |
| Jsonc.CommentPassIdempotent | cmd/cbus/install_opencode.go:197-245 | for any bytes at all, the comment pass applied to its own output changes nothing |
| JsoncLayout.CommentPassRenders | cmd/cbus/install_opencode.go:197-245 | the comment pass turns any layout into the same layout without its comments, a line comment leaving its newline |
| JsoncLayout.CommaPassRenders | cmd/cbus/install_opencode.go:197-245 | the comma pass turns a layout without comments into the same layout without the commas that stand before a close |
| JsoncLayout.StrictValue | cmd/cbus/install_opencode.go:184-192 | for every value, dropping the commas before closes drops exactly its optional trailing commas |
| JsoncLayout.LexRender | cmd/cbus/install_opencode.go:184-192 | a layout without comments reads as its tokens, which ties the bytes to their meaning |
| JsoncLayout.StripKeepsTokens | cmd/cbus/install_opencode.go:184-245 | for every value and every layout of it with white space, comments and optional trailing commas, stripping succeeds and what comes out reads as exactly the strict tokens of the value, string literals with any escapes byte for byte |
| JsoncLayout.StrictUnchanged | cmd/cbus/install_opencode.go:184-245 | strict JSON comes back unchanged, white space included |
| JsoncCommas.ClosesSoonAfterPass | cmd/cbus/install_opencode.go:197-245 | after the comma pass a close comes next exactly when it did before, or when the pass dropped the one comma in front of it |
| JsoncCommas.CommaPassFixedPoint | cmd/cbus/install_opencode.go:197-245 | the comma pass leaves its own output alone if and only if no two commas stand before a close with only white space between them |
| JsoncCommas.StackTakesTwoPasses | cmd/cbus/install_opencode.go:197-245 | `[1,,]` is an input on which it does not: the first pass leaves `[1,]`, the second `[1]` |
| WebSocket.MaskedTwice | internal/client/codexws.go:292-296 | masking with a key is undone by masking with the same key |
| WebSocket.XorIsBitwise | internal/client/codexws.go:292-296 | the exclusive or of two bytes has each bit set exactly when it is set in one of them |
| WebSocket.HeaderOnTheWire | internal/client/codexws.go:273-287 | the header byte by byte: final bit and opcode, mask bit and length or form, and the length with its highest byte first |
| WebSocket.BodyOnTheWire | internal/client/codexws.go:288-297 | behind it the key and the payload, byte i masked with byte i modulo 4 of the key |
| WebSocket.EncodeParts | internal/client/codexws.go:271-304 | a frame is its header and its body |
| WebSocket.BigEndianInverse | internal/client/codexws.go:282-287 | a length that fits its field is read back from its big-endian bytes |
| WebSocket.LengthIsShortest | internal/client/codexws.go:277-287 | no length form that can hold the length is shorter than the one written |
| WebSocket.WrittenIsRead | internal/client/codexws.go:308-356 | a written frame is read back whatever precedes and follows it, masked or not, and exactly its bytes are consumed |
| WebSocket.TooLargeIsRefused | internal/client/codexws.go:328-338 | a 64-bit length over 16 MiB is refused from the header alone |
| WebSocket.RoundTrip | internal/client/codexws.go:271-356 | for every sequence of frames up to the limit and any keys, reading the concatenated bytes gives back the sequence and consumes exactly those bytes |
| WebSocketIO.ReadFull | internal/client/codexws.go:358-368 | however the stream is cut into reads, the buffer is filled with the next bytes, or the stream was too short |
| WebSocketIO.Unmask | internal/client/codexws.go:350-354 | in-place unmasking is the masking of section 5.3 of RFC 6455 on the whole payload |
| WebSocketIO.ReceiveFrame | internal/client/codexws.go:306-356 | reading a frame gives the reference frame for every way the stream is cut into reads, and takes exactly its bytes |
| WebSocketIO.WriteFrame | internal/client/codexws.go:271-304 | the two writes send a whole masked frame, or exactly a proper prefix of it when the connection takes no more |
| WebSocketMessages.DispatchLines | internal/client/codexws.go:193-197 | every line of a payload that is not blank is dispatched, once and in order |
| WebSocketMessages.SplitExactly | internal/client/codexws.go:193 | the pieces of a payload are the one list without newlines in it that, joined by newlines, is the payload |
| WebSocketMessages.LinesOfOne | internal/client/codexws.go:193-197 | a payload without a newline is dispatched as one line, unless it is blank |
| WebSocketMessages.LinesOfMore | internal/client/codexws.go:193-197 | a payload with a newline is dispatched as what is before it and then what is behind it |
| WebSocketMessages.ReadLoop | internal/client/codexws.go:162-199 | the loop over any stream does what the reference loop does with the frames of that stream up to a close, and pings are answered in order while the connection takes what is written |
| WebSocketMessages.CloseEndsTheLoop | internal/client/codexws.go:177-178 | a close frame ends the loop, whatever comes behind it |
| WebSocketMessages.UnnamedIsDispatched | internal/client/codexws.go:170-197 | a frame with an opcode that RFC 6455 does not name is dispatched as a message and leaves one in pieces alone |
| WebSocketMessages.PongsAreRead | internal/client/codexws.go:171-173 | what is sent in answer to pings reads as one final pong for each, with its payload, in order |
| WebSocketMessages.OnPieces | internal/client/codexws.go:179-191 | a message in any number of pieces with control frames in between is dispatched once, as the concatenation of its pieces |
| WebSocketMessages.ReassemblyDispatchesMessages | internal/client/codexws.go:162-199 | for every list of messages, every way of cutting them into continuation frames and every interleaving of control frames, the same lines are dispatched as for the whole messages, and every ping is answered in order |
| WebSocketMessages.WireToLines | internal/client/codexws.go:162-199 | the same from the bytes on the wire to the dispatched lines |
| RpcDemux.Calls.Allocate | internal/client/codexws.go:123-126 | the lock section that hands out an id |
| RpcDemux.Calls.Take | internal/client/codexqueue.go:328-331 | the reader's lock section finds and removes an entry in one step and leaves the others alone |
| RpcDemux.Calls.Forget | internal/client/codexws.go:156-160 | a caller that gives up removes its own entry only |
| RpcDemux.StepKeepsInv | internal/client/codexws.go:120-234 | every step of callers and reader, in either client, keeps the invariant: ids in order, entries leading to their callers, at most one send per channel ever, own responses only, no entry left behind by a caller that returned |
| RpcDemux.RunKeepsInv | internal/client/codexqueue.go:255-341 | so does every run |
| RpcDemux.NotesDisturbNothing | internal/client/codexqueue.go:313-323 | in either client, a run with notifications in it, or for the bridge with anything that is no response, ends in the state of the run without them |
| RpcDemux.BadMessageEndsQueue | internal/client/codexqueue.go:310-327 | no JSON, a request, or a response without an id or an answer ends a queue at once |
| RpcDemux.NothingIsReadBehindTheEnd | internal/client/codexqueue.go:301-341 | behind the end of its stream, and for a queue behind a message that ends it, a client stays closed and reads nothing more in any run; no entry and no caller is touched by it |
| RpcDemux.ResponseFindsItsCaller | internal/client/codexqueue.go:328-334 | in every run the first response read for a caller that still waits or writes is on its way to that caller |
| RpcDemux.TimeoutClosesQueueOnly | internal/client/codexqueue.go:289-291 | a timeout closes a queue for all its callers and a bridge connection for none |
| RpcDemux.IdsAreUnique | internal/client/codexws.go:123-126 | in every run no id is used twice |
| RpcDemux.ReaderNeverBlocks | internal/client/codexws.go:219-225 | in every run, whatever duplicates arrive, the send the reader is about to make can be made at once |
| RpcDemux.OnlyOwnResponse | internal/client/codexqueue.go:328-334 | in every run a channel is sent to at most once, and a call that is answered is answered with a response to its own id |
| RpcDemux.DeliveredReachesCaller | internal/client/codexqueue.go:276-294 | in a queue, whoever closes it and whoever else times out, a delivered response stays with its caller until it is received, unless that caller's own timer fires or its own write fails |
| RpcDemux.ReadBeforeEndArrives | internal/client/codexqueue.go:276-341 | in a queue that nobody else closes, every response read for a caller, waiting or still writing, is received or on its way, even with the end of the stream right behind it |
| RpcDemux.ReadResponseIsTheAnswer | internal/client/codexqueue.go:276-341 | in any run: a response read while the queue is open, and sent before anybody else closes it, is what the call returns, whatever happens after the send, unless the caller's own timer fires or its own write fails |
| RpcDemux.QueueLosesExactlyWhenClosedBeforeSent | internal/client/codexqueue.go:276-341 | a response that was read for a caller of a queue can be lost, without any further close or timer, exactly when the queue is closed before the reader has sent it |
| RpcDemux.QueueLosesReadResponse | internal/client/codexqueue.go:328-334 | a concrete run from the start: the queue is closed between the reader's removal of the entry and its send, and the caller, whose timer never fires, is told that it closed |
| RpcDemux.ConnLosesExactlyWhenClosed | internal/client/codexws.go:142-153 | a bridge call whose response is already delivered can still say that the connection closed, exactly when it is closed by then |
| RpcDemux.ConnLosesDeliveredResponse | internal/client/codexws.go:142-153 | a concrete run from the start in which it does |
| CursorText.RoundTrip | internal/client/cursor.go:62-111 | for all 64-bit device and inode numbers and all offsets, the cursor text reads back as the written numbers |
| CursorText.PrintInjective | internal/client/cursor.go:101-111 | two positions with the same text are the same position |
| CursorText.ParseExactly | internal/client/cursor.go:62-99 | which texts read as a position and as which: three words, two of them 64-bit numbers and the third a number below 2^63 that may carry a sign but is not below zero |
| ListenerClaim.StartsAtZeroExactly | internal/client/cursor.go:132-149 | a follower starts at byte 0 whatever became of the inbox in every disk state but two kinds: a listener without a cursor, and a valid cursor further on |
| ListenerClaim.SeekEndExactly | internal/client/cursor.go:132-149 | it seeks the end exactly in the first of these; a damaged cursor never does |
| ListenerClaim.ResumeExactly | internal/client/cursor.go:132-146 | a written cursor resumes at its own offset while the inbox is the same file and no shorter, and at byte 0 otherwise, as a damaged one does |
| ListenerClaim.PeerDir.ClaimListener | internal/client/codexwrap.go:307-330 | at every crash point and for every combination of failed writes the claim goes only through states from which a follower starts at byte 0, and without failures it leaves both the seed and the listener |
| ListenerClaim.PeerDir.ArmMeta | internal/client/follow.go:173-204 | naming the listener skips a missing record and a daemon-managed one |
| ListenerClaim.SeedStartsAtZero | internal/client/codexwrap.go:324-327 | a seed that reads back is safe, which needs the round trip of its text |
| ListenerClaim.ClaimBeforeSeedSeeksEnd | internal/client/codexwrap.go:292-301 | with the two writes in the other order, a crash between them would lose what is queued |
| ListenerClaim.ClaimFreshPeer | internal/client/codexwrap.go:307-330 | for a freshly joined peer with no cursor and no listener, at every crash point and for every combination of failed writes of any number of claims, a follower starts at byte 0 and never seeks the end |
| ListenerClaim.ClaimAgainAndAgain | internal/client/codexwrap.go:307-330 | any number of interrupted claims one after the other is as safe as one |
| StopHook.ReadLines | internal/client/codexstophook.go:111-126 | the read loop returns the frames of the complete lines from the cursor on, and where the last one ends |
| StopHook.FrameOfLine | internal/client/codexstophook.go:113-119 | a line of presence, or one that does not render, gives no frame, any other one frame with its timestamp |
| StopHook.FramesConcat | internal/client/codexstophook.go:111-126 | the frames of lines behind one another are their frames behind one another |
| StopHook.StartOfExactly | internal/client/codexstophook.go:96-100 | a poll resumes where the cursor of the same file says if the file is still that long, and at byte 0 otherwise |
| StopHook.Inbox.ReadNewFrames | internal/client/codexstophook.go:91-130 | a poll returns what is new and moves the cursor behind it if it can be written, also when the inbox grows between its examination and the reading |
| StopHook.PollShows | internal/client/codexstophook.go:91-130 | a poll returns again what had been returned without being recorded, and then what is new |
| StopHook.PollMoves | internal/client/codexstophook.go:152-180 | the cursor behind a poll is on a line boundary and reads back as such |
| StopHook.RunKeepsInv | internal/client/codexstophook.go:91-130 | every run of appends and polls keeps that |
| StopHook.EveryLineIsReturned | internal/client/codexstophook.go:91-130 | after any run that ends with a poll, the frames of all complete lines have been returned, in order, at least once whichever cursor writes failed, and exactly once if none did |
| StopHook.ExactlyOnce | internal/client/codexstophook.go:91-130 | while every cursor write succeeds, at every moment what was returned is exactly the frames of the lines before the cursor |
| InboxMerge.SortSorts | internal/client/codexstophook.go:84 | the merge returns the same frames in order of their timestamps |
| InboxMerge.LeExactly | internal/client/codexstophook.go:84 | timestamps are compared by the first byte in which they differ, and a text comes before what it begins |
| InboxMerge.FlattenConcat | internal/client/codexstophook.go:78-83 | before the sort the frames of the inboxes follow one another in the order of the inboxes |
| InboxMerge.SortFilter | internal/client/codexstophook.go:84 | picking frames before or after the sort gives the same list, for any choice: the sort is stable |
| InboxMerge.SortIsTheStableOrder | internal/client/codexstophook.go:84 | there is one order that is sorted and keeps equal timestamps as they came, and the sort finds it, so the result is that of any stable sort |
| InboxMerge.CollectNewFrames | internal/client/codexstophook.go:78-86 | the frames of all registrations are what each poll returned, sorted, with each cursor moved |
| InboxMerge.InboxKeepsOrderExactly | internal/client/codexstophook.go:73-86 | an inbox keeps its own order in the merge exactly when its timestamps never decrease |
| InboxMerge.ClockStepReorders | internal/client/codexstophook.go:73-86 | one step back of a clock, between any two timestamps, swaps two frames of one inbox |
| TuiStatus.Handlers.StateOf | integrations/opencode/cbus-tui.js:75 | unknown while a refresh runs, else the recorded status, else idle |
| TuiStatus.Handlers.ReportState | integrations/opencode/cbus-tui.js:82-87 | watchers are sent changes only |
| TuiStatus.Handlers.BeginRefresh | integrations/opencode/cbus-tui.js:98-102 | a new read makes every earlier one stale, forgets what raced with it and cancels a scheduled retry |
| TuiStatus.Handlers.FinishRefresh | integrations/opencode/cbus-tui.js:103-124 | a stale or late answer changes nothing, a failure schedules a retry, and events that arrived meanwhile win over the answer |
| TuiStatus.Handlers.OnStatus | integrations/opencode/cbus-tui.js:125-155 | an event is recorded, also for a read under way, and reported when it is about the shown session and no read is under way |
| TuiStatus.Handlers.OnDeleted | integrations/opencode/cbus-tui.js:156-161 | a deletion forgets the session and is announced |
| TuiStatus.Handlers.Poll | integrations/opencode/cbus-tui.js:131-139 | a change of the shown session is announced with its state |
| TuiStatus.Handlers.Close | integrations/opencode/cbus-tui.js:284-294 | disposal happens once and cancels the retry |
| TuiStatus.StepKeepsInv | integrations/opencode/cbus-tui.js:93-166 | every event of the loop keeps the invariant: the refresh flag, the newest read and the retry agree, and the racing map holds the last status heard of each session since that read began |
| TuiStatus.UnknownExactlyWhileReading | integrations/opencode/cbus-tui.js:75 | in every run before disposal the state is unknown exactly while the newest read is outstanding or its retry is scheduled, and never both |
| TuiStatus.SupersededChangesNothing | integrations/opencode/cbus-tui.js:110 | whether, when and with what the server answers a read that is no longer the newest makes no difference to anything the plugin does in any later run |
| TuiStatus.RetriesBackOff | integrations/opencode/cbus-tui.js:111-117 | every failed read in a row doubles the delay of the next retry up to ten seconds, and a read that lands sets it back to a quarter of a second |
| TuiStatus.EventsAreAnnounced | integrations/opencode/cbus-tui.js:156-166 | reconnects, deletions and the end are announced as what they are, and a reconnect makes every state unknown |
| TuiStatus.RouteIsAnnouncedExactly | integrations/opencode/cbus-tui.js:129-139 | from the first read on, a poll announces the route exactly when it is another one than at that read or the poll before, with its state |
| TuiStatus.DisposedIsSilent | integrations/opencode/cbus-tui.js:284-294 | after disposal nothing is sent and no state changes, whatever reads still come in |
| TuiStatus.NewestReadLands | integrations/opencode/cbus-tui.js:117-121 | when the newest read lands, every session has the last status heard since that read began, else the value read, else idle |
| TuiStatus.DeletionIsForgottenExactly | integrations/opencode/cbus-tui.js:103-161 | in every run: compared with a map that remembers deletions, the landing of the newest read leaves a session different exactly when the last thing heard of it since the read began was its deletion and it was busy before, by what was last said about it or else by the answer |
| TuiStatus.DeletedSessionComesBack | integrations/opencode/cbus-tui.js:156-161 | a concrete run in which a busy session is deleted during the read after a reconnect and comes back busy |
| TuiStatus.StepInforms | integrations/opencode/cbus-tui.js:80-87 | once nothing is being read, watchers know the state of the shown session, and the only steps that end this are showing another session before the route is polled and deleting the shown session while it is not idle; each is told from the state before it |
| TuiStatus.VisitsInform | integrations/opencode/cbus-tui.js:131-139 | whatever sessions are shown in whatever order, with the route polled after each, watchers are informed after every act exactly as long as no session is deleted while shown and not idle |
| TuiStatus.FlipInformsExactly | integrations/opencode/cbus-tui.js:82-148 | a session is left and shown again before the route is polled, with any other events in between: after the poll watchers know its state exactly when a read is under way, or nobody new asked, no status was sent, and the session has the status that was reported before it was left |
| TuiStatus.FlipGoesUnnoticedExactly | integrations/opencode/cbus-tui.js:82-148 | from informed watchers: they stay informed exactly when the session has the status it had and nothing was sent or asked about other sessions meanwhile, or a read is under way |
| TuiStatus.FlipGoesUnnoticed | integrations/opencode/cbus-tui.js:131-148 | a concrete run of the first cause: the session becomes busy meanwhile, and watchers go on taking it for idle |
| TuiStatus.FlipLeavesTheOther | integrations/opencode/cbus-tui.js:131-148 | a concrete run of the second cause: watchers are told meanwhile that the other session is busy, and after the return to the first, idle all along, that stays the last thing they know |
| TuiStatus.Handlers.Open | integrations/opencode/cbus-tui.js:129-131 | the route is taken as shown when the first read has returned, and polled from there on |
| TuiStatus.StatusMessagesAreNews | integrations/opencode/cbus-tui.js:80-87 | a status message is about the shown session, says its present and known state, and differs from what watchers were told last |
| TuiStatus.RunInforms | integrations/opencode/cbus-tui.js:80-87 | watchers that are informed are informed throughout a run exactly when none of its steps is one of these two |
| OpencodeWatch.Daemon.StartWatch | internal/client/daemon_opencode_watch.go:26-46 | the lock section of a start: none while closing, none for the same endpoint, else the old watch is cancelled and the new one entered and counted |
| OpencodeWatch.Daemon.StopWatch | internal/client/daemon_opencode_watch.go:49-57 | a stop that nothing interrupts |
| OpencodeWatch.Daemon.Schedule | internal/client/daemon_opencode_watch.go:18-46 | a connection with nothing to stream loses its watch; any other goes through the start section with its present endpoint |
| OpencodeWatch.ScheduledIsWatchedExactly | internal/client/daemon_opencode_watch.go:18-46 | in every run: scheduling a connection that streams leaves it with a watch on its endpoint that is inside its loop and not cancelled exactly when it had one, or the daemon is not closing and the entry, if any, is for another endpoint |
| OpencodeWatch.LeavingWatchIsKept | internal/client/daemon_opencode_watch.go:34-66 | the other side as a concrete run: a watch leaves its loop, the connection is scheduled again, the watch cleans up, and the connection is left without any running watch |
| OpencodeWatch.Daemon.CleanUp | internal/client/daemon_opencode_watch.go:61-67 | a watch that ends removes its own entry only |
| OpencodeWatch.Daemon.Hint | internal/client/daemon_opencode_watch.go:90-102 | a hint for a known connection makes a probe due and ends its backoff |
| OpencodeWatch.Daemon.TakeProbeNow | internal/client/daemon_opencode_watch.go:105-111 | taking a due probe clears it |
| OpencodeWatch.StepKeepsInv | internal/client/daemon_opencode_watch.go:18-67 | every lock section, cancel, exit and shutdown keeps the invariant |
| OpencodeWatch.EveryWatchIsAccountedFor | internal/client/daemon_opencode_watch.go:18-67 | in every interleaving each running watch is the entry of the map, or cancelled, or held by a stop about to cancel it, or ended by the shutdown |
| OpencodeWatch.AtMostOneGoesOn | internal/client/daemon_opencode_watch.go:18-67 | so no connection has two watches that nobody has told to stop |
| OpencodeWatch.StoppedUntilStarted | internal/client/daemon_opencode_watch.go:49-57 | in every run, behind a stop no watch of its connection goes on untold until the connection is started again; uninterrupted, the stop cancels the one watch of the entry and touches no other |
| OpencodeWatch.CleanUpKeepsNewer | internal/client/daemon_opencode_watch.go:61-67 | through any run an entry stays until its own watch cleans up, a stop takes it or a start moves it to another endpoint; older watches that clean up late never remove it |
| OpencodeWatch.WorkersAreTheUnfinished | internal/client/daemon_opencode_watch.go:44-60 | the wait group counts exactly the watches that have not finished, and is empty exactly when all have |
| OpencodeWatch.ClosingAddsNoWorker | internal/client/daemon_opencode_watch.go:27-30 | once the daemon is closing, no run adds to the group its shutdown waits for |
| OpencodeWatch.HintsAreKept | internal/client/daemon_opencode_watch.go:90-111 | no hint is lost and none invented: a probe is due exactly when there was a hint for a connection known at that moment, with no probe of it behind |
| OpencodeWatch.HintsEndBackoff | internal/client/daemon_opencode_watch.go:90-102 | a connection is backed off exactly when a retry was scheduled for it and behind that neither the scheduler cleared it, nor the connection was removed, nor a hint came for it while known |
| QueuePages.FindPaged | internal/client/codexqueue.go:497-538 | the pagination loop with its seen set and page limit answers as the reference search |
| QueuePages.FirstWantedExactly | internal/client/codexqueue.go:446-538 | the first item with the client's id counts, in the history only if it is a user message |
| QueuePages.SearchGivesUp | internal/client/codexqueue.go:446-538 | a page that cannot be had, a match without an id and a cursor seen before end the search as such |
| QueuePages.PagedIsFlat | internal/client/codexqueue.go:497-538 | for every list, every page limit and every way of cutting the list into at most that many pages, the paged search answers as a search of the list in one piece; the first match wins |
| QueuePages.AbsentExactly | internal/client/codexqueue.go:441-482 | not-found is said exactly of a list that ends within the limit and has no match |
| QueuePages.LookupMessage | internal/client/codexqueue.go:446-482 | a receipt in the history wins over a queued duplicate, and not-found means both lists were read to their ends |
| QueuePages.RepeatedNeverEnds | internal/client/codexqueue.go:475-477 | a list whose cursor comes back never ends, so giving up on it misses no end |
| QueuePages.RepeatedIsEndless | internal/client/codexqueue.go:475-477 | when the search gives up on a repeated cursor, the list has no end, however many pages one were ready to read |
| QueuePages.QueueLog.Write | internal/client/codexqueue.go:546-560 | whatever the writes, the log holds the last 16 KiB of everything written |
| QueuePages.LastOfLast | internal/client/codexqueue.go:546-560 | keeping a tail and appending is keeping the tail of the whole |
| Coordinator.Coordinators.CoordinatorOf | internal/client/coordinator.go:52-66 | every miss reads the same, and only the session a record is bound to is spoken for |
| Coordinator.Coordinators.Write | internal/client/coordinator.go:122-155 | a launch replaces or removes the record and remembers what was there |
| Coordinator.Coordinators.TakeBack | internal/client/coordinator.go:138-154 | the undo puts back what was there only if what it wrote is still there |
| Coordinator.Coordinators.Settle | internal/client/coordinator.go:203-217 | the launched child binds a fresh unanswered record, a returning session keeps its own, anyone else inherits nothing |
| Coordinator.Coordinators.Move | internal/client/coordinator.go:225-232 | a rename takes the record along and leaves none of another session behind |
| Coordinator.StepKeepsInv | internal/client/coordinator.go:52-232 | every operation keeps each stored record, and each one an undo may bring back, genuine: written by a launch, for the session it named or the one that bound it in time |
| Coordinator.AnswerIsGenuine | internal/client/coordinator.go:52-66 | in every run of launches, undos, takeovers whose settling may fail, renames and clock steps, an address is answered only if a launch named it and the holder is the session that launch named or the one that bound its unanswered record within a day |
| Coordinator.NewHolderIsNotSpokenFor | internal/client/coordinator.go:60-65 | a stale record never speaks for a new holder, whether or not settling it worked |
| Coordinator.UnansweredLaunchUndoesSafely | internal/client/coordinator.go:138-154 | undoing a launch written without a session never discards a record that a session has bound |
| Coordinator.UndoDiscardsExactly | internal/client/coordinator.go:122-155 | some run lets the undo of a launch discard the answer of the session in the seat exactly when the launch named that session and what was there before does not answer the same |
| Coordinator.AddressExactly | internal/client/coordinator.go:94-97 | an address is a channel and an alias, cut at the first slash, both valid names |
| Coordinator.ChildInTimeIsAnswered | internal/client/coordinator.go:200-221 | the child of a launch that named no session is answered with its coordinator exactly when it takes the seat within a day and settling works |
| Coordinator.NamedSessionIsAnswered | internal/client/coordinator.go:200-214 | a session that a launch names is answered whenever it takes the seat, however often, and any other inherits nothing |
| Coordinator.NobodyAnswers | internal/client/coordinator.go:52-66 | a launch that names nobody and an empty seat leave no answer |
| Coordinator.UndoneLaunchLeavesNothing | internal/client/coordinator.go:138-155 | undoing a launch at once puts back what was there |
| Coordinator.RenameTakesTheAnswer | internal/client/coordinator.go:223-232 | a rename takes the answer along and leaves none behind |
| Coordinator.BootstrapNamesASession | internal/client/coordinator.go:122-137 | a bootstrap says nothing about a taken seat, and answers the session it names once that takes the seat |
| SymlinkWalk.ResolveLinkTarget | cmd/cbus/install_hooks.go:377-419 | the walk terminates by links left and components left, follows the reference walk, and no prefix of the path it returns is a link |
| SymlinkWalk.PartsExactly | cmd/cbus/install_hooks.go:389-415 | a link text, with or without a slash in front, has one component for each of the texts between its slashes: nothing or a dot stays, two dots go up, anything else is a name |
| SymlinkWalk.DescendParent | cmd/cbus/install_hooks.go:395-397 | in a file system without links on the way, taking away the last name leads to the parent directory |
| SymlinkWalk.LstatBelow | cmd/cbus/install_hooks.go:399-404 | one name below a path without links, a link is seen exactly when that entry of the directory is one |
| SymlinkWalk.WalkAgreesFrom | cmd/cbus/install_hooks.go:389-418 | from any directory the walk stands in, for any components, the walk and pathname resolution go the same way |
| SymlinkWalk.WalkAgreesWithResolution | cmd/cbus/install_hooks.go:377-419 | for every file system and path: where resolution finds a file the walk returns that file's own path, where it finds the last name missing in an existing directory the walk returns that name there, and more than forty links are refused by both |
| SymlinkWalk.WalkIsLinkFree | cmd/cbus/install_hooks.go:377-419 | the reference walk returns paths without links, whatever it starts from |
| SymlinkWalk.ResolvedIsFixed | cmd/cbus/install_hooks.go:377-419 | resolving a resolved path changes nothing |
| HooksMerge.PutKeepsOrder | cmd/cbus/install_hooks.go:27-42 | changing a setting moves and drops no other: keys stay in their order and a new one comes last |
| HooksMerge.FindHookCommand | cmd/cbus/install_hooks.go:142-235 | the loops over groups, entries and words find a working entry, and a dead one, exactly when there is one in any well-formed group, an entry being judged by its command and by which files are missing |
| HooksMerge.RepairSettles | cmd/cbus/install_hooks.go:270-290 | after a repair no entry of the verb is dead, and what was dead works |
| HooksMerge.EventSettles | cmd/cbus/install_hooks.go:243-331 | one event is settled in one go: behind an addition or a repair a working entry is there, none is dead, and merging again changes nothing |
| HooksMerge.AddedGroupExactly | cmd/cbus/install_hooks.go:294-312 | an event without an entry gets one group more, with the matcher, if there is one, and one command entry that runs this cbus for the verb |
| HooksMerge.MergeAdds | cmd/cbus/install_hooks.go:243-331 | the whole merge adds to such an event exactly that group, behind what is there |
| HooksMerge.MergeRefusesExactly | cmd/cbus/install_hooks.go:243-266 | a merge is refused exactly when the hooks are no object or an event it is for is no list |
| HooksMerge.MergeClaudeHooks | cmd/cbus/install_hooks.go:243-331 | the merge over all events writes what the merges of each event make of the settings as they were, refuses settings of the wrong shape, and writes nothing when nothing is to be done |
| HooksMerge.MergeSettles | cmd/cbus/install_hooks.go:243-331 | merging the output of a merge again changes nothing, for any settings, any machine and either mode |
| HooksMerge.RepairChangesCommands | cmd/cbus/install_hooks.go:270-290 | a repair leaves an entry alone unless it is dead, and then changes its command and nothing else |
| HooksMerge.RepairKeepsGroups | cmd/cbus/install_hooks.go:270-290 | a repair keeps the number and order of the groups and of their entries, and every other member of each group |
| HooksMerge.MergeRepairs | cmd/cbus/install_hooks.go:270-290 | a merge with repair adds no group to an event with a dead entry: it repairs the groups that are there |
| HooksMerge.MergeKeepsTheRest | cmd/cbus/install_hooks.go:243-331 | other settings and other events stay as they are, and without a repair every group that was there stays in front of the one that is added |
| HooksMerge.SharedSettingsAreNotAddedTo | cmd/cbus/install_hooks.go:198-331 | a settings file shared by several machines collects no entries: where one machine has added its own, a merge on any other one adds none |
| HookCommand.WrittenCommandRuns | cmd/cbus/install_hooks.go:354-375 | for every path of the program, with blanks, apostrophes or operators in it, every home directory and every home directory at run time, a shell reads the written command as exactly one program and the verb |
| HookCommand.WrittenCommandRunsItself | cmd/cbus/install_hooks.go:354-375 | that program is the one written for exactly when the home directory is the same, or the command was not written relative to it |
| HookCommand.SameCommandExactly | cmd/cbus/install_hooks.go:354-375 | two machines with cbus at the same place below their home directories write the same command exactly when the homes are the same, or the place is spelled in portable characters |
| HookCommand.WrittenCommandIsFound | cmd/cbus/install_hooks.go:137-230 | a command that some cbus wrote for its own program is recognised on every machine |
| HookCommand.WrittenCommandIsJudged | cmd/cbus/install_hooks.go:142-230 | it is taken for dead there exactly when the file is missing that a shell would start there, except that a path with an apostrophe is not judged |
| HookCommand.VerdictFollowsShell | cmd/cbus/install_hooks.go:162-196 | an entry below the home directory, with a tilde, `$HOME` or `${HOME}`, bare or in either kind of quotes, is dead exactly when a shell starts anything but that file or the file is missing, except for a home directory with a newline and no other blank in a path without quotes |
| CodexBridge.Bridge.TrackTurns | internal/client/codexbridge.go:179-200 | the tracker follows the reference for every list of notifications |
| CodexBridge.TrackedTurnIsOpen | internal/client/codexbridge.go:175-200 | from an idle start, the active turn is the one named last that nothing has ended since |
| CodexBridge.ForeignNotesChangeNothing | internal/client/codexbridge.go:202-210 | events of other threads never change which turn is steered |
| CodexBridge.Bridge.SteerWithRetry | internal/client/codexbridge.go:234-246 | at most four tries, all with the same turn and text, each but the last refused as not yet steerable |
| CodexBridge.Bridge.OpenTurn | internal/client/codexbridge.go:251-268 | at most three calls: a second start only behind a resume that worked or was refused because the thread is driven elsewhere; the text is accepted at most once, and the new turn remembered |
| CodexBridge.Bridge.Inject | internal/client/codexbridge.go:215-229 | whatever the server answers and whatever turns start and end meanwhile, even with a stale active turn: an active turn is steered first and only that one; only when four tries were refused as not steerable, or nothing is active, the text goes to a new turn; it is accepted at most once, success means it was, failure means it was not if every call was answered, and at most seven calls are made |
| CodexBridge.RefusalsOfTheLadder | internal/client/codexbridge.go:215-268 | the ladder goes on after three refusals only, each of code -32600 with its own phrase |
| CodexAsset.Installer.Install | cmd/cbus/install_codex_asset.go:20-70 | content first, receipt second, with every refusal and every failed write |
| CodexAsset.InstallsExactly | cmd/cbus/install_codex_asset.go:20-70 | without faults an install goes through exactly when nothing is there, it is forced, the content is there already, or the receipt is of the bytes that are there; anything else is skipped |
| CodexAsset.FaultsLeave | cmd/cbus/install_codex_asset.go:20-70 | an install with a fault in its way never says that it went through, and leaves what was there or the new content with the old receipt |
| CodexAsset.RunKeepsInv | cmd/cbus/install_codex_asset.go:20-70 | in every run of installs, crashes and user edits a receipt is of content that an install shipped, by writing it or finding it there, and going through to the end |
| CodexAsset.OnlyShippedBytesAreReplaced | cmd/cbus/install_codex_asset.go:20-70 | with injective hashes, an install without force replaces existing bytes only if an earlier install, one that went through, shipped them |
| CodexAsset.CrashFailsClosed | cmd/cbus/install_codex_asset.go:59-64 | a crash between the two writes is repaired by installing the same content again, and until then no other content replaces what is there |
| CodexAsset.UpgradesGoThrough | cmd/cbus/install_codex_asset.go:13-70 | completed installs upgrade each other without force |

## Left out

- Process inspection, sockets, ptys, file locks, credentials and the Windows variants: what the operating system does is a parameter or a choice.
- JSON parsing, SHA-256, frame rendering, `unicode` trimming of dispatched lines: abstract functions, so a change inside them is not seen.
- The notification channel of `codexConn`, which drops when full; the model only says that notifications never disturb responses.
- The WebSocket handshake; streams start behind it.
- RpcDemux.StepKeepsInv: one step is one lock section, channel operation or choice of a `select`; nothing smaller interleaves, as the locks ensure.
- ClaudeSubmit.WrittenAtMostOnce: the delivery loop is modelled for one inbox line at a time and for the Claude adapter; ownership checks that stop delivery before the enqueue are the same as a crash there.
- CompactionRuns.CountedExactlyOnce: a run is one rollout file without a disconnect; a replaced file starts a new count, as `Compaction.Daemon.SaveBaseline` states.
- CompactionRuns.DaemonAndBridgeAgree: the device number of the file does not change by a reboot, the file does not grow while one pass reads it, and the daemon's saves succeed; without these the daemon leaves its record alone where the bridge, which saves nothing, goes on. While notices find no room the two part, as `CompactionRuns.AgreeStep` states.
- QueuePages.PagedIsFlat: the pages do not change while one search reads them; what a search of a changing list promises is not stated.
- TuiStatus.Handlers.StateOf: the code writes the unknown state and a server status as strings; a server status whose text is `unknown` is taken to be different from the unknown state.
- TuiStatus.StepKeepsInv: before the first read has returned only the route may change, as no handler is registered yet.
- StopHook.EveryLineIsReturned: one epoch of one inbox; a rejoin, which truncates the inbox and with it what was not yet read, starts a new epoch.
- StopHook.ExactlyOnce: a file of 2^63 bytes or more, whose size no offset can express, is not modelled.
- InboxMerge.CollectNewFrames: the sort is a function with the result of `sort.SliceStable`, not its algorithm in place.
- OpencodeWatch.EveryWatchIsAccountedFor: the stream a watch reads is not modelled; a watch may leave its loop at any time.
- Coordinator.UndoDiscardsExactly: records that exist but cannot be read are not modelled; a record's JSON text and the record determine each other.
- SymlinkWalk.WalkAgreesWithResolution: the file system does not change during the walk and its directories form a tree; `filepath.Abs` has already cleaned the path textually, so the results are about the cleaned absolute path. Volume names are not modelled.
- CodexBridge.Bridge.Inject: an error object means that the text was not accepted, as the bridge takes it; what the server does with a call it never answers is open.
- CodexAsset.OnlyShippedBytesAreReplaced: only the installer writes receipts; a user may remove one.
- HooksMerge.FindHookCommand: decoding and encoding of the settings text is not modelled; paths are those of Unix, and which files are missing is a parameter.
- HookCommand.WrittenCommandRuns: of the shell only blanks, quotes, backslashes, a tilde in front of a slash and `HOME` are modelled; a command with anything else has no answer there, and none that cbus writes has.
- HookCommand.WrittenCommandIsJudged: the program's path is absolute, as the operating system reports it.
- HookCommand.VerdictFollowsShell: the path behind the home directory has only characters that mean themselves; the verdict on an entry written by hand with escapes in its path is not compared with a shell. A home directory with pattern characters is left out.
- Flag parsing, version comparison, address parsing, terminal layout, self-update and the printed text of the commands: mostly settled by reading one branch.
- The follower, the relay, the daemon's scheduler and garbage collection beyond the contracts used here.
