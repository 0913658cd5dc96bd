/** Injecting a bus message into a Codex thread, `codexbridge.go`: the ladder from steering the
    active turn to opening a new one, and the tracking of which turn is active. */
module CodexBridge {
  import opened Wrappers

  const STEER_RETRIES: nat := 4

  type Turn = string

  const NO_TURN: Turn := ""

  // ---- the other side ----

  datatype Call = Steer(turn: Turn, text: string) | StartTurn(text: string) | Resume

  /** An error object: its code and which of the known phrases its message contains. */
  datatype RpcError = RpcError(code: int, noActiveTurn: bool, threadNotFound: bool, activeWriter: bool)

  /** A result with the turn it names, an error object, or no answer at all, in which case the
      text may or may not have been taken. */
  datatype Reply = Ok(turn: Turn) | Rejected(error: RpcError) | Unanswered(taken: bool)

  predicate NoActiveTurn(r: Reply) {
    r.Rejected? && r.error.code == -32600 && r.error.noActiveTurn
  }

  predicate ThreadNotFound(r: Reply) {
    r.Rejected? && r.error.code == -32600 && r.error.threadNotFound
  }

  predicate WriterHeld(r: Reply) {
    r.Rejected? && r.error.code == -32600 && r.error.activeWriter
  }

  /** The ladder goes on after three refusals only, all of them "invalid request" errors with their
      own phrase; any other error ends it. */
  lemma RefusalsOfTheLadder(e: RpcError)
    ensures NoActiveTurn(Rejected(e)) <==> e.code == -32600 && e.noActiveTurn
    ensures ThreadNotFound(Rejected(e)) <==> e.code == -32600 && e.threadNotFound
    ensures WriterHeld(Rejected(e)) <==> e.code == -32600 && e.activeWriter
    ensures forall r: Reply :: !r.Rejected? ==> !NoActiveTurn(r) && !ThreadNotFound(r) && !WriterHeld(r)
  {
  }

  /** The call put its text into the thread. */
  predicate Accepts(c: Call, r: Reply) {
    !c.Resume? && (r.Ok? || (r.Unanswered? && r.taken))
  }

  /** What was asked and answered, in order. */
  datatype Exchange = Exchange(call: Call, reply: Reply)

  function Accepted(log: seq<Exchange>): seq<string> {
    if log == [] then []
    else
      var last := log[|log| - 1];
      Accepted(log[..|log| - 1]) +
      if !Accepts(last.call, last.reply) then []
      else match last.call case Steer(_, text) => [text] case StartTurn(text) => [text]
  }

  predicate AllAnswered(log: seq<Exchange>) {
    forall x <- log :: !x.reply.Unanswered?
  }

  // ---- which turn is active ----

  /** A notification of the stream; `own` says that it carries this bridge's thread id. */
  datatype Note = Started(own: bool, turn: Turn) | Completed(own: bool, turn: Turn) | OtherNote

  function Track(active: Turn, n: Note): Turn {
    match n
    case Started(own, turn) => if own && turn != NO_TURN then turn else active
    case Completed(own, turn) => if own && (turn == NO_TURN || turn == active) then NO_TURN else active
    case OtherNote => active
  }

  function TrackAll(active: Turn, ns: seq<Note>): Turn {
    if ns == [] then active else Track(TrackAll(active, ns[..|ns| - 1]), ns[|ns| - 1])
  }

  predicate Starts(n: Note) {
    n.Started? && n.own && n.turn != NO_TURN
  }

  predicate Ends(n: Note, turn: Turn) {
    n.Completed? && n.own && (n.turn == NO_TURN || n.turn == turn)
  }

  /** The note at `i` names the turn, and nothing after it names another one or ends it. */
  predicate LastNamed(ns: seq<Note>, i: nat, turn: Turn) {
    i < |ns| && Starts(ns[i]) && ns[i].turn == turn && forall j :: i < j < |ns| ==> !Starts(ns[j]) && !Ends(ns[j], turn)
  }

  /** From an idle start, the tracked turn is the one named last that nothing has ended since. */
  lemma {:induction false} TrackedTurnIsOpen(ns: seq<Note>, turn: Turn)
    requires turn != NO_TURN
    ensures TrackAll(NO_TURN, ns) == turn <==> exists i: nat :: LastNamed(ns, i, turn)
  {
    if ns != [] {
      var n := |ns| - 1;
      TrackedTurnIsOpen(ns[..n], turn);
      if i: nat :| LastNamed(ns, i, turn) {
        assert i < n ==> LastNamed(ns[..n], i, turn);
      }
      if i: nat :| LastNamed(ns[..n], i, turn) && !Starts(ns[n]) && !Ends(ns[n], turn) {
        assert LastNamed(ns, i, turn);
      }
      if Starts(ns[n]) && ns[n].turn == turn {
        assert LastNamed(ns, n, turn);
      }
    }
  }

  function Own(ns: seq<Note>): seq<Note> {
    if ns == [] then []
    else
      var last := ns[|ns| - 1];
      Own(ns[..|ns| - 1]) + if (last.Started? || last.Completed?) && last.own then [last] else []
  }

  /** Other threads' events never change which turn is steered. */
  lemma {:induction false} ForeignNotesChangeNothing(active: Turn, ns: seq<Note>)
    ensures TrackAll(active, ns) == TrackAll(active, Own(ns))
  {
    if ns != [] {
      var n := |ns| - 1;
      ForeignNotesChangeNothing(active, ns[..n]);
      var own := Own(ns[..n]);
      assert (own + [ns[n]])[..|own|] == own && own + [] == own;
    }
  }

  // ---- inject ----

  /** The bridge and its connection. `script` is how the server will answer, and `meanwhile` what
      the tracker handles while a call is under way. */
  class Bridge {
    var activeTurn: Turn
    var log: seq<Exchange>
    const script: nat -> Reply
    const meanwhile: nat -> seq<Note>

    constructor (activeTurn: Turn, script: nat -> Reply, meanwhile: nat -> seq<Note>)
      ensures this.activeTurn == activeTurn && this.script == script && this.meanwhile == meanwhile && log == []
    {
      this.activeTurn, this.script, this.meanwhile, log := activeTurn, script, meanwhile, [];
    }

    method TrackTurns(ns: seq<Note>)
      modifies this`activeTurn
      ensures activeTurn == TrackAll(old(activeTurn), ns)
    {
      for i := 0 to |ns|
        invariant activeTurn == TrackAll(old(activeTurn), ns[..i])
      {
        assert ns[..i + 1][..i] == ns[..i];
        match ns[i] {
          case Started(own, turn) =>
            if own && turn != NO_TURN {
              activeTurn := turn;
            }
          case Completed(own, turn) =>
            if own && (turn == NO_TURN || activeTurn == turn) {
              activeTurn := NO_TURN;
            }
          case OtherNote =>
        }
      }
      assert ns[..|ns|] == ns;
    }

    method Ask(c: Call) returns (r: Reply)
      modifies this
      ensures log == old(log) + [Exchange(c, r)]
      ensures Accepted(log) == Accepted(old(log)) +
                               if !Accepts(c, r) then []
                               else match c case Steer(_, text) => [text] case StartTurn(text) => [text]
    {
      hide Accepted;
      r := script(|log|);
      AcceptedTurn(log, c, r);
      TrackTurns(meanwhile(|log|));
      log := log + [Exchange(c, r)];
    }

    /** Steering one turn, as often as it is not steerable yet. */
    method SteerWithRetry(turn: Turn, text: string) returns (r: Reply)
      modifies this
      ensures 0 < |log| - |old(log)| <= STEER_RETRIES && old(log) <= log
      ensures forall i :: |old(log)| <= i < |log| ==> log[i].call == Steer(turn, text)
      ensures forall i :: |old(log)| <= i < |log| - 1 ==> NoActiveTurn(log[i].reply)
      ensures log[|log| - 1].reply == r
      ensures NoActiveTurn(r) ==> |log| - |old(log)| == 4
      ensures Accepted(log) == Accepted(old(log)) + if Accepts(Steer(turn, text), r) then [text] else []
    {
      hide Accepted;
      r := Ok(NO_TURN);
      for i := 0 to STEER_RETRIES
        invariant |log| == |old(log)| + i && old(log) <= log
        invariant forall k :: |old(log)| <= k < |log| ==> log[k].call == Steer(turn, text) && NoActiveTurn(log[k].reply)
        invariant i > 0 ==> log[|log| - 1].reply == r
        invariant Accepted(log) == Accepted(old(log))
      {
        r := Ask(Steer(turn, text));
        if r.Ok? || !NoActiveTurn(r) {
          return;
        }
      }
    }

    /** Opening a new turn, with one resume in between if the thread is not loaded. */
    method OpenTurn(text: string) returns (r: Reply)
      modifies this
      ensures 0 < |log| - |old(log)| <= 3 && old(log) <= log
      ensures var n := |old(log)|;
              && log[n].call == StartTurn(text) && (|log| - n > 1 <==> ThreadNotFound(log[n].reply))
              && (|log| - n > 1 ==> log[n + 1].call == Resume
                                    && (|log| - n == 3 <==> log[n + 1].reply.Ok? || WriterHeld(log[n + 1].reply)))
              && (|log| - n == 3 ==> log[n + 2].call == StartTurn(text))
      ensures log[|log| - 1].reply == r
      ensures Accepted(log) == Accepted(old(log)) + if Accepts(log[|log| - 1].call, r) then [text] else []
      ensures r.Ok? ==> log[|log| - 1].call == StartTurn(text) && (r.turn != NO_TURN ==> activeTurn == r.turn)
    {
      hide Accepted;
      r := Ask(StartTurn(text));
      if ThreadNotFound(r) {
        var resumed := Ask(Resume);
        if !resumed.Ok? && !WriterHeld(resumed) {
          return resumed;
        }
        r := Ask(StartTurn(text));
      }
      if r.Ok? && r.turn != NO_TURN {
        activeTurn := r.turn;
      }
    }

    /** `inject`: whatever the server answers and whatever turns start and end meanwhile, the
        text is accepted at most once; success means that it was; and if every call is answered,
        failure means that it was not. The turn that was active may be long over. */
    method Inject(text: string) returns (ok: bool)
      modifies this
      ensures old(log) <= log && 0 < |log| - |old(log)| <= STEER_RETRIES + 3
      ensures Accepted(log) == Accepted(old(log)) || Accepted(log) == Accepted(old(log)) + [text]
      ensures ok ==> Accepted(log) == Accepted(old(log)) + [text]
      ensures AllAnswered(log[|old(log)|..]) && !ok ==> Accepted(log) == Accepted(old(log))
      ensures ok <==> log[|log| - 1].reply.Ok? && !log[|log| - 1].call.Resume?
      ensures log[|old(log)|].call == if old(activeTurn) == "" then StartTurn(text) else Steer(old(activeTurn), text)
      ensures old(activeTurn) != "" ==>
                var n := |old(log)|;
                && (|log| - n > 4 <==> |log| - n >= 4 && forall i :: n <= i < n + 4 ==> NoActiveTurn(log[i].reply))
                && (|log| - n > 4 ==> log[n + 4].call == StartTurn(text))
                && forall i :: n <= i < |log| && i < n + 4 ==> log[i].call == Steer(old(activeTurn), text)
    {
      hide Accepted;
      ghost var before := Accepted(log);
      assert before + [] == before;
      var turn := activeTurn;
      if turn != NO_TURN {
        var r := SteerWithRetry(turn, text);
        if r.Ok? {
          return true;
        }
        if !NoActiveTurn(r) {
          assert log[|old(log)|..][|log| - 1 - |old(log)|] == log[|log| - 1];
          return false;
        }
      }
      assert Accepted(log) == Accepted(old(log));
      var reply := OpenTurn(text);
      assert log[|old(log)|..][|log| - 1 - |old(log)|] == log[|log| - 1];
      ok := reply.Ok?;
    }
  }

  lemma AcceptedTurn(log: seq<Exchange>, c: Call, r: Reply)
    ensures Accepted(log + [Exchange(c, r)]) ==
            Accepted(log) + if !Accepts(c, r) then []
                            else match c case Steer(_, text) => [text] case StartTurn(text) => [text]
  {
    assert (log + [Exchange(c, r)])[..|log|] == log;
  }
}
