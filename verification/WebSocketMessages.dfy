/** Reassembly in `readLoop` of `codexws.go`: whatever way messages are cut into frames, and
    whatever control frames come in between, the same lines are dispatched (section 5.4 of
    RFC 6455). */
module WebSocketMessages {
  import opened Bytes
  import opened WebSocket
  import opened WebSocketIO
  import opened Wrappers

  const CONT: Byte := 0
  const TEXT: Byte := 1
  const BINARY: Byte := 2
  const CLOSE: Byte := 8
  const PING: Byte := 9
  const PONG: Byte := 10

  // ---- the lines of one message ----

  /** The pieces between newlines, the last one included even when nothing follows. */
  function Split(s: Bytes, from: nat): seq<Bytes>
    requires from <= |s|
    decreases |s| - from
  {
    var e := NextNewline(s, from);
    if e == |s| then [s[from..]] else [s[from..e]] + Split(s, e + 1)
  }

  /** `bytes.TrimSpace`, for which any function does here. */
  type Trim = Bytes -> Bytes

  function Kept(trim: Trim, pieces: seq<Bytes>): seq<Bytes> {
    if pieces == [] then []
    else
      var line := trim(pieces[0]);
      (if line == [] then [] else [line]) + Kept(trim, pieces[1..])
  }

  function LinesOf(trim: Trim, message: Bytes): seq<Bytes> {
    Kept(trim, Split(message, 0))
  }

  /** Pieces with a newline between any two. */
  function Joined(pieces: seq<Bytes>): Bytes
    requires pieces != []
  {
    if |pieces| == 1 then pieces[0] else pieces[0] + [NL] + Joined(pieces[1..])
  }

  predicate NoNewlines(pieces: seq<Bytes>) {
    forall p <- pieces :: NL !in p
  }

  lemma NoNewlinesCons(p: Bytes, rest: seq<Bytes>)
    ensures NoNewlines([p] + rest) <==> NL !in p && NoNewlines(rest)
  {
    assert p in [p] + rest && forall q <- rest :: q in [p] + rest;
  }

  lemma OnePiece(p: Bytes)
    ensures NoNewlines([p]) <==> NL !in p
  {
    assert p in [p];
  }

  lemma JoinedCons(p: Bytes, rest: seq<Bytes>)
    ensures Joined([p] + rest) == if rest == [] then p else p + [NL] + Joined(rest)
  {
    assert ([p] + rest)[1..] == rest;
  }

  lemma {:induction false} SplitJoins(s: Bytes, from: nat)
    requires from <= |s|
    ensures var pieces := Split(s, from); pieces != [] && NoNewlines(pieces) && Joined(pieces) == s[from..]
    decreases |s| - from
  {
    hide NoNewlines, Joined;
    var e := NextNewline(s, from);
    if e == |s| {
      OnePiece(s[from..]);
      JoinedCons(s[from..], []);
      assert [s[from..]] + [] == [s[from..]];
    } else {
      var rest := Split(s, e + 1);
      SplitJoins(s, e + 1);
      NoNewlinesCons(s[from..e], rest);
      JoinedCons(s[from..e], rest);
      assert s[from..] == s[from..e] + [NL] + s[e + 1..];
    }
  }

  lemma NewlineAfter(a: Bytes, rest: Bytes, s: Bytes, from: nat)
    requires NL !in a && from <= |s| && s[from..] == a + [NL] + rest
    ensures from + |a| < |s| && s[from + |a| + 1..] == rest
    ensures Split(s, from) == [a] + Split(s, from + |a| + 1)
  {
    var t := a + [NL] + rest;
    assert s[from..from + |a|] == t[..|a|] == a;
    assert forall k :: 0 <= k < |t| ==> s[from + k] == t[k];
    assert forall k :: from <= k < from + |a| ==> s[k] == a[k - from];
    assert s[from + |a|] == t[|a|] == NL;
    NextNewlineUnique(s, from, from + |a|);
    assert s[from + |a| + 1..] == t[|a| + 1..] == rest;
  }

  lemma LastPiece(p: Bytes, s: Bytes, from: nat)
    requires NL !in p && from <= |s| && s[from..] == p
    ensures Split(s, from) == [p]
  {
    assert forall k :: from <= k < |s| ==> s[k] == p[k - from] && s[k] in p;
    assert NextNewline(s, from) == |s|;
  }

  lemma {:induction false} JoinedSplits(pieces: seq<Bytes>, s: Bytes, from: nat)
    requires pieces != [] && NoNewlines(pieces) && from <= |s| && Joined(pieces) == s[from..]
    ensures Split(s, from) == pieces
    decreases |pieces|
  {
    hide NoNewlines, Joined, Split;
    var p, rest := pieces[0], pieces[1..];
    assert pieces == [p] + rest;
    NoNewlinesCons(p, rest);
    JoinedCons(p, rest);
    if rest == [] {
      LastPiece(p, s, from);
    } else {
      NewlineAfter(p, Joined(rest), s, from);
      JoinedSplits(rest, s, from + |p| + 1);
    }
  }

  /** The split of a payload is the one list of pieces without newlines that, joined by newlines,
      are the payload. */
  lemma SplitExactly(s: Bytes, pieces: seq<Bytes>)
    ensures Split(s, 0) == pieces <==> pieces != [] && NoNewlines(pieces) && Joined(pieces) == s
  {
    assert s[0..] == s;
    SplitJoins(s, 0);
    if pieces != [] && NoNewlines(pieces) && Joined(pieces) == s {
      JoinedSplits(pieces, s, 0);
    }
  }

  /** A payload without a newline is one line, unless it is blank. */
  lemma LinesOfOne(trim: Trim, m: Bytes)
    requires NL !in m
    ensures LinesOf(trim, m) == if trim(m) == [] then [] else [trim(m)]
  {
    hide Split;
    OnePiece(m);
    assert Joined([m]) == m;
    SplitExactly(m, [m]);
    assert [m][1..] == [] && Kept(trim, []) == [];
    assert Kept(trim, [m]) == (if trim(m) == [] then [] else [trim(m)]) + Kept(trim, []);
  }

  /** The first line of a payload, and the lines behind its newline. */
  lemma LinesOfMore(trim: Trim, first: Bytes, rest: Bytes)
    requires NL !in first
    ensures LinesOf(trim, first + [NL] + rest) == LinesOf(trim, first) + LinesOf(trim, rest)
  {
    hide Split;
    var pieces := Split(rest, 0);
    assert rest[0..] == rest;
    SplitJoins(rest, 0);
    NoNewlinesCons(first, pieces);
    var all := [first] + pieces;
    assert all[1..] == pieces;
    SplitExactly(first + [NL] + rest, all);
    LinesOfOne(trim, first);
  }

  // ---- the loop, frame by frame ----

  /** The fragment buffer, the lines dispatched, and the pings answered so far. */
  datatype Loop = Loop(frag: Bytes, lines: seq<Bytes>, pongs: seq<Bytes>)

  function Dispatch(trim: Trim, st: Loop, payload: Bytes): Loop {
    st.(lines := st.lines + LinesOf(trim, payload))
  }

  /** One frame other than a close. Opcodes the switch does not name are dispatched like an
      unfragmented message, whatever their FIN bit says. */
  function OnFrame(trim: Trim, st: Loop, f: Frame): Loop {
    if f.op == PING then st.(pongs := st.pongs + [f.payload])
    else if f.op == PONG then st
    else if f.op == CONT then
      if f.fin then Dispatch(trim, st, st.frag + f.payload).(frag := [])
      else st.(frag := st.frag + f.payload)
    else if (f.op == TEXT || f.op == BINARY) && !f.fin then st.(frag := f.payload)
    else Dispatch(trim, st, f.payload)
  }

  /** All frames up to a close frame, if there is one. */
  function OnFrames(trim: Trim, st: Loop, fs: seq<Frame>): Loop
    decreases |fs|
  {
    if fs == [] || fs[0].op == CLOSE then st else OnFrames(trim, OnFrame(trim, st, fs[0]), fs[1..])
  }

  lemma KeptTurn(trim: Trim, pieces: seq<Bytes>, i: nat)
    requires i < |pieces|
    ensures var line := trim(pieces[i]);
            Kept(trim, pieces[i..]) == (if line == [] then [] else [line]) + Kept(trim, pieces[i + 1..])
  {
    assert pieces[i..][1..] == pieces[i + 1..];
  }

  /** `dispatch` called for every piece of the split payload that is not blank. */
  method DispatchLines(trim: Trim, payload: Bytes) returns (lines: seq<Bytes>)
    ensures lines == LinesOf(trim, payload)
  {
    hide Split, Kept;
    var pieces := Split(payload, 0);
    lines := [];
    assert pieces[0..] == pieces;
    var i := 0;
    while i < |pieces|
      invariant i <= |pieces|
      invariant LinesOf(trim, payload) == lines + Kept(trim, pieces[i..])
    {
      var line := trim(pieces[i]);
      KeptTurn(trim, pieces, i);
      if |line| > 0 {
        lines := lines + [line];
      }
      i := i + 1;
    }
    NoneKept(trim, pieces[i..]);
  }

  lemma NoneKept(trim: Trim, pieces: seq<Bytes>)
    requires pieces == []
    ensures Kept(trim, pieces) == []
  {
  }

  /** What the frames from `pos` on make of `st`. */
  function Rest(trim: Trim, st: Loop, s: Bytes, pos: nat): Loop {
    OnFrames(trim, st, ReadAll(s, pos).0)
  }

  lemma RestTurn(trim: Trim, st: Loop, s: Bytes, pos: nat)
    ensures var res := ReadFrame(s, pos);
            Rest(trim, st, s, pos) ==
            if !res.Got? || res.frame.op == CLOSE then st
            else Rest(trim, OnFrame(trim, st, res.frame), s, res.next)
  {
    hide ReadFrame, OnFrame;
    var res := ReadFrame(s, pos);
    if res.Got? {
      var fs := ReadAll(s, res.next).0;
      assert ReadAll(s, pos).0 == [res.frame] + fs;
      assert ([res.frame] + fs)[1..] == fs;
    }
  }

  /** `readLoop` reads until the stream ends, a frame is refused, or a close frame comes. Its
      lines are those of the reference loop over all the frames of the stream, and every ping
      of that loop is answered, in order, as long as the connection takes what is written. */
  method ReadLoop(trim: Trim, r: Reader, w: Writer, keys: nat -> Key) returns (st: Loop)
    requires r.Valid()
    modifies r, w
    ensures st == OnFrames(trim, Loop([], [], []), ReadAll(r.stream, old(r.pos)).0)
    ensures w.room > 0 ==> w.sent == old(w.sent) + PongBytes(st.pongs, keys)
  {
    hide ReadFrame, LinesOf, Encode, Rest, PongBytes;
    st := Loop([], [], []);
    assert PongBytes(st.pongs, keys) == [] && Rest(trim, st, r.stream, r.pos) == OnFrames(trim, st, ReadAll(r.stream, r.pos).0) by {
      Start(trim, r.stream, r.pos, keys);
    }
    hide OnFrames, ReadAll;
    while true
      invariant r.Valid()
      invariant Rest(trim, Loop([], [], []), r.stream, old(r.pos)) == Rest(trim, st, r.stream, r.pos)
      invariant w.room > 0 ==> w.sent == old(w.sent) + PongBytes(st.pongs, keys)
      decreases |r.stream| - r.pos
    {
      RestTurn(trim, st, r.stream, r.pos);
      var res := ReceiveFrame(r);
      if !res.Got? || res.frame.op == CLOSE {
        return;
      }
      var f := res.frame;
      if f.op == PING {
        PongsGrow(st.pongs, f.payload, keys);
        var _ := WriteFrame(w, PONG, f.payload, keys(|st.pongs|));
        st := st.(pongs := st.pongs + [f.payload]);
        continue;
      }
      if f.op == PONG {
        continue;
      }
      var payload := f.payload;
      if f.op == CONT {
        st := st.(frag := st.frag + payload);
        if !f.fin {
          continue;
        }
        payload := st.frag;
        st := st.(frag := []);
      } else if (f.op == TEXT || f.op == BINARY) && !f.fin {
        st := st.(frag := payload);
        continue;
      }
      var lines := DispatchLines(trim, payload);
      st := st.(lines := st.lines + lines);
    }
  }

  lemma Start(trim: Trim, s: Bytes, pos: nat, keys: nat -> Key)
    ensures PongBytes([], keys) == []
    ensures Rest(trim, Loop([], [], []), s, pos) == OnFrames(trim, Loop([], [], []), ReadAll(s, pos).0)
  {
  }

  function PongBytes(pongs: seq<Bytes>, keys: nat -> Key): Bytes {
    if pongs == [] then []
    else
      var last := |pongs| - 1;
      PongBytes(pongs[..last], keys) + Encode(Frame(true, PONG, pongs[last]), Some(keys(last)))
  }

  lemma PongsGrow(pongs: seq<Bytes>, p: Bytes, keys: nat -> Key)
    ensures PongBytes(pongs + [p], keys) == PongBytes(pongs, keys) + Encode(Frame(true, PONG, p), Some(keys(|pongs|)))
  {
    assert (pongs + [p])[..|pongs|] == pongs;
  }

  // ---- ways to cut messages into frames ----

  /** The opcodes of the sender are written as section 11.8 of RFC 6455 numbers them. */
  datatype Control = Ping(payload: Bytes) | Pong(payload: Bytes) {
    function ToFrame(): Frame {
      Frame(true, if Ping? then 9 else 10, payload)
    }
  }

  /** A piece of a message and the control frames sent just before it. */
  datatype Piece = Piece(controls: seq<Control>, data: Bytes)

  type Pieces = ps: seq<Piece> | |ps| > 0 witness [Piece([], [])]

  function ControlFrames(cs: seq<Control>): (fs: seq<Frame>)
    ensures forall f <- fs :: f.op != CLOSE
  {
    if cs == [] then [] else [cs[0].ToFrame()] + ControlFrames(cs[1..])
  }

  /** The frames of one message: the first piece names the opcode, the others continue it, and
      only the last one is final. */
  function Cut(op: Byte, ps: seq<Piece>): seq<Frame> {
    if ps == [] then []
    else ControlFrames(ps[0].controls) + [Frame(|ps| == 1, op, ps[0].data)] + Cut(0, ps[1..])
  }

  function Text(ps: seq<Piece>): Bytes {
    if ps == [] then [] else ps[0].data + Text(ps[1..])
  }

  function Pings(cs: seq<Control>): seq<Bytes> {
    if cs == [] then [] else (if cs[0].Ping? then [cs[0].payload] else []) + Pings(cs[1..])
  }

  function PingsBetween(ps: seq<Piece>): seq<Bytes> {
    if ps == [] then [] else Pings(ps[0].controls) + PingsBetween(ps[1..])
  }

  /** What a server sends: messages, each cut in its own way, and control frames at the end. */
  datatype Sending = Done(controls: seq<Control>) | Send(binary: bool, pieces: Pieces, rest: Sending) {
    function Frames(): seq<Frame> {
      match this
      case Done(cs) => ControlFrames(cs)
      case Send(binary, ps, rest) => Cut(if binary then 2 else 1, ps) + rest.Frames()
    }

    function Messages(): seq<Bytes> {
      match this
      case Done(_) => []
      case Send(_, ps, rest) => [Text(ps)] + rest.Messages()
    }

    function PingsSent(): seq<Bytes> {
      match this
      case Done(cs) => Pings(cs)
      case Send(_, ps, rest) => PingsBetween(ps) + rest.PingsSent()
    }
  }

  function AllLines(trim: Trim, messages: seq<Bytes>): seq<Bytes> {
    if messages == [] then [] else LinesOf(trim, messages[0]) + AllLines(trim, messages[1..])
  }

  lemma OnFramesTurn(trim: Trim, st: Loop, f: Frame, fs: seq<Frame>)
    requires f.op != CLOSE
    ensures OnFrames(trim, st, [f] + fs) == OnFrames(trim, OnFrame(trim, st, f), fs)
  {
    hide OnFrame;
    assert ([f] + fs)[1..] == fs;
  }

  /** A close frame ends the loop: what comes behind it is not looked at. */
  lemma {:induction false} CloseEndsTheLoop(trim: Trim, st: Loop, fs: seq<Frame>, close: Frame, more: seq<Frame>)
    requires close.op == 8
    ensures OnFrames(trim, st, fs + [close] + more) == OnFrames(trim, st, fs)
    decreases |fs|
  {
    hide OnFrame;
    if fs == [] {
      assert (fs + [close] + more)[0] == close;
    } else {
      assert (fs + [close] + more)[1..] == fs[1..] + [close] + more && (fs + [close] + more)[0] == fs[0];
      if fs[0].op != 8 {
        CloseEndsTheLoop(trim, OnFrame(trim, st, fs[0]), fs[1..], close, more);
      }
    }
  }

  /** A frame with an opcode that RFC 6455 does not name is dispatched as a message, and leaves a
      message in pieces alone. */
  lemma UnnamedIsDispatched(trim: Trim, st: Loop, f: Frame)
    requires f.op !in {0, 1, 2, 8, 9, 10}
    ensures OnFrame(trim, st, f) == st.(lines := st.lines + LinesOf(trim, f.payload))
  {
  }

  lemma {:induction false} EncodeOneMore(ws: seq<Written>, w: Written)
    requires Writable(ws) && Writable([w])
    ensures w.frame.op < 16 && Writable(ws + [w]) && EncodeAll(ws + [w]) == EncodeAll(ws) + Encode(w.frame, w.mask)
    decreases |ws|
  {
    hide Encode;
    var all := ws + [w];
    assert [w][0] == w;
    if ws == [] {
      assert all == [w] && all[1..] == [];
    } else {
      assert all[1..] == ws[1..] + [w];
      EncodeOneMore(ws[1..], w);
    }
  }

  function Answers(pongs: seq<Bytes>, keys: nat -> Key): (ws: seq<Written>)
    ensures |ws| == |pongs| && forall i :: 0 <= i < |pongs| ==> ws[i] == Written(Frame(true, 10, pongs[i]), Some(keys(i)))
  {
    seq(|pongs|, i requires 0 <= i < |pongs| => Written(Frame(true, 10, pongs[i]), Some(keys(i))))
  }

  lemma {:induction false} AnswersEncoded(pongs: seq<Bytes>, keys: nat -> Key)
    requires Writable(Answers(pongs, keys))
    ensures EncodeAll(Answers(pongs, keys)) == PongBytes(pongs, keys)
    decreases |pongs|
  {
    hide Encode;
    if pongs != [] {
      var last := |pongs| - 1;
      var before := Answers(pongs[..last], keys);
      var w := Answers(pongs, keys)[last];
      assert Answers(pongs, keys) == before + [w];
      EncodeOneMore(before, w);
      AnswersEncoded(pongs[..last], keys);
    }
  }

  /** What was sent in answer reads as one final pong frame (opcode 10) for every ping, with its
      payload. */
  lemma PongsAreRead(pongs: seq<Bytes>, keys: nat -> Key)
    requires forall i :: 0 <= i < |pongs| ==> |pongs[i]| <= MAX_FRAME
    ensures var (fs, end, why) := ReadAll(PongBytes(pongs, keys), 0);
            && |fs| == |pongs| && end == |PongBytes(pongs, keys)| && why == Ended
            && forall i :: 0 <= i < |pongs| ==> fs[i] == Frame(true, 10, pongs[i])
  {
    hide EncodeAll, ReadAll, PongBytes;
    var ws := Answers(pongs, keys);
    assert Writable(ws);
    AnswersEncoded(pongs, keys);
    RoundTrip([], ws);
    assert [] + EncodeAll(ws) == EncodeAll(ws);
    assert forall i :: 0 <= i < |pongs| ==> FramesOf(ws)[i] == ws[i].frame;
  }

  lemma {:induction false} OnFramesConcat(trim: Trim, st: Loop, a: seq<Frame>, b: seq<Frame>)
    requires forall i :: 0 <= i < |a| ==> a[i].op != CLOSE
    ensures OnFrames(trim, st, a + b) == OnFrames(trim, OnFrames(trim, st, a), b)
    decreases |a|
  {
    hide OnFrame;
    if a == [] {
      assert a + b == b;
    } else {
      hide OnFrames;
      assert a == [a[0]] + a[1..] && a + b == [a[0]] + (a[1..] + b);
      OnFramesTurn(trim, st, a[0], a[1..]);
      OnFramesTurn(trim, st, a[0], a[1..] + b);
      OnFramesConcat(trim, OnFrame(trim, st, a[0]), a[1..], b);
    }
  }

  /** Control frames answer pings and touch nothing else. */
  lemma {:induction false} OnControls(trim: Trim, st: Loop, cs: seq<Control>)
    ensures OnFrames(trim, st, ControlFrames(cs)) == st.(pongs := st.pongs + Pings(cs))
    decreases |cs|
  {
    if cs == [] {
      assert st.pongs + Pings(cs) == st.pongs;
    } else {
      hide OnFrames, OnFrame;
      var c, rest := cs[0], cs[1..];
      OnFramesTurn(trim, st, c.ToFrame(), ControlFrames(rest));
      OnControl(trim, st, c);
      var next := OnFrame(trim, st, c.ToFrame());
      OnControls(trim, next, rest);
      hide Pings;
      assert next.pongs + Pings(rest) == st.pongs + Pings(cs) by { PingsTurn(cs); }
    }
  }

  lemma OnControl(trim: Trim, st: Loop, c: Control)
    ensures OnFrame(trim, st, c.ToFrame()) == st.(pongs := st.pongs + if c.Ping? then [c.payload] else [])
  {
    assert st.pongs + [] == st.pongs;
  }

  lemma PingsTurn(cs: seq<Control>)
    requires cs != []
    ensures Pings(cs) == (if cs[0].Ping? then [cs[0].payload] else []) + Pings(cs[1..])
  {
  }

  /** A piece with the control frames before it is one turn of the loop for the piece. */
  lemma OnPiece(trim: Trim, st: Loop, cs: seq<Control>, f: Frame, more: seq<Frame>)
    requires f.op != CLOSE
    ensures OnFrames(trim, st, ControlFrames(cs) + [f] + more) ==
            OnFrames(trim, OnFrame(trim, st.(pongs := st.pongs + Pings(cs)), f), more)
  {
    hide OnFrame, OnFrames, Pings;
    OnControls(trim, st, cs);
    OnFramesConcat(trim, st, ControlFrames(cs), [f] + more);
    assert ControlFrames(cs) + [f] + more == ControlFrames(cs) + ([f] + more);
    OnFramesTurn(trim, st.(pongs := st.pongs + Pings(cs)), f, more);
  }

  /** The pieces of a message that starts here, or of one that is under way with `st.frag` in
      the buffer. */
  lemma {:induction false} OnPieces(trim: Trim, st: Loop, op: Byte, ps: seq<Piece>)
    requires |ps| > 0 && (op == CONT || op == TEXT || op == BINARY)
    ensures var message := (if op == CONT then st.frag else []) + Text(ps);
            var after := OnFrames(trim, st, Cut(op, ps));
            after.lines == st.lines + LinesOf(trim, message) && after.pongs == st.pongs + PingsBetween(ps)
    decreases |ps|
  {
    hide LinesOf, ControlFrames, Pings;
    var cs, data, rest := ps[0].controls, ps[0].data, ps[1..];
    var f := Frame(|ps| == 1, op, data);
    OnPiece(trim, st, cs, f, Cut(CONT, rest));
    var next := OnFrame(trim, st.(pongs := st.pongs + Pings(cs)), f);
    assert OnFrames(trim, st, Cut(op, ps)) == OnFrames(trim, next, Cut(CONT, rest));
    var had := if op == CONT then st.frag else [];
    assert Text(ps) == data + Text(rest);
    assert had + Text(ps) == (had + data) + Text(rest);
    assert PingsBetween(ps) == Pings(cs) + PingsBetween(rest);
    assert st.pongs + PingsBetween(ps) == (st.pongs + Pings(cs)) + PingsBetween(rest);
    if rest == [] {
      assert (had + data) + Text(rest) == had + data;
      assert [] + data == data;
      hide OnFrames;
      assert OnFrames(trim, next, Cut(CONT, rest)) == next by { NoFrames(trim, next); }
    } else {
      hide OnFrames;
      assert next.frag == had + data && next.lines == st.lines;
      OnPieces(trim, next, CONT, rest);
    }
  }

  lemma NoFrames(trim: Trim, st: Loop)
    ensures OnFrames(trim, st, []) == st
  {
  }

  lemma CutHasNoClose(op: Byte, ps: seq<Piece>)
    requires op != CLOSE
    ensures forall f <- Cut(op, ps) :: f.op != CLOSE
    decreases |ps|
  {
    if ps != [] {
      CutHasNoClose(CONT, ps[1..]);
    }
  }

  /** For every list of messages, every way of cutting them into continuation frames and every
      interleaving of control frames, the lines of the messages are dispatched in order, and
      every ping is answered in order. */
  lemma {:induction false} ReassemblyDispatchesMessages(trim: Trim, st: Loop, sending: Sending)
    ensures OnFrames(trim, st, sending.Frames()).lines == st.lines + AllLines(trim, sending.Messages())
    ensures OnFrames(trim, st, sending.Frames()).pongs == st.pongs + sending.PingsSent()
    decreases sending
  {
    hide LinesOf, OnFrame, Cut, Text, PingsBetween, OnFrames;
    match sending {
      case Done(cs) => OnControls(trim, st, cs);
      case Send(binary, ps, rest) =>
        var op := if binary then BINARY else TEXT;
        OnPieces(trim, st, op, ps);
        CutHasNoClose(op, ps);
        var next := OnFrames(trim, st, Cut(op, ps));
        OnFramesConcat(trim, st, Cut(op, ps), rest.Frames());
        ReassemblyDispatchesMessages(trim, next, rest);
        assert sending.Messages()[1..] == rest.Messages();
        var first, others := LinesOf(trim, Text(ps)), AllLines(trim, rest.Messages());
        assert st.lines + (first + others) == (st.lines + first) + others;
        assert [] + Text(ps) == Text(ps);
        assert st.pongs + (PingsBetween(ps) + rest.PingsSent()) == (st.pongs + PingsBetween(ps)) + rest.PingsSent();
    }
  }

  // ---- the same on the wire ----

  function Unmasked(fs: seq<Frame>): (ws: seq<Written>)
    ensures |ws| == |fs| && forall i :: 0 <= i < |fs| ==> ws[i] == Written(fs[i], None)
  {
    seq(|fs|, i requires 0 <= i < |fs| => Written(fs[i], None))
  }

  /** From the bytes a server sends to the lines the client dispatches. */
  lemma WireToLines(trim: Trim, sending: Sending)
    requires Writable(Unmasked(sending.Frames()))
    ensures var st := OnFrames(trim, Loop([], [], []), ReadAll(EncodeAll(Unmasked(sending.Frames())), 0).0);
            st.lines == AllLines(trim, sending.Messages()) && st.pongs == sending.PingsSent()
  {
    hide ReadAll, EncodeAll, OnFrames, AllLines;
    var fs := sending.Frames();
    var ws := Unmasked(fs);
    RoundTrip([], ws);
    assert [] + EncodeAll(ws) == EncodeAll(ws);
    assert FramesOf(ws) == fs;
    ReassemblyDispatchesMessages(trim, Loop([], [], []), sending);
  }
}
