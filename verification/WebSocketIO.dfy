/** The loops of `codexws.go` that move frames over a connection: `readFull`, `readFrame`,
    `writeFrame`, and the reassembly of fragmented messages in `readLoop` (sections 5.2 to 5.5
    of RFC 6455). */
module WebSocketIO {
  import opened Bytes
  import opened WebSocket
  import opened Wrappers

  // ---- the connection ----

  /** The receiving side: everything the server sends before the stream ends, and how much of it
      has been taken. How many bytes one read returns is up to the operating system. */
  class Reader {
    const stream: Bytes
    var pos: nat

    constructor (stream: Bytes)
      ensures this.stream == stream && pos == 0
    {
      this.stream, pos := stream, 0;
    }

    predicate Valid()
      reads this
    {
      pos <= |stream|
    }

    /** One read into the rest of `b`: at least one byte, or the end of the stream. */
    method Read(b: array<Byte>, from: nat) returns (n: nat, eof: bool)
      requires Valid() && from < b.Length
      modifies this, b
      ensures Valid() && pos == old(pos) + n && from + n <= b.Length
      ensures b[..] == old(b[..from]) + stream[old(pos)..pos] + old(b[from + n..])
      ensures eof <==> n == 0
      ensures eof <==> old(pos) == |stream|
    {
      var most := if b.Length - from < |stream| - pos then b.Length - from else |stream| - pos;
      if most == 0 {
        return 0, true;
      }
      n :| 1 <= n <= most;
      eof := false;
      forall i | 0 <= i < n {
        b[from + i] := stream[pos + i];
      }
      pos := pos + n;
    }

    method ReadByte() returns (r: Option<Byte>)
      requires Valid()
      modifies this
      ensures Valid()
      ensures r == if old(pos) < |stream| then Some(stream[old(pos)]) else None
      ensures pos == if old(pos) < |stream| then old(pos) + 1 else old(pos)
    {
      if pos == |stream| {
        return None;
      }
      r := Some(stream[pos]);
      pos := pos + 1;
    }
  }

  /** The sending side: the bytes that reached the peer, and how many more will. */
  class Writer {
    var sent: Bytes
    var room: nat

    constructor (room: nat)
      ensures sent == [] && this.room == room
    {
      sent, this.room := [], room;
    }

    method Write(b: Bytes) returns (ok: bool)
      modifies this
      ensures ok <==> |b| <= old(room)
      ensures sent == old(sent) + if ok then b else b[..old(room)]
      ensures room == if ok then old(room) - |b| else 0
    {
      if |b| <= room {
        sent, room := sent + b, room - |b|;
        return true;
      }
      sent, room := sent + b[..room], 0;
      return false;
    }
  }

  // ---- one frame ----

  /** However the stream is cut into reads, the buffer is filled with the next bytes, or the
      stream was too short. */
  method ReadFull(r: Reader, b: array<Byte>) returns (ok: bool)
    requires r.Valid()
    modifies r, b
    ensures r.Valid()
    ensures ok <==> old(r.pos) + b.Length <= |r.stream|
    ensures ok ==> r.pos == old(r.pos) + b.Length && b[..] == r.stream[old(r.pos)..r.pos]
    ensures !ok ==> r.pos == |r.stream|
  {
    var total := 0;
    while total < b.Length
      invariant r.Valid() && total <= b.Length && r.pos == old(r.pos) + total
      invariant b[..total] == r.stream[old(r.pos)..r.pos]
    {
      var n, eof := r.Read(b, total);
      total := total + n;
      if eof {
        return false;
      }
    }
    return true;
  }

  /** The masking of section 5.3 applied in place. */
  method Unmask(payload: array<Byte>, key: Key)
    modifies payload
    ensures payload[..] == Masked(old(payload[..]), key)
  {
    hide Xor;
    for i := 0 to payload.Length
      invariant forall k :: 0 <= k < i ==> payload[k] == Xor(old(payload[k]), key[k % 4])
      invariant forall k :: i <= k < payload.Length ==> payload[k] == old(payload[k])
    {
      payload[i] := Xor(payload[i], key[i % 4]);
    }
  }

  method ReadLength(r: Reader, short: nat) returns (n: Option<nat>, refused: bool)
    requires r.Valid() && short < 128
    modifies r
    ensures r.Valid()
    ensures var ext := if short == 126 then 2 else if short == 127 then 8 else 0;
            var body := old(r.pos) + ext;
            if body > |r.stream| then n.None? && !refused
            else
              var m := if ext == 0 then short else FromBigEndian(r.stream[old(r.pos)..body]);
              && refused == (short == 127 && m > MAX_FRAME)
              && n == (if refused then None else Some(m))
              && (!refused ==> r.pos == body)
  {
    hide FromBigEndian;
    if short < 126 {
      return Some(short), false;
    }
    var e := new Byte[if short == 126 then 2 else 8];
    var ok := ReadFull(r, e);
    if !ok {
      return None, false;
    }
    var u := FromBigEndian(e[..]);
    if short == 127 && u > MAX_FRAME {
      return None, true;
    }
    return Some(u), false;
  }

  method ReceiveHeader(r: Reader) returns (h: Header)
    requires r.Valid()
    modifies r
    ensures r.Valid() && h == ReadHeader(r.stream, old(r.pos))
    ensures h.Header? ==> r.pos == h.body
  {
    hide FromBigEndian;
    var b0 := r.ReadByte();
    if b0.None? {
      return NoHeader;
    }
    var b1 := r.ReadByte();
    if b1.None? {
      return NoHeader;
    }
    var n, refused := ReadLength(r, (b1.value % 128) as nat);
    if refused {
      return Refused;
    }
    if n.None? {
      return NoHeader;
    }
    return Header(b0.value >= 128, b0.value % 16, b1.value >= 128, n.value, r.pos);
  }

  /** The key, if there is one, and the payload behind it. */
  method ReceiveBody(r: Reader, masked: bool, n: nat) returns (payload: Option<Bytes>)
    requires r.Valid()
    modifies r
    ensures r.Valid()
    ensures var start := old(r.pos) + if masked then 4 else 0;
            if start + n > |r.stream| then payload.None?
            else
              var raw := r.stream[start..start + n];
              && payload == Some(if masked then Masked(raw, r.stream[old(r.pos)..start]) else raw)
              && r.pos == start + n
  {
    hide Masked;
    var key := new Byte[4];
    var ok := true;
    if masked {
      ok := ReadFull(r, key);
      if !ok {
        return None;
      }
    }
    var b := new Byte[n];
    ok := ReadFull(r, b);
    if !ok {
      return None;
    }
    if masked {
      Unmask(b, key[..]);
    }
    return Some(b[..]);
  }

  /** `readFrame` is the reference reading, for every way the stream is cut into reads. */
  method ReceiveFrame(r: Reader) returns (res: Read)
    requires r.Valid()
    modifies r
    ensures r.Valid() && res == ReadFrame(r.stream, old(r.pos))
    ensures res.Got? ==> r.pos == res.next
  {
    hide ReadHeader, Masked;
    var h := ReceiveHeader(r);
    match h {
      case NoHeader => return Ended;
      case Refused => return TooLarge;
      case Header(fin, op, masked, n, _) =>
        var payload := ReceiveBody(r, masked, n);
        if payload.None? {
          return Ended;
        }
        return Got(Frame(fin, op, payload.value), r.pos);
    }
  }

  method MaskedCopy(payload: Bytes, key: Key) returns (masked: Bytes)
    ensures masked == Masked(payload, key)
  {
    hide Xor;
    var copy := new Byte[|payload|];
    for i := 0 to |payload|
      invariant forall k :: 0 <= k < i ==> copy[k] == Xor(payload[k], key[k % 4])
    {
      copy[i] := Xor(payload[i], key[i % 4]);
    }
    return copy[..];
  }

  /** `writeFrame` sends a whole masked frame in two writes, or a proper prefix of one when the
      connection fails. */
  method WriteFrame(w: Writer, op: Byte, payload: Bytes, key: Key) returns (ok: bool)
    requires op < 16
    modifies w
    ensures var frame := Encode(Frame(true, op, payload), Some(key));
            && (ok <==> |frame| <= old(w.room))
            && w.sent == old(w.sent) + (if ok then frame else frame[..old(w.room)])
            && w.room == (if ok then old(w.room) - |frame| else 0)
  {
    hide Xor, Masked, BigEndian, Encode;
    ghost var frame := Frame(true, op, payload);
    var n := |payload|;
    var hdr: Bytes := [128 + op];
    if n < 126 {
      hdr := hdr + [128 + n as Byte];
    } else if n < 65536 {
      hdr := hdr + [128 + 126] + BigEndian(n, 2);
    } else {
      hdr := hdr + [128 + 127] + BigEndian(n, 8);
    }
    assert hdr == HeaderBytes(frame, true);
    var masked := MaskedCopy(payload, key);
    EncodeParts(frame, Some(key));
    assert Encode(frame, Some(key)) == (hdr + key) + masked;
    hide HeaderBytes, Body;
    ok := w.Write(hdr + key);
    if ok {
      ok := w.Write(masked);
    }
  }
}
