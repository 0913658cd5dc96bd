/** The WebSocket frame codec of `codexws.go` (sections 5.2 and 5.3 of RFC 6455). */
module WebSocket {
  import opened Bytes
  import opened Wrappers

  const MAX_FRAME: nat := 0x100_0000

  type Key = k: Bytes | |k| == 4 witness [0, 0, 0, 0]

  /** The exclusive or of the lowest `k` bits. */
  function XorBits(a: nat, b: nat, k: nat): (x: nat)
    ensures x < Pow2(k)
  {
    if k == 0 then 0 else (a % 2 + b % 2) % 2 + 2 * XorBits(a / 2, b / 2, k - 1)
  }

  function Pow2(k: nat): nat {
    if k == 0 then 1 else 2 * Pow2(k - 1)
  }

  lemma LowestBit(x: nat, bit: nat, rest: nat)
    requires x == bit + 2 * rest && bit < 2
    ensures x % 2 == bit && x / 2 == rest
  {
  }

  lemma BitSum(a: nat, b: nat)
    ensures (a % 2 + b % 2) % 2 == (a + b) % 2
  {
  }

  /** The lowest bit of an exclusive or, and what it does to the rest. */
  lemma XorBitsTurn(a: nat, b: nat, k: nat)
    requires k > 0
    ensures XorBits(a, b, k) % 2 == (a + b) % 2
    ensures XorBits(a, b, k) / 2 == XorBits(a / 2, b / 2, k - 1)
  {
    var bit, rest := (a % 2 + b % 2) % 2, XorBits(a / 2, b / 2, k - 1);
    assert XorBits(a, b, k) == bit + 2 * rest;
    hide XorBits, Pow2;
    BitSum(a, b);
    LowestBit(XorBits(a, b, k), bit, rest);
  }

  lemma {:induction false} XorBitsTwice(a: nat, b: nat, k: nat)
    requires a < Pow2(k)
    ensures XorBits(XorBits(a, b, k), b, k) == a
  {
    if k > 0 {
      hide XorBits;
      var x := XorBits(a, b, k);
      XorBitsTurn(a, b, k);
      XorBitsTurn(x, b, k);
      XorBitsTwice(a / 2, b / 2, k - 1);
      var again := XorBits(x, b, k);
      assert again / 2 == a / 2;
      Parity(x, a, b);
    }
  }

  lemma Parity(x: nat, a: nat, b: nat)
    requires x % 2 == (a + b) % 2
    ensures (x + b) % 2 == a % 2
  {
  }

  lemma EightBits()
    ensures Pow2(8) == 256
  {
    assert Pow2(2) == 4 && Pow2(4) == 16 && Pow2(6) == 64;
  }

  function Xor(a: Byte, b: Byte): Byte {
    EightBits();
    XorBits(a as nat, b as nat, 8) as Byte
  }

  lemma XorTwice(a: Byte, b: Byte)
    ensures Xor(Xor(a, b), b) == a
  {
    EightBits();
    XorBitsTwice(a as nat, b as nat, 8);
  }

  /** Bit `i` of a number, counted from the lowest. */
  function Bit(x: nat, i: nat): nat {
    if i == 0 then x % 2 else Bit(x / 2, i - 1)
  }

  lemma {:induction false} XorBitsAt(a: nat, b: nat, k: nat, i: nat)
    requires i < k
    ensures Bit(XorBits(a, b, k), i) == (Bit(a, i) + Bit(b, i)) % 2
    decreases k
  {
    XorBitsTurn(a, b, k);
    hide XorBits;
    if i == 0 {
      BitSum(a, b);
    } else {
      XorBitsAt(a / 2, b / 2, k - 1, i - 1);
    }
  }

  /** Each bit is set exactly when it is set in one of the two bytes. */
  lemma XorIsBitwise(a: Byte, b: Byte, i: nat)
    requires i < 8
    ensures Bit(Xor(a, b) as nat, i) == if Bit(a as nat, i) == Bit(b as nat, i) then 0 else 1
  {
    hide XorBits;
    EightBits();
    XorBitsAt(a as nat, b as nat, 8, i);
    BitIsBit(a as nat, i);
    BitIsBit(b as nat, i);
  }

  lemma {:induction false} BitIsBit(x: nat, i: nat)
    ensures Bit(x, i) < 2
  {
    if i > 0 {
      BitIsBit(x / 2, i - 1);
    }
  }

  function Masked(p: Bytes, key: Key): (m: Bytes)
    ensures |m| == |p|
  {
    seq(|p|, i requires 0 <= i < |p| => Xor(p[i], key[i % 4]))
  }

  lemma MaskedTwice(p: Bytes, key: Key)
    ensures Masked(Masked(p, key), key) == p
  {
    hide Xor;
    forall i | 0 <= i < |p| ensures Masked(Masked(p, key), key)[i] == p[i] {
      XorTwice(p[i], key[i % 4]);
    }
  }

  // ---- big-endian numbers ----

  function Pow256(k: nat): (p: nat)
    ensures p >= 1
  {
    if k == 0 then 1 else 256 * Pow256(k - 1)
  }

  function BigEndian(n: nat, k: nat): (b: Bytes)
    ensures |b| == k
  {
    if k == 0 then [] else BigEndian(n / 256, k - 1) + [(n % 256) as Byte]
  }

  function FromBigEndian(b: Bytes): nat {
    if b == [] then 0 else 256 * FromBigEndian(b[..|b| - 1]) + b[|b| - 1] as nat
  }

  lemma {:induction false} BigEndianInverse(n: nat, k: nat)
    requires n < Pow256(k)
    ensures FromBigEndian(BigEndian(n, k)) == n
  {
    if k > 0 {
      assert n / 256 < Pow256(k - 1);
      BigEndianInverse(n / 256, k - 1);
      assert BigEndian(n, k)[..k - 1] == BigEndian(n / 256, k - 1);
    }
  }

  // ---- the bytes of a frame ----

  /** A frame as it stands on the wire: a client masks, a server does not. */
  datatype Frame = Frame(fin: bool, op: Byte, payload: Bytes)

  function Flag(b: bool): Byte {
    if b then 128 else 0
  }

  function LengthBytes(mask: bool, n: nat): Bytes {
    if n < 126 then [Flag(mask) + n as Byte]
    else if n < 65536 then [Flag(mask) + 126] + BigEndian(n, 2)
    else [Flag(mask) + 127] + BigEndian(n, 8)
  }

  function Encode(f: Frame, mask: Option<Key>): Bytes
    requires f.op < 16
  {
    [Flag(f.fin) + f.op] + LengthBytes(mask.Some?, |f.payload|) +
    match mask
    case None => f.payload
    case Some(key) => key + Masked(f.payload, key)
  }

  /** A number without its `j` lowest bytes. */
  function Upper(n: nat, j: nat): nat {
    if j == 0 then n else Upper(n / 256, j - 1)
  }

  lemma {:induction false} BigEndianAt(n: nat, k: nat, i: nat)
    requires i < k
    ensures BigEndian(n, k)[i] as nat == Upper(n, k - 1 - i) % 256
    decreases k
  {
    if i < k - 1 {
      BigEndianAt(n / 256, k - 1, i);
    }
  }

  lemma LengthOnTheWire(mask: bool, n: nat)
    ensures var b := LengthBytes(mask, n);
            var m := if mask then 128 else 0;
            && |b| == (if n < 126 then 1 else if n < 65536 then 3 else 9)
            && b[0] as nat == m + (if n < 126 then n else if n < 65536 then 126 else 127)
            && forall i :: 1 <= i < |b| ==> b[i] as nat == Upper(n, |b| - 1 - i) % 256
  {
    hide Upper, BigEndian;
    var b := LengthBytes(mask, n);
    if n >= 126 {
      var k := |b| - 1;
      forall i | 1 <= i < |b| ensures b[i] as nat == Upper(n, |b| - 1 - i) % 256 {
        BigEndianAt(n, k, i - 1);
        assert b[i] == BigEndian(n, k)[i - 1];
      }
    }
  }

  /** A frame of section 5.2 is a header and a body. The header, byte by byte: the final bit and
      the opcode; the mask bit with the length or the form it has; and the length, highest byte
      first. */
  lemma HeaderOnTheWire(f: Frame, mask: bool)
    requires f.op < 16
    ensures var b, n := HeaderBytes(f, mask), |f.payload|;
            var h := if n < 126 then 2 else if n < 65536 then 4 else 10;
            && |b| == h
            && b[0] as nat == (if f.fin then 128 else 0) + f.op as nat
            && b[1] as nat == (if mask then 128 else 0) + (if n < 126 then n else if n < 65536 then 126 else 127)
            && forall i :: 2 <= i < h ==> b[i] as nat == Upper(n, h - 1 - i) % 256
  {
    hide Upper, LengthBytes;
    LengthOnTheWire(mask, |f.payload|);
    var b, length := HeaderBytes(f, mask), LengthBytes(mask, |f.payload|);
    assert forall i :: 1 <= i < |b| ==> b[i] == length[i - 1];
  }

  /** The body: the key, if any, and the payload, byte `i` masked with byte `i` modulo 4 of the key
      (section 5.3). */
  lemma BodyOnTheWire(f: Frame, mask: Option<Key>)
    ensures var b, n := Body(f, mask), |f.payload|;
            var k := if mask.Some? then 4 else 0;
            && |b| == k + n && (mask.Some? ==> b[..4] == mask.value)
            && forall i :: 0 <= i < n ==>
                 b[k + i] == if mask.Some? then Xor(f.payload[i], mask.value[i % 4]) else f.payload[i]
  {
    hide Xor;
    if mask.Some? {
      var b, m := Body(f, mask), Masked(f.payload, mask.value);
      assert forall i :: 0 <= i < |m| ==> b[4 + i] == m[i];
    }
  }

  /** The three length forms of section 5.2 and what each can say. */
  datatype Form = Short | Medium | Long {
    function Size(): nat {
      match this
      case Short => 1
      case Medium => 3
      case Long => 9
    }

    predicate Holds(n: nat) {
      match this
      case Short => n < 126
      case Medium => n < 65536
      case Long => n < Pow256(8)
    }
  }

  /** No form that can hold the length is shorter than the one that is written. */
  lemma LengthIsShortest(mask: bool, n: nat, form: Form)
    requires form.Holds(n)
    ensures |LengthBytes(mask, n)| <= form.Size()
  {
  }

  // ---- reading ----

  datatype Read = Got(frame: Frame, next: nat) | Ended | TooLarge

  /** A header that says `n` payload bytes follow the key, if any, at `body`. */
  datatype Header = Header(fin: bool, op: Byte, masked: bool, n: nat, body: nat) | NoHeader | Refused

  function ReadHeader(s: Bytes, pos: nat): (h: Header)
    ensures h.Header? ==> pos < h.body <= |s|
  {
    if pos + 2 > |s| then NoHeader
    else
      var short := (s[pos + 1] % 128) as nat;
      var ext := if short == 126 then 2 else if short == 127 then 8 else 0;
      var body := pos + 2 + ext;
      if body > |s| then NoHeader
      else
        var n := if ext == 0 then short else FromBigEndian(s[pos + 2..body]);
        if short == 127 && n > MAX_FRAME then Refused
        else Header(s[pos] >= 128, s[pos] % 16, s[pos + 1] >= 128, n, body)
  }

  /** The frame at `pos` of a stream that ends where `s` does. A 64-bit length over the limit is
      refused from the header alone. */
  function ReadFrame(s: Bytes, pos: nat): (r: Read)
    ensures r.Got? ==> pos < r.next <= |s|
  {
    match ReadHeader(s, pos)
    case NoHeader => Ended
    case Refused => TooLarge
    case Header(fin, op, masked, n, body) =>
      var start := body + if masked then 4 else 0;
      if start + n > |s| then Ended
      else
        var payload := s[start..start + n];
        Got(Frame(fin, op, if masked then Masked(payload, s[body..start]) else payload), start + n)
  }

  function HeaderBytes(f: Frame, mask: bool): Bytes
    requires f.op < 16
  {
    [Flag(f.fin) + f.op] + LengthBytes(mask, |f.payload|)
  }

  function Body(f: Frame, mask: Option<Key>): Bytes {
    match mask
    case None => f.payload
    case Some(key) => key + Masked(f.payload, key)
  }

  lemma Placed(before: Bytes, part: Bytes, after: Bytes)
    ensures var s, pos := before + part + after, |before|;
            s[pos..pos + |part|] == part && (|part| >= 2 ==> s[pos] == part[0] && s[pos + 1] == part[1])
  {
  }

  lemma SlicePlaced(s: Bytes, pos: nat, part: Bytes, from: nat)
    requires from <= |part| && pos + |part| <= |s| && s[pos..pos + |part|] == part
    ensures s[pos + from..pos + |part|] == part[from..]
  {
  }

  lemma WrittenHeaderIsRead(before: Bytes, f: Frame, mask: bool, after: Bytes)
    requires f.op < 16 && |f.payload| < Pow256(8)
    ensures var header := HeaderBytes(f, mask);
            ReadHeader(before + header + after, |before|) ==
            if |f.payload| > MAX_FRAME then Refused
            else Header(f.fin, f.op, mask, |f.payload|, |before| + |header|)
  {
    hide LengthBytes, FromBigEndian;
    var length, header := LengthBytes(mask, |f.payload|), HeaderBytes(f, mask);
    var s, pos := before + header + after, |before|;
    HeaderIsRead(mask, |f.payload|);
    Placed(before, header, after);
    assert header[0] == Flag(f.fin) + f.op && header[1] == length[0];
    assert s[pos] == header[0] && s[pos + 1] == header[1];
    if |length| > 1 {
      SlicePlaced(s, pos, header, 2);
      assert header[2..] == length[1..];
    }
  }

  lemma BodyParts(f: Frame, mask: Option<Key>)
    ensures mask.None? ==> Body(f, mask) == f.payload
    ensures mask.Some? ==> var b := Body(f, mask);
                           |b| == 4 + |f.payload| && b[..4] == mask.value && b[4..] == Masked(f.payload, mask.value)
  {
  }

  /** Behind its header, an unmasked payload is read as it stands. */
  lemma PlainBodyIsRead(s: Bytes, pos: nat, f: Frame, body: nat)
    requires ReadHeader(s, pos) == Header(f.fin, f.op, false, |f.payload|, body)
    requires body + |f.payload| <= |s| && s[body..body + |f.payload|] == f.payload
    ensures ReadFrame(s, pos) == Got(f, body + |f.payload|)
  {
    hide ReadHeader, Masked;
  }

  /** A masked one is read back with the key in front of it. */
  lemma MaskedBodyIsRead(s: Bytes, pos: nat, f: Frame, key: Key, body: nat)
    requires ReadHeader(s, pos) == Header(f.fin, f.op, true, |f.payload|, body)
    requires body + 4 + |f.payload| <= |s| && s[body..body + 4] == key
    requires s[body + 4..body + 4 + |f.payload|] == Masked(f.payload, key)
    ensures ReadFrame(s, pos) == Got(f, body + 4 + |f.payload|)
  {
    hide ReadHeader, Masked;
    MaskedTwice(f.payload, key);
    var start := body + 4;
    assert Masked(s[start..start + |f.payload|], s[body..start]) == f.payload;
  }

  /** A frame that was written is read back, whatever precedes and follows it, and exactly its
      bytes are consumed. */
  lemma WrittenIsRead(before: Bytes, f: Frame, mask: Option<Key>, after: Bytes)
    requires f.op < 16 && |f.payload| <= MAX_FRAME
    ensures ReadFrame(before + Encode(f, mask) + after, |before|) == Got(f, |before| + |Encode(f, mask)|)
  {
    hide ReadHeader, HeaderBytes, ReadFrame, Pow256, Encode, Xor, Masked, Body;
    LimitFits();
    var header, tail := HeaderBytes(f, mask.Some?), Body(f, mask);
    var s, body := before + Encode(f, mask) + after, |before| + |header|;
    EncodeParts(f, mask);
    assert s == before + header + (tail + after);
    WrittenHeaderIsRead(before, f, mask.Some?, tail + after);
    assert s == before + header + tail + after;
    Placed(before + header, tail, after);
    BodyParts(f, mask);
    match mask {
      case None => PlainBodyIsRead(s, |before|, f, body);
      case Some(key) =>
        assert s[body..body + 4] == tail[..4];
        SlicePlaced(s, body, tail, 4);
        MaskedBodyIsRead(s, |before|, f, key, body);
    }
  }

  lemma EncodeParts(f: Frame, mask: Option<Key>)
    requires f.op < 16
    ensures Encode(f, mask) == HeaderBytes(f, mask.Some?) + Body(f, mask)
  {
  }

  lemma LimitFits()
    ensures 65536 == Pow256(2) && MAX_FRAME < Pow256(8)
  {
    assert Pow256(2) == 65536 && Pow256(4) == 0x1_0000_0000 by {
      assert Pow256(1) == 256;
      assert Pow256(3) == 256 * Pow256(2);
    }
    assert Pow256(8) >= Pow256(4) by {
      assert Pow256(8) == 256 * Pow256(7) && Pow256(7) == 256 * Pow256(6) && Pow256(6) == 256 * Pow256(5) && Pow256(5) == 256 * Pow256(4);
    }
  }

  lemma HeaderIsRead(mask: bool, n: nat)
    requires n < Pow256(8)
    ensures var b := LengthBytes(mask, n);
            var short := (b[0] % 128) as nat;
            && (b[0] >= 128) == mask
            && |b| == 1 + (if short == 126 then 2 else if short == 127 then 8 else 0)
            && (|b| == 1 ==> short == n)
            && (|b| > 1 ==> FromBigEndian(b[1..]) == n)
            && (short == 127 <==> n >= 65536)
  {
    hide FromBigEndian, BigEndian, Pow256;
    var b := LengthBytes(mask, n);
    LimitFits();
    if n >= 126 {
      var k := if n < 65536 then 2 else 8;
      BigEndianInverse(n, k);
      assert b[1..] == BigEndian(n, k);
    }
  }

  /** A 64-bit length over the limit is refused although nothing of the payload was read. */
  lemma TooLargeIsRefused(before: Bytes, f: Frame, mask: Option<Key>, after: Bytes)
    requires f.op < 16 && MAX_FRAME < |f.payload| < Pow256(8)
    ensures ReadFrame(before + HeaderBytes(f, mask.Some?) + after, |before|) == TooLarge
  {
    hide ReadHeader, HeaderBytes, Pow256;
    WrittenHeaderIsRead(before, f, mask.Some?, after);
  }

  /** What was written, frame after frame. */
  datatype Written = Written(frame: Frame, mask: Option<Key>)

  predicate Writable(ws: seq<Written>) {
    forall i :: 0 <= i < |ws| ==> ws[i].frame.op < 16 && |ws[i].frame.payload| <= MAX_FRAME
  }

  function EncodeAll(ws: seq<Written>): Bytes
    requires Writable(ws)
  {
    if ws == [] then [] else Encode(ws[0].frame, ws[0].mask) + EncodeAll(ws[1..])
  }

  function FramesOf(ws: seq<Written>): seq<Frame> {
    seq(|ws|, i requires 0 <= i < |ws| => ws[i].frame)
  }

  /** Every frame up to the end of the stream or the first failure, and where that is. */
  function ReadAll(s: Bytes, pos: nat): (seq<Frame>, nat, Read)
    decreases |s| - pos
  {
    match ReadFrame(s, pos)
    case Got(f, next) =>
      var (fs, end, why) := ReadAll(s, next);
      ([f] + fs, end, why)
    case failure => ([], pos, failure)
  }

  /** For every sequence of frames up to the size limit and any masking keys, reading the
      concatenated bytes gives back the sequence and consumes exactly those bytes. */
  lemma {:induction false} RoundTrip(before: Bytes, ws: seq<Written>)
    requires Writable(ws)
    ensures var s := before + EncodeAll(ws);
            ReadAll(s, |before|) == (FramesOf(ws), |s|, Ended)
    decreases |ws|
  {
    hide ReadFrame, Encode;
    var s := before + EncodeAll(ws);
    if ws == [] {
      EndIsEnded(s);
      assert FramesOf(ws) == [];
    } else {
      var w, rest := ws[0], ws[1..];
      var first := Encode(w.frame, w.mask);
      WrittenIsRead(before, w.frame, w.mask, EncodeAll(rest));
      assert s == before + first + EncodeAll(rest);
      RoundTrip(before + first, rest);
      assert FramesOf(ws) == [w.frame] + FramesOf(rest);
    }
  }

  lemma EndIsEnded(s: Bytes)
    ensures ReadFrame(s, |s|) == Ended
  {
  }
}
