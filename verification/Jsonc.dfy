/** `stripJSONC`: the two passes that turn a JSONC file into JSON. */
module Jsonc {
  import opened Bytes
  import opened Wrappers

  const QUOTE: Byte := 34
  const BACKSLASH: Byte := 92
  const SLASH: Byte := 47
  const STAR: Byte := 42
  const COMMA: Byte := 44

  predicate IsSpace(c: Byte) {
    c == 32 || c == 9 || c == 10 || c == 13
  }

  predicate IsClose(c: Byte) {
    c == 93 || c == 125
  }

  /** From inside a string literal, the index of its closing quote, or at least `|b|`. */
  function StringEnd(b: Bytes, j: nat): (e: nat)
    ensures j <= e
    ensures e < |b| ==> b[e] == QUOTE
    decreases |b| - j
  {
    if j >= |b| || b[j] == QUOTE then j
    else StringEnd(b, if b[j] == BACKSLASH then j + 2 else j + 1)
  }

  /** What a string literal is made of: a byte that means itself, or a backslash with the byte
      behind it (section 7 of RFC 8259, which also says which of them may follow). */
  datatype Unit = Plain(c: Byte) | Escape(c: Byte)

  predicate ValidUnit(u: Unit) {
    u.Plain? ==> u.c != 34 && u.c != 92
  }

  predicate ValidUnits(units: seq<Unit>) {
    forall u <- units :: ValidUnit(u)
  }

  function Spelled(units: seq<Unit>): Bytes {
    if units == [] then []
    else (match units[0] case Plain(c) => [c] case Escape(c) => [92, c]) + Spelled(units[1..])
  }

  /** The bytes between the quotes of a string literal. */
  ghost predicate IsLiteralBody(body: Bytes) {
    exists units: seq<Unit> :: ValidUnits(units) && Spelled(units) == body
  }

  lemma SpelledCons(u: Unit, units: seq<Unit>)
    ensures Spelled([u] + units) == (if u.Plain? then [u.c] else [92, u.c]) + Spelled(units)
    ensures ValidUnits([u] + units) <==> ValidUnit(u) && ValidUnits(units)
  {
    assert ([u] + units)[1..] == units && u in [u] + units;
    assert forall v <- units :: v in [u] + units;
  }

  /** A literal ends behind its units. */
  lemma {:induction false} UnitsEnd(b: Bytes, j: nat, units: seq<Unit>)
    requires ValidUnits(units) && j + |Spelled(units)| < |b|
    requires b[j..j + |Spelled(units)|] == Spelled(units) && b[j + |Spelled(units)|] == QUOTE
    ensures StringEnd(b, j) == j + |Spelled(units)|
    decreases |units|
  {
    if units != [] {
      var u, rest := units[0], units[1..];
      assert units == [u] + rest;
      SpelledCons(u, rest);
      hide Spelled, ValidUnits;
      var n := if u.Plain? then 1 else 2;
      var all := b[j..j + |Spelled(units)|];
      assert b[j] == all[0] == if u.Plain? then u.c else 92;
      assert b[j + n..j + n + |Spelled(rest)|] == all[n..] == Spelled(rest);
      UnitsEnd(b, j + n, rest);
    }
  }

  /** What the scan of a literal has passed are units. */
  lemma {:induction false} UnitsPassed(b: Bytes, j: nat) returns (units: seq<Unit>)
    requires StringEnd(b, j) < |b|
    ensures ValidUnits(units) && Spelled(units) == b[j..StringEnd(b, j)]
    decreases |b| - j
  {
    if b[j] == QUOTE {
      units := [];
    } else {
      var u := if b[j] == BACKSLASH then Escape(b[j + 1]) else Plain(b[j]);
      var n := if b[j] == BACKSLASH then 2 else 1;
      var rest := UnitsPassed(b, j + n);
      SpelledCons(u, rest);
      units := [u] + rest;
      assert b[j..StringEnd(b, j)] == b[j..j + n] + b[j + n..StringEnd(b, j)];
    }
  }

  /** From inside a string literal, its closing quote is the one that only units precede. */
  lemma StringEndExactly(b: Bytes, j: nat, e: nat)
    requires j <= e < |b|
    ensures StringEnd(b, j) == e <==> b[e] == QUOTE && IsLiteralBody(b[j..e])
  {
    if StringEnd(b, j) == e {
      var units := UnitsPassed(b, j);
    }
    if b[e] == QUOTE && IsLiteralBody(b[j..e]) {
      var units: seq<Unit> :| ValidUnits(units) && Spelled(units) == b[j..e];
      UnitsEnd(b, j, units);
    }
  }

  /** The index of the next end of a block comment, or `|b|`. */
  function BlockEnd(b: Bytes, j: nat): (e: nat)
    ensures e == |b| || (j <= e && e + 1 < |b| && b[e] == STAR && b[e + 1] == SLASH)
    decreases |b| - j
  {
    if j + 1 >= |b| then |b| else if b[j] == STAR && b[j + 1] == SLASH then j else BlockEnd(b, j + 1)
  }

  function SkipSpace(b: Bytes, j: nat): (e: nat)
    requires j <= |b|
    ensures j <= e <= |b|
    ensures forall k :: j <= k < e ==> IsSpace(b[k])
    ensures e < |b| ==> !IsSpace(b[e])
    decreases |b| - j
  {
    if j < |b| && IsSpace(b[j]) then SkipSpace(b, j + 1) else j
  }

  /** One turn of the scan at the front of `b`: it consumes `n` bytes and appends `out`, or an
      unterminated string or block comment ends it. */
  datatype Turn = Emit(n: nat, out: Bytes) | Unterminated

  function TurnAt(b: Bytes, comments: bool): (t: Turn)
    requires b != []
    ensures t.Emit? ==> 1 <= t.n <= |b|
  {
    var c := b[0];
    if c == QUOTE then
      var j := StringEnd(b, 1);
      if j >= |b| then Unterminated else Emit(j + 1, b[..j + 1])
    else if comments && c == SLASH && |b| > 1 && b[1] == SLASH then
      var e := NextNewline(b, 0);
      if e < |b| then Emit(e + 1, [NL]) else Emit(|b|, [])
    else if comments && c == SLASH && |b| > 1 && b[1] == STAR then
      var e := BlockEnd(b, 2);
      if e == |b| then Unterminated else Emit(e + 2, [])
    else if !comments && c == COMMA && Trailing(b) then Emit(1, [])
    else Emit(1, [c])
  }

  /** The byte after `b[0]` and any white space closes an array or an object. */
  predicate Trailing(b: Bytes)
    requires b != []
  {
    var j := SkipSpace(b, 1); j < |b| && IsClose(b[j])
  }

  function Scan(b: Bytes, comments: bool): Option<Bytes>
    decreases |b|
  {
    if b == [] then Some([])
    else match TurnAt(b, comments)
      case Unterminated => None
      case Emit(n, out) =>
        match Scan(b[n..], comments)
        case None => None
        case Some(rest) => Some(out + rest)
  }

  function Strip(b: Bytes): Option<Bytes> {
    match Scan(b, true)
    case None => None
    case Some(clean) => Scan(clean, false)
  }

  // ---- the loops ----

  function Prepend(out: Bytes, rest: Option<Bytes>): Option<Bytes> {
    match rest
    case None => None
    case Some(r) => Some(out + r)
  }

  lemma {:induction false} StringEndShift(b: Bytes, i: nat, j: nat)
    requires i <= |b|
    ensures StringEnd(b, i + j) == i + StringEnd(b[i..], j)
    decreases |b| - j
  {
    if i + j < |b| && b[i + j] != QUOTE {
      StringEndShift(b, i, if b[i + j] == BACKSLASH then j + 2 else j + 1);
    }
  }

  lemma {:induction false} BlockEndShift(b: Bytes, i: nat, j: nat)
    requires i <= |b|
    ensures BlockEnd(b, i + j) == i + BlockEnd(b[i..], j)
    decreases |b| - j
  {
    if i + j + 1 < |b| && !(b[i + j] == STAR && b[i + j + 1] == SLASH) {
      BlockEndShift(b, i, j + 1);
    }
  }

  lemma {:induction false} SkipSpaceShift(b: Bytes, i: nat, j: nat)
    requires i + j <= |b|
    ensures SkipSpace(b, i + j) == i + SkipSpace(b[i..], j)
    decreases |b| - j
  {
    if i + j < |b| && IsSpace(b[i + j]) {
      SkipSpaceShift(b, i, j + 1);
    }
  }

  lemma NextNewlineShift(b: Bytes, i: nat)
    requires i <= |b|
    ensures NextNewline(b, i) == i + NextNewline(b[i..], 0)
  {
    var e := NextNewline(b[i..], 0);
    if i + e < |b| {
      assert forall k :: i <= k < i + e ==> b[k] == b[i..][k - i];
      NextNewlineUnique(b, i, i + e);
    }
  }

  /** The loop has copied `out` for the first `i` bytes. */
  predicate Scanning(b: Bytes, comments: bool, i: nat, out: Bytes) {
    i <= |b| && Scan(b, comments) == Prepend(out, Scan(b[i..], comments))
  }

  lemma StartScanning(b: Bytes, comments: bool)
    ensures Scanning(b, comments, 0, [])
  {
    assert b[0..] == b;
    match Scan(b, comments)
    case None =>
    case Some(all) => assert [] + all == all;
  }

  lemma DoneScanning(b: Bytes, comments: bool, out: Bytes)
    requires Scanning(b, comments, |b|, out)
    ensures Scan(b, comments) == Some(out)
  {
    assert out + [] == out;
  }

  lemma TurnScanning(b: Bytes, comments: bool, i: nat, out: Bytes)
    requires Scanning(b, comments, i, out) && i < |b|
    ensures match TurnAt(b[i..], comments)
            case Unterminated => Scan(b, comments) == None
            case Emit(n, more) => Scanning(b, comments, i + n, out + more)
  {
    match TurnAt(b[i..], comments)
    case Unterminated =>
    case Emit(n, more) =>
      assert b[i..][n..] == b[i + n..];
      match Scan(b[i + n..], comments)
      case None =>
      case Some(rest) => assert out + (more + rest) == (out + more) + rest;
  }

  lemma StringTurn(b: Bytes, comments: bool, i: nat, out: Bytes)
    requires Scanning(b, comments, i, out) && i < |b| && b[i] == QUOTE
    ensures var j := StringEnd(b, i + 1);
            if j >= |b| then Scan(b, comments) == None else Scanning(b, comments, j + 1, out + b[i..j + 1])
  {
    hide Scan, Scanning;
    var t := b[i..];
    StringEndShift(b, i, 1);
    TurnScanning(b, comments, i, out);
    var j := StringEnd(b, i + 1);
    if j < |b| {
      assert t[..j - i + 1] == b[i..j + 1];
    }
  }

  lemma LineTurn(b: Bytes, i: nat, out: Bytes)
    requires Scanning(b, true, i, out) && i + 1 < |b| && b[i] == SLASH && b[i + 1] == SLASH
    ensures var e := NextNewline(b, i);
            if e < |b| then Scanning(b, true, e + 1, out + [NL]) else Scanning(b, true, |b|, out)
  {
    hide Scan, Scanning;
    NextNewlineShift(b, i);
    TurnScanning(b, true, i, out);
    assert out + [] == out;
  }

  lemma BlockTurn(b: Bytes, i: nat, out: Bytes)
    requires Scanning(b, true, i, out) && i + 1 < |b| && b[i] == SLASH && b[i + 1] == STAR
    ensures var e := BlockEnd(b, i + 2);
            if e == |b| then Scan(b, true) == None else Scanning(b, true, e + 2, out)
  {
    hide Scan, Scanning;
    BlockEndShift(b, i, 2);
    TurnScanning(b, true, i, out);
    assert out + [] == out;
  }

  lemma CommaTurn(b: Bytes, i: nat, out: Bytes)
    requires Scanning(b, false, i, out) && i < |b| && b[i] == COMMA
    ensures var j := SkipSpace(b, i + 1);
            Scanning(b, false, i + 1, if j < |b| && IsClose(b[j]) then out else out + [COMMA])
  {
    hide Scan, Scanning;
    SkipSpaceShift(b, i, 1);
    TurnScanning(b, false, i, out);
    assert out + [] == out;
  }

  lemma CopyTurn(b: Bytes, comments: bool, i: nat, out: Bytes)
    requires Scanning(b, comments, i, out) && i < |b| && b[i] != QUOTE
    requires comments ==> !(b[i] == SLASH && i + 1 < |b| && b[i + 1] in {SLASH, STAR})
    requires !comments ==> b[i] != COMMA
    ensures Scanning(b, comments, i + 1, out + [b[i]])
  {
    hide Scan, Scanning;
    TurnScanning(b, comments, i, out);
  }

  /** The inner loops: to the closing quote, to the newline, to the end of a block comment, and
      over white space. */
  method FindQuote(b: Bytes, from: nat) returns (j: nat)
    ensures j == StringEnd(b, from)
  {
    j := from;
    while j < |b| && b[j] != QUOTE
      invariant StringEnd(b, j) == StringEnd(b, from)
      decreases |b| - j
    {
      if b[j] == BACKSLASH {
        j := j + 1;
      }
      j := j + 1;
    }
  }

  method FindNewline(b: Bytes, from: nat) returns (e: nat)
    requires from <= |b|
    ensures e == NextNewline(b, from)
  {
    e := from;
    while e < |b| && b[e] != NL
      invariant from <= e <= |b| && NextNewline(b, e) == NextNewline(b, from)
    {
      e := e + 1;
    }
  }

  method FindBlockEnd(b: Bytes, from: nat) returns (e: nat)
    ensures e == BlockEnd(b, from)
  {
    e := from;
    while e + 1 < |b| && !(b[e] == STAR && b[e + 1] == SLASH)
      invariant BlockEnd(b, e) == BlockEnd(b, from)
      decreases |b| - e
    {
      e := e + 1;
    }
    if e + 1 >= |b| {
      e := |b|;
    }
  }

  method FindNonSpace(b: Bytes, from: nat) returns (j: nat)
    requires from <= |b|
    ensures j == SkipSpace(b, from)
  {
    j := from;
    while j < |b| && IsSpace(b[j])
      invariant from <= j <= |b| && SkipSpace(b, j) == SkipSpace(b, from)
    {
      j := j + 1;
    }
  }

  /** The scan loop; `comments` chooses the pass. */
  method ScanJSONC(b: Bytes, comments: bool) returns (r: Option<Bytes>)
    ensures r == Scan(b, comments)
  {
    hide Scanning, Scan, TurnAt, StringEnd, NextNewline, BlockEnd, SkipSpace;
    var out: Bytes := [];
    var i := 0;
    StartScanning(b, comments);
    while i < |b|
      invariant 0 <= i <= |b| && Scanning(b, comments, i, out)
    {
      var c := b[i];
      if c == QUOTE {
        StringTurn(b, comments, i, out);
        var j := FindQuote(b, i + 1);
        if j >= |b| {
          return None;
        }
        out := out + b[i..j + 1];
        i := j + 1;
      } else if comments && c == SLASH && i + 1 < |b| && b[i + 1] == SLASH {
        LineTurn(b, i, out);
        var e := FindNewline(b, i);
        if e < |b| {
          out := out + [NL];
          i := e + 1;
        } else {
          i := e;
        }
      } else if comments && c == SLASH && i + 1 < |b| && b[i + 1] == STAR {
        BlockTurn(b, i, out);
        var e := FindBlockEnd(b, i + 2);
        if e == |b| {
          return None;
        }
        i := e + 2;
      } else if !comments && c == COMMA {
        CommaTurn(b, i, out);
        var j := FindNonSpace(b, i + 1);
        if !(j < |b| && IsClose(b[j])) {
          out := out + [c];
        }
        i := i + 1;
      } else {
        CopyTurn(b, comments, i, out);
        out := out + [c];
        i := i + 1;
      }
    }
    DoneScanning(b, comments, out);
    r := Some(out);
  }

  method StripJSONC(b: Bytes) returns (r: Option<Bytes>)
    ensures r == Strip(b)
  {
    r := ScanJSONC(b, true);
    if r.Some? {
      r := ScanJSONC(r.value, false);
    }
  }

  // ---- the comment pass changes its own output nowhere ----

  /** The comment pass never puts a slash in front of what would make it a comment. */
  lemma HeadSurvives(b: Bytes)
    requires b != [] && b[0] != SLASH && Scan(b, true).Some?
    ensures Scan(b, true).value != [] && Scan(b, true).value[0] == b[0]
  {
  }

  lemma {:induction false} StringEndPrefix(b: Bytes, more: Bytes, j: nat)
    requires StringEnd(b, j) < |b|
    ensures StringEnd(b + more, j) == StringEnd(b, j)
    decreases |b| - j
  {
    if b[j] != QUOTE {
      StringEndPrefix(b, more, if b[j] == BACKSLASH then j + 2 else j + 1);
    }
  }

  lemma {:induction false} StringEndLocal(b: Bytes, j: nat, e: nat)
    requires StringEnd(b, j) == e < |b|
    ensures StringEnd(b[..e + 1], j) == e
    decreases |b| - j
  {
    if b[j] != QUOTE {
      StringEndLocal(b, if b[j] == BACKSLASH then j + 2 else j + 1, e);
    }
  }

  /** A literal at the front is taken whole, whatever follows it. */
  lemma LiteralTurn(lit: Bytes, rest: Bytes, comments: bool)
    requires |lit| >= 2 && lit[0] == QUOTE && StringEnd(lit, 1) == |lit| - 1
    ensures TurnAt(lit + rest, comments) == Emit(|lit|, lit)
  {
    StringEndPrefix(lit, rest, 1);
    assert (lit + rest)[..|lit|] == lit;
  }

  lemma ScanCons(b: Bytes, rest: Bytes, comments: bool, out: Bytes)
    requires b != [] && TurnAt(b + rest, comments) == Emit(|b|, out)
    ensures Scan(b + rest, comments) == Prepend(out, Scan(rest, comments))
  {
    assert (b + rest)[|b|..] == rest;
  }

  /** One turn that emits something emits the same again in front of what came after it. */
  lemma EmittedAgain(b: Bytes, n: nat, out: Bytes, rest: Bytes)
    requires b != [] && TurnAt(b, true) == Emit(n, out) && out != [] && Scan(b[n..], true) == Some(rest)
    ensures TurnAt(out + rest, true) == Emit(|out|, out)
  {
    if b[0] == QUOTE {
      StringEndLocal(b, 1, n - 1);
      LiteralTurn(out, rest, true);
    } else if b[0] == SLASH && out == [SLASH] && n < |b| {
      assert b[1] != SLASH && b[1] != STAR;
      HeadSurvives(b[1..]);
    }
  }

  /** For any bytes at all, the comment pass applied to its own output changes nothing. */
  lemma {:induction false} CommentPassIdempotent(b: Bytes)
    requires Scan(b, true).Some?
    ensures Scan(Scan(b, true).value, true) == Scan(b, true)
    decreases |b|
  {
    if b != [] {
      var Emit(n, out) := TurnAt(b, true);
      var rest := Scan(b[n..], true).value;
      CommentPassIdempotent(b[n..]);
      hide TurnAt;
      assert Scan(b, true) == Some(out + rest);
      if out == [] {
        assert out + rest == rest;
      } else {
        EmittedAgain(b, n, out, rest);
        hide Scan;
        ScanCons(out, rest, true, out);
      }
    }
  }
}
