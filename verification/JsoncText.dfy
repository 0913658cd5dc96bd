/** What the two passes of `stripJSONC` do to any bytes at all, JSON or not: where strings and
    comments begin and end, what is dropped, and when a pass fails. */
module JsoncText {
  import opened Bytes
  import opened Wrappers
  import opened Jsonc
  import opened JsoncLayout

  // ---- any text in pieces ----

  datatype Piece = Literal(units: seq<Unit>) | LineComment(body: Bytes) | BlockComment(body: Bytes) | Single(c: Byte)

  /** What the text ends in: nothing more, a line comment without a newline, or a string or a
      block comment that is never closed. A string may be cut behind a backslash. */
  datatype Tail = Whole | OpenLine(body: Bytes) | OpenLiteral(units: seq<Unit>, cut: bool) | OpenBlock(body: Bytes)

  function PieceBytes(p: Piece): Bytes {
    match p
    case Literal(units) => [34] + Spelled(units) + [34]
    case LineComment(body) => [47, 47] + body + [10]
    case BlockComment(body) => [47, 42] + body + [42, 47]
    case Single(c) => [c]
  }

  function TailBytes(t: Tail): Bytes {
    match t
    case Whole => []
    case OpenLine(body) => [47, 47] + body
    case OpenLiteral(units, cut) => [34] + Spelled(units) + (if cut then [92] else [])
    case OpenBlock(body) => [47, 42] + body
  }

  function Text(ps: seq<Piece>, t: Tail): Bytes {
    if ps == [] then TailBytes(t) else PieceBytes(ps[0]) + Text(ps[1..], t)
  }

  /** No star and slash in a row. */
  predicate NoCommentEnd(body: Bytes) {
    forall k :: 0 <= k < |body| - 1 ==> !(body[k] == 42 && body[k + 1] == 47)
  }

  /** Where comments count, a slash that stands for itself is not followed by another or a star. */
  predicate ValidPiece(p: Piece, rest: Bytes, comments: bool) {
    match p
    case Literal(units) => ValidUnits(units)
    case LineComment(body) => comments && 10 !in body
    case BlockComment(body) => comments && NoCommentEnd(body)
    case Single(c) => c != 34 && (comments && c == 47 && rest != [] ==> rest[0] != 47 && rest[0] != 42)
  }

  predicate ValidTail(t: Tail, comments: bool) {
    match t
    case Whole => true
    case OpenLine(body) => comments && 10 !in body
    case OpenLiteral(units, _) => ValidUnits(units)
    case OpenBlock(body) => comments && NoCommentEnd(body)
  }

  predicate ValidText(ps: seq<Piece>, t: Tail, comments: bool) {
    if ps == [] then ValidTail(t, comments)
    else ValidPiece(ps[0], Text(ps[1..], t), comments) && ValidText(ps[1..], t, comments)
  }

  /** White space and then the close of an array or an object. */
  predicate ClosesAt(b: Bytes, k: nat) {
    k < |b| && (b[k] == 93 || b[k] == 125) && forall i :: 0 <= i < k ==> IsJsonSpace(b[i])
  }

  ghost predicate Closes(b: Bytes) {
    exists k: nat :: ClosesAt(b, k)
  }

  /** What a pass keeps of a piece. */
  ghost function KeptOf(p: Piece, rest: Bytes, comments: bool): Bytes {
    match p
    case Literal(_) => PieceBytes(p)
    case LineComment(_) => [10]
    case BlockComment(_) => []
    case Single(c) => if !comments && c == 44 && Closes(rest) then [] else [c]
  }

  ghost function Kept(ps: seq<Piece>, t: Tail, comments: bool): Bytes {
    if ps == [] then [] else KeptOf(ps[0], Text(ps[1..], t), comments) + Kept(ps[1..], t, comments)
  }

  predicate Unclosed(t: Tail) {
    t.OpenLiteral? || t.OpenBlock?
  }

  // ---- one piece ----

  lemma TrailingMeansCloses(c: Byte, rest: Bytes)
    ensures Trailing([c] + rest) <==> Closes(rest)
  {
    var b := [c] + rest;
    var j := SkipSpace(b, 1);
    if Trailing(b) {
      assert forall i :: 0 <= i < j - 1 ==> rest[i] == b[i + 1];
      assert ClosesAt(rest, j - 1);
    }
    if k: nat :| ClosesAt(rest, k) {
      assert b[k + 1] == rest[k];
      assert j <= k + 1 ==> b[j] == rest[j - 1];
    }
  }

  lemma PieceTurn(p: Piece, rest: Bytes, comments: bool)
    requires ValidPiece(p, rest, comments)
    ensures TurnAt(PieceBytes(p) + rest, comments) == Emit(|PieceBytes(p)|, KeptOf(p, rest, comments))
  {
    var b := PieceBytes(p) + rest;
    match p
    case Literal(units) =>
      assert IsLiteralBody(Spelled(units));
      StringTokenTurn(Spelled(units), rest, comments);
    case LineComment(body) => LineTurnAt(body, rest);
    case BlockComment(body) => BlockTurnAt(body, rest);
    case Single(c) =>
      assert rest != [] ==> b[1] == rest[0];
      TrailingMeansCloses(c, rest);
  }

  // ---- a tail ----

  lemma TailTurn(t: Tail, comments: bool)
    requires ValidTail(t, comments) && t != Whole
    ensures TurnAt(TailBytes(t), comments) == if Unclosed(t) then Unterminated else Emit(|TailBytes(t)|, [])
  {
    match t
    case OpenLine(body) => LineTurnAt(body, []);
    case OpenLiteral(units, cut) => OpenUnits(TailBytes(t), 1, units, cut);
    case OpenBlock(body) => OpenBody(body, 0);
  }

  /** Units that no quote follows leave a literal open. */
  lemma {:induction false} OpenUnits(b: Bytes, j: nat, units: seq<Unit>, cut: bool)
    requires ValidUnits(units) && j <= |b| && b[j..] == Spelled(units) + if cut then [92] else []
    ensures StringEnd(b, j) >= |b|
    decreases |units|
  {
    if units == [] {
      assert cut ==> b[j] == b[j..][0] == 92;
    } else {
      var u, rest := units[0], units[1..];
      assert units == [u] + rest;
      SpelledCons(u, rest);
      hide Spelled, ValidUnits;
      var n := if u.Plain? then 1 else 2;
      assert b[j] == b[j..][0] == if u.Plain? then u.c else 92;
      assert b[j + n..] == b[j..][n..] == Spelled(rest) + if cut then [92] else [];
      OpenUnits(b, j + n, rest, cut);
    }
  }

  lemma {:induction false} OpenBody(body: Bytes, j: nat)
    requires NoCommentEnd(body) && j <= |body|
    ensures BlockEnd([47, 42] + body, 2 + j) == 2 + |body|
    decreases |body| - j
  {
    var b := [47, 42] + body;
    if j + 1 < |body| {
      assert b[2 + j] == body[j] && b[3 + j] == body[j + 1];
      OpenBody(body, j + 1);
    }
  }

  // ---- the meaning of a pass ----

  /** On any text, a pass keeps what it keeps of each piece, and fails exactly when a string or a
      block comment is never closed. */
  lemma {:induction false} ScanMeaning(ps: seq<Piece>, t: Tail, comments: bool)
    requires ValidText(ps, t, comments)
    ensures Scan(Text(ps, t), comments) == if Unclosed(t) then None else Some(Kept(ps, t, comments))
    decreases |ps|
  {
    hide TurnAt, PieceBytes, KeptOf, ValidPiece;
    if ps != [] {
      var p, rest := ps[0], Text(ps[1..], t);
      PieceTurn(p, rest, comments);
      ScanMeaning(ps[1..], t, comments);
      PieceIsThere(p);
      ScanCons(PieceBytes(p), rest, comments, KeptOf(p, rest, comments));
    } else {
      TailMeaning(t, comments);
    }
  }

  lemma TailMeaning(t: Tail, comments: bool)
    requires ValidTail(t, comments)
    ensures Scan(TailBytes(t), comments) == if Unclosed(t) then None else Some([])
  {
    hide TurnAt, ValidTail;
    EmptyScan(comments);
    if t != Whole {
      TailTurn(t, comments);
      TailIsThere(t);
      var b := TailBytes(t);
      assert b + [] == b;
      if !Unclosed(t) {
        ScanCons(b, [], comments, []);
        NothingMore();
      }
    }
  }

  lemma NothingMore()
    ensures Prepend([], Some([])) == Some([])
  {
    var none: Bytes := [];
    assert none + none == none;
  }

  lemma PieceIsThere(p: Piece)
    ensures PieceBytes(p) != []
  {
  }

  lemma TailIsThere(t: Tail)
    requires t != Whole
    ensures TailBytes(t) != []
  {
  }

  // ---- every text has pieces ----

  /** The piece at the front, or the tail that everything is. */
  lemma FirstPiece(b: Bytes, comments: bool) returns (p: Piece, n: nat, t: Tail)
    requires b != []
    ensures n > 0 ==> n <= |b| && b[..n] == PieceBytes(p) && ValidPiece(p, b[n..], comments)
    ensures n == 0 ==> t != Whole && TailBytes(t) == b && ValidTail(t, comments)
  {
    p, n, t := Single(b[0]), 1, Whole;
    if b[0] == 34 {
      p, n, t := FirstLiteral(b);
    } else if comments && b[0] == 47 && |b| > 1 && b[1] == 47 {
      p, n, t := FirstLine(b);
    } else if comments && b[0] == 47 && |b| > 1 && b[1] == 42 {
      p, n, t := FirstBlock(b);
    }
  }

  lemma FirstLiteral(b: Bytes) returns (p: Piece, n: nat, t: Tail)
    requires b != [] && b[0] == 34
    ensures n > 0 ==> n <= |b| && b[..n] == PieceBytes(p) && ValidPiece(p, b[n..], true) && ValidPiece(p, b[n..], false)
    ensures n == 0 ==> t.OpenLiteral? && TailBytes(t) == b && ValidTail(t, true) && ValidTail(t, false)
  {
    p, n, t := Single(0), 0, Whole;
    var e := StringEnd(b, 1);
    if e < |b| {
      var units := UnitsPassed(b, 1);
      p, n := Literal(units), e + 1;
      assert b[..n] == [34] + b[1..e] + [34];
    } else {
      var units, cut := UnitsToEnd(b, 1);
      t := OpenLiteral(units, cut);
      assert b == [34] + b[1..];
    }
  }

  lemma {:induction false} UnitsToEnd(b: Bytes, j: nat) returns (units: seq<Unit>, cut: bool)
    requires j <= |b| && StringEnd(b, j) >= |b|
    ensures ValidUnits(units) && b[j..] == Spelled(units) + if cut then [92] else []
    decreases |b| - j
  {
    units, cut := [], false;
    if j < |b| && b[j] == BACKSLASH && j + 1 == |b| {
      cut := true;
    } else if j < |b| {
      var u := if b[j] == BACKSLASH then Escape(b[j + 1]) else Plain(b[j]);
      var n := if b[j] == BACKSLASH then 2 else 1;
      var rest;
      rest, cut := UnitsToEnd(b, j + n);
      SpelledCons(u, rest);
      units := [u] + rest;
      assert b[j..] == b[j..j + n] + b[j + n..];
    }
  }

  lemma FirstLine(b: Bytes) returns (p: Piece, n: nat, t: Tail)
    requires |b| > 1 && b[0] == 47 && b[1] == 47
    ensures n > 0 ==> n <= |b| && b[..n] == PieceBytes(p) && ValidPiece(p, b[n..], true)
    ensures n == 0 ==> t.OpenLine? && TailBytes(t) == b && ValidTail(t, true)
  {
    var e := NextNewline(b, 2);
    p, n, t := LineComment(b[2..e]), 0, OpenLine(b[2..e]);
    if e < |b| {
      n := e + 1;
      assert b[..n] == [47, 47] + b[2..e] + [10];
    } else {
      assert b == [47, 47] + b[2..e];
    }
  }

  lemma FirstBlock(b: Bytes) returns (p: Piece, n: nat, t: Tail)
    requires |b| > 1 && b[0] == 47 && b[1] == 42
    ensures n > 0 ==> n <= |b| && b[..n] == PieceBytes(p) && ValidPiece(p, b[n..], true)
    ensures n == 0 ==> t.OpenBlock? && TailBytes(t) == b && ValidTail(t, true)
  {
    var e := BlockEnd(b, 2);
    BlockEndIsFirst(b, 2);
    p, n, t := BlockComment(b[2..e]), 0, OpenBlock(b[2..e]);
    if e < |b| {
      n := e + 2;
      assert b[..n] == [47, 42] + b[2..e] + [42, 47];
    } else {
      assert b == [47, 42] + b[2..e];
    }
  }

  lemma {:induction false} BlockEndIsFirst(b: Bytes, j: nat)
    requires j <= |b|
    ensures forall k :: j <= k < BlockEnd(b, j) - 1 ==> !(b[k] == 42 && b[k + 1] == 47)
    decreases |b| - j
  {
    if j + 1 < |b| && !(b[j] == STAR && b[j + 1] == SLASH) {
      BlockEndIsFirst(b, j + 1);
    }
  }

  lemma {:induction false} TextInPieces(b: Bytes, comments: bool) returns (ps: seq<Piece>, t: Tail)
    ensures ValidText(ps, t, comments) && Text(ps, t) == b
    decreases |b|
  {
    ps, t := [], Whole;
    if b != [] {
      var p, n, tail := FirstPiece(b, comments);
      if n == 0 {
        t := tail;
      } else {
        var rest;
        rest, t := TextInPieces(b[n..], comments);
        ps := [p] + rest;
        assert ps[1..] == rest && b == b[..n] + b[n..];
      }
    }
  }

  /** A pass fails exactly on the texts that end in a string or a block comment that is never
      closed; nothing else is an error, and these are never silently dropped. */
  lemma ScanFailsExactly(b: Bytes, comments: bool)
    ensures Scan(b, comments) == None <==>
            exists ps, t :: ValidText(ps, t, comments) && Text(ps, t) == b && Unclosed(t)
  {
    var ps, t := TextInPieces(b, comments);
    ScanMeaning(ps, t, comments);
    if qs, u :| ValidText(qs, u, comments) && Text(qs, u) == b && Unclosed(u) {
      ScanMeaning(qs, u, comments);
    }
  }
}
