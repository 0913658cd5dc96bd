/** When the comma pass of `stripJSONC` is a fixed point of itself. On JSON it always is; on other
    input a stack of commas before a close loses one comma per pass. */
module JsoncCommas {
  import opened Bytes
  import opened Wrappers
  import opened Jsonc

  /** The first byte past any white space closes an array or an object. */
  predicate ClosesSoon(b: Bytes)
    decreases |b|
  {
    b != [] && if IsSpace(b[0]) then ClosesSoon(b[1..]) else IsClose(b[0])
  }

  /** The first byte past any white space is a comma in front of such a close. */
  predicate CommaSoon(b: Bytes)
    decreases |b|
  {
    b != [] && if IsSpace(b[0]) then CommaSoon(b[1..]) else b[0] == COMMA && ClosesSoon(b[1..])
  }

  lemma {:induction false} SkipFindsClose(b: Bytes, j: nat)
    requires j <= |b|
    ensures ClosesSoon(b[j..]) <==> SkipSpace(b, j) < |b| && IsClose(b[SkipSpace(b, j)])
    decreases |b| - j
  {
    if j < |b| && IsSpace(b[j]) {
      SkipFindsClose(b, j + 1);
      assert b[j..][1..] == b[j + 1..];
    }
  }

  lemma TrailingMeansClosesSoon(b: Bytes)
    requires b != []
    ensures Trailing(b) <==> ClosesSoon(b[1..])
  {
    SkipFindsClose(b, 1);
  }

  /** Two commas, separated by white space only, stand before a close, outside strings. */
  predicate StackedCommas(b: Bytes)
    decreases |b|
  {
    b != [] &&
    match TurnAt(b, false)
    case Unterminated => false
    case Emit(n, _) => (b[0] == COMMA && CommaSoon(b[1..])) || StackedCommas(b[n..])
  }

  lemma {:induction false} ScanShrinks(b: Bytes)
    requires Scan(b, false).Some?
    ensures |Scan(b, false).value| <= |b|
    decreases |b|
  {
    if b != [] {
      ScanShrinks(b[TurnAt(b, false).n..]);
    }
  }

  /** White space and bytes other than commas and quotes are copied. */
  lemma CopiedHead(b: Bytes)
    requires b != [] && Scan(b, false).Some?
    requires b[0] !in {COMMA, QUOTE} || (b[0] == COMMA && !Trailing(b))
    ensures Scan(b[1..], false).Some? && Scan(b, false).value == [b[0]] + Scan(b[1..], false).value
  {
  }

  /** After the pass a close comes next exactly when it did before, or when the pass dropped the
      one comma in front of it. */
  lemma {:induction false} ClosesSoonAfterPass(b: Bytes)
    requires Scan(b, false).Some?
    ensures ClosesSoon(Scan(b, false).value) <==> ClosesSoon(b) || CommaSoon(b)
    decreases |b|
  {
    if b != [] {
      var out := Scan(b, false).value;
      if b[0] == QUOTE {
        assert out[0] == QUOTE;
      } else if b[0] == COMMA {
        TrailingMeansClosesSoon(b);
        if Trailing(b) {
          assert out == Scan(b[1..], false).value;
          ClosesSoonAfterPass(b[1..]);
        } else {
          CopiedHead(b);
          assert out[0] == COMMA;
        }
      } else {
        CopiedHead(b);
        assert out[1..] == Scan(b[1..], false).value;
        ClosesSoonAfterPass(b[1..]);
      }
    }
  }

  /** The comma pass leaves its own output alone if and only if the input has no two commas
      standing before a close with nothing but white space between them. */
  lemma {:induction false} CommaPassFixedPoint(b: Bytes)
    requires Scan(b, false).Some?
    ensures Scan(Scan(b, false).value, false) == Scan(b, false) <==> !StackedCommas(b)
    decreases |b|
  {
    if b != [] {
      var Emit(n, out) := TurnAt(b, false);
      var rest := Scan(b[n..], false).value;
      var all := out + rest;
      CommaPassFixedPoint(b[n..]);
      if b[0] == COMMA {
        CommaFixedPoint(b, out, rest);
      } else {
        if b[0] == QUOTE {
          StringEndLocal(b, 1, n - 1);
          LiteralTurn(out, rest, false);
        }
        ScanCons(out, rest, false, out);
        Cancel(out, rest, Scan(rest, false));
      }
    }
  }

  lemma CommaFixedPoint(b: Bytes, out: Bytes, rest: Bytes)
    requires b != [] && b[0] == COMMA && TurnAt(b, false) == Emit(1, out) && Scan(b[1..], false) == Some(rest)
    requires Scan(rest, false) == Some(rest) <==> !StackedCommas(b[1..])
    ensures Scan(out + rest, false) == Some(out + rest) <==> !StackedCommas(b)
  {
    TrailingMeansClosesSoon(b);
    NotBothSoon(b[1..]);
    if out == [] {
      assert out + rest == rest;
    } else {
      var all := [COMMA] + rest;
      assert all[1..] == rest;
      TrailingMeansClosesSoon(all);
      ClosesSoonAfterPass(b[1..]);
      if Trailing(all) {
        if Scan(rest, false).Some? {
          ScanShrinks(rest);
          assert Scan(all, false).value == [] + Scan(rest, false).value;
        }
      } else {
        ScanCons(out, rest, false, out);
        Cancel(out, rest, Scan(rest, false));
      }
    }
  }

  lemma {:induction false} NotBothSoon(b: Bytes)
    ensures !(ClosesSoon(b) && CommaSoon(b))
    decreases |b|
  {
    if b != [] && IsSpace(b[0]) {
      NotBothSoon(b[1..]);
    }
  }

  lemma Cancel(out: Bytes, rest: Bytes, again: Option<Bytes>)
    ensures Prepend(out, again) == Some(out + rest) <==> again == Some(rest)
  {
    if again.Some? && out + again.value == out + rest {
      assert (out + again.value)[|out|..] == again.value;
      assert (out + rest)[|out|..] == rest;
    }
  }

  /** A byte that is copied, and a comma that is dropped, at the front of the bytes. */
  lemma CopiedFront(c: Byte, rest: Bytes, out: Bytes)
    requires c != QUOTE && (c == COMMA ==> !ClosesSoon(rest)) && Scan(rest, false) == Some(out)
    ensures Scan([c] + rest, false) == Some([c] + out)
  {
    var b := [c] + rest;
    assert b[1..] == rest;
    TrailingMeansClosesSoon(b);
  }

  lemma DroppedFront(rest: Bytes, out: Bytes)
    requires ClosesSoon(rest) && Scan(rest, false) == Some(out)
    ensures Scan([COMMA] + rest, false) == Some(out)
  {
    var b := [COMMA] + rest;
    assert b[1..] == rest && [] + out == out;
    TrailingMeansClosesSoon(b);
  }

  lemma CloseAlone()
    ensures Scan([93], false) == Some([93]) && ClosesSoon([93])
  {
    var none: Bytes := [];
    CopiedFront(93, none, none);
    assert [93 as Byte] + none == [93];
  }

  /** `x,]` loses its comma, and `x,,]` one of its two. */
  lemma CommaBeforeClose()
    ensures Scan([COMMA, 93], false) == Some([93]) && Scan([COMMA, COMMA, 93], false) == Some([COMMA, 93])
    ensures StackedCommas([COMMA, COMMA, 93])
  {
    var b1: Bytes, b2: Bytes, b3: Bytes := [93], [COMMA, 93], [COMMA, COMMA, 93];
    CloseAlone();
    assert b2 == [COMMA] + b1 && b3 == [COMMA] + b2 && b2[1..] == b1 && b3[1..] == b2;
    assert !ClosesSoon(b2) && CommaSoon(b2);
    assert StackedCommas(b3);
    hide Scan, ClosesSoon;
    DroppedFront(b1, [93]);
    CopiedFront(COMMA, b2, [93]);
    assert [COMMA] + [93 as Byte] == b2;
  }

  lemma StackedBehind(c: Byte, rest: Bytes)
    requires c != QUOTE && c != COMMA && StackedCommas(rest)
    ensures StackedCommas([c] + rest)
  {
    assert ([c] + rest)[1..] == rest;
  }

  /** `[1,,]` is such an input: it takes two passes to become `[1]`. */
  lemma StackTakesTwoPasses()
    ensures StackedCommas([91, 49, COMMA, COMMA, 93])
    ensures Scan([91, 49, COMMA, COMMA, 93], false) == Some([91, 49, COMMA, 93])
    ensures Scan([91, 49, COMMA, 93], false) == Some([91, 49, 93])
  {
    hide Scan, ClosesSoon, StackedCommas;
    CommaBeforeClose();
    var three: Bytes, two: Bytes, one: Bytes := [COMMA, COMMA, 93], [COMMA, 93], [93];
    CopiedFront(49, three, two);
    CopiedFront(91, [49] + three, [49] + two);
    CopiedFront(49, two, one);
    CopiedFront(91, [49] + two, [49] + one);
    StackedBehind(49, three);
    StackedBehind(91, [49] + three);
    assert [91, 49, COMMA, COMMA, 93] == [91] + ([49] + three) && [91, 49, COMMA, 93] == [91] + ([49] + two);
    assert [91, 49, 93] == [91] + ([49] + one);
  }
}
