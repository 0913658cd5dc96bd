/** What `stripJSONC` means: every JSON value, laid out with any white space and comments between
    its tokens and any optional trailing commas, comes out as exactly its strict tokens. */
module JsoncLayout {
  import opened Bytes
  import opened Wrappers
  import opened Jsonc

  // ---- tokens and layouts ----

  datatype Token = Str(body: Bytes) | Punct(c: Byte) | Atom(text: Bytes)

  /** `Line` is a line comment with its newline, `LastLine` one that the file ends in. */
  datatype Item = Tok(t: Token) | Space(c: Byte) | Line(body: Bytes) | LastLine(body: Bytes) | Block(body: Bytes)

  /** The white space and the structural characters of section 2 of RFC 8259. */
  predicate IsJsonSpace(c: Byte) {
    c == 32 || c == 9 || c == 10 || c == 13
  }

  predicate IsPunct(c: Byte) {
    c == 91 || c == 93 || c == 123 || c == 125 || c == 58 || c == 44
  }

  /** The bytes of a number or of a name such as `true`. */
  predicate IsAtomByte(c: Byte) {
    !IsJsonSpace(c) && !IsPunct(c) && c != QUOTE && c != SLASH
  }

  function TokenBytes(t: Token): Bytes {
    match t
    case Str(body) => [QUOTE] + body + [QUOTE]
    case Punct(c) => [c]
    case Atom(text) => text
  }

  ghost predicate ValidToken(t: Token) {
    match t
    case Str(body) => IsLiteralBody(body)
    case Punct(c) => IsPunct(c)
    case Atom(text) => text != [] && forall i :: 0 <= i < |text| ==> IsAtomByte(text[i])
  }

  function ItemBytes(i: Item): Bytes {
    match i
    case Tok(t) => TokenBytes(t)
    case Space(c) => [c]
    case Line(body) => [SLASH, SLASH] + body + [NL]
    case LastLine(body) => [SLASH, SLASH] + body
    case Block(body) => [SLASH, STAR] + body + [STAR, SLASH]
  }

  ghost predicate ValidItem(i: Item) {
    match i
    case Tok(t) => ValidToken(t)
    case Space(c) => IsJsonSpace(c)
    case Line(body) => NL !in body
    case LastLine(body) => NL !in body
    case Block(body) => forall k :: 0 <= k < |body| - 1 ==> !(body[k] == STAR && body[k + 1] == SLASH)
  }

  function Render(items: seq<Item>): Bytes {
    if items == [] then [] else ItemBytes(items[0]) + Render(items[1..])
  }

  ghost predicate ValidLayout(items: seq<Item>) {
    forall i :: 0 <= i < |items| ==> ValidItem(items[i]) && (items[i].LastLine? ==> i == |items| - 1)
  }

  predicate CommentFree(items: seq<Item>) {
    forall i :: 0 <= i < |items| ==> items[i].Tok? || items[i].Space?
  }

  function TokensOf(items: seq<Item>): seq<Token> {
    if items == [] then []
    else (if items[0].Tok? then [items[0].t] else []) + TokensOf(items[1..])
  }

  // ---- the comment pass on a layout ----

  /** A line comment leaves its newline. */
  function Uncommented(item: Item): seq<Item> {
    match item
    case Line(_) => [Space(NL)]
    case LastLine(_) => []
    case Block(_) => []
    case i => [i]
  }

  function WithoutComments(items: seq<Item>): seq<Item> {
    if items == [] then [] else Uncommented(items[0]) + WithoutComments(items[1..])
  }

  lemma ConsKeeps(item: Item, rest: seq<Item>)
    requires ValidItem(item) && ValidLayout(rest) && CommentFree(rest)
    ensures var clean := Uncommented(item) + rest;
            && ValidLayout(clean) && CommentFree(clean)
            && TokensOf(clean) == (if item.Tok? then [item.t] else []) + TokensOf(rest)
    ensures item.Tok? || item.Space? ==> Uncommented(item) == [item]
  {
    hide ValidToken;
    var head := Uncommented(item);
    if head == [] {
      assert head + rest == rest;
    } else {
      assert (head + rest)[1..] == rest;
    }
  }

  lemma {:induction false} WithoutCommentsKeeps(items: seq<Item>)
    requires ValidLayout(items)
    ensures var clean := WithoutComments(items);
            ValidLayout(clean) && CommentFree(clean) && TokensOf(clean) == TokensOf(items)
    ensures CommentFree(items) ==> WithoutComments(items) == items
  {
    hide ValidItem, Uncommented;
    if items != [] {
      assert ValidLayout(items[1..]);
      WithoutCommentsKeeps(items[1..]);
      ConsKeeps(items[0], WithoutComments(items[1..]));
      assert items == [items[0]] + items[1..];
    }
  }

  /** The end of a block comment, from inside it. */
  lemma {:induction false} BlockEndFound(body: Bytes, rest: Bytes, j: nat)
    requires ValidItem(Block(body)) && j <= |body|
    ensures BlockEnd([SLASH, STAR] + body + [STAR, SLASH] + rest, 2 + j) == 2 + |body|
    decreases |body| - j
  {
    var b := [SLASH, STAR] + body + [STAR, SLASH] + rest;
    assert b[2 + |body|] == STAR && b[3 + |body|] == SLASH;
    if j < |body| {
      assert b[2 + j] == body[j];
      assert b[3 + j] == if j + 1 < |body| then body[j + 1] else STAR;
      BlockEndFound(body, rest, j + 1);
    }
  }

  /** A literal in front of anything ends at its own closing quote. */
  lemma StringBodyEnd(body: Bytes, rest: Bytes)
    requires IsLiteralBody(body)
    ensures StringEnd([QUOTE] + body + [QUOTE] + rest, 1) == 1 + |body|
  {
    var b := [QUOTE] + body + [QUOTE] + rest;
    assert b[1..1 + |body|] == body;
    StringEndExactly(b, 1, 1 + |body|);
  }

  lemma StringTokenTurn(body: Bytes, rest: Bytes, comments: bool)
    requires ValidToken(Str(body))
    ensures TurnAt(TokenBytes(Str(body)) + rest, comments) == Emit(|body| + 2, TokenBytes(Str(body)))
  {
    var lit := TokenBytes(Str(body));
    StringBodyEnd(body, rest);
    assert (lit + rest)[..|lit|] == lit;
  }

  lemma LineTurnAt(body: Bytes, rest: Bytes)
    requires NL !in body
    ensures TurnAt(ItemBytes(Line(body)) + rest, true) == Emit(|body| + 3, [NL])
    ensures TurnAt(ItemBytes(LastLine(body)), true) == Emit(|body| + 2, [])
  {
    var b := ItemBytes(Line(body)) + rest;
    assert b[|body| + 2] == NL;
    assert forall k :: 0 <= k < |body| + 2 ==> b[k] == if k < 2 then SLASH else body[k - 2];
    NextNewlineUnique(b, 0, |body| + 2);
    var c := ItemBytes(LastLine(body));
    assert forall k :: 0 <= k < |c| ==> c[k] == if k < 2 then SLASH else body[k - 2];
    assert NextNewline(c, 0) == |c|;
  }

  lemma BlockTurnAt(body: Bytes, rest: Bytes)
    requires ValidItem(Block(body))
    ensures TurnAt(ItemBytes(Block(body)) + rest, true) == Emit(|body| + 4, [])
  {
    BlockEndFound(body, rest, 0);
    assert ItemBytes(Block(body)) + rest == [SLASH, STAR] + body + [STAR, SLASH] + rest;
  }

  /** Bytes that start nothing are copied one by one. */
  lemma {:induction false} PlainBytesScan(text: Bytes, rest: Bytes, comments: bool)
    requires forall i :: 0 <= i < |text| ==> text[i] !in {QUOTE, SLASH, COMMA}
    ensures Scan(text + rest, comments) == Prepend(text, Scan(rest, comments))
    decreases |text|
  {
    if text == [] {
      assert text + rest == rest;
      if Scan(rest, comments).Some? {
        assert text + Scan(rest, comments).value == Scan(rest, comments).value;
      }
    } else {
      PlainBytesScan(text[1..], rest, comments);
      assert text + rest == [text[0]] + (text[1..] + rest);
      ScanCons([text[0]], text[1..] + rest, comments, [text[0]]);
      PrependTwice([text[0]], text[1..], Scan(rest, comments));
      assert [text[0]] + text[1..] == text;
    }
  }

  lemma PrependTwice(a: Bytes, b: Bytes, rest: Option<Bytes>)
    ensures Prepend(a, Prepend(b, rest)) == Prepend(a + b, rest)
  {
    if rest.Some? {
      assert a + (b + rest.value) == (a + b) + rest.value;
    }
  }

  /** One item of a layout under the comment pass. */
  lemma CommentPassItem(i: Item, rest: Bytes)
    requires ValidItem(i) && !i.LastLine?
    ensures Scan(ItemBytes(i) + rest, true) == Prepend(Render(WithoutComments([i])), Scan(rest, true))
  {
    hide Scan;
    var b := ItemBytes(i);
    var kept := WithoutComments([i]);
    assert WithoutComments([i][1..]) == [];
    match i {
      case Line(body) =>
        LineTurnAt(body, rest);
        ScanCons(b, rest, true, [NL]);
        assert kept == [Space(NL)];
      case Block(body) =>
        BlockTurnAt(body, rest);
        ScanCons(b, rest, true, []);
        assert kept == [];
      case Space(c) =>
        ScanCons(b, rest, true, [c]);
        assert kept == [i];
      case Tok(Str(body)) =>
        StringTokenTurn(body, rest, true);
        ScanCons(b, rest, true, b);
        assert kept == [i];
      case Tok(Punct(c)) =>
        ScanCons(b, rest, true, [c]);
        assert kept == [i];
      case Tok(Atom(text)) =>
        PlainBytesScan(text, rest, true);
        assert kept == [i];
    }
    assert Render(kept) == if kept == [] then [] else ItemBytes(kept[0]) by {
      if kept != [] {
        assert Render(kept[1..]) == [];
        assert ItemBytes(kept[0]) + [] == ItemBytes(kept[0]);
      }
    }
  }

  lemma {:induction false} RenderAppend(a: seq<Item>, b: seq<Item>)
    ensures Render(a + b) == Render(a) + Render(b)
  {
    hide ItemBytes;
    if a == [] {
      assert a + b == b;
    } else {
      RenderAppend(a[1..], b);
      assert (a + b)[1..] == a[1..] + b;
      assert Render(a + b) == ItemBytes(a[0]) + (Render(a[1..]) + Render(b));
    }
  }

  /** The comment pass turns a layout into the layout without its comments. */
  lemma {:induction false} CommentPassRenders(items: seq<Item>)
    requires ValidLayout(items)
    ensures Scan(Render(items), true) == Some(Render(WithoutComments(items)))
  {
    hide ItemBytes, Scan, ValidItem;
    if items == [] {
      assert Scan([], true) == Some([]) by { EmptyScan(true); }
    } else {
      var i, rest := items[0], items[1..];
      assert ValidLayout(rest);
      CommentPassRenders(rest);
      WithoutCommentsCons(i, rest);
      assert [i] + rest == items;
      RenderAppend(WithoutComments([i]), WithoutComments(rest));
      if i.LastLine? {
        LastLineScan(i.body);
        assert rest == [] && Render(items) == ItemBytes(i) + [] == ItemBytes(i);
        assert WithoutComments(items) == [];
      } else {
        CommentPassItem(i, Render(rest));
      }
    }
  }

  lemma EmptyScan(comments: bool)
    ensures Scan([], comments) == Some([])
  {
  }

  lemma LastLineScan(body: Bytes)
    requires ValidItem(LastLine(body))
    ensures Scan(ItemBytes(LastLine(body)), true) == Some([])
  {
    LineTurnAt(body, []);
    var b := ItemBytes(LastLine(body));
    assert b + [] == b;
    EmptyScan(true);
    var none: Bytes := [];
    ScanCons(b, none, true, none);
    assert Prepend(none, Some(none)) == Some(none + none) && none + none == none;
  }

  lemma WithoutCommentsCons(i: Item, rest: seq<Item>)
    ensures WithoutComments([i] + rest) == WithoutComments([i]) + WithoutComments(rest)
    ensures i.LastLine? ==> WithoutComments([i]) == []
  {
    assert ([i] + rest)[1..] == rest && [i][1..] == [];
  }

  // ---- the comma pass on a layout without comments ----

  predicate IsComma(i: Item) {
    i == Tok(Punct(COMMA))
  }

  /** The next token, past any white space, closes an array or an object. */
  predicate ClosesNext(items: seq<Item>) {
    items != [] && if items[0].Space? then ClosesNext(items[1..]) else items[0].Tok? && items[0].t.Punct? && IsClose(items[0].t.c)
  }

  function WithoutTrailing(items: seq<Item>): seq<Item> {
    if items == [] then []
    else (if IsComma(items[0]) && ClosesNext(items[1..]) then [] else [items[0]]) + WithoutTrailing(items[1..])
  }

  function StrictTokens(ts: seq<Token>): seq<Token> {
    if ts == [] then []
    else if ts[0] == Punct(COMMA) && |ts| > 1 && ts[1].Punct? && IsClose(ts[1].c) then StrictTokens(ts[1..])
    else [ts[0]] + StrictTokens(ts[1..])
  }

  lemma {:induction false} ClosesNextTokens(items: seq<Item>)
    requires CommentFree(items)
    ensures ClosesNext(items) <==>
            TokensOf(items) != [] && TokensOf(items)[0].Punct? && IsClose(TokensOf(items)[0].c)
  {
    if items != [] && items[0].Space? {
      ClosesNextTokens(items[1..]);
    }
  }

  lemma {:induction false} WithoutTrailingTokens(items: seq<Item>)
    requires ValidLayout(items) && CommentFree(items)
    ensures var clean := WithoutTrailing(items);
            ValidLayout(clean) && CommentFree(clean) && TokensOf(clean) == StrictTokens(TokensOf(items))
  {
    if items != [] {
      var rest := items[1..];
      assert ValidLayout(rest) && CommentFree(rest);
      WithoutTrailingTokens(rest);
      ClosesNextTokens(rest);
      var clean := WithoutTrailing(rest);
      if items[0].Tok? {
        var ts := [items[0].t] + TokensOf(rest);
        assert TokensOf(items) == ts && ts[1..] == TokensOf(rest);
      } else {
        assert TokensOf(items) == TokensOf(rest);
      }
      if IsComma(items[0]) && ClosesNext(rest) {
        assert WithoutTrailing(items) == clean;
      } else {
        assert WithoutTrailing(items) == [items[0]] + clean;
        assert ([items[0]] + clean)[1..] == clean;
      }
    }
  }

  /** The first byte of a layout, past its white space, tells whether a close comes next. */
  lemma {:induction false} ClosesNextBytes(items: seq<Item>, c: Byte)
    requires ValidLayout(items) && CommentFree(items)
    ensures Trailing([c] + Render(items)) <==> ClosesNext(items)
  {
    var b := [c] + Render(items);
    SkipSpaceShift(b, 1, 0);
    assert b[1..] == Render(items);
    FirstByte(items);
  }

  lemma {:induction false} FirstByte(items: seq<Item>)
    requires ValidLayout(items) && CommentFree(items)
    ensures var b := Render(items);
            var j := SkipSpace(b, 0);
            j < |b| && IsClose(b[j]) <==> ClosesNext(items)
  {
    hide TokenBytes, ValidToken, IsClose;
    if items != [] {
      var rest := items[1..];
      assert ValidItem(items[0]) && ValidLayout(rest) && CommentFree(rest);
      if items[0].Space? {
        FirstByte(rest);
        var b := Render(items);
        assert b == [items[0].c] + Render(rest);
        assert b[1..] == Render(rest);
        SkipSpaceShift(b, 1, 0);
      } else {
        TokenStart(items[0].t);
        assert Render(items)[0] == TokenBytes(items[0].t)[0];
      }
    }
  }

  lemma TokenStart(t: Token)
    requires ValidToken(t)
    ensures TokenBytes(t) != [] && !IsSpace(TokenBytes(t)[0])
    ensures IsClose(TokenBytes(t)[0]) <==> t.Punct? && IsClose(t.c)
  {
  }

  /** The comma pass turns a layout without comments into the one without trailing commas. */
  lemma {:induction false} CommaPassRenders(items: seq<Item>)
    requires ValidLayout(items) && CommentFree(items)
    ensures Scan(Render(items), false) == Some(Render(WithoutTrailing(items)))
  {
    if items != [] {
      var i, rest := items[0], items[1..];
      assert ValidLayout(rest) && CommentFree(rest) && [i] + rest == items;
      hide Scan, ItemBytes, ValidItem;
      CommaPassRenders(rest);
      var dropped := IsComma(i) && ClosesNext(rest);
      CommaPassItem(i, rest);
      var clean := WithoutTrailing(rest);
      if dropped {
        assert [] + clean == clean;
        assert [] + Render(clean) == Render(clean);
      } else {
        assert ([i] + clean)[1..] == clean;
      }
    }
  }

  lemma CommaPassItem(i: Item, rest: seq<Item>)
    requires ValidLayout([i] + rest) && CommentFree([i] + rest)
    ensures var out := if IsComma(i) && ClosesNext(rest) then [] else ItemBytes(i);
            Scan(ItemBytes(i) + Render(rest), false) == Prepend(out, Scan(Render(rest), false))
  {
    hide Scan;
    assert ([i] + rest)[0] == i && ([i] + rest)[1..] == rest;
    assert ValidLayout(rest) && CommentFree(rest);
    var b, r := ItemBytes(i), Render(rest);
    match i
    case Space(c) => ScanCons(b, r, false, [c]);
    case Tok(Str(body)) =>
      StringTokenTurn(body, r, false);
      ScanCons(b, r, false, b);
    case Tok(Punct(c)) =>
      ClosesNextBytes(rest, c);
      ScanCons(b, r, false, if c == COMMA && ClosesNext(rest) then [] else [c]);
    case Tok(Atom(text)) => PlainBytesScan(text, r, false);
  }

  // ---- JSON values ----

  /** A JSON value as an editor may have written it; a non-empty array or object may carry a
      trailing comma. A scalar is a string or an atom. */
  datatype Json =
    | Scalar(t: Token)
    | Arr(elems: seq<Json>, trailing: bool)
    | Obj(members: seq<Member>, trailing: bool)

  datatype Member = Member(key: Bytes, value: Json)

  ghost predicate ValidJson(v: Json) {
    match v
    case Scalar(t) => !t.Punct? && ValidToken(t)
    case Arr(elems, trailing) =>
      (trailing ==> elems != []) && forall i :: 0 <= i < |elems| ==> ValidJson(elems[i])
    case Obj(members, trailing) =>
      (trailing ==> members != [])
      && forall i :: 0 <= i < |members| ==> ValidToken(Str(members[i].key)) && ValidJson(members[i].value)
  }

  const OPEN_ARR := Punct(91)
  const CLOSE_ARR := Punct(93)
  const OPEN_OBJ := Punct(123)
  const CLOSE_OBJ := Punct(125)
  const COLON := Punct(58)
  const SEP := Punct(COMMA)

  /** The tokens of a value, with its trailing commas when `loose`. */
  function Tokens(v: Json, loose: bool): seq<Token>
    decreases v
  {
    match v
    case Scalar(t) => [t]
    case Arr(elems, trailing) =>
      [OPEN_ARR] + Elements(elems, true, loose) + (if loose && trailing then [SEP] else []) + [CLOSE_ARR]
    case Obj(members, trailing) =>
      [OPEN_OBJ] + Members(members, true, loose) + (if loose && trailing then [SEP] else []) + [CLOSE_OBJ]
  }

  function Elements(elems: seq<Json>, first: bool, loose: bool): seq<Token>
    decreases elems
  {
    if elems == [] then []
    else (if first then [] else [SEP]) + Tokens(elems[0], loose) + Elements(elems[1..], false, loose)
  }

  function Members(members: seq<Member>, first: bool, loose: bool): seq<Token>
    decreases members
  {
    if members == [] then []
    else
      (if first then [] else [SEP]) + [Str(members[0].key), COLON] + Tokens(members[0].value, loose)
      + Members(members[1..], false, loose)
  }

  predicate Opens(ts: seq<Token>) {
    ts != [] && !(ts[0].Punct? && (IsClose(ts[0].c) || ts[0].c == COMMA))
  }

  lemma TokensOpen(v: Json, loose: bool)
    requires ValidJson(v)
    ensures Opens(Tokens(v, loose))
  {
  }

  /** Dropping the commas before closes acts on a prefix as on the whole, unless the cut falls
      between such a comma and its close. */
  lemma {:induction false} StrictTokensCons(t: Token, rest: seq<Token>)
    requires t == SEP ==> Opens(rest)
    ensures StrictTokens([t] + rest) == [t] + StrictTokens(rest)
  {
    assert ([t] + rest)[1..] == rest;
  }

  lemma {:induction false} StrictValue(v: Json, rest: seq<Token>)
    requires ValidJson(v)
    ensures StrictTokens(Tokens(v, true) + rest) == Tokens(v, false) + StrictTokens(rest)
    decreases v
  {
    hide StrictTokens, Elements, Members, Opens;
    match v
    case Scalar(t) => StrictTokensCons(t, rest);
    case Arr(elems, trailing) =>
      var sep := if trailing then [SEP] else [];
      StrictTail(trailing, CLOSE_ARR, rest);
      StrictElements(elems, true, sep + [CLOSE_ARR] + rest);
      StrictBrackets(OPEN_ARR, Elements(elems, true, true), sep, CLOSE_ARR, rest, Elements(elems, true, false));
    case Obj(members, trailing) =>
      var sep := if trailing then [SEP] else [];
      StrictTail(trailing, CLOSE_OBJ, rest);
      StrictMembers(members, true, sep + [CLOSE_OBJ] + rest);
      StrictBrackets(OPEN_OBJ, Members(members, true, true), sep, CLOSE_OBJ, rest, Members(members, true, false));
  }

  lemma StrictBrackets(
    open: Token, inner: seq<Token>, sep: seq<Token>, close: Token, rest: seq<Token>, strict: seq<Token>)
    requires open != SEP
    requires StrictTokens(inner + (sep + [close] + rest)) == strict + StrictTokens(sep + [close] + rest)
    requires StrictTokens(sep + [close] + rest) == [close] + StrictTokens(rest)
    ensures StrictTokens(([open] + inner + sep + [close]) + rest) == ([open] + strict + [] + [close]) + StrictTokens(rest)
  {
    hide StrictTokens;
    var tail := sep + [close] + rest;
    StrictTokensCons(open, inner + tail);
    assert ([open] + inner + sep + [close]) + rest == [open] + (inner + tail);
    assert ([open] + strict + [] + [close]) + StrictTokens(rest) == [open] + (strict + ([close] + StrictTokens(rest)));
  }

  lemma StrictTail(trailing: bool, close: Token, rest: seq<Token>)
    requires close.Punct? && IsClose(close.c)
    ensures StrictTokens((if trailing then [SEP] else []) + [close] + rest) == [close] + StrictTokens(rest)
  {
    StrictTokensCons(close, rest);
    if trailing {
      var ts := [SEP] + [close] + rest;
      assert ts[1..] == [close] + rest;
    } else {
      assert [] + [close] + rest == [close] + rest;
    }
  }

  lemma {:induction false} StrictElements(elems: seq<Json>, first: bool, rest: seq<Token>)
    requires forall i :: 0 <= i < |elems| ==> ValidJson(elems[i])
    ensures StrictTokens(Elements(elems, first, true) + rest) == Elements(elems, first, false) + StrictTokens(rest)
    decreases elems
  {
    hide StrictTokens, ValidJson;
    if elems == [] {
      assert [] + rest == rest;
      assert [] + StrictTokens(rest) == StrictTokens(rest);
    } else {
      var more := Elements(elems[1..], false, true);
      StrictElements(elems[1..], false, rest);
      StrictValue(elems[0], more + rest);
      TokensOpen(elems[0], true);
      StrictItem(first, [], Tokens(elems[0], true), more, rest, Tokens(elems[0], false), Elements(elems[1..], false, false));
      assert (if first then [] else [SEP]) + [] == if first then [] else [SEP];
    }
  }

  /** One element or member, after its separator and its key. */
  lemma StrictItem(
    first: bool, key: seq<Token>, value: seq<Token>, more: seq<Token>, rest: seq<Token>,
    strict: seq<Token>, strictMore: seq<Token>)
    requires StrictTokens(value + (more + rest)) == strict + StrictTokens(more + rest)
    requires StrictTokens(more + rest) == strictMore + StrictTokens(rest)
    requires key == [] || (|key| == 2 && key[0].Str? && key[1] == COLON)
    requires Opens(value)
    ensures var sep := if first then [] else [SEP];
            StrictTokens((sep + key + value + more) + rest) == (sep + key + strict + strictMore) + StrictTokens(rest)
  {
    hide StrictTokens;
    var sep := if first then [] else [SEP];
    var tail := value + (more + rest);
    StrictKey(key, tail);
    if !first {
      StrictTokensCons(SEP, key + tail);
    } else {
      assert sep + (key + tail) == key + tail;
      assert sep + (key + StrictTokens(tail)) == key + StrictTokens(tail);
    }
    FiveParts(sep, key, value, more, rest);
    FiveParts(sep, key, strict, strictMore, StrictTokens(rest));
  }

  lemma FiveParts(a: seq<Token>, b: seq<Token>, c: seq<Token>, d: seq<Token>, e: seq<Token>)
    ensures (a + b + c + d) + e == a + (b + (c + (d + e)))
  {
  }

  lemma StrictKey(key: seq<Token>, tail: seq<Token>)
    requires key == [] || (|key| == 2 && key[0].Str? && key[1] == COLON)
    ensures StrictTokens(key + tail) == key + StrictTokens(tail)
  {
    hide StrictTokens;
    if key != [] {
      StrictTokensCons(key[1], tail);
      StrictTokensCons(key[0], [key[1]] + tail);
      assert key + tail == [key[0]] + ([key[1]] + tail);
      assert key + StrictTokens(tail) == [key[0]] + ([key[1]] + StrictTokens(tail));
    } else {
      assert key + tail == tail && key + StrictTokens(tail) == StrictTokens(tail);
    }
  }

  lemma {:induction false} StrictMembers(members: seq<Member>, first: bool, rest: seq<Token>)
    requires forall i :: 0 <= i < |members| ==> ValidJson(members[i].value)
    ensures StrictTokens(Members(members, first, true) + rest) == Members(members, first, false) + StrictTokens(rest)
    decreases members
  {
    hide StrictTokens, ValidJson;
    if members == [] {
      assert [] + rest == rest;
      assert [] + StrictTokens(rest) == StrictTokens(rest);
    } else {
      var m, more := members[0], Members(members[1..], false, true);
      StrictMembers(members[1..], false, rest);
      StrictValue(m.value, more + rest);
      TokensOpen(m.value, true);
      StrictItem(first, [Str(m.key), COLON], Tokens(m.value, true), more, rest,
                 Tokens(m.value, false), Members(members[1..], false, false));
    }
  }

  // ---- reading the tokens back ----

  /** The end of a run of atom bytes. */
  function AtomEnd(b: Bytes, j: nat): (e: nat)
    requires j <= |b|
    ensures j <= e <= |b|
    ensures forall k :: j <= k < e ==> IsAtomByte(b[k])
    ensures e < |b| ==> !IsAtomByte(b[e])
    decreases |b| - j
  {
    if j < |b| && IsAtomByte(b[j]) then AtomEnd(b, j + 1) else j
  }

  /** A reader of JSON tokens, which knows no comments and takes atoms as long as they go. */
  function Lex(b: Bytes): Option<seq<Token>>
    decreases |b|
  {
    if b == [] then Some([])
    else if IsSpace(b[0]) then Lex(b[1..])
    else if IsPunct(b[0]) then LexAfter(b, 1, Punct(b[0]))
    else if b[0] == QUOTE then
      var j := StringEnd(b, 1);
      if j >= |b| then None else LexAfter(b, j + 1, Str(b[1..j]))
    else if b[0] == SLASH then None
    else LexAfter(b, AtomEnd(b, 1), Atom(b[..AtomEnd(b, 1)]))
  }

  function LexAfter(b: Bytes, n: nat, t: Token): Option<seq<Token>>
    requires 1 <= n <= |b|
    decreases |b|, 0
  {
    match Lex(b[n..])
    case None => None
    case Some(ts) => Some([t] + ts)
  }

  predicate Separated(ts: seq<Token>) {
    forall i :: 0 <= i < |ts| - 1 ==> !(ts[i].Atom? && ts[i + 1].Atom?)
  }

  lemma LexToken(t: Token, rest: Bytes)
    requires ValidToken(t) && (t.Atom? && rest != [] ==> !IsAtomByte(rest[0]))
    ensures Lex(TokenBytes(t) + rest) == Read(t, rest)
  {
    match t
    case Punct(c) => assert ([c] + rest)[1..] == rest;
    case Str(body) => LexString(body, rest);
    case Atom(text) => LexAtom(text, rest);
  }

  function Read(t: Token, rest: Bytes): Option<seq<Token>> {
    match Lex(rest)
    case None => None
    case Some(ts) => Some([t] + ts)
  }

  lemma LexString(body: Bytes, rest: Bytes)
    requires ValidToken(Str(body))
    ensures Lex(TokenBytes(Str(body)) + rest) == Read(Str(body), rest)
  {
    var b := TokenBytes(Str(body)) + rest;
    StringBodyEnd(body, rest);
    assert b[1..|body| + 1] == body && b[|body| + 2..] == rest;
  }

  lemma LexAtom(text: Bytes, rest: Bytes)
    requires ValidToken(Atom(text)) && (rest != [] ==> !IsAtomByte(rest[0]))
    ensures Lex(text + rest) == Read(Atom(text), rest)
  {
    var b := text + rest;
    assert b[..|text|] == text && b[|text|..] == rest;
    AtomEndUnique(b, 1, |text|);
  }

  lemma {:induction false} AtomEndUnique(b: Bytes, j: nat, e: nat)
    requires j <= e <= |b| && (forall k :: j <= k < e ==> IsAtomByte(b[k])) && (e < |b| ==> !IsAtomByte(b[e]))
    ensures AtomEnd(b, j) == e
    decreases e - j
  {
    if j < e {
      AtomEndUnique(b, j + 1, e);
    }
  }

  /** A layout without comments reads as its tokens, unless two atoms touch. */
  lemma {:induction false} LexRender(items: seq<Item>)
    requires ValidLayout(items) && CommentFree(items) && Separated(TokensOf(items))
    ensures Lex(Render(items)) == Some(TokensOf(items))
  {
    if items != [] {
      var i, rest := items[0], items[1..];
      assert ValidLayout(rest) && CommentFree(rest);
      assert TokensOf(items) == (if i.Tok? then [i.t] else []) + TokensOf(rest);
      SeparatedTail(items);
      LexRender(rest);
      if i.Space? {
        assert Render(items)[1..] == Render(rest);
        assert [] + TokensOf(rest) == TokensOf(rest);
      } else {
        if rest != [] {
          NextByte(i.t, rest);
        }
        LexToken(i.t, Render(rest));
      }
    }
  }

  lemma SeparatedTail(items: seq<Item>)
    requires items != [] && Separated(TokensOf(items))
    ensures Separated(TokensOf(items[1..]))
    ensures items[0].Tok? && TokensOf(items[1..]) != [] ==> !(items[0].t.Atom? && TokensOf(items[1..])[0].Atom?)
  {
    var ts, rest := TokensOf(items), TokensOf(items[1..]);
    if items[0].Tok? {
      assert ts == [items[0].t] + rest;
      assert forall i :: 0 <= i < |rest| ==> rest[i] == ts[i + 1];
      if rest != [] {
        assert ts[0] == items[0].t && ts[1] == rest[0];
      }
    } else {
      assert ts == rest;
    }
  }

  lemma NextByte(t: Token, rest: seq<Item>)
    requires rest != [] && ValidLayout(rest) && CommentFree(rest)
    requires t.Atom? && TokensOf(rest) != [] ==> !TokensOf(rest)[0].Atom?
    ensures Render(rest) != [] && (t.Atom? ==> !IsAtomByte(Render(rest)[0]))
  {
    if rest[0].Tok? {
      TokenStart(rest[0].t);
      assert Render(rest)[0] == TokenBytes(rest[0].t)[0];
    }
  }

  // ---- no two atoms touch in a value ----

  lemma SeparatedAppend(a: seq<Token>, b: seq<Token>)
    requires Separated(a) && Separated(b)
    requires a != [] && b != [] ==> !(a[|a| - 1].Atom? && b[0].Atom?)
    ensures Separated(a + b)
  {
    var ts := a + b;
    forall i | 0 <= i < |ts| - 1 ensures !(ts[i].Atom? && ts[i + 1].Atom?) {
      if i + 1 < |a| {
        assert ts[i] == a[i] && ts[i + 1] == a[i + 1];
      } else if i >= |a| {
        assert ts[i] == b[i - |a|] && ts[i + 1] == b[i + 1 - |a|];
      }
    }
  }

  lemma {:induction false} TokensSeparated(v: Json, loose: bool)
    ensures Separated(Tokens(v, loose))
    decreases v
  {
    match v
    case Scalar(t) =>
    case Arr(elems, trailing) =>
      ElementsSeparated(elems, true, loose);
      BracketsSeparated(OPEN_ARR, Elements(elems, true, loose), if loose && trailing then [SEP] else [], CLOSE_ARR);
    case Obj(members, trailing) =>
      MembersSeparated(members, true, loose);
      BracketsSeparated(OPEN_OBJ, Members(members, true, loose), if loose && trailing then [SEP] else [], CLOSE_OBJ);
  }

  lemma BracketsSeparated(open: Token, inner: seq<Token>, sep: seq<Token>, close: Token)
    requires Separated(inner) && open.Punct? && close.Punct? && (sep == [] || sep == [SEP])
    ensures Separated([open] + inner + sep + [close])
  {
    SeparatedAppend([open], inner);
    SeparatedAppend([open] + inner, sep);
    SeparatedAppend([open] + inner + sep, [close]);
  }

  lemma {:induction false} ElementsSeparated(elems: seq<Json>, first: bool, loose: bool)
    ensures Separated(Elements(elems, first, loose))
    ensures !first && elems != [] ==> Elements(elems, first, loose) != [] && Elements(elems, first, loose)[0] == SEP
    decreases elems
  {
    if elems != [] {
      TokensSeparated(elems[0], loose);
      ElementsSeparated(elems[1..], false, loose);
      var sep, value, more := if first then [] else [SEP], Tokens(elems[0], loose), Elements(elems[1..], false, loose);
      SeparatedAppend(sep, value);
      SeparatedAppend(sep + value, more);
    }
  }

  lemma {:induction false} MembersSeparated(members: seq<Member>, first: bool, loose: bool)
    ensures Separated(Members(members, first, loose))
    ensures !first && members != [] ==> Members(members, first, loose) != [] && Members(members, first, loose)[0] == SEP
    decreases members
  {
    if members != [] {
      var m := members[0];
      TokensSeparated(m.value, loose);
      MembersSeparated(members[1..], false, loose);
      var sep, key := if first then [] else [SEP], [Str(m.key), COLON];
      SeparatedAppend(sep, key);
      SeparatedAppend(sep + key, Tokens(m.value, loose));
      SeparatedAppend(sep + key + Tokens(m.value, loose), Members(members[1..], false, loose));
    }
  }

  // ---- the main results ----

  /** For every value and every layout of its tokens with white space, comments and optional
      trailing commas, stripping succeeds, and what comes out reads as exactly the strict tokens
      of the value, with string literals and atoms byte for byte. */
  lemma StripKeepsTokens(v: Json, items: seq<Item>)
    requires ValidJson(v) && ValidLayout(items) && TokensOf(items) == Tokens(v, true)
    ensures Strip(Render(items)) == Some(Render(WithoutTrailing(WithoutComments(items))))
    ensures Lex(Strip(Render(items)).value) == Some(Tokens(v, false))
  {
    hide Scan, Lex, Render, StrictTokens, Tokens, ValidItem;
    var clean := WithoutComments(items);
    CommentPassRenders(items);
    WithoutCommentsKeeps(items);
    CommaPassRenders(clean);
    WithoutTrailingTokens(clean);
    StrictValue(v, []);
    assert Tokens(v, true) + [] == Tokens(v, true) && StrictTokens([]) == [] && Tokens(v, false) + [] == Tokens(v, false)
    by { StrictNothing(); }
    TokensSeparated(v, false);
    LexRender(WithoutTrailing(clean));
  }

  lemma StrictNothing()
    ensures StrictTokens([]) == []
  {
  }

  /** No array or object of the value carries a trailing comma. */
  predicate Strict(v: Json) {
    match v
    case Scalar(_) => true
    case Arr(elems, trailing) => !trailing && forall i :: 0 <= i < |elems| ==> Strict(elems[i])
    case Obj(members, trailing) => !trailing && forall i :: 0 <= i < |members| ==> Strict(members[i].value)
  }

  lemma {:induction false} StrictMeansSame(v: Json)
    requires Strict(v)
    ensures Tokens(v, true) == Tokens(v, false)
    decreases v
  {
    match v
    case Scalar(_) =>
    case Arr(elems, _) => StrictElementsSame(elems, true);
    case Obj(members, _) => StrictMembersSame(members, true);
  }

  lemma {:induction false} StrictElementsSame(elems: seq<Json>, first: bool)
    requires forall i :: 0 <= i < |elems| ==> Strict(elems[i])
    ensures Elements(elems, first, true) == Elements(elems, first, false)
    decreases elems
  {
    if elems != [] {
      StrictMeansSame(elems[0]);
      StrictElementsSame(elems[1..], false);
    }
  }

  lemma {:induction false} StrictMembersSame(members: seq<Member>, first: bool)
    requires forall i :: 0 <= i < |members| ==> Strict(members[i].value)
    ensures Members(members, first, true) == Members(members, first, false)
    decreases members
  {
    if members != [] {
      StrictMeansSame(members[0].value);
      StrictMembersSame(members[1..], false);
    }
  }

  lemma {:induction false} NothingTrailing(items: seq<Item>)
    ensures |TokensOf(WithoutTrailing(items))| <= |TokensOf(items)|
    ensures |TokensOf(WithoutTrailing(items))| == |TokensOf(items)| ==> WithoutTrailing(items) == items
  {
    if items != [] {
      NothingTrailing(items[1..]);
      var clean := WithoutTrailing(items[1..]);
      if IsComma(items[0]) && ClosesNext(items[1..]) {
        assert WithoutTrailing(items) == clean;
      } else {
        assert ([items[0]] + clean)[1..] == clean;
        assert [items[0]] + items[1..] == items;
      }
    }
  }

  /** Strict JSON without comments comes back unchanged, white space included. */
  lemma StrictUnchanged(v: Json, items: seq<Item>)
    requires ValidJson(v) && Strict(v) && ValidLayout(items) && CommentFree(items) && TokensOf(items) == Tokens(v, false)
    ensures Strip(Render(items)) == Some(Render(items))
  {
    hide Scan, Lex, Render, StrictTokens, Tokens, ValidItem;
    StrictMeansSame(v);
    WithoutCommentsKeeps(items);
    StripKeepsTokens(v, items);
    WithoutTrailingTokens(items);
    StrictValue(v, []);
    assert Tokens(v, true) + [] == Tokens(v, true) && StrictTokens([]) == [] && Tokens(v, false) + [] == Tokens(v, false)
    by { StrictNothing(); }
    NothingTrailing(items);
  }
}
