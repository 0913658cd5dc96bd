/** The text of a replay cursor, three decimal numbers on a line, and why it reads back as the
    numbers that were written: the formats shared by `.cursor` and `.stop-cursor`. */
module CursorText {
  import opened Wrappers

  const MAX_UINT64: nat := 0xFFFF_FFFF_FFFF_FFFF
  const MAX_INT64: nat := 0x7FFF_FFFF_FFFF_FFFF

  datatype Position = Position(dev: nat, ino: nat, off: nat) {
    predicate Valid() {
      dev <= MAX_UINT64 && ino <= MAX_UINT64 && off <= MAX_INT64
    }
  }

  // ---- writing ----

  function Digit(d: nat): char
    requires d < 10
  {
    '0' + d as char
  }

  function Decimal(n: nat): (s: string)
    ensures |s| > 0 && AllDigits(s)
  {
    if n < 10 then [Digit(n)] else Decimal(n / 10) + [Digit(n % 10)]
  }

  function Print(p: Position): string {
    Decimal(p.dev) + [' '] + Decimal(p.ino) + [' '] + Decimal(p.off) + ['\n']
  }

  // ---- reading ----

  predicate IsDigit(c: char) {
    '0' <= c <= '9'
  }

  predicate AllDigits(s: string) {
    forall c <- s :: IsDigit(c)
  }

  /** `unicode.IsSpace`. */
  predicate IsSpace(c: char) {
    || '\t' <= c <= '\r' || c == ' ' || c == '\U{85}' || c == '\U{A0}' || c == '\U{1680}'
    || '\U{2000}' <= c <= '\U{200A}' || c == '\U{2028}' || c == '\U{2029}' || c == '\U{202F}'
    || c == '\U{205F}' || c == '\U{3000}'
  }

  /** The words of `s` from `from` on, where `word` is the one being read. */
  function Words(s: string, from: nat, word: string): seq<string>
    requires from <= |s|
    decreases |s| - from
  {
    if from == |s| then if word == [] then [] else [word]
    else if !IsSpace(s[from]) then Words(s, from + 1, word + [s[from]])
    else if word == [] then Words(s, from + 1, [])
    else [word] + Words(s, from + 1, [])
  }

  /** `strings.Fields`, which trimming beforehand does not change. */
  function Fields(s: string): seq<string> {
    Words(s, 0, [])
  }

  function Value(s: string): nat
    requires AllDigits(s)
  {
    if s == [] then 0
    else
      var last := s[|s| - 1];
      assert last in s;
      10 * Value(s[..|s| - 1]) + (last - '0') as nat
  }

  /** `strconv.ParseUint(s, 10, 64)`. */
  function ParseUint(s: string): Option<nat> {
    if s != [] && AllDigits(s) && Value(s) <= MAX_UINT64 then Some(Value(s)) else None
  }

  /** `strconv.ParseInt(s, 10, 64)`: a sign is allowed. */
  function ParseInt(s: string): Option<int> {
    if s == [] then None
    else
      var signed := s[0] == '+' || s[0] == '-';
      match ParseUint(if signed then s[1..] else s)
      case None => None
      case Some(n) =>
        if s[0] == '-' then if n <= MAX_INT64 + 1 then Some(-(n as int)) else None
        else if n <= MAX_INT64 then Some(n) else None
  }

  function Parse(text: string): (p: Option<Position>)
    ensures p.Some? ==> p.value.Valid()
  {
    var f := Fields(text);
    if |f| != 3 then None
    else
      var dev, ino, off := ParseUint(f[0]), ParseUint(f[1]), ParseInt(f[2]);
      if dev.None? || ino.None? || off.None? || off.value < 0 then None
      else Some(Position(dev.value, ino.value, off.value))
  }

  /** A number behind an optional sign. */
  function Unsigned(s: string): string {
    if s != "" && (s[0] == '+' || s[0] == '-') then s[1..] else s
  }

  /** What reads as a position, and as which: three words, two of them numbers of 64 bits, and the
      third a number below 2^63 that may carry a sign, but is not below zero. Any other text is
      damaged. */
  lemma ParseExactly(text: string, p: Position)
    ensures Parse(text) == Some(p) <==>
            var f := Fields(text);
            && |f| == 3
            && f[0] != "" && AllDigits(f[0]) && Value(f[0]) == p.dev <= MAX_UINT64
            && f[1] != "" && AllDigits(f[1]) && Value(f[1]) == p.ino <= MAX_UINT64
            && var off := Unsigned(f[2]);
               && off != "" && AllDigits(off) && Value(off) == p.off <= MAX_INT64
               && (f[2][0] == '-' ==> p.off == 0)
  {
    hide Fields, Value;
  }

  // ---- the round trip ----

  lemma {:induction false} DecimalValue(n: nat)
    ensures Value(Decimal(n)) == n
  {
    if n >= 10 {
      DecimalValue(n / 10);
      assert Decimal(n)[..|Decimal(n)| - 1] == Decimal(n / 10);
    } else {
      assert Decimal(n)[..0] == [];
    }
  }

  /** Reading over a word without spaces. */
  lemma {:induction false} WordIsRead(s: string, from: nat, word: string, done: string)
    requires from + |word| < |s| && s[from..from + |word|] == word && IsSpace(s[from + |word|])
    requires AllDigits(word) && done + word != []
    ensures Words(s, from, done) == [done + word] + Words(s, from + |word| + 1, [])
    decreases |word|
  {
    if word == [] {
      assert done + word == done;
    } else {
      assert s[from] == word[0] && IsDigit(word[0]);
      assert s[from + 1..from + 1 + |word[1..]|] == word[1..];
      assert done + word == (done + [word[0]]) + word[1..];
      WordIsRead(s, from + 1, word[1..], done + [word[0]]);
    }
  }

  lemma PrintFields(p: Position)
    ensures Fields(Print(p)) == [Decimal(p.dev), Decimal(p.ino), Decimal(p.off)]
  {
    hide Words, Decimal, AllDigits;
    var a, b, c := Decimal(p.dev), Decimal(p.ino), Decimal(p.off);
    var s := Print(p);
    assert s == a + [' '] + b + [' '] + c + ['\n'];
    var i, j := |a| + 1, |a| + 1 + |b| + 1;
    assert s[0..|a|] == a && s[i..i + |b|] == b && s[j..j + |c|] == c;
    WordIsRead(s, 0, a, []);
    WordIsRead(s, i, b, []);
    WordIsRead(s, j, c, []);
    NoWords(s);
    assert j + |c| + 1 == |s|;
    assert [] + a == a && [] + b == b && [] + c == c;
  }

  lemma NoWords(s: string)
    ensures Words(s, |s|, []) == []
  {
  }

  lemma DecimalParses(n: nat)
    requires n <= MAX_UINT64
    ensures ParseUint(Decimal(n)) == Some(n)
    ensures n <= MAX_INT64 ==> ParseInt(Decimal(n)) == Some(n)
  {
    hide Value, Decimal;
    DecimalValue(n);
    assert Decimal(n)[0] in Decimal(n);
  }

  /** A cursor that was written is read back as the same position. */
  lemma RoundTrip(p: Position)
    requires p.Valid()
    ensures Parse(Print(p)) == Some(p)
  {
    hide Fields, ParseUint, ParseInt, Print, Decimal;
    PrintFields(p);
    DecimalParses(p.dev);
    DecimalParses(p.ino);
    DecimalParses(p.off);
  }

  /** Two cursors with the same text are the same cursor. */
  lemma PrintInjective(p: Position, q: Position)
    requires p.Valid() && q.Valid() && Print(p) == Print(q)
    ensures p == q
  {
    RoundTrip(p);
    RoundTrip(q);
  }
}
