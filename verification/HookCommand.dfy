/** The command of a settings hook, `install_hooks.go`: how cbus writes it for a shell, what a
    shell makes of it, and what it is worth to another cbus that finds it. Paths are those of
    Unix. */
module HookCommand {
  import opened Wrappers
  import CursorText

  // ---- writing a command ----

  /** A character that means itself everywhere in a shell command. */
  predicate Safe(c: char) {
    || 'a' <= c <= 'z' || 'A' <= c <= 'Z' || '0' <= c <= '9' || c == '/' || c == '.' || c == '_' || c == '-'
    || c == '+' || c == ':' || c == '@' || c == '%' || c == ',' || c == '='
  }

  predicate ShellSafe(s: string) {
    s != "" && forall c <- s :: Safe(c)
  }

  /** The program lies below the home directory, and what follows it there is safe. */
  predicate BelowHome(exe: string, home: string) {
    home != "" && home + "/" <= exe && ShellSafe(exe[|home| + 1..])
  }

  /** Every apostrophe leaves the quotes, is escaped, and enters them again. */
  function Escaped(s: string): string {
    if s == "" then "" else (if s[0] == '\'' then "'\\''" else [s[0]]) + Escaped(s[1..])
  }

  function HookCommandPath(exe: string, home: string): string {
    if BelowHome(exe, home) then "\"$HOME/" + exe[|home| + 1..] + "\""
    else if ShellSafe(exe) then exe
    else "'" + Escaped(exe) + "'"
  }

  // ---- what a shell makes of it ----

  datatype Quote = Bare | Single | Double

  /** The word being read, if one has begun. */
  function Text(word: Option<string>): string {
    if word.Some? then word.value else ""
  }

  function Add(word: Option<string>, t: string): Option<string> {
    Some(Text(word) + t)
  }

  function Close(word: Option<string>): seq<string> {
    if word.Some? then [word.value] else []
  }

  predicate NameChar(c: char) {
    'a' <= c <= 'z' || 'A' <= c <= 'Z' || '0' <= c <= '9' || c == '_'
  }

  predicate IsName(s: string) {
    s != "" && !('0' <= s[0] <= '9') && forall c <- s :: NameChar(c)
  }

  /** The length of a reference to `HOME` at the head of the text, or 0. */
  function HomeRef(s: string): (n: nat)
    ensures n <= |s|
  {
    if "${HOME}" <= s then 7
    else if "$HOME" <= s && (|s| == 5 || !NameChar(s[5])) then 5
    else 0
  }

  /** Field splitting of a value (section 2.6.5): the words that it completes behind `word`, and
      the one that it leaves open. */
  function Fields(v: string, word: Option<string>): (seq<string>, Option<string>) {
    if v == "" then ([], word)
    else if v[0] == ' ' || v[0] == '\t' || v[0] == '\n' then
      var (more, last) := Fields(v[1..], None);
      (Close(word) + more, last)
    else Fields(v[1..], Add(word, [v[0]]))
  }

  /** What pathname expansion would act on. */
  predicate HasPattern(v: string) {
    '*' in v || '?' in v || '[' in v || '\\' in v
  }

  /** The words of a simple command where `HOME` is `home`, after sections 2.2 and 2.6 of the
      Shell Command Language of POSIX.1-2017. There is no answer to an open quote, nor to an
      operator, an assignment, a pattern, or any expansion but that of a tilde in front of a slash
      and of `HOME`. */
  function Read(home: string, s: string, mode: Quote, word: Option<string>): Option<seq<string>>
    decreases |s|
  {
    if s == "" then if mode == Bare then Some(Close(word)) else None
    else
      var c, rest := s[0], s[1..];
      match mode
      case Single =>
        if c == '\'' then Read(home, rest, Bare, word) else Read(home, rest, Single, Add(word, [c]))
      case Double =>
        if c == '"' then Read(home, rest, Bare, word)
        else if HomeRef(s) > 0 then Read(home, s[HomeRef(s)..], Double, Add(word, home))
        else if c == '$' || c == '`' || c == '\\' then None
        else Read(home, rest, Double, Add(word, [c]))
      case Bare =>
        if c == ' ' || c == '\t' then
          var more := Read(home, rest, Bare, None);
          if more.Some? then Some(Close(word) + more.value) else None
        else if c == '\'' then Read(home, rest, Single, Add(word, ""))
        else if c == '"' then Read(home, rest, Double, Add(word, ""))
        else if c == '\\' then
          if rest == "" || rest[0] == '\n' then None else Read(home, rest[1..], Bare, Add(word, [rest[0]]))
        else if c == '~' && word == None && rest != "" && rest[0] == '/' then Read(home, rest, Bare, Some(home))
        else if HomeRef(s) > 0 then
          var (done, open) := Fields(home, word);
          var more := Read(home, s[HomeRef(s)..], Bare, open);
          if more.Some? && !HasPattern(home) then Some(done + more.value) else None
        else if !Safe(c) || (c == '=' && IsName(Text(word))) then None
        else Read(home, rest, Bare, Add(word, [c]))
  }

  function Argv(home: string, command: string): Option<seq<string>> {
    Read(home, command, Bare, None)
  }

  predicate Absolute(path: string) {
    path != "" && path[0] == '/'
  }

  predicate IsVerb(verb: string) {
    verb != "" && forall c <- verb :: 'a' <= c <= 'z' || c == '-'
  }

  lemma BareTurn(home: string, c: char, rest: string, word: Option<string>)
    requires Safe(c) && (c == '=' ==> !IsName(Text(word)))
    ensures Read(home, [c] + rest, Bare, word) == Read(home, rest, Bare, Add(word, [c]))
  {
    hide IsName, Fields;
    var s := [c] + rest;
    assert s[1..] == rest && s[0] == c != '$';
    assert HomeRef(s) == 0;
  }

  lemma DoubleTurn(home: string, c: char, rest: string, word: Option<string>)
    requires Safe(c)
    ensures Read(home, [c] + rest, Double, word) == Read(home, rest, Double, Add(word, [c]))
  {
    var s := [c] + rest;
    assert s[1..] == rest && s[0] == c != '$';
    assert HomeRef(s) == 0;
  }

  lemma SlashIsInNoName(s: string)
    requires '/' in s
    ensures !IsName(s)
  {
  }

  lemma {:induction false} SafeBare(home: string, t: string, rest: string, word: Option<string>)
    requires forall c <- t :: Safe(c)
    requires '=' !in t || '/' in Text(word)
    ensures Read(home, t + rest, Bare, word) == Read(home, rest, Bare, if t == "" then word else Add(word, t))
    decreases |t|
  {
    hide Read, Safe, IsName;
    if t == "" {
      assert t + rest == rest;
    } else {
      assert t[0] in t && t + rest == [t[0]] + (t[1..] + rest);
      if t[0] == '=' {
        SlashIsInNoName(Text(word));
      }
      BareTurn(home, t[0], t[1..] + rest, word);
      SafeBare(home, t[1..], rest, Add(word, [t[0]]));
      assert Text(word) + [t[0]] + t[1..] == Text(word) + t;
      if t[1..] == "" {
        assert t == [t[0]];
      }
    }
  }

  lemma {:induction false} SafeDouble(home: string, t: string, rest: string, word: Option<string>)
    requires t != "" && forall c <- t :: Safe(c)
    ensures Read(home, t + rest, Double, word) == Read(home, rest, Double, Add(word, t))
    decreases |t|
  {
    hide Read, Safe;
    assert t[0] in t && t + rest == [t[0]] + (t[1..] + rest);
    DoubleTurn(home, t[0], t[1..] + rest, word);
    assert Text(word) + [t[0]] + t[1..] == Text(word) + t;
    if t[1..] == "" {
      assert t == [t[0]] && t[1..] + rest == rest;
    } else {
      SafeDouble(home, t[1..], rest, Add(word, [t[0]]));
    }
  }

  /** An escaped text is read back through its quotes. */
  lemma {:induction false} EscapedIsRead(home: string, t: string, rest: string, word: Option<string>)
    requires word.Some?
    ensures Read(home, Escaped(t) + "'" + rest, Single, word) == Read(home, rest, Bare, Add(word, t))
    decreases |t|
  {
    hide Read;
    if t == "" {
      QuoteCloses(home, rest, word);
      assert "" + "'" + rest == "'" + rest && Text(word) + "" == Text(word);
    } else {
      var more := Escaped(t[1..]) + "'" + rest;
      assert Text(word) + [t[0]] + t[1..] == Text(word) + t;
      EscapedIsRead(home, t[1..], rest, Add(word, [t[0]]));
      if t[0] == '\'' {
        assert Escaped(t) + "'" + rest == "'\\''" + more;
        ApostropheIsRead(home, more, word);
      } else {
        assert Escaped(t) + "'" + rest == [t[0]] + more;
        SingleTurn(home, t[0], more, word);
      }
    }
  }

  lemma QuoteCloses(home: string, rest: string, word: Option<string>)
    ensures Read(home, "'" + rest, Single, word) == Read(home, rest, Bare, word)
  {
    assert ("'" + rest)[1..] == rest;
  }

  lemma SingleTurn(home: string, c: char, rest: string, word: Option<string>)
    requires c != '\''
    ensures Read(home, [c] + rest, Single, word) == Read(home, rest, Single, Add(word, [c]))
  {
    assert ([c] + rest)[1..] == rest;
  }

  lemma BackslashTurn(home: string, c: char, rest: string, word: Option<string>)
    requires c != '\n'
    ensures Read(home, ['\\', c] + rest, Bare, word) == Read(home, rest, Bare, Add(word, [c]))
  {
    assert (['\\', c] + rest)[1..] == [c] + rest && ([c] + rest)[1..] == rest;
  }

  lemma QuoteReopens(home: string, rest: string, word: Option<string>)
    requires word.Some?
    ensures Read(home, "'" + rest, Bare, word) == Read(home, rest, Single, word)
  {
    assert ("'" + rest)[1..] == rest && Text(word) + "" == Text(word);
  }

  lemma ApostropheIsRead(home: string, rest: string, word: Option<string>)
    ensures Read(home, "'\\''" + rest, Single, word) == Read(home, rest, Single, Add(word, ['\'']))
  {
    hide Read;
    assert "'\\''" + rest == "'" + (['\\', '\''] + ("'" + rest));
    QuoteCloses(home, ['\\', '\''] + ("'" + rest), word);
    BackslashTurn(home, '\'', "'" + rest, word);
    QuoteReopens(home, rest, Add(word, ['\'']));
  }

  lemma VerbIsRead(home: string, verb: string, word: string)
    requires IsVerb(verb)
    ensures Read(home, " " + verb, Bare, Some(word)) == Some([word, verb])
  {
    assert (" " + verb)[1..] == verb == verb + "" && (" " + verb)[0] == ' ';
    assert forall c <- verb :: Safe(c);
    SafeBare(home, verb, "", None);
    assert Text(None) + verb == verb;
    assert Read(home, "", Bare, Some(verb)) == Some([verb]);
    assert [word] + [verb] == [word, verb];
  }

  /** The program that the shell starts where `HOME` is `h`. */
  function Program(exe: string, home: string, h: string): string {
    if BelowHome(exe, home) then h + "/" + exe[|home| + 1..] else exe
  }

  lemma HomeIsSeen(rest: string)
    requires rest != "" && !NameChar(rest[0])
    ensures HomeRef("$HOME" + rest) == 5
  {
    var s := "$HOME" + rest;
    assert s[1] == 'H' && s[5] == rest[0];
    assert !("${HOME}" <= s);
    assert s[..5] == "$HOME";
  }

  lemma DoubleOpens(home: string, rest: string)
    ensures Read(home, "\"" + rest, Bare, None) == Read(home, rest, Double, Some(""))
  {
    assert ("\"" + rest)[1..] == rest;
  }

  lemma DoubleCloses(home: string, rest: string, word: Option<string>)
    ensures Read(home, "\"" + rest, Double, word) == Read(home, rest, Bare, word)
  {
    assert ("\"" + rest)[1..] == rest;
  }

  lemma HomeTurn(home: string, rest: string)
    requires rest != "" && !NameChar(rest[0])
    ensures Read(home, "$HOME" + rest, Double, Some("")) == Read(home, rest, Double, Some(home))
  {
    HomeIsSeen(rest);
    var s := "$HOME" + rest;
    assert s[5..] == rest && s[0] == '$' && Text(Some("")) + home == home;
  }

  lemma HomeFormIsRead(h: string, rel: string, rest: string)
    requires ShellSafe(rel)
    ensures Read(h, "\"$HOME/" + rel + "\"" + rest, Bare, None) == Read(h, rest, Bare, Some(h + "/" + rel))
  {
    hide Read, Safe;
    var t, tail := "/" + rel, "\"" + rest;
    assert "\"$HOME/" + rel + "\"" + rest == "\"" + ("$HOME" + (t + tail));
    DoubleOpens(h, "$HOME" + (t + tail));
    HomeTurn(h, t + tail);
    SlashIsSafe(rel);
    SafeDouble(h, t, tail, Some(h));
    DoubleCloses(h, rest, Some(h + t));
    assert h + t == h + "/" + rel;
  }

  lemma SlashIsSafe(rel: string)
    requires ShellSafe(rel)
    ensures forall c <- "/" + rel :: Safe(c)
  {
  }

  lemma QuoteOpens(h: string, rest: string)
    ensures Read(h, "'" + rest, Bare, None) == Read(h, rest, Single, Some(""))
  {
    assert ("'" + rest)[1..] == rest;
  }

  lemma QuotedIsRead(h: string, exe: string, rest: string)
    ensures Read(h, "'" + Escaped(exe) + "'" + rest, Bare, None) == Read(h, rest, Bare, Some(exe))
  {
    hide Read, Escaped;
    QuoteOpens(h, Escaped(exe) + "'" + rest);
    assert "'" + Escaped(exe) + "'" + rest == "'" + (Escaped(exe) + "'" + rest);
    EscapedIsRead(h, exe, rest, Some(""));
    assert "" + exe == exe;
  }

  lemma AbsoluteIsRead(h: string, exe: string, rest: string)
    requires Absolute(exe) && ShellSafe(exe)
    ensures Read(h, exe + rest, Bare, None) == Read(h, rest, Bare, Some(exe))
  {
    var t := exe[1..];
    assert exe == "/" + t && (exe + rest)[1..] == t + rest;
    assert exe + rest == ['/'] + (t + rest);
    BareTurn(h, '/', t + rest, None);
    assert Text(None) + ['/'] == "/";
    SafeBare(h, t, rest, Some("/"));
    if t == "" {
      assert exe == "/";
    }
  }

  /** Whatever the path of the program and of the home directory, and in any home directory, the
      shell reads a written command as one program and the verb. */
  lemma WrittenCommandRuns(exe: string, home: string, h: string, verb: string)
    requires Absolute(exe) && IsVerb(verb)
    ensures Argv(h, HookCommandPath(exe, home) + " " + verb) == Some([Program(exe, home, h), verb])
  {
    hide Read, IsVerb, ShellSafe, Escaped;
    var rest := " " + verb;
    assert HookCommandPath(exe, home) + " " + verb == HookCommandPath(exe, home) + rest;
    VerbIsRead(h, verb, Program(exe, home, h));
    if BelowHome(exe, home) {
      HomeFormIsRead(h, exe[|home| + 1..], rest);
    } else if ShellSafe(exe) {
      AbsoluteIsRead(h, exe, rest);
    } else {
      QuotedIsRead(h, exe, rest);
    }
  }

  /** It is this very program wherever the home directory is the same, and elsewhere too unless
      the command was written relative to it. */
  lemma WrittenCommandRunsItself(exe: string, home: string, h: string, verb: string)
    requires Absolute(exe) && IsVerb(verb)
    ensures Argv(h, HookCommandPath(exe, home) + " " + verb) == Some([exe, verb]) <==> h == home || !BelowHome(exe, home)
  {
    hide Argv, HookCommandPath, ShellSafe;
    WrittenCommandRuns(exe, home, h, verb);
    if BelowHome(exe, home) {
      var rel := exe[|home| + 1..];
      assert exe == home + "/" + rel;
      if h + "/" + rel == exe {
        assert |h| == |home|;
        assert h == (h + "/" + rel)[..|h|] == exe[..|h|] == home;
      }
    }
  }

  const LETTERS := "abcdefghijklmnopqrstuvwxyz"
  const CAPITALS := "ABCDEFGHIJKLMNOPQRSTUVWXYZ"
  const OTHERS := "0123456789/._-+:@%,="

  predicate Portable(c: char) {
    c in LETTERS || c in CAPITALS || c in OTHERS
  }

  /** Two machines whose cbus lies at the same place below their home directories write the same
      command exactly when these are the same, or the place is spelled in portable characters. */
  lemma SameCommandExactly(a: string, b: string, rest: string, verb: string)
    requires Absolute(a) && Absolute(b) && IsVerb(verb)
    ensures HookCommandPath(a + "/" + rest, a) == HookCommandPath(b + "/" + rest, b)
            <==> a == b || (rest != "" && forall c <- rest :: Portable(c))
  {
    hide Argv, HookCommandPath, Portable, Safe;
    assert ShellSafe(rest) <==> rest != "" && forall c <- rest :: Portable(c) by {
      forall c: char ensures Safe(c) <==> Portable(c) { SafeExactly(c); }
    }
    var x, y := a + "/" + rest, b + "/" + rest;
    assert x[|a| + 1..] == rest && y[|b| + 1..] == rest;
    if ShellSafe(rest) {
      SafeIsBelow(a, rest);
      SafeIsBelow(b, rest);
    } else if HookCommandPath(x, a) == HookCommandPath(y, b) {
      WrittenCommandRuns(x, a, a, verb);
      WrittenCommandRuns(y, b, a, verb);
      assert |a| == |b| && a == x[..|a|] == y[..|b|] == b;
    }
  }

  lemma SafeIsBelow(home: string, rest: string)
    requires home != "" && ShellSafe(rest)
    ensures HookCommandPath(home + "/" + rest, home) == "\"$HOME/" + rest + "\""
  {
    var exe := home + "/" + rest;
    assert exe[|home| + 1..] == rest;
    assert exe[..|home + "/"|] == home + "/";
  }

  lemma LettersExactly(c: char)
    ensures c in LETTERS <==> 'a' <= c <= 'z'
  {
    if 'a' <= c <= 'z' { assert LETTERS[c as int - 'a' as int] == c; }
  }

  lemma CapitalsExactly(c: char)
    ensures c in CAPITALS <==> 'A' <= c <= 'Z'
  {
    if 'A' <= c <= 'Z' { assert CAPITALS[c as int - 'A' as int] == c; }
  }

  lemma SafeExactly(c: char)
    ensures Safe(c) <==> Portable(c)
  {
    hide LETTERS, CAPITALS;
    LettersExactly(c);
    CapitalsExactly(c);
    if '0' <= c <= '9' { assert OTHERS[c as int - '0' as int] == c; }
  }

  // ---- judging a command that was found ----

  function DropWhile(p: char -> bool, s: string): (t: string)
    ensures t != "" ==> !p(t[0])
  {
    if s == "" || !p(s[0]) then s else DropWhile(p, s[1..])
  }

  function DropEnd(p: char -> bool, s: string): (t: string)
    ensures t <= s && (t != "" ==> !p(t[|t| - 1]))
  {
    if s == "" || !p(s[|s| - 1]) then s else DropEnd(p, s[..|s| - 1])
  }

  const IsSpace: char -> bool := c => CursorText.IsSpace(c)

  const IsQuote: char -> bool := c => c == '"' || c == '\''

  const IsSlash: char -> bool := c => c == '/'

  function TrimSpace(s: string): string {
    DropEnd(IsSpace, DropWhile(IsSpace, s))
  }

  function Index(s: string, c: char): (i: nat)
    ensures i <= |s| && (i < |s| ==> s[i] == c) && forall k :: 0 <= k < i ==> s[k] != c
  {
    if s == "" || s[0] == c then 0 else 1 + Index(s[1..], c)
  }

  /** What follows the last slash. */
  function LastElement(s: string): string {
    if s == "" || s[|s| - 1] == '/' then "" else LastElement(s[..|s| - 1]) + [s[|s| - 1]]
  }

  predicate IsCbusBinary(path: string) {
    var base := LastElement(DropEnd(IsSlash, DropEnd(IsQuote, DropWhile(IsQuote, path))));
    base == "cbus" || base == "cbus.exe"
  }

  /** A plain "path verb" entry, the only shape whose program can be judged. */
  datatype Plain = Plain(path: string, verb: string, quote: Quote)

  predicate Ends(c: char) {
    c == ' ' || c == '\t' || c == ';' || c == '&' || c == '|' || c == '<' || c == '>'
  }

  function PlainOf(path: string, verb: string, quote: Quote): Option<Plain> {
    if path != "" && verb != "" && forall c <- verb :: !Ends(c) then Some(Plain(path, verb, quote)) else None
  }

  function SplitHookCommand(command: string): Option<Plain> {
    var cmd := TrimSpace(command);
    if cmd != "" && (cmd[0] == '"' || cmd[0] == '\'') then
      var end := Index(cmd[1..], cmd[0]);
      if end == |cmd[1..]| then None
      else PlainOf(cmd[1..end + 1], TrimSpace(cmd[end + 2..]), if cmd[0] == '"' then Double else Single)
    else
      var end := Index(cmd, ' ');
      if end == |cmd| then None else PlainOf(cmd[..end], TrimSpace(cmd[end + 1..]), Bare)
  }

  /** The elements of a path that cleaning keeps, behind those in `done`. */
  function Cleaned(elements: seq<string>, rooted: bool, done: seq<string>): seq<string> {
    if elements == [] then done
    else
      var e, rest := elements[0], elements[1..];
      if e == "" || e == "." then Cleaned(rest, rooted, done)
      else if e != ".." then Cleaned(rest, rooted, done + [e])
      else if done != [] && done[|done| - 1] != ".." then Cleaned(rest, rooted, done[..|done| - 1])
      else Cleaned(rest, rooted, if rooted then done else done + [e])
  }

  function Elements(path: string, word: string): seq<string> {
    if path == "" then [word]
    else if path[0] == '/' then [word] + Elements(path[1..], "")
    else Elements(path[1..], word + [path[0]])
  }

  function Joined(elements: seq<string>): string {
    if elements == [] then "" else if |elements| == 1 then elements[0] else elements[0] + "/" + Joined(elements[1..])
  }

  /** `filepath.Clean`. */
  function Clean(path: string): (t: string)
    ensures Absolute(path) ==> Absolute(t)
  {
    var t := Joined(Cleaned(Elements(path, ""), Absolute(path), []));
    if Absolute(path) then "/" + t else if t == "" then "." else t
  }

  function Join(home: string, rel: string): string {
    if home != "" then Clean(home + "/" + rel) else if rel != "" then Clean(rel) else ""
  }

  /** What judging asks of a machine: its home directory, if there is one, and which files are
      missing. */
  datatype Host = Host(home: Option<string>, missing: string -> bool)

  predicate Gone(host: Host, path: string) {
    Absolute(path) && host.missing(path)
  }

  /** A bare name resolves on `PATH`, so it is not judged. */
  predicate HookBinaryDead(host: Host, path: string, quote: Quote) {
    if "~/" <= path then
      quote != Bare || (host.home.Some? && Gone(host, Join(host.home.value, path[2..])))
    else if "$HOME/" <= path || "${HOME}/" <= path then
      quote == Single ||
      (host.home.Some? &&
       ((quote == Bare && (' ' in host.home.value || '\t' in host.home.value))
        || Gone(host, Join(host.home.value, path[if "$HOME/" <= path then 6 else 8..]))))
    else Gone(host, path)
  }

  datatype Verdict = Works | Dead | Unrelated

  predicate NamesCbusAt(fields: seq<string>, verb: string, i: nat) {
    0 < i < |fields| && fields[i] == verb && IsCbusBinary(fields[i - 1])
  }

  predicate NamesCbus(fields: seq<string>, verb: string) {
    exists i: nat :: i < |fields| && NamesCbusAt(fields, verb, i)
  }

  /** What a command that does not contain the one of this cbus is worth for a verb. */
  function Judgement(host: Host, cmd: string, verb: string): Verdict {
    var p := SplitHookCommand(cmd);
    if p.Some? && p.value.verb == verb && IsCbusBinary(p.value.path) then
      if HookBinaryDead(host, p.value.path, p.value.quote) then Dead else Works
    else if NamesCbus(CursorText.Fields(cmd), verb) then Works
    else Unrelated
  }

  // ---- a written command, found by another cbus ----

  predicate IsCbusName(name: string) {
    name == "cbus" || name == "cbus.exe"
  }

  lemma {:induction false} LastElementIs(x: string, name: string)
    requires '/' !in name
    ensures LastElement(x + "/" + name) == name
    decreases |name|
  {
    var s := x + "/" + name;
    if name == "" {
      assert s == x + "/";
    } else {
      var n := |name| - 1;
      assert s[..|s| - 1] == x + "/" + name[..n] && s[|s| - 1] == name[n];
      assert name == name[..n] + [name[n]];
      LastElementIs(x, name[..n]);
    }
  }

  lemma {:induction false} DropWhileKeeps(p: char -> bool, x: string, tail: string)
    requires tail != "" && !p(tail[0])
    ensures DropWhile(p, x + tail) == DropWhile(p, x) + tail
    decreases |x|
  {
    if x == "" {
      assert x + tail == tail;
    } else {
      assert (x + tail)[1..] == x[1..] + tail;
      DropWhileKeeps(p, x[1..], tail);
    }
  }

  lemma EndOfName(x: string, name: string)
    requires IsCbusName(name)
    ensures var t := x + "/" + name; !IsQuote(t[|t| - 1]) && !IsSlash(t[|t| - 1]) && '/' !in name
  {
    var t := x + "/" + name;
    assert t[|t| - 1] == name[|name| - 1];
  }

  lemma QuoteIsTrimmed(t: string, quote: string)
    requires t != "" && !IsQuote(t[|t| - 1]) && (quote == "" || quote == "'")
    ensures DropEnd(IsQuote, t + quote) == t
  {
    if quote == "'" {
      assert (t + quote)[..|t|] == t;
    } else {
      assert t + quote == t;
    }
  }

  /** Only the name behind the last slash tells cbus, with or without an apostrophe behind it. */
  lemma CbusIsNamed(x: string, name: string, quote: string)
    requires IsCbusName(name) && (quote == "" || quote == "'")
    ensures IsCbusBinary(x + "/" + name + quote)
  {
    hide DropWhile, LastElement;
    var y := DropWhile(IsQuote, x);
    var t := y + "/" + name;
    DropWhileKeeps(IsQuote, x, "/" + name + quote);
    assert x + "/" + name + quote == x + ("/" + name + quote) && y + ("/" + name + quote) == t + quote;
    EndOfName(y, name);
    QuoteIsTrimmed(t, quote);
    assert DropEnd(IsSlash, t) == t;
    LastElementIs(y, name);
  }

  /** A text that neither begins nor ends with a space is not trimmed. */
  lemma NothingToTrim(s: string)
    requires s != "" && !CursorText.IsSpace(s[0]) && !CursorText.IsSpace(s[|s| - 1])
    ensures TrimSpace(s) == s
  {
  }

  lemma VerbIsTrimmed(verb: string)
    requires IsVerb(verb)
    ensures TrimSpace(" " + verb) == verb == TrimSpace(verb) && forall c <- verb :: !Ends(c) && !CursorText.IsSpace(c)
  {
    assert (" " + verb)[1..] == verb;
    assert verb[0] in verb && verb[|verb| - 1] in verb;
    assert DropWhile(IsSpace, " " + verb) == verb;
  }

  lemma IndexIs(s: string, c: char, i: nat)
    requires i < |s| && s[i] == c && c !in s[..i]
    ensures Index(s, c) == i
  {
    assert forall k :: 0 <= k < i ==> s[k] in s[..i];
  }

  lemma QuotedParts(q: char, path: string, rest: string)
    requires q !in path
    ensures var cmd := [q] + path + [q] + rest;
            && cmd[0] == q && Index(cmd[1..], q) == |path| < |cmd[1..]|
            && cmd[1..|path| + 1] == path && cmd[|path| + 2..] == rest
  {
    var cmd := [q] + path + [q] + rest;
    assert cmd[1..] == path + ([q] + rest);
    assert cmd[1..][|path|] == q && cmd[1..][..|path|] == path;
    IndexIs(cmd[1..], q, |path|);
  }

  lemma QuotedSplits(q: char, path: string, verb: string)
    requires (q == '"' || q == '\'') && q !in path && path != "" && IsVerb(verb)
    ensures SplitHookCommand([q] + path + [q] + " " + verb) ==
            Some(Plain(path, verb, if q == '"' then Double else Single))
  {
    hide TrimSpace, IsVerb, Index;
    var cmd := [q] + path + [q] + " " + verb;
    assert cmd == [q] + path + [q] + (" " + verb);
    QuotedParts(q, path, " " + verb);
    VerbIsTrimmed(verb);
    LastOfVerb(verb);
    assert cmd[|cmd| - 1] == verb[|verb| - 1];
    NothingToTrim(cmd);
  }

  lemma LastOfVerb(verb: string)
    requires IsVerb(verb)
    ensures verb != "" && !CursorText.IsSpace(verb[|verb| - 1])
  {
    assert verb[|verb| - 1] in verb;
  }

  lemma SafeIsNoSpace(s: string)
    requires forall c <- s :: Safe(c)
    ensures forall c <- s :: !CursorText.IsSpace(c) && c != '"' && c != '\''
  {
  }

  lemma BareSplits(path: string, verb: string)
    requires path != "" && (forall c <- path :: !CursorText.IsSpace(c)) && path[0] != '"' && path[0] != '\'' && IsVerb(verb)
    ensures SplitHookCommand(path + " " + verb) == Some(Plain(path, verb, Bare))
  {
    hide TrimSpace, IsVerb;
    var cmd := path + " " + verb;
    VerbIsTrimmed(verb);
    LastOfVerb(verb);
    assert cmd[0] == path[0] && path[0] in path && cmd[|cmd| - 1] == verb[|verb| - 1];
    NothingToTrim(cmd);
    assert cmd[|path|] == ' ' && cmd[..|path|] == path;
    IndexIs(cmd, ' ', |path|);
    assert cmd[|path| + 1..] == verb;
  }

  lemma {:induction false} EscapedConcat(a: string, b: string)
    ensures Escaped(a + b) == Escaped(a) + Escaped(b)
    decreases |a|
  {
    if a == "" {
      assert a + b == b;
    } else {
      assert (a + b)[1..] == a[1..] + b;
      EscapedConcat(a[1..], b);
    }
  }

  lemma {:induction false} NothingToEscape(t: string)
    requires '\'' !in t
    ensures Escaped(t) == t
    decreases |t|
  {
    if t != "" {
      NothingToEscape(t[1..]);
    }
  }

  /** A quoted text with more behind its first closing quote than a verb. */
  lemma MoreBehindQuote(a: string, rest: string)
    requires '\'' !in a && rest != "" && TrimSpace(rest) == rest && ' ' in rest
    requires TrimSpace("'" + a + "'" + rest) == "'" + a + "'" + rest
    ensures SplitHookCommand("'" + a + "'" + rest) == None
  {
    hide TrimSpace, Index;
    QuotedParts('\'', a, rest);
    assert "'" + a + "'" + rest == ['\''] + a + ['\''] + rest && Ends(' ');
  }

  /** Escaping up to the first apostrophe, and behind it. */
  lemma {:induction false} EscapedAtApostrophe(exe: string) returns (a: string, b: string)
    requires '\'' in exe
    ensures '\'' !in a && Escaped(exe) == a + ("'\\''" + Escaped(b))
    decreases |exe|
  {
    if exe[0] == '\'' {
      a, b := "", exe[1..];
      assert a + ("'\\''" + Escaped(b)) == "'\\''" + Escaped(b);
    } else {
      a, b := EscapedAtApostrophe(exe[1..]);
      assert [exe[0]] + (a + ("'\\''" + Escaped(b))) == ([exe[0]] + a) + ("'\\''" + Escaped(b));
      a := [exe[0]] + a;
    }
  }

  /** With an apostrophe in the path, the written command is no plain entry. */
  lemma ApostropheIsNotPlain(exe: string, verb: string)
    requires '\'' in exe && IsVerb(verb)
    ensures SplitHookCommand("'" + Escaped(exe) + "'" + " " + verb) == None
  {
    hide TrimSpace, IsVerb, Escaped, SplitHookCommand;
    var a, b := EscapedAtApostrophe(exe);
    var rest := "\\''" + Escaped(b) + "'" + " " + verb;
    var cmd := "'" + Escaped(exe) + "'" + " " + verb;
    assert cmd == "'" + a + "'" + rest;
    LastOfVerb(verb);
    assert cmd[|cmd| - 1] == verb[|verb| - 1] == rest[|rest| - 1];
    NothingToTrim(cmd);
    NothingToTrim(rest);
    assert rest[|rest| - |verb| - 1] == ' ';
    MoreBehindQuote(a, rest);
  }

  predicate NoSpaces(t: string) {
    forall c <- t :: !CursorText.IsSpace(c)
  }

  lemma {:induction false} WordsReadOn(s: string, from: nat, word: string, t: string)
    requires from + |t| <= |s| && s[from..from + |t|] == t && NoSpaces(t)
    ensures CursorText.Words(s, from, word) == CursorText.Words(s, from + |t|, word + t)
    decreases |t|
  {
    if t == "" {
      assert word + t == word;
    } else {
      assert s[from] == t[0] && t[0] in t;
      assert s[from + 1..from + 1 + |t[1..]|] == t[1..];
      assert word + t == word + [t[0]] + t[1..];
      WordsReadOn(s, from + 1, word + [t[0]], t[1..]);
    }
  }

  /** The last two words, when the text ends in `tail`, a blank and the verb: the first of them
      ends in `tail`. */
  lemma {:induction false} LastWords(s: string, from: nat, word: string, tail: string, verb: string)
    returns (before: seq<string>, w: string)
    requires NoSpaces(tail) && tail != "" && NoSpaces(verb) && verb != ""
    requires from + |tail| + 1 + |verb| <= |s| && s[|s| - |tail| - 1 - |verb|..] == tail + " " + verb
    ensures CursorText.Words(s, from, word) == before + [w + tail, verb]
    decreases |s| - from
  {
    var k := |s| - |tail| - 1 - |verb|;
    if from == k {
      TailWords(s, k, word, tail, verb);
      before, w := [], word;
    } else if CursorText.IsSpace(s[from]) {
      before, w := LastWords(s, from + 1, "", tail, verb);
      if word != "" {
        assert [word] + (before + [w + tail, verb]) == [word] + before + [w + tail, verb];
        before := [word] + before;
      }
    } else {
      before, w := LastWords(s, from + 1, word + [s[from]], tail, verb);
    }
  }

  lemma TailParts(s: string, k: nat, tail: string, verb: string)
    requires k <= |s| && s[k..] == tail + " " + verb
    ensures var i := k + |tail|;
            && i + 1 + |verb| == |s| && s[k..i] == tail && s[i] == ' ' && s[i + 1..i + 1 + |verb|] == verb
  {
    var i := k + |tail|;
    var t := tail + " " + verb;
    assert forall j :: 0 <= j < |t| ==> s[k + j] == t[j];
    assert s[k..i] == t[..|tail|] == tail;
    assert s[i + 1..|s|] == t[|tail| + 1..] == verb;
  }

  lemma TailWords(s: string, k: nat, word: string, tail: string, verb: string)
    requires NoSpaces(tail) && tail != "" && NoSpaces(verb) && verb != ""
    requires k <= |s| && s[k..] == tail + " " + verb
    ensures CursorText.Words(s, k, word) == [word + tail, verb]
  {
    hide NoSpaces, CursorText.Words;
    TailParts(s, k, tail, verb);
    var i := k + |tail|;
    WordsReadOn(s, k, word, tail);
    BlankEnds(s, i, word + tail);
    WordsReadOn(s, i + 1, "", verb);
    assert "" + verb == verb;
    EndEnds(s, verb);
  }

  lemma BlankEnds(s: string, i: nat, word: string)
    requires i < |s| && s[i] == ' ' && word != ""
    ensures CursorText.Words(s, i, word) == [word] + CursorText.Words(s, i + 1, [])
  {
  }

  lemma EndEnds(s: string, word: string)
    requires word != ""
    ensures CursorText.Words(s, |s|, word) == [word]
  {
  }

  /** A command that ends in the path of cbus, perhaps an apostrophe, and the verb, counts. */
  lemma FieldsNameCbus(x: string, name: string, verb: string)
    requires IsCbusName(name) && IsVerb(verb)
    ensures NamesCbus(CursorText.Fields(x + "/" + name + "'" + " " + verb), verb)
  {
    hide IsVerb, IsCbusBinary, CursorText.Words;
    var s := x + "/" + name + "'" + " " + verb;
    var tail := "/" + name + "'";
    VerbIsTrimmed(verb);
    assert verb != "" by { LastOfVerb(verb); }
    assert s[|s| - |tail| - 1 - |verb|..] == tail + " " + verb;
    assert NoSpaces(tail);
    var before, w := LastWords(s, 0, "", tail, verb);
    var fields := before + [w + tail, verb];
    CbusIsNamed(w, name, "'");
    assert w + "/" + name + "'" == w + tail;
    var i := |before| + 1;
    assert fields[i] == verb && fields[i - 1] == w + tail;
    assert NamesCbusAt(fields, verb, i);
  }

  /** The home directory ends before the last slash. */
  lemma HomeEndsInDir(dir: string, name: string, home: string)
    requires '/' !in name && home + "/" <= dir + "/" + name
    ensures |home| <= |dir|
  {
    var exe := dir + "/" + name;
    assert exe[|home|] == (home + "/")[|home|] == '/';
    assert forall k :: |dir| < k < |exe| ==> exe[k] in name;
  }

  lemma RelEndsInName(dir: string, name: string, home: string) returns (mid: string)
    requires '/' !in name && home + "/" <= dir + "/" + name
    ensures "$HOME/" + (dir + "/" + name)[|home| + 1..] == mid + "/" + name
  {
    HomeEndsInDir(dir, name, home);
    var exe := dir + "/" + name;
    if |home| == |dir| {
      mid := "$HOME";
      assert exe[|home| + 1..] == name;
    } else {
      mid := "$HOME/" + dir[|home| + 1..];
      assert exe[|home| + 1..] == dir[|home| + 1..] + "/" + name;
    }
  }

  lemma HomeFormIsPlain(dir: string, name: string, home: string, verb: string)
    requires IsCbusName(name) && IsVerb(verb) && BelowHome(dir + "/" + name, home)
    ensures var exe := dir + "/" + name;
            var path := "$HOME/" + exe[|home| + 1..];
            && SplitHookCommand(HookCommandPath(exe, home) + " " + verb) == Some(Plain(path, verb, Double))
            && IsCbusBinary(path)
  {
    hide IsVerb, SplitHookCommand, IsCbusBinary, Safe;
    var exe := dir + "/" + name;
    var rel := exe[|home| + 1..];
    var path := "$HOME/" + rel;
    EndOfName(dir, name);
    var mid := RelEndsInName(dir, name, home);
    SafeHasNoQuote(rel);
    assert HookCommandPath(exe, home) + " " + verb == ['"'] + path + ['"'] + " " + verb;
    assert '"' !in path;
    QuotedSplits('"', path, verb);
    CbusIsNamed(mid, name, "");
    assert path + "" == path && mid + "/" + name + "" == path;
  }

  lemma HomePathIsJudged(host: Host, path: string, rel: string)
    requires path == "$HOME/" + rel && host.home.Some? && Absolute(host.home.value)
    ensures HookBinaryDead(host, path, Double) <==> host.missing(Clean(host.home.value + "/" + rel))
  {
    hide Clean;
    assert path[0] == '$' && path[..6] == "$HOME/" && path[6..] == rel;
    assert !("~/" <= path);
  }

  lemma SafeHasNoQuote(s: string)
    requires ShellSafe(s)
    ensures '"' !in s && '\'' !in s
  {
  }

  lemma ApostropheFormIsJudged(dir: string, name: string, home: string, verb: string, host: Host)
    requires IsCbusName(name) && IsVerb(verb) && Absolute(dir + "/" + name)
    requires var exe := dir + "/" + name; !BelowHome(exe, home) && '\'' in exe
    ensures var exe := dir + "/" + name;
            Judgement(host, HookCommandPath(exe, home) + " " + verb, verb) == Works
  {
    hide IsVerb, SplitHookCommand, NamesCbus, Escaped, BelowHome, CursorText.Fields, Safe;
    var exe := dir + "/" + name;
    assert !ShellSafe(exe) by {
      if ShellSafe(exe) { SafeHasNoQuote(exe); }
    }
    ApostropheIsNotPlain(exe, verb);
    EscapedConcat(dir, "/" + name);
    assert dir + ("/" + name) == exe && '\'' !in "/" + name;
    NothingToEscape("/" + name);
    FieldsNameCbus("'" + Escaped(dir), name, verb);
    assert "'" + Escaped(dir) + "/" + name + "'" + " " + verb == "'" + Escaped(exe) + "'" + " " + verb;
  }

  lemma PathFormIsPlain(dir: string, name: string, home: string, verb: string)
    requires IsCbusName(name) && IsVerb(verb) && Absolute(dir + "/" + name)
    requires var exe := dir + "/" + name; !BelowHome(exe, home) && '\'' !in exe
    ensures var exe := dir + "/" + name;
            var p := SplitHookCommand(HookCommandPath(exe, home) + " " + verb);
            p.Some? && p.value.path == exe && p.value.verb == verb && IsCbusBinary(exe)
  {
    hide IsVerb, SplitHookCommand, IsCbusBinary, Escaped, BelowHome;
    var exe := dir + "/" + name;
    CbusIsNamed(dir, name, "");
    assert exe + "" == exe;
    if ShellSafe(exe) {
      SafeIsNoSpace(exe);
      BareSplits(exe, verb);
    } else {
      NothingToEscape(exe);
      QuotedSplits('\'', exe, verb);
      assert "'" + exe + "'" + " " + verb == ['\''] + exe + ['\''] + " " + verb;
    }
  }

  lemma AbsoluteIsJudged(host: Host, exe: string)
    requires Absolute(exe)
    ensures forall q :: HookBinaryDead(host, exe, q) <==> host.missing(exe)
  {
    assert !("~/" <= exe) && !("$HOME/" <= exe) && !("${HOME}/" <= exe);
  }

  /** The command that some cbus wrote for its own program is recognised on every machine, so
      that no second entry is added beside it. */
  lemma WrittenCommandIsFound(dir: string, name: string, home: string, verb: string, host: Host)
    requires IsCbusName(name) && Absolute(dir + "/" + name) && IsVerb(verb)
    ensures Judgement(host, HookCommandPath(dir + "/" + name, home) + " " + verb, verb) != Unrelated
  {
    hide HookCommandPath, BelowHome, IsVerb, SplitHookCommand, IsCbusBinary, NamesCbus, HookBinaryDead;
    var exe := dir + "/" + name;
    if BelowHome(exe, home) {
      HomeFormIsPlain(dir, name, home, verb);
    } else if '\'' in exe {
      ApostropheFormIsJudged(dir, name, home, verb, host);
    } else {
      PathFormIsPlain(dir, name, home, verb);
    }
  }

  /** It is taken for dead there exactly when the file is missing that the shell would start,
      except that a path with an apostrophe in it is not judged. */
  lemma WrittenCommandIsJudged(dir: string, name: string, home: string, verb: string, host: Host)
    requires IsCbusName(name) && Absolute(dir + "/" + name) && IsVerb(verb)
    requires host.home.Some? && Absolute(host.home.value)
    ensures var exe := dir + "/" + name;
            var program := Program(exe, home, host.home.value);
            Judgement(host, HookCommandPath(exe, home) + " " + verb, verb) ==
            if BelowHome(exe, home) then if host.missing(Clean(program)) then Dead else Works
            else if '\'' in exe then Works
            else if host.missing(program) then Dead else Works
  {
    hide HookCommandPath, ShellSafe, IsVerb, SplitHookCommand, IsCbusBinary, NamesCbus, HookBinaryDead, Clean;
    var exe := dir + "/" + name;
    if BelowHome(exe, home) {
      HomeFormIsPlain(dir, name, home, verb);
      HomePathIsJudged(host, "$HOME/" + exe[|home| + 1..], exe[|home| + 1..]);
    } else if '\'' in exe {
      ApostropheFormIsJudged(dir, name, home, verb, host);
    } else {
      PathFormIsPlain(dir, name, home, verb);
      AbsoluteIsJudged(host, exe);
    }
  }

  // ---- an entry in the home directory, however it is written ----

  /** The three ways to write the home directory. */
  datatype HomeForm = Tilde | Dollar | Braces {
    function Prefix(): string {
      match this
      case Tilde => "~/"
      case Dollar => "$HOME/"
      case Braces => "${HOME}/"
    }
  }

  function Quoted(path: string, q: Quote): string {
    match q
    case Bare => path
    case Single => "'" + path + "'"
    case Double => "\"" + path + "\""
  }

  predicate HasBlank(v: string) {
    ' ' in v || '\t' in v || '\n' in v
  }

  lemma {:induction false} FieldsOfOne(v: string, word: Option<string>)
    requires !HasBlank(v)
    ensures Fields(v, word) == ([], if v == "" then word else Add(word, v))
    decreases |v|
  {
    if v != "" {
      assert v[0] in v && forall c <- v[1..] :: c in v;
      FieldsOfOne(v[1..], Add(word, [v[0]]));
      assert Text(word) + [v[0]] + v[1..] == Text(word) + v;
      assert v[1..] == "" ==> v == [v[0]];
    }
  }

  /** A value with blanks completes a word without any. */
  lemma {:induction false} FirstField(v: string, word: Option<string>)
    requires HasBlank(v) && word.Some? && !HasBlank(word.value)
    ensures Fields(v, word).0 != [] && !HasBlank(Fields(v, word).0[0])
    decreases |v|
  {
    if !(v[0] == ' ' || v[0] == '\t' || v[0] == '\n') {
      assert v == [v[0]] + v[1..];
      FirstField(v[1..], Add(word, [v[0]]));
    }
  }

  lemma SafeWord(h: string, t: string, verb: string, word: Option<string>)
    requires (forall c <- t :: Safe(c)) && IsVerb(verb)
    ensures Read(h, "/" + t + " " + verb, Bare, word) == Some([Text(word) + "/" + t, verb])
  {
    hide Read, Safe, IsVerb;
    var rest := " " + verb;
    assert "/" + t + " " + verb == ['/'] + (t + rest);
    assert Safe('/') && '/' != '=' by { SlashSafe(); }
    BareTurn(h, '/', t + rest, word);
    var begun := Add(word, ['/']);
    assert begun.value[|Text(word)|] == '/';
    SafeBare(h, t, rest, begun);
    assert Text(word) + ['/'] + t == Text(word) + "/" + t;
    assert t == "" ==> begun.value == Text(word) + "/" + t;
    VerbIsRead(h, verb, Text(word) + "/" + t);
  }

  lemma SlashSafe()
    ensures Safe('/')
  {
  }

  lemma TildeIsRead(h: string, rel: string, verb: string)
    requires (forall c <- rel :: Safe(c)) && IsVerb(verb)
    ensures Argv(h, "~/" + rel + " " + verb) == Some([h + "/" + rel, verb])
  {
    hide Safe, IsVerb;
    var s, rest := "~/" + rel + " " + verb, "/" + rel + " " + verb;
    assert s[0] == '~' && s[1..] == rest && rest[0] == '/';
    SafeWord(h, rel, verb, Some(h));
  }

  lemma HomeIsSeenIn(f: HomeForm, rest: string)
    requires f != Tilde && rest != "" && rest[0] == '/'
    ensures var s := (if f == Dollar then "$HOME" else "${HOME}") + rest;
            HomeRef(s) > 0 && s[HomeRef(s)..] == rest && s[0] == '$'
  {
    if f == Dollar {
      HomeIsSeen(rest);
    }
    var s := (if f == Dollar then "$HOME" else "${HOME}") + rest;
    assert f == Braces ==> "${HOME}" <= s;
    assert s[0] == '$';
  }

  /** Without quotes the shell splits the value at its blanks; with double quotes it does not. */
  lemma BareHomeIsRead(h: string, f: HomeForm, rel: string, verb: string)
    requires f != Tilde && (forall c <- rel :: Safe(c)) && IsVerb(verb) && Absolute(h) && !HasPattern(h)
    ensures var words := Argv(h, f.Prefix() + rel + " " + verb);
            && words.Some? && words.value != []
            && (words.value[0] == h + "/" + rel <==> !HasBlank(h))
  {
    hide Safe, IsVerb, HomeRef, HasPattern;
    var rest := "/" + rel + " " + verb;
    var s := (if f == Dollar then "$HOME" else "${HOME}") + rest;
    assert s == f.Prefix() + rel + " " + verb;
    HomeIsSeenIn(f, rest);
    var (done, open) := Fields(h, None);
    SafeWord(h, rel, verb, open);
    assert Argv(h, s) == Some(done + [Text(open) + "/" + rel, verb]);
    if HasBlank(h) {
      assert h == [h[0]] + h[1..];
      FirstField(h[1..], Add(None, [h[0]]));
      assert Fields(h, None) == Fields(h[1..], Add(None, [h[0]]));
      assert (done + [Text(open) + "/" + rel, verb])[0] == done[0];
      BlankStays(h, rel);
    } else {
      FieldsOfOne(h, None);
      assert "" + h == h;
    }
  }

  lemma BlankStays(h: string, rel: string)
    requires HasBlank(h)
    ensures HasBlank(h + "/" + rel)
  {
  }

  lemma DoubleHomeIsRead(h: string, f: HomeForm, rel: string, verb: string)
    requires ShellSafe(rel) && IsVerb(verb)
    ensures Argv(h, Quoted(f.Prefix() + rel, Double) + " " + verb) ==
            Some([if f == Tilde then "~/" + rel else h + "/" + rel, verb])
  {
    hide Read, Safe, IsVerb, HomeRef;
    var rest := " " + verb;
    var tail := "\"" + rest;
    var t := "/" + rel;
    SlashIsSafe(rel);
    var s := Quoted(f.Prefix() + rel, Double) + " " + verb;
    if f == Tilde {
      assert s == "\"" + (['~'] + (t + tail));
      DoubleOpens(h, ['~'] + (t + tail));
      TildeInQuotes(h, t + tail);
      SafeDouble(h, t, tail, Some("~"));
      DoubleCloses(h, rest, Some("~" + t));
      assert "~" + t == "~/" + rel;
      VerbIsRead(h, verb, "~" + t);
    } else {
      var ref := if f == Dollar then "$HOME" else "${HOME}";
      assert s == "\"" + (ref + (t + tail));
      DoubleOpens(h, ref + (t + tail));
      HomeIsSeenIn(f, t + tail);
      HomeInQuotes(h, ref + (t + tail), t + tail);
      SafeDouble(h, t, tail, Some(h));
      DoubleCloses(h, rest, Some(h + t));
      assert h + t == h + "/" + rel;
      VerbIsRead(h, verb, h + t);
    }
  }

  lemma TildeInQuotes(h: string, rest: string)
    ensures Read(h, ['~'] + rest, Double, Some("")) == Read(h, rest, Double, Some("~"))
  {
    var s := ['~'] + rest;
    assert s[0] == '~' && s[1..] == rest && Text(Some("")) + ['~'] == "~";
    assert HomeRef(s) == 0;
  }

  lemma HomeInQuotes(h: string, s: string, rest: string)
    requires HomeRef(s) > 0 && s[HomeRef(s)..] == rest && s[0] == '$'
    ensures Read(h, s, Double, Some("")) == Read(h, rest, Double, Some(h))
  {
    assert Text(Some("")) + h == h;
  }

  lemma SingleHomeIsRead(h: string, path: string, verb: string)
    requires '\'' !in path && IsVerb(verb)
    ensures Argv(h, Quoted(path, Single) + " " + verb) == Some([path, verb])
  {
    hide Read, IsVerb;
    NothingToEscape(path);
    QuotedIsRead(h, path, " " + verb);
    VerbIsRead(h, verb, path);
    assert Quoted(path, Single) + " " + verb == "'" + path + "'" + (" " + verb);
  }

  lemma HomeFormDead(host: Host, f: HomeForm, rel: string, q: Quote)
    requires host.home.Some? && Absolute(host.home.value)
    ensures var gone := host.missing(Clean(host.home.value + "/" + rel));
            HookBinaryDead(host, f.Prefix() + rel, q) <==>
            match f
            case Tilde => q != Bare || gone
            case _ => q == Single || gone || (q == Bare && (' ' in host.home.value || '\t' in host.home.value))
  {
    hide Clean;
    var path := f.Prefix() + rel;
    assert path[0] == f.Prefix()[0] && path[1] == f.Prefix()[1];
    match f
    case Tilde => assert path[2..] == rel && "~/" <= path;
    case Dollar => assert path[6..] == rel && "$HOME/" <= path;
    case Braces => assert path[8..] == rel && "${HOME}/" <= path;
  }

  /** The verdict on an entry below the home directory follows the shell, whichever way it is
      written and quoted: it is dead exactly when the shell starts anything else, or the file is
      missing. The one exception is a home directory with a newline, and no other blank, in a
      path without quotes, at which the shell splits and the verdict does not look. */
  lemma VerdictFollowsShell(host: Host, f: HomeForm, rel: string, q: Quote, verb: string)
    requires ShellSafe(rel) && IsVerb(verb) && host.home.Some? && Absolute(host.home.value) && !HasPattern(host.home.value)
    ensures var h := host.home.value;
            var words := Argv(h, Quoted(f.Prefix() + rel, q) + " " + verb);
            var gone := host.missing(Clean(h + "/" + rel));
            && words.Some? && words.value != []
            && ((HookBinaryDead(host, f.Prefix() + rel, q) <==> words.value[0] != h + "/" + rel || gone) <==>
                !(f != Tilde && q == Bare && !gone && '\n' in h && ' ' !in h && '\t' !in h))
  {
    hide Read, HookBinaryDead, Clean, IsVerb, HasPattern;
    var h := host.home.value;
    HomeFormDead(host, f, rel, q);
    SafeHasNoQuote(rel);
    match q {
      case Bare =>
        if f == Tilde {
          TildeIsRead(h, rel, verb);
        } else {
          BareHomeIsRead(h, f, rel, verb);
        }
      case Double =>
        DoubleHomeIsRead(h, f, rel, verb);
        assert ("~/" + rel)[0] == '~' && (h + "/" + rel)[0] == '/';
      case Single =>
        assert '\'' !in f.Prefix();
        SingleHomeIsRead(h, f.Prefix() + rel, verb);
        assert (f.Prefix() + rel)[0] != '/' && (h + "/" + rel)[0] == '/';
    }
  }
}
