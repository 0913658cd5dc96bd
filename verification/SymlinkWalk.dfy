/** Finding the file a settings path really opens, `resolveLinkTarget` of `install_hooks.go`:
    it agrees with component-by-component pathname resolution (section 4.13 of the POSIX.1-2017
    Base Definitions) wherever the directories exist. The path is the cleaned absolute one. */
module SymlinkWalk {
  import opened Wrappers

  const MAX_LINKS: nat := 40

  /** A component between two slashes: nothing or a dot, two dots, or a name. */
  datatype Part = Stay | Up | Name(name: string)

  function Classify(part: string): Part {
    if part == "" || part == "." then Stay else if part == ".." then Up else Name(part)
  }

  /** The components of a text without its leading slash, where `word` is the one being read. */
  function Split(text: string, word: string): seq<Part> {
    if text == "" then [Classify(word)]
    else if text[0] == '/' then [Classify(word)] + Split(text[1..], "")
    else Split(text[1..], word + [text[0]])
  }

  predicate Absolute(link: string) {
    link != "" && link[0] == '/'
  }

  function Parts(link: string): seq<Part> {
    Split(if Absolute(link) then link[1..] else link, "")
  }

  /** Texts with a slash between any two. */
  function Joined(texts: seq<string>): string
    requires texts != []
  {
    if |texts| == 1 then texts[0] else texts[0] + "/" + Joined(texts[1..])
  }

  lemma {:induction false} SplitText(word: string, text: string, rest: string)
    requires '/' !in text
    ensures Split(text, word) == [Classify(word + text)]
    ensures Split(text + "/" + rest, word) == [Classify(word + text)] + Split(rest, "")
    decreases |text|
  {
    hide Classify;
    if text == "" {
      assert word + text == word && (text + "/" + rest)[1..] == rest;
    } else {
      assert text[0] in text && forall c <- text[1..] :: c in text;
      assert (text + "/" + rest)[1..] == text[1..] + "/" + rest && (text + "/" + rest)[0] == text[0];
      assert word + [text[0]] + text[1..] == word + text;
      SplitText(word + [text[0]], text[1..], rest);
    }
  }

  lemma {:induction false} SplitTexts(texts: seq<string>)
    requires texts != [] && forall t <- texts :: '/' !in t
    ensures var parts := Split(Joined(texts), "");
            |parts| == |texts| && forall k :: 0 <= k < |texts| ==> parts[k] == Classify(texts[k])
    decreases |texts|
  {
    hide Classify, Split;
    var t, rest := texts[0], texts[1..];
    assert "" + t == t;
    if rest == [] {
      SplitText("", t, "");
    } else {
      SplitText("", t, Joined(rest));
      SplitTexts(rest);
    }
  }

  /** The text of a link, with or without a slash in front, has one component for each of the
      texts between its slashes: nothing or one dot stays, two dots go up, and anything else is
      the name of an entry. */
  lemma PartsExactly(texts: seq<string>, rooted: bool, k: nat)
    requires texts != [] && (forall t <- texts :: '/' !in t) && (!rooted && |texts| > 1 ==> texts[0] != "")
    requires k < |texts|
    ensures var link := (if rooted then "/" else "") + Joined(texts);
            && (Absolute(link) <==> rooted)
            && |Parts(link)| == |texts|
            && Parts(link)[k] == if texts[k] == "" || texts[k] == "." then Stay else if texts[k] == ".." then Up else Name(texts[k])
  {
    hide Split;
    var body := Joined(texts);
    var link := (if rooted then "/" else "") + body;
    SplitTexts(texts);
    if rooted {
      assert link[1..] == body;
    } else {
      assert link == body;
      assert texts[0] in texts;
      assert texts[0] != "" ==> link[0] == texts[0][0] != '/';
    }
  }

  // ---- the file system ----

  type Ino = nat

  const ROOT: Ino := 0

  datatype Inode = Dir(entries: map<string, Ino>, parent: Ino) | Plain | Link(text: string)

  type Inodes = map<Ino, Inode>

  function At(fs: Inodes, i: Ino): Inode {
    if i in fs then fs[i] else Plain
  }

  /** Directories form a tree: each one's parent is the directory it is an entry of. */
  predicate WellFormed(fs: Inodes) {
    && At(fs, ROOT).Dir? && At(fs, ROOT).parent == ROOT
    && forall d <- fs :: fs[d].Dir? ==>
         forall n <- fs[d].entries :: At(fs, fs[d].entries[n]).Dir? ==> At(fs, fs[d].entries[n]).parent == d
  }

  type FS = fs: Inodes | WellFormed(fs) witness map[ROOT := Dir(map[], ROOT)]

  /** What resolution comes to: an inode, a name that is missing in an existing directory, a
      directory of the path that is missing or is none, or too many links. */
  datatype Resolution = Exists(i: Ino) | Missing(dir: Ino, name: string) | NoDirectory | Loop

  /** Pathname resolution from the directory `at`. A link in the last component is followed when
      `follow` says so. */
  function Resolve(fs: FS, at: Ino, parts: seq<Part>, links: nat, follow: bool): Resolution
    decreases links, |parts|
  {
    if parts == [] then Exists(at)
    else if !At(fs, at).Dir? then NoDirectory
    else
      var rest := parts[1..];
      match parts[0]
      case Stay => Resolve(fs, at, rest, links, follow)
      case Up => Resolve(fs, At(fs, at).parent, rest, links, follow)
      case Name(n) =>
        if n !in At(fs, at).entries then if rest == [] then Missing(at, n) else NoDirectory
        else
          var child := At(fs, at).entries[n];
          match At(fs, child)
          case Link(text) =>
            if rest == [] && !follow then Exists(child)
            else if links == 0 then Loop
            else Resolve(fs, if Absolute(text) then ROOT else at, Parts(text) + rest, links - 1, follow)
          case _ => Resolve(fs, child, rest, links, follow)
  }

  // ---- the walk ----

  /** A path as its names from the root down. */
  type Path = seq<string>

  function Named(p: Path): (parts: seq<Part>)
    ensures |parts| == |p| && forall k :: 0 <= k < |p| ==> parts[k] == Name(p[k])
  {
    seq(|p|, k requires 0 <= k < |p| => Name(p[k]))
  }

  /** `os.Lstat`, which follows every link but the last one. */
  function Lstat(fs: FS, p: Path): Resolution {
    Resolve(fs, ROOT, Named(p), MAX_LINKS, false)
  }

  function LinkAt(fs: FS, p: Path): Option<string> {
    match Lstat(fs, p)
    case Exists(i) => if At(fs, i).Link? then Some(At(fs, i).text) else None
    case _ => None
  }

  function Parent(p: Path): Path {
    if p == [] then [] else p[..|p| - 1]
  }

  /** The walk with `rest` to go and `links` more links allowed; `None` is too many of them. */
  function Walk(fs: FS, cur: Path, rest: seq<Part>, links: nat): Option<Path>
    decreases links, |rest|
  {
    if rest == [] then Some(cur)
    else match rest[0]
      case Stay => Walk(fs, cur, rest[1..], links)
      case Up => Walk(fs, Parent(cur), rest[1..], links)
      case Name(n) =>
        match LinkAt(fs, cur + [n])
        case None => Walk(fs, cur + [n], rest[1..], links)
        case Some(text) =>
          if links == 0 then None
          else Walk(fs, if Absolute(text) then [] else cur, Parts(text) + rest[1..], links - 1)
  }

  /** No prefix of the path is a link. */
  ghost predicate LinkFree(fs: FS, p: Path) {
    forall k :: 0 <= k <= |p| ==> LinkAt(fs, p[..k]).None?
  }

  lemma RootIsLinkFree(fs: FS)
    ensures LinkFree(fs, [])
  {
  }

  lemma LinkFreeNext(fs: FS, p: Path, n: string)
    requires LinkFree(fs, p) && LinkAt(fs, p + [n]).None?
    ensures LinkFree(fs, p + [n])
  {
    var q := p + [n];
    forall k | 0 <= k <= |q| ensures LinkAt(fs, q[..k]).None? {
      assert q[..k] == if k <= |p| then p[..k] else q;
    }
  }

  lemma LinkFreeParent(fs: FS, p: Path)
    requires LinkFree(fs, p)
    ensures LinkFree(fs, Parent(p))
  {
    forall k | 0 <= k <= |Parent(p)| ensures Parent(p)[..k] == p[..k] {
    }
  }

  /** `resolveLinkTarget`. It terminates because a link uses up one of the forty and everything
      else uses up a component, and no prefix of the path it returns is a link. */
  method ResolveLinkTarget(fs: FS, path: Path) returns (r: Option<Path>)
    ensures r == Walk(fs, [], Named(path), MAX_LINKS)
    ensures r.Some? ==> LinkFree(fs, r.value)
  {
    hide LinkAt, Split, LinkFree;
    var cur: Path := [];
    var rest := Named(path);
    var links: nat := 0;
    RootIsLinkFree(fs);
    while |rest| > 0
      invariant links <= MAX_LINKS
      invariant Walk(fs, [], Named(path), MAX_LINKS) == Walk(fs, cur, rest, MAX_LINKS - links)
      invariant LinkFree(fs, cur)
      decreases MAX_LINKS - links, |rest|
    {
      var part := rest[0];
      rest := rest[1..];
      match part {
        case Stay =>
        case Up =>
          LinkFreeParent(fs, cur);
          cur := Parent(cur);
        case Name(n) =>
          var next := cur + [n];
          var link := LinkAt(fs, next);
          if link.None? {
            LinkFreeNext(fs, cur, n);
            cur := next;
          } else {
            links := links + 1;
            if links > MAX_LINKS {
              return None;
            }
            if Absolute(link.value) {
              cur := [];
              RootIsLinkFree(fs);
            }
            rest := Parts(link.value) + rest;
          }
      }
    }
    return Some(cur);
  }

  // ---- agreement ----

  /** The inode at the end of names that are all entries of directories, none of them a link. */
  function Descend(fs: FS, from: Ino, p: Path): Option<Ino>
    decreases |p|
  {
    if p == [] then Some(from)
    else if !At(fs, from).Dir? || p[0] !in At(fs, from).entries then None
    else
      var child := At(fs, from).entries[p[0]];
      if At(fs, child).Link? then None else Descend(fs, child, p[1..])
  }

  lemma {:induction false} DescendConcat(fs: FS, from: Ino, p: Path, q: Path)
    ensures Descend(fs, from, p + q) ==
            if Descend(fs, from, p).None? then None else Descend(fs, Descend(fs, from, p).value, q)
    decreases |p|
  {
    if p == [] {
      assert p + q == q;
    } else {
      assert (p + q)[1..] == p[1..] + q;
      if At(fs, from).Dir? && p[0] in At(fs, from).entries {
        DescendConcat(fs, At(fs, from).entries[p[0]], p[1..], q);
      }
    }
  }

  /** One name further down. */
  lemma DescendNext(fs: FS, p: Path, n: string)
    requires Descend(fs, ROOT, p).Some?
    ensures var at := Descend(fs, ROOT, p).value;
            Descend(fs, ROOT, p + [n]) ==
            if At(fs, at).Dir? && n in At(fs, at).entries && !At(fs, At(fs, at).entries[n]).Link?
            then Some(At(fs, at).entries[n]) else None
  {
    DescendConcat(fs, ROOT, p, [n]);
    assert [n][1..] == [];
  }

  /** Taking away the last name of a directory's path leads to its parent. */
  lemma DescendParent(fs: FS, p: Path)
    requires Descend(fs, ROOT, p).Some? && At(fs, Descend(fs, ROOT, p).value).Dir?
    ensures Descend(fs, ROOT, Parent(p)) == Some(At(fs, Descend(fs, ROOT, p).value).parent)
  {
    if p != [] {
      var q, n := p[..|p| - 1], p[|p| - 1];
      assert p == q + [n];
      DescendConcat(fs, ROOT, q, [n]);
      DescendNext(fs, q, n);
      var d := Descend(fs, ROOT, q).value;
      assert d in fs;
    }
  }

  /** Resolution goes down a path of plain names like a descent. */
  lemma {:induction false} ResolveDescends(fs: FS, from: Ino, p: Path, rest: seq<Part>, links: nat, follow: bool)
    requires Descend(fs, from, p).Some?
    ensures Resolve(fs, from, Named(p) + rest, links, follow) == Resolve(fs, Descend(fs, from, p).value, rest, links, follow)
    decreases |p|
  {
    if p == [] {
      assert Named(p) + rest == rest;
    } else {
      assert (Named(p) + rest)[1..] == Named(p[1..]) + rest;
      ResolveDescends(fs, At(fs, from).entries[p[0]], p[1..], rest, links, follow);
    }
  }

  /** What `Lstat` sees one name below a path without links. */
  lemma LstatBelow(fs: FS, cur: Path, n: string)
    requires Descend(fs, ROOT, cur).Some?
    ensures var at := Descend(fs, ROOT, cur).value;
            LinkAt(fs, cur + [n]) ==
            if At(fs, at).Dir? && n in At(fs, at).entries && At(fs, At(fs, at).entries[n]).Link?
            then Some(At(fs, At(fs, at).entries[n]).text) else None
  {
    var at := Descend(fs, ROOT, cur).value;
    assert Named(cur + [n]) == Named(cur) + [Name(n)];
    ResolveDescends(fs, ROOT, cur, [Name(n)], MAX_LINKS, false);
    assert [Name(n)][1..] == [];
    if At(fs, at).Dir? && n in At(fs, at).entries {
      var child := At(fs, at).entries[n];
      assert Resolve(fs, child, [], MAX_LINKS, false) == Exists(child);
    }
  }

  /** The walk's answer `w` and the resolution `r` are about the same file. */
  predicate Agree(fs: FS, r: Resolution, w: Option<Path>) {
    match r
    case Exists(i) => w.Some? && Descend(fs, ROOT, w.value) == Some(i)
    case Missing(d, n) =>
      w.Some? && w.value != [] && w.value[|w.value| - 1] == n && Descend(fs, ROOT, Parent(w.value)) == Some(d)
    case Loop => w.None?
    case NoDirectory => true
  }

  /** From a directory the walk stands in, it and resolution go the same way. */
  lemma {:induction false} WalkAgreesFrom(fs: FS, cur: Path, at: Ino, rest: seq<Part>, links: nat)
    requires Descend(fs, ROOT, cur) == Some(at)
    ensures Agree(fs, Resolve(fs, at, rest, links, true), Walk(fs, cur, rest, links))
    decreases links, |rest|
  {
    hide Split, LinkAt, Descend;
    if rest != [] && At(fs, at).Dir? {
      match rest[0] {
        case Stay => WalkAgreesFrom(fs, cur, at, rest[1..], links);
        case Up =>
          DescendParent(fs, cur);
          WalkAgreesFrom(fs, Parent(cur), At(fs, at).parent, rest[1..], links);
        case Name(n) =>
          LstatBelow(fs, cur, n);
          DescendNext(fs, cur, n);
          if n in At(fs, at).entries {
            var child := At(fs, at).entries[n];
            if At(fs, child).Link? {
              if links > 0 {
                var text := At(fs, child).text;
                DescendRoot(fs);
                WalkAgreesFrom(fs, if Absolute(text) then [] else cur, if Absolute(text) then ROOT else at, Parts(text) + rest[1..], links - 1);
              }
            } else {
              WalkAgreesFrom(fs, cur + [n], child, rest[1..], links);
            }
          } else if rest[1..] == [] {
            assert Walk(fs, cur + [n], rest[1..], links) == Some(cur + [n]);
            assert Parent(cur + [n]) == cur;
          }
      }
    }
  }

  lemma DescendRoot(fs: FS)
    ensures Descend(fs, ROOT, []) == Some(ROOT)
  {
  }

  /** For every file system and every path: where pathname resolution finds a file, the walk
      returns the path of that very file without any link in it; where it finds the last name
      missing in an existing directory, the walk returns that name in that directory; and it
      refuses what takes more than forty links. */
  lemma WalkAgreesWithResolution(fs: FS, path: Path)
    ensures Agree(fs, Resolve(fs, ROOT, Named(path), MAX_LINKS, true), Walk(fs, [], Named(path), MAX_LINKS))
  {
    WalkAgreesFrom(fs, [], ROOT, Named(path), MAX_LINKS);
  }

  lemma {:induction false} WalkAlongLinkFree(fs: FS, cur: Path, more: Path, links: nat)
    requires LinkFree(fs, cur + more)
    ensures Walk(fs, cur, Named(more), links) == Some(cur + more)
    decreases |more|
  {
    hide LinkAt;
    if more == [] {
      assert cur + more == cur;
    } else {
      var next := cur + [more[0]];
      assert (cur + more)[..|next|] == next;
      assert next + more[1..] == cur + more;
      assert Named(more)[1..] == Named(more[1..]);
      WalkAlongLinkFree(fs, next, more[1..], links);
    }
  }

  lemma {:induction false} WalkIsLinkFree(fs: FS, cur: Path, rest: seq<Part>, links: nat)
    requires LinkFree(fs, cur)
    ensures var r := Walk(fs, cur, rest, links); r.Some? ==> LinkFree(fs, r.value)
    decreases links, |rest|
  {
    hide LinkAt, Split, LinkFree;
    if rest != [] {
      match rest[0] {
        case Stay => WalkIsLinkFree(fs, cur, rest[1..], links);
        case Up =>
          LinkFreeParent(fs, cur);
          WalkIsLinkFree(fs, Parent(cur), rest[1..], links);
        case Name(n) =>
          var link := LinkAt(fs, cur + [n]);
          if link.None? {
            LinkFreeNext(fs, cur, n);
            WalkIsLinkFree(fs, cur + [n], rest[1..], links);
          } else if links > 0 {
            RootIsLinkFree(fs);
            WalkIsLinkFree(fs, if Absolute(link.value) then [] else cur, Parts(link.value) + rest[1..], links - 1);
          }
      }
    }
  }

  /** Resolving a resolved path changes nothing, however many links are allowed. */
  lemma ResolvedIsFixed(fs: FS, path: Path, links: nat)
    requires Walk(fs, [], Named(path), MAX_LINKS).Some?
    ensures var r := Walk(fs, [], Named(path), MAX_LINKS).value; Walk(fs, [], Named(r), links) == Some(r)
  {
    hide LinkFree, Walk;
    RootIsLinkFree(fs);
    WalkIsLinkFree(fs, [], Named(path), MAX_LINKS);
    var r := Walk(fs, [], Named(path), MAX_LINKS).value;
    assert [] + r == r;
    WalkAlongLinkFree(fs, [], r, links);
  }
}
