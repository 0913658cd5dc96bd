/** Finding one message among the pages of a Codex queue sidecar, `findHistoryItem` and
    `lookupMessage` of `codexqueue.go`, refined against one search of the whole list; and the
    bounded tail of the sidecar's log. */
module QueuePages {
  import opened Bytes
  import opened Wrappers

  const MAX_PAGES: nat := 100

  type ID = string

  type Cursor = string

  /** A queued submission, or an item of the history, where only user messages count. */
  datatype Item = Item(id: ID, userMessage: bool, clientID: ID)

  datatype Page = Page(items: seq<Item>, next: Cursor)

  /** What the sidecar answers when asked for the page at a cursor, `None` being a failed call or
      an invalid response. */
  type Server = Cursor -> Option<Page>

  datatype Search = Found(id: ID) | Absent | CallFailed | NoID | Repeated | PageLimit

  /** The message looked for, in the history or in the queue. */
  datatype Want = Want(clientID: ID, inHistory: bool)

  predicate Wanted(want: Want, item: Item) {
    item.clientID == want.clientID && (want.inHistory ==> item.userMessage)
  }

  function FirstWanted(want: Want, items: seq<Item>): Option<Item> {
    if items == [] then None
    else if Wanted(want, items[0]) then Some(items[0])
    else FirstWanted(want, items[1..])
  }

  /** The first item that carries the client's id, and in the history is a user message. */
  lemma {:induction false} FirstWantedExactly(want: Want, items: seq<Item>, i: nat)
    requires i < |items|
    ensures (&& items[i].clientID == want.clientID && (want.inHistory ==> items[i].userMessage)
             && forall k :: 0 <= k < i ==> items[k].clientID != want.clientID || (want.inHistory && !items[k].userMessage))
            ==> FirstWanted(want, items) == Some(items[i])
    ensures FirstWanted(want, items) == None <==>
            forall k :: 0 <= k < |items| ==> items[k].clientID != want.clientID || (want.inHistory && !items[k].userMessage)
    decreases |items|
  {
    if |items| > 1 {
      FirstWantedExactly(want, items[1..], if i == 0 then 0 else i - 1);
      assert forall k :: 0 <= k < |items| - 1 ==> items[1..][k] == items[k + 1];
    } else {
      assert FirstWanted(want, items[1..]) == None;
    }
  }

  /** The answer about a match: it must have an id. */
  function Hit(item: Item): Search {
    if item.id == "" then NoID else Found(item.id)
  }

  /** The loop with `left` pages to go, `seen` holding the cursors it came by. */
  function SearchFrom(server: Server, want: Want, cursor: Cursor, seen: set<Cursor>, left: nat): Search
    decreases left
  {
    if left == 0 then PageLimit
    else match server(cursor)
      case None => CallFailed
      case Some(page) =>
        match FirstWanted(want, page.items)
        case Some(item) => Hit(item)
        case None =>
          if page.next == "" then Absent
          else if page.next in seen then Repeated
          else SearchFrom(server, want, page.next, seen + {page.next}, left - 1)
  }

  lemma SearchTurn(server: Server, want: Want, cursor: Cursor, seen: set<Cursor>, left: nat)
    requires left > 0
    ensures SearchFrom(server, want, cursor, seen, left) ==
            match server(cursor)
            case None => CallFailed
            case Some(page) =>
              match FirstWanted(want, page.items)
              case Some(item) => Hit(item)
              case None =>
                if page.next == "" then Absent
                else if page.next in seen then Repeated
                else SearchFrom(server, want, page.next, seen + {page.next}, left - 1)
  {
    hide FirstWanted;
  }

  method FindOnPage(want: Want, items: seq<Item>) returns (r: Option<Item>)
    ensures r == FirstWanted(want, items)
  {
    for i := 0 to |items|
      invariant FirstWanted(want, items) == FirstWanted(want, items[i..])
    {
      if Wanted(want, items[i]) {
        return Some(items[i]);
      }
      assert items[i..][1..] == items[i + 1..];
    }
    return None;
  }

  /** `findHistoryItem`, and the loop over the queue in `lookupMessage`. */
  method FindPaged(server: Server, want: Want) returns (r: Search)
    ensures r == SearchFrom(server, want, "", {""}, MAX_PAGES)
  {
    hide FirstWanted, SearchFrom;
    var cursor: Cursor := "";
    var seen := {""};
    for page := 0 to MAX_PAGES
      invariant SearchFrom(server, want, "", {""}, MAX_PAGES) == SearchFrom(server, want, cursor, seen, MAX_PAGES - page)
    {
      SearchTurn(server, want, cursor, seen, MAX_PAGES - page);
      var answer := server(cursor);
      if answer.None? {
        return CallFailed;
      }
      var found := FindOnPage(want, answer.value.items);
      if found.Some? {
        return if found.value.id == "" then NoID else Found(found.value.id);
      }
      var next := answer.value.next;
      if next == "" {
        return Absent;
      }
      if next in seen {
        return Repeated;
      }
      seen := seen + {next};
      cursor := next;
    }
    NoPagesLeft(server, want, cursor, seen);
    return PageLimit;
  }

  lemma NoPagesLeft(server: Server, want: Want, cursor: Cursor, seen: set<Cursor>)
    ensures SearchFrom(server, want, cursor, seen, 0) == PageLimit
  {
  }

  // ---- the whole list ----

  /** The list the pages from `cursor` on make up, when it ends within `n` pages. */
  function Listing(server: Server, cursor: Cursor, n: nat): Option<seq<Item>>
    decreases n
  {
    if n == 0 || server(cursor).None? then None
    else
      var page := server(cursor).value;
      if page.next == "" then Some(page.items)
      else
        var rest := Listing(server, page.next, n - 1);
        if rest.None? then None else Some(page.items + rest.value)
  }

  /** The search of a list that comes in one piece. */
  function Flat(want: Want, items: seq<Item>): Search {
    match FirstWanted(want, items)
    case Some(item) => Hit(item)
    case None => Absent
  }

  lemma {:induction false} FirstWantedConcat(want: Want, a: seq<Item>, b: seq<Item>)
    ensures FirstWanted(want, a + b) == if FirstWanted(want, a).Some? then FirstWanted(want, a) else FirstWanted(want, b)
  {
    if a == [] {
      assert a + b == b;
    } else {
      assert (a + b)[1..] == a[1..] + b;
      FirstWantedConcat(want, a[1..], b);
    }
  }

  /** The list that starts at a cursor does not depend on how many pages one is ready to read. */
  lemma {:induction false} ListingStable(server: Server, cursor: Cursor, m: nat, n: nat)
    requires m <= n && Listing(server, cursor, m).Some?
    ensures Listing(server, cursor, n) == Listing(server, cursor, m)
    decreases m
  {
    if server(cursor).value.next != "" {
      ListingStable(server, server(cursor).value.next, m - 1, n - 1);
    }
  }

  /** The fewest pages that make up the list. */
  function PageCount(server: Server, cursor: Cursor, n: nat): (k: nat)
    requires Listing(server, cursor, n).Some?
    ensures 0 < k <= n && Listing(server, cursor, k) == Listing(server, cursor, n)
    ensures forall m: nat :: Listing(server, cursor, m).Some? ==> k <= m
    decreases n
  {
    var next := server(cursor).value.next;
    assert forall m: nat :: Listing(server, cursor, m).Some? ==> m > 0 && (next != "" ==> Listing(server, next, m - 1).Some?);
    if next == "" then 1 else 1 + PageCount(server, next, n - 1)
  }

  /** A cursor that was seen lies at least as far from the end as the present one, so a list
      that ends is never reported as repeating itself. */
  predicate SeenBehind(server: Server, seen: set<Cursor>, cursor: Cursor, n: nat)
    requires Listing(server, cursor, n).Some?
  {
    forall c <- seen :: c != "" ==> Listing(server, c, PageCount(server, cursor, n) - 1).None?
  }

  lemma {:induction false} SearchIsFlatFrom(server: Server, want: Want, cursor: Cursor, seen: set<Cursor>, left: nat)
    requires Listing(server, cursor, left).Some? && SeenBehind(server, seen, cursor, left)
    ensures SearchFrom(server, want, cursor, seen, left) == Flat(want, Listing(server, cursor, left).value)
    decreases left
  {
    var page := server(cursor).value;
    if page.next != "" {
      var rest := Listing(server, page.next, left - 1).value;
      FirstWantedConcat(want, page.items, rest);
      if FirstWanted(want, page.items).None? {
        var k := PageCount(server, cursor, left);
        var k' := PageCount(server, page.next, left - 1);
        assert k == 1 + k';
        assert Listing(server, page.next, k').Some?;
        assert page.next !in seen;
        forall c <- seen + {page.next} ensures c != "" ==> Listing(server, c, k' - 1).None? {
          if c != "" && Listing(server, c, k' - 1).Some? {
            ListingStable(server, c, k' - 1, k');
          }
        }
        SearchIsFlatFrom(server, want, page.next, seen + {page.next}, left - 1);
      }
    }
  }

  /** For every list and every way of cutting it into at most `limit` pages: the paged search
      answers as a search of the list in one piece. The first match wins. */
  lemma PagedIsFlat(server: Server, want: Want, limit: nat)
    requires Listing(server, "", limit).Some?
    ensures SearchFrom(server, want, "", {""}, limit) == Flat(want, Listing(server, "", limit).value)
  {
    hide SearchFrom, Listing, Flat;
    SearchIsFlatFrom(server, want, "", {""}, limit);
  }

  /** "Absent" is only ever said of a list that was read to its end and has no match. */
  lemma {:induction false} AbsentIsComplete(server: Server, want: Want, cursor: Cursor, seen: set<Cursor>, left: nat)
    requires SearchFrom(server, want, cursor, seen, left) == Absent
    ensures Listing(server, cursor, left).Some? && FirstWanted(want, Listing(server, cursor, left).value).None?
    decreases left
  {
    var page := server(cursor).value;
    if page.next != "" {
      AbsentIsComplete(server, want, page.next, seen + {page.next}, left - 1);
      FirstWantedConcat(want, page.items, Listing(server, page.next, left - 1).value);
    }
  }

  lemma AbsentExactly(server: Server, want: Want, limit: nat)
    ensures SearchFrom(server, want, "", {""}, limit) == Absent <==>
            Listing(server, "", limit).Some? && FirstWanted(want, Listing(server, "", limit).value).None?
  {
    hide SearchFrom, Listing;
    if SearchFrom(server, want, "", {""}, limit) == Absent {
      AbsentIsComplete(server, want, "", {""}, limit);
    }
    if Listing(server, "", limit).Some? {
      PagedIsFlat(server, want, limit);
    }
  }

  /** Where the search of a page does not settle it: a page that cannot be had fails the search, a
      match without an id is an error, and a cursor seen before is noticed. */
  lemma SearchGivesUp(server: Server, want: Want, cursor: Cursor, seen: set<Cursor>, left: nat)
    requires left > 0
    ensures server(cursor).None? ==> SearchFrom(server, want, cursor, seen, left) == CallFailed
    ensures server(cursor).Some? && FirstWanted(want, server(cursor).value.items).Some? ==>
              var item := FirstWanted(want, server(cursor).value.items).value;
              SearchFrom(server, want, cursor, seen, left) == if item.id == "" then NoID else Found(item.id)
    ensures server(cursor).Some? && FirstWanted(want, server(cursor).value.items).None?
            && server(cursor).value.next != "" && server(cursor).value.next in seen ==>
              SearchFrom(server, want, cursor, seen, left) == Repeated
  {
  }

  // ---- lookupMessage ----

  datatype Lookup = Received(itemID: ID) | Queued(queueID: ID) | NotFound | Failed

  /** History first, so a receipt wins over a duplicate queued submission. */
  method LookupMessage(history: Server, queue: Server, threadID: ID, clientID: ID) returns (r: Lookup)
    ensures r.Received? <==> threadID != "" && clientID != "" && SearchFrom(history, Want(clientID, true), "", {""}, MAX_PAGES).Found?
    ensures r.Received? ==> SearchFrom(history, Want(clientID, true), "", {""}, MAX_PAGES) == Found(r.itemID)
    ensures r.Queued? ==> SearchFrom(history, Want(clientID, true), "", {""}, MAX_PAGES) == Absent
                          && SearchFrom(queue, Want(clientID, false), "", {""}, MAX_PAGES) == Found(r.queueID)
    ensures r.NotFound? ==> && Listing(history, "", MAX_PAGES).Some? && Listing(queue, "", MAX_PAGES).Some?
                            && FirstWanted(Want(clientID, true), Listing(history, "", MAX_PAGES).value).None?
                            && FirstWanted(Want(clientID, false), Listing(queue, "", MAX_PAGES).value).None?
    ensures threadID != "" && clientID != "" && Listing(history, "", MAX_PAGES).Some? && Listing(queue, "", MAX_PAGES).Some? ==>
              var h := Flat(Want(clientID, true), Listing(history, "", MAX_PAGES).value);
              var q := Flat(Want(clientID, false), Listing(queue, "", MAX_PAGES).value);
              r == match h
                   case Found(id) => Received(id)
                   case Absent => (match q case Found(id) => Queued(id) case Absent => NotFound case _ => Failed)
                   case _ => Failed
  {
    hide SearchFrom, Listing, FirstWanted;
    if threadID == "" || clientID == "" {
      return Failed;
    }
    AbsentExactly(history, Want(clientID, true), MAX_PAGES);
    AbsentExactly(queue, Want(clientID, false), MAX_PAGES);
    if Listing(history, "", MAX_PAGES).Some? {
      PagedIsFlat(history, Want(clientID, true), MAX_PAGES);
    }
    if Listing(queue, "", MAX_PAGES).Some? {
      PagedIsFlat(queue, Want(clientID, false), MAX_PAGES);
    }
    var h := FindPaged(history, Want(clientID, true));
    match h {
      case Found(id) => return Received(id);
      case Absent =>
        var q := FindPaged(queue, Want(clientID, false));
        return match q case Found(id) => Queued(id) case Absent => NotFound case _ => Failed;
      case _ => return Failed;
    }
  }

  // ---- a cursor that repeats ----

  /** The cursor of page `k`, if the chain gets that far. */
  function CursorAt(server: Server, k: nat): Option<Cursor> {
    if k == 0 then Some("")
    else
      var before := CursorAt(server, k - 1);
      if before.None? || server(before.value).None? || server(before.value).value.next == "" then None
      else Some(server(before.value).value.next)
  }

  lemma {:induction false} ChainListing(server: Server, k: nat, n: nat)
    requires Listing(server, "", n).Some? && CursorAt(server, k).Some?
    ensures k < n && Listing(server, CursorAt(server, k).value, n - k).Some?
    decreases k
  {
    if k > 0 {
      ChainListing(server, k - 1, n);
    }
  }

  /** If the cursor of a page comes back later, the list never ends, so giving up on it misses
      no end. */
  lemma RepeatedNeverEnds(server: Server, i: nat, j: nat, n: nat)
    requires i < j && CursorAt(server, i).Some? && CursorAt(server, i) == CursorAt(server, j)
    ensures Listing(server, "", n).None?
  {
    if Listing(server, "", n).Some? {
      ChainListing(server, i, n);
      ChainListing(server, j, n);
      var c := CursorAt(server, i).value;
      var k := PageCount(server, c, n - i);
      NeverBack(server, c, i, j, k);
    }
  }

  /** Along the chain the number of pages to the end falls by one a page. */
  lemma {:induction false} NeverBack(server: Server, c: Cursor, i: nat, j: nat, k: nat)
    requires i <= j && CursorAt(server, i) == Some(c) && CursorAt(server, j).Some?
    requires Listing(server, c, k).Some? && k == PageCount(server, c, k)
    ensures j - i < k
    ensures var d := CursorAt(server, j).value;
            Listing(server, d, k - (j - i)).Some? && PageCount(server, d, k - (j - i)) == k - (j - i)
    decreases j
  {
    if i < j {
      NeverBack(server, c, i, j - 1, k);
    }
  }

  /** Every cursor seen is one the chain came by on its way to page `k`. */
  ghost predicate CameBy(server: Server, seen: set<Cursor>, k: nat) {
    forall c <- seen :: exists i :: 0 <= i <= k && CursorAt(server, i) == Some(c)
  }

  lemma {:induction false} RepeatedMeans(
    server: Server, want: Want, cursor: Cursor, seen: set<Cursor>, left: nat, k: nat) returns (i: nat, j: nat)
    requires CursorAt(server, k) == Some(cursor) && CameBy(server, seen, k)
    requires SearchFrom(server, want, cursor, seen, left) == Repeated
    ensures i < j && CursorAt(server, i).Some? && CursorAt(server, i) == CursorAt(server, j)
    decreases left
  {
    var next := server(cursor).value.next;
    assert CursorAt(server, k + 1) == Some(next);
    if next in seen {
      i :| 0 <= i <= k && CursorAt(server, i) == Some(next);
      j := k + 1;
    } else {
      forall c | c in seen + {next} ensures exists x :: 0 <= x <= k + 1 && CursorAt(server, x) == Some(c) {
        if c in seen {
          var x :| 0 <= x <= k && CursorAt(server, x) == Some(c);
        }
      }
      i, j := RepeatedMeans(server, want, next, seen + {next}, left - 1, k + 1);
    }
  }

  /** When the search gives up on a repeated cursor, the list has no end, however many pages one
      were ready to read. */
  lemma RepeatedIsEndless(server: Server, want: Want, limit: nat, n: nat)
    requires SearchFrom(server, want, "", {""}, limit) == Repeated
    ensures Listing(server, "", n).None?
  {
    hide SearchFrom, Listing;
    assert CursorAt(server, 0) == Some("");
    var i, j := RepeatedMeans(server, want, "", {""}, limit, 0);
    RepeatedNeverEnds(server, i, j, n);
  }

  // ---- the log tail ----

  const LOG_LIMIT: nat := 16384

  function Last(s: Bytes): (t: Bytes)
    ensures |t| == if |s| < LOG_LIMIT then |s| else LOG_LIMIT
  {
    if |s| < LOG_LIMIT then s else s[|s| - LOG_LIMIT..]
  }

  lemma LastOfLast(a: Bytes, p: Bytes)
    ensures Last(Last(a) + p) == Last(a + p)
  {
    if |a| >= LOG_LIMIT {
      var cut := |a| - LOG_LIMIT;
      assert Last(a) + p == (a + p)[cut..];
      assert (a + p)[cut..][|p|..] == (a + p)[cut + |p|..];
    }
  }

  /** Whatever the writes, the buffer is the last 16 KiB of everything written. */
  class QueueLog {
    var buf: Bytes
    ghost var written: Bytes

    ghost predicate Valid()
      reads this
    {
      buf == Last(written)
    }

    constructor ()
      ensures Valid() && written == []
    {
      buf, written := [], [];
    }

    method Write(p: Bytes) returns (n: nat)
      requires Valid()
      modifies this
      ensures Valid() && written == old(written) + p && n == |p|
    {
      LastOfLast(written, p);
      written := written + p;
      n := |p|;
      if n >= LOG_LIMIT {
        assert (buf + p)[|buf| + n - LOG_LIMIT..] == p[n - LOG_LIMIT..];
        buf := p[n - LOG_LIMIT..];
        return;
      }
      if |buf| + n > LOG_LIMIT {
        var excess := |buf| + n - LOG_LIMIT;
        assert (buf + p)[excess..] == buf[excess..] + p;
        buf := buf[excess..];
      }
      buf := buf + p;
    }
  }
}
