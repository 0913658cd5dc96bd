/** Merging the new frames of several inboxes by timestamp, `collectNewFrames` of
    `codexstophook.go`, and exactly when each inbox keeps its order. */
module InboxMerge {
  import opened Bytes
  import opened StopHook

  // ---- a stable sort by a text key ----

  /** Byte-wise comparison, as Go compares strings. */
  predicate Le(a: Bytes, b: Bytes) {
    a == [] || (b != [] && (a[0] < b[0] || (a[0] == b[0] && Le(a[1..], b[1..]))))
  }

  lemma LeTotal(a: Bytes, b: Bytes)
    ensures Le(a, b) || Le(b, a)
  {
  }

  /** The first byte in which two texts differ decides. */
  predicate LessAt(a: Bytes, b: Bytes, k: nat) {
    k < |a| && k < |b| && a[..k] == b[..k] && a[k] < b[k]
  }

  lemma {:induction false} LeExactly(a: Bytes, b: Bytes)
    ensures Le(a, b) <==> a <= b || exists k: nat :: LessAt(a, b, k)
    decreases |a|
  {
    if a != [] && b != [] {
      var c, d := a[1..], b[1..];
      LeExactly(c, d);
      assert a == [a[0]] + c && b == [b[0]] + d;
      if a[0] < b[0] {
        assert LessAt(a, b, 0);
      }
      if a[0] == b[0] {
        if k: nat :| LessAt(c, d, k) {
          assert a[..k + 1] == [a[0]] + c[..k] && b[..k + 1] == [b[0]] + d[..k];
          assert LessAt(a, b, k + 1);
        }
      }
      if k: nat :| LessAt(a, b, k) {
        if k > 0 {
          assert a[..k][0] == a[0] && b[..k][0] == b[0];
          assert c[..k - 1] == a[..k][1..] && d[..k - 1] == b[..k][1..];
          assert LessAt(c, d, k - 1);
        }
      }
    }
  }

  lemma LeTransitive(a: Bytes, b: Bytes, c: Bytes)
    requires Le(a, b) && Le(b, c)
    ensures Le(a, c)
  {
  }

  type Key<!T> = T -> Bytes

  predicate Sorted<T>(key: Key<T>, xs: seq<T>) {
    forall i, j :: 0 <= i < j < |xs| ==> Le(key(xs[i]), key(xs[j]))
  }

  /** In front of everything that is not smaller. */
  function Insert<T>(key: Key<T>, x: T, ys: seq<T>): seq<T> {
    if ys == [] || Le(key(x), key(ys[0])) then [x] + ys else [ys[0]] + Insert(key, x, ys[1..])
  }

  function Sort<T>(key: Key<T>, xs: seq<T>): seq<T> {
    if xs == [] then [] else Insert(key, xs[0], Sort(key, xs[1..]))
  }

  function Filter<T>(p: T -> bool, xs: seq<T>): (ys: seq<T>)
    ensures forall y <- ys :: y in xs && p(y)
  {
    if xs == [] then [] else (if p(xs[0]) then [xs[0]] else []) + Filter(p, xs[1..])
  }

  lemma {:induction false} InsertPermutes<T>(key: Key<T>, x: T, ys: seq<T>)
    ensures multiset(Insert(key, x, ys)) == multiset{x} + multiset(ys)
    ensures forall z <- Insert(key, x, ys) :: z == x || z in ys
  {
    if ys != [] && !Le(key(x), key(ys[0])) {
      InsertPermutes(key, x, ys[1..]);
      assert ys == [ys[0]] + ys[1..];
    }
  }

  lemma {:induction false} InsertSorts<T>(key: Key<T>, x: T, ys: seq<T>)
    requires Sorted(key, ys)
    ensures Sorted(key, Insert(key, x, ys))
  {
    if ys == [] {
    } else if Le(key(x), key(ys[0])) {
      forall j | 0 <= j < |ys| ensures Le(key(x), key(ys[j])) {
        if j > 0 {
          LeTransitive(key(x), key(ys[0]), key(ys[j]));
        }
      }
    } else {
      InsertSorts(key, x, ys[1..]);
      LeTotal(key(x), key(ys[0]));
      InsertPermutes(key, x, ys[1..]);
      forall z <- Insert(key, x, ys[1..]) ensures Le(key(ys[0]), key(z)) {
        if z != x {
          var j :| 0 < j < |ys| && ys[j] == z;
        }
      }
    }
  }

  /** The sort returns the same elements in order of their keys. */
  lemma {:induction false} SortSorts<T>(key: Key<T>, xs: seq<T>)
    ensures Sorted(key, Sort(key, xs))
    ensures multiset(Sort(key, xs)) == multiset(xs)
  {
    if xs != [] {
      SortSorts(key, xs[1..]);
      InsertSorts(key, xs[0], Sort(key, xs[1..]));
      InsertPermutes(key, xs[0], Sort(key, xs[1..]));
      assert xs == [xs[0]] + xs[1..];
    }
  }

  lemma SortedTail<T>(key: Key<T>, xs: seq<T>)
    requires xs != [] && Sorted(key, xs)
    ensures Sorted(key, xs[1..]) && (|xs| > 1 ==> Le(key(xs[0]), key(xs[1])))
  {
    hide Le;
  }

  lemma InsertInFront<T>(key: Key<T>, x: T, ys: seq<T>)
    requires ys == [] || Le(key(x), key(ys[0]))
    ensures Insert(key, x, ys) == [x] + ys
  {
  }

  lemma {:induction false} SortedIsFixed<T>(key: Key<T>, xs: seq<T>)
    requires Sorted(key, xs)
    ensures Sort(key, xs) == xs
  {
    if xs != [] {
      hide Sorted, Le, Insert;
      SortedTail(key, xs);
      SortedIsFixed(key, xs[1..]);
      InsertInFront(key, xs[0], xs[1..]);
      assert xs == [xs[0]] + xs[1..];
    }
  }

  /** A list is left as it is exactly when it is in order already. */
  lemma SortFixesSorted<T>(key: Key<T>, xs: seq<T>)
    ensures Sorted(key, xs) <==> Sort(key, xs) == xs
  {
    hide Sorted, Sort;
    SortSorts(key, xs);
    if Sorted(key, xs) {
      SortedIsFixed(key, xs);
    }
  }

  lemma FilterTurn<T>(p: T -> bool, y: T, ys: seq<T>)
    ensures Filter(p, [y] + ys) == (if p(y) then [y] else []) + Filter(p, ys)
  {
    assert ([y] + ys)[1..] == ys;
  }

  /** An element in front of a sorted list is in front of whatever is picked from it. */
  lemma FrontStaysFront<T>(key: Key<T>, p: T -> bool, x: T, ys: seq<T>)
    requires Sorted(key, ys) && (ys == [] || Le(key(x), key(ys[0])))
    ensures Insert(key, x, Filter(p, ys)) == [x] + Filter(p, ys)
  {
    var kept := Filter(p, ys);
    if kept != [] {
      assert kept[0] in kept;
      var j :| 0 <= j < |ys| && ys[j] == kept[0];
      if j > 0 {
        LeTransitive(key(x), key(ys[0]), key(ys[j]));
      }
    }
  }

  lemma InsertTurn<T>(key: Key<T>, x: T, y: T, ys: seq<T>)
    requires !Le(key(x), key(y))
    ensures Insert(key, x, [y] + ys) == [y] + Insert(key, x, ys)
  {
    assert ([y] + ys)[1..] == ys;
  }

  lemma {:induction false} InsertFilter<T>(key: Key<T>, p: T -> bool, x: T, ys: seq<T>)
    requires Sorted(key, ys)
    ensures Filter(p, Insert(key, x, ys)) == if p(x) then Insert(key, x, Filter(p, ys)) else Filter(p, ys)
  {
    hide Filter, Le;
    if ys == [] || Le(key(x), key(ys[0])) {
      FilterTurn(p, x, ys);
      FrontStaysFront(key, p, x, ys);
    } else {
      var y, rest := ys[0], ys[1..];
      InsertFilter(key, p, x, rest);
      assert ys == [y] + rest;
      InsertTurn(key, x, y, rest);
      InsertTurn(key, x, y, Filter(p, rest));
      hide Insert;
      FilterTurn(p, y, Insert(key, x, rest));
      FilterTurn(p, y, rest);
      assert [] + Filter(p, rest) == Filter(p, rest);
    }
  }

  /** Picking elements before or after the sort gives the same list: the sort is stable. */
  lemma {:induction false} SortFilter<T>(key: Key<T>, p: T -> bool, xs: seq<T>)
    ensures Filter(p, Sort(key, xs)) == Sort(key, Filter(p, xs))
  {
    if xs != [] {
      var rest := Sort(key, xs[1..]);
      SortSorts(key, xs[1..]);
      InsertFilter(key, p, xs[0], rest);
      SortFilter(key, p, xs[1..]);
      if p(xs[0]) {
        assert ([xs[0]] + Filter(p, xs[1..]))[1..] == Filter(p, xs[1..]);
      } else {
        assert Filter(p, xs) == Filter(p, xs[1..]);
      }
    }
  }

  function HasKey<T>(key: Key<T>, k: Bytes): T -> bool {
    (x: T) => key(x) == k
  }

  /** `out` is `xs` in order, elements with the same key as they came. */
  ghost predicate StableOrder<T>(key: Key<T>, xs: seq<T>, out: seq<T>) {
    Sorted(key, out) && forall k :: Filter(HasKey(key, k), out) == Filter(HasKey(key, k), xs)
  }

  lemma LeAntisymmetric(a: Bytes, b: Bytes)
    requires Le(a, b) && Le(b, a)
    ensures a == b
  {
    if a != [] {
      LeAntisymmetric(a[1..], b[1..]);
      assert a == [a[0]] + a[1..] && b == [b[0]] + b[1..];
    }
  }

  lemma {:induction false} FilterFinds<T>(p: T -> bool, xs: seq<T>, x: T)
    requires x in xs && p(x)
    ensures x in Filter(p, xs)
  {
    if xs[0] != x {
      FilterFinds(p, xs[1..], x);
    }
  }

  /** The first element of a sorted list has a key that every list with the same picks reaches. */
  lemma HeadKeyBelow<T>(key: Key<T>, a: seq<T>, b: seq<T>)
    requires a != [] && Sorted(key, b)
    requires forall k :: Filter(HasKey(key, k), a) == Filter(HasKey(key, k), b)
    ensures b != [] && Le(key(b[0]), key(a[0]))
  {
    var p := HasKey(key, key(a[0]));
    FilterFinds(p, a, a[0]);
    assert a[0] in Filter(p, b);
    var j :| 0 <= j < |b| && b[j] == a[0];
    if j == 0 {
      LeTotal(key(b[0]), key(b[0]));
    }
  }

  lemma TailPicks<T>(p: T -> bool, a: seq<T>, b: seq<T>)
    requires a != [] && b != [] && a[0] == b[0] && Filter(p, a) == Filter(p, b)
    ensures Filter(p, a[1..]) == Filter(p, b[1..])
  {
    var head := if p(a[0]) then [a[0]] else [];
    assert Filter(p, a)[|head|..] == Filter(p, a[1..]) && Filter(p, b)[|head|..] == Filter(p, b[1..]);
  }

  lemma SameHead<T>(key: Key<T>, a: seq<T>, b: seq<T>)
    requires a != [] && Sorted(key, a) && Sorted(key, b)
    requires forall k :: Filter(HasKey(key, k), a) == Filter(HasKey(key, k), b)
    ensures b != [] && a[0] == b[0]
  {
    HeadKeyBelow(key, a, b);
    HeadKeyBelow(key, b, a);
    LeAntisymmetric(key(a[0]), key(b[0]));
    hide Sorted, Le;
    var p := HasKey(key, key(a[0]));
    assert Filter(p, a)[0] == a[0] && Filter(p, b)[0] == b[0];
  }

  lemma {:induction false} SamePicksSameList<T>(key: Key<T>, a: seq<T>, b: seq<T>)
    requires Sorted(key, a) && Sorted(key, b)
    requires forall k :: Filter(HasKey(key, k), a) == Filter(HasKey(key, k), b)
    ensures a == b
    decreases |a|
  {
    hide Le, Filter;
    if a == [] {
      if b != [] {
        HeadKeyBelow(key, b, a);
      }
    } else {
      SameHead(key, a, b);
      SortedTail(key, a);
      SortedTail(key, b);
      hide Sorted;
      forall k ensures Filter(HasKey(key, k), a[1..]) == Filter(HasKey(key, k), b[1..]) {
        TailPicks(HasKey(key, k), a, b);
      }
      SamePicksSameList(key, a[1..], b[1..]);
      assert a == [a[0]] + a[1..] && b == [b[0]] + b[1..];
    }
  }

  /** There is one stable order, and the sort finds it: whichever algorithm a library uses, its
      result is this one. */
  lemma SortIsTheStableOrder<T>(key: Key<T>, xs: seq<T>, out: seq<T>)
    ensures StableOrder(key, xs, out) <==> out == Sort(key, xs)
  {
    SortSorts(key, xs);
    forall k ensures Filter(HasKey(key, k), Sort(key, xs)) == Filter(HasKey(key, k), xs) {
      SortFilter(key, HasKey(key, k), xs);
      SameKeysSorted(key, k, xs);
      SortFixesSorted(key, Filter(HasKey(key, k), xs));
    }
    if StableOrder(key, xs, out) {
      SamePicksSameList(key, out, Sort(key, xs));
    }
  }

  lemma SameKeysSorted<T>(key: Key<T>, k: Bytes, xs: seq<T>)
    ensures Sorted(key, Filter(HasKey(key, k), xs))
  {
    var ys := Filter(HasKey(key, k), xs);
    forall i, j | 0 <= i < j < |ys| ensures Le(key(ys[i]), key(ys[j])) {
      assert ys[i] in ys && ys[j] in ys;
      LeTotal(k, k);
    }
  }

  function Map<T, U>(f: T -> U, xs: seq<T>): (ys: seq<U>)
    ensures |ys| == |xs| && forall i :: 0 <= i < |xs| ==> ys[i] == f(xs[i])
  {
    if xs == [] then [] else [f(xs[0])] + Map(f, xs[1..])
  }

  lemma {:induction false} InsertMap<T, U>(keyT: Key<T>, keyU: Key<U>, f: T -> U, x: T, ys: seq<T>)
    requires forall t :: keyT(t) == keyU(f(t))
    ensures Map(f, Insert(keyT, x, ys)) == Insert(keyU, f(x), Map(f, ys))
  {
    if ys != [] {
      assert Map(f, ys)[1..] == Map(f, ys[1..]);
      InsertMap(keyT, keyU, f, x, ys[1..]);
    }
  }

  lemma {:induction false} SortMap<T, U>(keyT: Key<T>, keyU: Key<U>, f: T -> U, xs: seq<T>)
    requires forall t :: keyT(t) == keyU(f(t))
    ensures Map(f, Sort(keyT, xs)) == Sort(keyU, Map(f, xs))
  {
    if xs != [] {
      SortMap(keyT, keyU, f, xs[1..]);
      InsertMap(keyT, keyU, f, xs[0], Sort(keyT, xs[1..]));
      assert Map(f, xs)[1..] == Map(f, xs[1..]);
    }
  }

  // ---- collectNewFrames ----

  const TsOf: Key<TimedFrame> := (t: TimedFrame) => t.ts

  function Flatten<T>(parts: seq<seq<T>>): seq<T> {
    if parts == [] then [] else Flatten(parts[..|parts| - 1]) + parts[|parts| - 1]
  }

  /** `collectNewFrames`: every registration's inbox is polled, and the frames are sorted by
      timestamp without reordering equal ones. */
  method CollectNewFrames(r: Rendering, inboxes: seq<Inbox>, sizes: seq<nat>, writes: seq<bool>)
    returns (out: seq<TimedFrame>, ghost parts: seq<seq<TimedFrame>>)
    requires |sizes| == |writes| == |inboxes|
    requires forall i, j :: 0 <= i < j < |inboxes| ==> inboxes[i] != inboxes[j]
    requires forall i :: 0 <= i < |inboxes| ==> sizes[i] <= |inboxes[i].content|
    modifies inboxes
    ensures |parts| == |inboxes|
    ensures forall i :: 0 <= i < |inboxes| ==>
              var b := inboxes[i];
              && b.content == old(b.content)
              && parts[i] == PollFrames(r, b.id, b.content, sizes[i], old(b.cursor))
              && b.cursor == PollCursor(b.id, b.content, sizes[i], old(b.cursor), writes[i])
    ensures out == Sort(TsOf, Flatten(parts))
  {
    hide PollFrames, PollCursor, Sort;
    out, parts := [], [];
    for k := 0 to |inboxes|
      invariant |parts| == k && out == Flatten(parts)
      invariant forall i :: 0 <= i < |inboxes| ==> inboxes[i].content == old(inboxes[i].content)
      invariant forall i :: k <= i < |inboxes| ==> inboxes[i].cursor == old(inboxes[i].cursor)
      invariant forall i :: 0 <= i < k ==>
                  var b := inboxes[i];
                  && parts[i] == PollFrames(r, b.id, b.content, sizes[i], old(b.cursor))
                  && b.cursor == PollCursor(b.id, b.content, sizes[i], old(b.cursor), writes[i])
    {
      var frames := inboxes[k].ReadNewFrames(r, sizes[k], writes[k]);
      out := out + frames;
      assert (parts + [frames])[..k] == parts;
      parts := parts + [frames];
    }
    out := Sort(TsOf, out);
  }

  // ---- the order inside one inbox ----

  /** A frame together with the inbox it came from, which the sort does not look at. */
  datatype Tagged = Tagged(inbox: nat, timed: TimedFrame)

  const TaggedTs: Key<Tagged> := (t: Tagged) => t.timed.ts

  const Untag: Tagged -> TimedFrame := (t: Tagged) => t.timed

  function From(i: nat): Tagged -> bool {
    (t: Tagged) => t.inbox == i
  }

  function Tag(i: nat, xs: seq<TimedFrame>): (ts: seq<Tagged>)
    ensures |ts| == |xs| && forall k :: 0 <= k < |xs| ==> ts[k] == Tagged(i, xs[k])
  {
    seq(|xs|, k requires 0 <= k < |xs| => Tagged(i, xs[k]))
  }

  function TagAll(parts: seq<seq<TimedFrame>>): seq<seq<Tagged>> {
    seq(|parts|, i requires 0 <= i < |parts| => Tag(i, parts[i]))
  }

  lemma {:induction false} MapConcat<T, U>(f: T -> U, a: seq<T>, b: seq<T>)
    ensures Map(f, a + b) == Map(f, a) + Map(f, b)
  {
  }

  lemma {:induction false} UntagAll(parts: seq<seq<TimedFrame>>)
    ensures Map(Untag, Flatten(TagAll(parts))) == Flatten(parts)
  {
    if parts != [] {
      var n := |parts| - 1;
      UntagAll(parts[..n]);
      assert TagAll(parts)[..n] == TagAll(parts[..n]);
      MapConcat(Untag, Flatten(TagAll(parts[..n])), Tag(n, parts[n]));
      assert Map(Untag, Tag(n, parts[n])) == parts[n];
    }
  }

  lemma {:induction false} FilterConcat<T>(p: T -> bool, a: seq<T>, b: seq<T>)
    ensures Filter(p, a + b) == Filter(p, a) + Filter(p, b)
  {
    if a == [] {
      assert a + b == b;
    } else {
      assert (a + b)[1..] == a[1..] + b;
      FilterConcat(p, a[1..], b);
    }
  }

  lemma {:induction false} FilterUniform<T>(p: T -> bool, xs: seq<T>, all: bool)
    requires forall x <- xs :: p(x) == all
    ensures Filter(p, xs) == if all then xs else []
  {
    if xs != [] {
      assert xs[0] in xs;
      FilterUniform(p, xs[1..], all);
      assert xs == [xs[0]] + xs[1..];
    }
  }

  lemma {:induction false} OneInbox(parts: seq<seq<TimedFrame>>, i: nat)
    ensures Filter(From(i), Flatten(TagAll(parts))) == if i < |parts| then Tag(i, parts[i]) else []
  {
    if parts != [] {
      var n := |parts| - 1;
      OneInbox(parts[..n], i);
      assert TagAll(parts)[..n] == TagAll(parts[..n]);
      FilterConcat(From(i), Flatten(TagAll(parts[..n])), Tag(n, parts[n]));
      FilterUniform(From(i), Tag(n, parts[n]), n == i);
    }
  }

  predicate NonDecreasing(xs: seq<TimedFrame>) {
    Sorted(TsOf, xs)
  }

  /** The merged list, with the origin of every frame kept track of, contains each inbox's
      frames in the order they were written exactly when their timestamps never decrease. */
  lemma InboxKeepsOrderExactly(parts: seq<seq<TimedFrame>>, i: nat)
    requires i < |parts|
    ensures var merged := Sort(TaggedTs, Flatten(TagAll(parts)));
            && Map(Untag, merged) == Sort(TsOf, Flatten(parts))
            && (Filter(From(i), merged) == Tag(i, parts[i]) <==> NonDecreasing(parts[i]))
  {
    hide Sort, Filter, Map, Flatten;
    var all := Flatten(TagAll(parts));
    SortMap(TaggedTs, TsOf, Untag, all);
    UntagAll(parts);
    SortFilter(TaggedTs, From(i), all);
    OneInbox(parts, i);
    SortFixesSorted(TaggedTs, Tag(i, parts[i]));
    assert Sorted(TaggedTs, Tag(i, parts[i])) <==> Sorted(TsOf, parts[i]);
  }

  lemma SortTwo<T>(key: Key<T>, a: T, b: T)
    requires !Le(key(a), key(b))
    ensures Sort(key, [a, b]) == [b, a]
  {
    hide Le;
    assert [a, b][1..] == [b] && [b][1..] == [];
    assert Sort(key, [b]) == [b];
    assert Insert(key, a, [b]) == [b] + Insert(key, a, []);
  }

  /** The frames of the inboxes follow one another in the order of the inboxes. */
  lemma {:induction false} FlattenConcat<T>(a: seq<seq<T>>, b: seq<seq<T>>)
    ensures Flatten(a + b) == Flatten(a) + Flatten(b)
    decreases |b|
  {
    if b == [] {
      assert a + b == a && Flatten(a) + [] == Flatten(a);
    } else {
      var n := |b| - 1;
      FlattenConcat(a, b[..n]);
      assert (a + b)[..|a + b| - 1] == a + b[..n];
    }
  }

  lemma FlattenOne<T>(part: seq<T>)
    ensures Flatten([part]) == part
  {
    assert [part][..0] == [];
  }

  /** One inbox whose clock stepped back between two lines, by whatever amount: its frames come
      out swapped. */
  lemma ClockStepReorders(first: TimedFrame, second: TimedFrame)
    requires !Le(TsOf(first), TsOf(second))
    ensures Sort(TsOf, Flatten([[first, second]])) == [second, first]
    ensures Filter(From(0), Sort(TaggedTs, Flatten(TagAll([[first, second]])))) != Tag(0, [first, second])
  {
    hide Sort, Flatten, Le;
    var parts := [[first, second]];
    SortTwo(TsOf, first, second);
    FlattenOne(parts[0]);
    assert !NonDecreasing(parts[0]) by {
      assert !Le(TsOf(parts[0][0]), TsOf(parts[0][1]));
    }
    InboxKeepsOrderExactly(parts, 0);
  }
}
