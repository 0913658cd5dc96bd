/** Byte strings and the newline-terminated lines inside them. Every cursor in cbus counts
    bytes of a growing file and may only rest on a line boundary; the notions shared by the
    receipt scan, the compaction drain and the stop hook are defined here once. They take
    offsets into the file rather than copies of parts of it. */
module Bytes {
  newtype Byte = x: int | 0 <= x < 256

  type Bytes = seq<Byte>

  const NL: Byte := 10

  /** The index of the first newline at or after `from`, or `|s|` when there is none. */
  function NextNewline(s: Bytes, from: nat): (i: nat)
    requires from <= |s|
    ensures from <= i <= |s|
    ensures forall k :: from <= k < i ==> s[k] != NL
    ensures i < |s| ==> s[i] == NL
    decreases |s| - from
  {
    if from == |s| || s[from] == NL then from else NextNewline(s, from + 1)
  }

  /** Offset `k` of `s` starts a line. */
  predicate Boundary(s: Bytes, k: nat) {
    k <= |s| && (k == 0 || s[k - 1] == NL)
  }

  /** The complete lines of `s` that start at or after `from` and end by `stop`, each with its
      newline. */
  function Lines(s: Bytes, from: nat, stop: nat): seq<Bytes>
    requires from <= stop <= |s|
    decreases stop - from
  {
    var e := NextNewline(s, from);
    if e >= stop then [] else [s[from..e + 1]] + Lines(s, e + 1, stop)
  }

  /** One past the last newline before `stop`, or 0 when there is none. */
  function CompleteEnd(s: Bytes, stop: nat): (e: nat)
    requires stop <= |s|
    ensures e <= stop && Boundary(s, e)
    ensures forall k :: e <= k < stop ==> s[k] != NL
  {
    if stop == 0 || s[stop - 1] == NL then stop else CompleteEnd(s, stop - 1)
  }

  function Concat(lines: seq<Bytes>): Bytes {
    if lines == [] then [] else lines[0] + Concat(lines[1..])
  }

  lemma ConcatCons(line: Bytes, rest: seq<Bytes>)
    ensures Concat([line] + rest) == line + Concat(rest)
  {
    assert ([line] + rest)[1..] == rest;
  }

  /** The first complete line, and the rest. */
  lemma LinesCons(s: Bytes, from: nat, stop: nat)
    requires from <= stop <= |s| && NextNewline(s, from) < stop
    ensures var e := NextNewline(s, from) + 1; Lines(s, from, stop) == [s[from..e]] + Lines(s, e, stop)
  {
  }

  lemma NextNewlineUnique(s: Bytes, from: nat, i: nat)
    requires from <= i < |s| && s[i] == NL
    requires forall k :: from <= k < i ==> s[k] != NL
    ensures NextNewline(s, from) == i
  {
  }

  lemma CompleteEndUnique(s: Bytes, stop: nat, e: nat)
    requires e <= stop <= |s| && Boundary(s, e)
    requires forall k :: e <= k < stop ==> s[k] != NL
    ensures e == CompleteEnd(s, stop)
  {
  }

  /** Appending to a file moves no newline of it. */
  lemma NextNewlineAppend(s: Bytes, more: Bytes, from: nat)
    requires from <= |s|
    ensures NextNewline(s, from) < |s| ==> NextNewline(s + more, from) == NextNewline(s, from)
    ensures NextNewline(s, from) == |s| ==> NextNewline(s + more, from) >= |s|
  {
    var i := NextNewline(s, from);
    if i < |s| {
      NextNewlineUnique(s + more, from, i);
    }
  }

  lemma NoLinesBefore(s: Bytes, from: nat, stop: nat)
    requires from <= stop <= |s| && NextNewline(s, from) >= stop
    ensures Lines(s, from, stop) == []
  {
  }

  lemma {:induction false} LinesAppend(s: Bytes, more: Bytes, from: nat, stop: nat)
    requires from <= stop <= |s|
    ensures Lines(s + more, from, stop) == Lines(s, from, stop)
    decreases stop - from
  {
    hide Lines;
    NextNewlineAppend(s, more, from);
    var e := NextNewline(s, from);
    if e < stop {
      LinesCons(s, from, stop);
      LinesCons(s + more, from, stop);
      assert (s + more)[from..e + 1] == s[from..e + 1];
      LinesAppend(s, more, e + 1, stop);
    } else {
      NoLinesBefore(s, from, stop);
      NoLinesBefore(s + more, from, stop);
    }
  }

  /** Cutting a stretch at a line boundary cuts its list of lines. */
  lemma {:induction false} LinesSplit(s: Bytes, from: nat, mid: nat, stop: nat)
    requires from <= mid <= stop <= |s| && (mid == from || Boundary(s, mid))
    ensures Lines(s, from, stop) == Lines(s, from, mid) + Lines(s, mid, stop)
    decreases mid - from
  {
    if from < mid {
      var e := NextNewline(s, from);
      assert e < mid;
      LinesSplit(s, e + 1, mid, stop);
    }
  }

  lemma LinesOne(s: Bytes, o: nat)
    requires o <= |s| && NextNewline(s, o) < |s|
    ensures Lines(s, o, NextNewline(s, o) + 1) == [s[o..NextNewline(s, o) + 1]]
  {
    var e := NextNewline(s, o) + 1;
    assert Lines(s, e, e) == [];
  }

  /** Consuming the line at a boundary extends the consumed lines by exactly that line. */
  lemma LinesStep(s: Bytes, from: nat, o: nat, e: nat)
    requires from <= o <= |s| && (o == from || Boundary(s, o)) && NextNewline(s, o) == e - 1 < |s|
    ensures Boundary(s, e) && Lines(s, from, e) == Lines(s, from, o) + [s[o..e]]
  {
    LinesSplit(s, from, o, e);
    LinesOne(s, o);
  }

  /** No complete line reaches past the last newline. */
  lemma {:induction false} LinesReachCompleteEnd(s: Bytes, from: nat, stop: nat)
    requires from <= stop <= |s| && from <= CompleteEnd(s, stop)
    ensures Lines(s, from, CompleteEnd(s, stop)) == Lines(s, from, stop)
  {
    var e := CompleteEnd(s, stop);
    LinesSplit(s, from, e, stop);
  }

  /** The lines are the bytes: gluing them together gives back the consumed stretch. */
  lemma {:induction false} LinesConcat(s: Bytes, from: nat, stop: nat)
    requires from <= stop && Boundary(s, stop)
    ensures Concat(Lines(s, from, stop)) == s[from..stop]
    decreases stop - from
  {
    hide Lines, Concat;
    if from < stop {
      var e := NextNewline(s, from) + 1;
      assert e <= stop;
      LinesConcat(s, e, stop);
      LinesCons(s, from, stop);
      ConcatCons(s[from..e], Lines(s, e, stop));
      assert s[from..stop] == s[from..e] + s[e..stop];
    } else {
      NoLinesBefore(s, from, from);
      NothingToConcat();
    }
  }

  lemma NothingToConcat()
    ensures Concat([]) == []
  {
  }
}
