/** Adding cbus hooks to a settings file, `mergeClaudeHooks` of `install_hooks.go`: the merge
    settles in one go, and changes nothing but what it adds or repairs. */
module HooksMerge {
  import opened Wrappers
  import opened HookCommand
  import CursorText

  /** A decoded settings value; objects keep the order of their members. */
  datatype Json = Obj(members: seq<Member>) | Arr(items: seq<Json>) | Text(text: string) | Other(text: string)

  datatype Member = Member(key: string, value: Json)

  /** `jsonObject.get`: the first member with the key, or the length. */
  function IndexOf(ms: seq<Member>, key: string): (i: nat)
    ensures i <= |ms| && (i < |ms| ==> ms[i].key == key) && forall k :: 0 <= k < i ==> ms[k].key != key
  {
    if ms == [] || ms[0].key == key then 0 else 1 + IndexOf(ms[1..], key)
  }

  function Get(ms: seq<Member>, key: string): Option<Json> {
    var i := IndexOf(ms, key);
    if i < |ms| then Some(ms[i].value) else None
  }

  /** In place of the first member with the key, or behind all others. */
  function Put(ms: seq<Member>, key: string, v: Json): seq<Member> {
    var i := IndexOf(ms, key);
    if i < |ms| then ms[i := Member(key, v)] else ms + [Member(key, v)]
  }

  lemma IndexOfIs(ms: seq<Member>, key: string, i: nat)
    requires i < |ms| && ms[i].key == key && forall k :: 0 <= k < i ==> ms[k].key != key
    ensures IndexOf(ms, key) == i
  {
  }

  lemma GetPut(ms: seq<Member>, key: string, v: Json, other: string)
    ensures Get(Put(ms, key, v), other) == if other == key then Some(v) else Get(ms, other)
  {
    var i, j, out := IndexOf(ms, key), IndexOf(ms, other), Put(ms, key, v);
    if other == key {
      IndexOfIs(out, key, i);
    } else if j < |ms| {
      IndexOfIs(out, other, j);
    } else {
      assert forall k :: 0 <= k < |out| ==> out[k].key != other;
    }
  }

  /** No member moves or goes: the keys stay in their order, and a new one comes last. */
  lemma PutKeepsOrder(ms: seq<Member>, key: string, v: Json, k: nat)
    requires k < |ms|
    ensures |Put(ms, key, v)| >= |ms| && Put(ms, key, v)[k].key == ms[k].key
    ensures ms[k].key != key ==> Put(ms, key, v)[k] == ms[k]
  {
  }

  // ---- what an entry is worth ----

  /** This machine: how cbus is to be invoked, what `fmt.Sprint` makes of a value that is no text
      (`None` for a missing one), and what judging a command asks of it. */
  datatype Machine = Machine(path: string, show: Option<Json> -> string, host: Host)
  {
    function Command(verb: string): string {
      path + " " + verb
    }
  }

  predicate OccursAt(s: string, part: string, i: nat) {
    i + |part| <= |s| && s[i..i + |part|] == part
  }

  predicate Contains(s: string, part: string) {
    exists i :: 0 <= i <= |s| && OccursAt(s, part, i)
  }

  function CommandText(m: Machine, hook: seq<Member>): string {
    var c := Get(hook, "command");
    if c.Some? && c.value.Text? then c.value.text else m.show(c)
  }

  function Judge(m: Machine, hook: Json, verb: string): Verdict {
    if !hook.Obj? then Unrelated
    else
      var cmd := CommandText(m, hook.members);
      if Contains(cmd, m.Command(verb)) then Works else Judgement(m.host, cmd, verb)
  }

  method JudgeHook(m: Machine, hook: Json, verb: string) returns (v: Verdict)
    ensures v == Judge(m, hook, verb)
  {
    hide CursorText.Fields, SplitHookCommand, HookBinaryDead, CommandText, Contains, IsCbusBinary;
    if !hook.Obj? {
      return Unrelated;
    }
    var cmd := CommandText(m, hook.members);
    if Contains(cmd, m.Command(verb)) {
      return Works;
    }
    var p := SplitHookCommand(cmd);
    if p.Some? && p.value.verb == verb && IsCbusBinary(p.value.path) {
      return if HookBinaryDead(m.host, p.value.path, p.value.quote) then Dead else Works;
    }
    var fields := CursorText.Fields(cmd);
    var present, i := false, 1;
    while i < |fields|
      invariant i <= |fields| || fields == []
      invariant present <==> exists k: nat :: k < i && NamesCbusAt(fields, verb, k)
    {
      if fields[i] == verb && IsCbusBinary(fields[i - 1]) {
        assert NamesCbusAt(fields, verb, i);
        present := true;
      }
      i := i + 1;
    }
    return if present then Works else Unrelated;
  }

  /** The entries of one group; anything but an object with a list of hooks has none. */
  function Entries(group: Json): seq<Json> {
    if !group.Obj? then []
    else
      var hooks := Get(group.members, "hooks");
      if hooks.Some? && hooks.value.Arr? then hooks.value.items else []
  }

  function AllEntries(groups: seq<Json>): seq<Json> {
    if groups == [] then [] else Entries(groups[0]) + AllEntries(groups[1..])
  }

  predicate Has(m: Machine, entries: seq<Json>, verb: string, v: Verdict) {
    exists e :: e in entries && Judge(m, e, verb) == v
  }

  /** `findHookCommand`, without the list of what is dead. */
  method FindHookCommand(m: Machine, groups: seq<Json>, verb: string) returns (present: bool, dead: bool)
    ensures present == Has(m, AllEntries(groups), verb, Works)
    ensures dead == Has(m, AllEntries(groups), verb, Dead)
  {
    present, dead := false, false;
    assert groups[0..] == groups;
    for i := 0 to |groups|
      invariant Has(m, AllEntries(groups), verb, Works) <==> present || Has(m, AllEntries(groups[i..]), verb, Works)
      invariant Has(m, AllEntries(groups), verb, Dead) <==> dead || Has(m, AllEntries(groups[i..]), verb, Dead)
    {
      var list := Entries(groups[i]);
      assert AllEntries(groups[i..]) == list + AllEntries(groups[i + 1..]) by {
        assert groups[i..][1..] == groups[i + 1..];
      }
      ghost var p0, d0 := present, dead;
      for j := 0 to |list|
        invariant present <==> p0 || Has(m, list[..j], verb, Works)
        invariant dead <==> d0 || Has(m, list[..j], verb, Dead)
      {
        assert list[..j + 1] == list[..j] + [list[j]];
        var v := JudgeHook(m, list[j], verb);
        HasSplit(m, list[..j], [list[j]], verb, Works);
        HasSplit(m, list[..j], [list[j]], verb, Dead);
        HasOne(m, list[j], verb);
        if v == Works {
          present := true;
        } else if v == Dead {
          dead := true;
        }
      }
      assert list[..|list|] == list;
      HasSplit(m, list, AllEntries(groups[i + 1..]), verb, Works);
      HasSplit(m, list, AllEntries(groups[i + 1..]), verb, Dead);
    }
  }

  lemma HasSplit(m: Machine, a: seq<Json>, b: seq<Json>, verb: string, v: Verdict)
    ensures Has(m, a + b, verb, v) <==> Has(m, a, verb, v) || Has(m, b, verb, v)
  {
    if e :| e in a && Judge(m, e, verb) == v {
      assert e in a + b;
    }
    if e :| e in b && Judge(m, e, verb) == v {
      assert e in a + b;
    }
  }

  lemma HasOne(m: Machine, e: Json, verb: string)
    ensures forall v :: Has(m, [e], verb, v) <==> Judge(m, e, verb) == v
  {
    forall v ensures Has(m, [e], verb, v) <==> Judge(m, e, verb) == v {
      assert e in [e];
    }
  }

  // ---- the merge of one event ----

  datatype Hook = Hook(event: string, matcher: string, verb: string)

  function NewGroup(m: Machine, h: Hook): Json {
    Obj((if h.matcher != "" then [Member("matcher", Text(h.matcher))] else []) +
        [Member("hooks", Arr([NewEntry(m, h)]))])
  }

  function NewEntry(m: Machine, h: Hook): Json {
    Obj([Member("type", Text("command")), Member("command", Text(m.Command(h.verb)))])
  }

  function RepairEntry(m: Machine, e: Json, verb: string): Json {
    if Judge(m, e, verb) != Dead then e else Obj(Put(e.members, "command", Text(m.Command(verb))))
  }

  function RepairAll(m: Machine, es: seq<Json>, verb: string): (out: seq<Json>)
    ensures |out| == |es| && forall i :: 0 <= i < |es| ==> out[i] == RepairEntry(m, es[i], verb)
  {
    if es == [] then [] else [RepairEntry(m, es[0], verb)] + RepairAll(m, es[1..], verb)
  }

  function RepairGroup(m: Machine, g: Json, verb: string): Json {
    if Entries(g) == [] then g else Obj(Put(g.members, "hooks", Arr(RepairAll(m, Entries(g), verb))))
  }

  function RepairGroups(m: Machine, groups: seq<Json>, verb: string): (out: seq<Json>)
    ensures |out| == |groups| && forall k :: 0 <= k < |groups| ==> out[k] == RepairGroup(m, groups[k], verb)
  {
    if groups == [] then [] else [RepairGroup(m, groups[0], verb)] + RepairGroups(m, groups[1..], verb)
  }

  lemma RepairedWorks(m: Machine, e: Json, verb: string)
    ensures Judge(m, RepairEntry(m, e, verb), verb) == if Judge(m, e, verb) == Dead then Works else Judge(m, e, verb)
  {
    if Judge(m, e, verb) == Dead {
      var cmd := m.Command(verb);
      GetPut(e.members, "command", Text(cmd), "command");
      assert OccursAt(cmd, cmd, 0);
    }
  }

  lemma RepairedEntries(m: Machine, g: Json, verb: string)
    ensures Entries(RepairGroup(m, g, verb)) == RepairAll(m, Entries(g), verb)
  {
    if Entries(g) != [] {
      GetPut(g.members, "hooks", Arr(RepairAll(m, Entries(g), verb)), "hooks");
    }
  }

  lemma {:induction false} RepairedGroups(m: Machine, groups: seq<Json>, verb: string)
    ensures AllEntries(RepairGroups(m, groups, verb)) == RepairAll(m, AllEntries(groups), verb)
  {
    if groups != [] {
      RepairedGroups(m, groups[1..], verb);
      RepairedEntries(m, groups[0], verb);
      assert RepairGroups(m, groups, verb)[1..] == RepairGroups(m, groups[1..], verb);
    }
  }

  lemma RepairAllWorks(m: Machine, es: seq<Json>, verb: string)
    ensures !Has(m, RepairAll(m, es, verb), verb, Dead)
    ensures Has(m, es, verb, Works) || Has(m, es, verb, Dead) ==> Has(m, RepairAll(m, es, verb), verb, Works)
  {
    hide Judge, RepairEntry;
    var after := RepairAll(m, es, verb);
    forall i | 0 <= i < |es| ensures Judge(m, after[i], verb) != Dead {
      RepairedWorks(m, es[i], verb);
    }
    if e :| e in es && (Judge(m, e, verb) == Works || Judge(m, e, verb) == Dead) {
      var i :| 0 <= i < |es| && es[i] == e;
      RepairedWorks(m, e, verb);
      assert after[i] in after;
    }
  }

  /** After a repair nothing is dead, and what was dead works. */
  lemma RepairSettles(m: Machine, groups: seq<Json>, verb: string)
    ensures var es, after := AllEntries(groups), AllEntries(RepairGroups(m, groups, verb));
            && !Has(m, after, verb, Dead)
            && (Has(m, es, verb, Works) || Has(m, es, verb, Dead) ==> Has(m, after, verb, Works))
  {
    RepairedGroups(m, groups, verb);
    RepairAllWorks(m, AllEntries(groups), verb);
  }

  lemma {:induction false} AllEntriesConcat(a: seq<Json>, b: seq<Json>)
    ensures AllEntries(a + b) == AllEntries(a) + AllEntries(b)
  {
    if a == [] {
      assert a + b == b;
    } else {
      assert (a + b)[1..] == a[1..] + b;
      AllEntriesConcat(a[1..], b);
    }
  }

  lemma NewGroupWorks(m: Machine, h: Hook)
    ensures AllEntries([NewGroup(m, h)]) == [NewEntry(m, h)] && Judge(m, NewEntry(m, h), h.verb) == Works
  {
    var g, e, cmd := NewGroup(m, h), NewEntry(m, h), m.Command(h.verb);
    IndexOfIs(g.members, "hooks", |g.members| - 1);
    IndexOfIs(e.members, "command", 1);
    assert AllEntries([g]) == Entries(g) + AllEntries([]);
    assert OccursAt(cmd, cmd, 0);
  }

  /** An event without an entry for the verb gets one group more: with the matcher, if there is
      one, and a list of one command entry that runs this cbus for the verb. */
  lemma AddedGroupExactly(m: Machine, groups: seq<Json>, h: Hook, repair: bool)
    requires !Has(m, AllEntries(groups), h.verb, Works) && !Has(m, AllEntries(groups), h.verb, Dead)
    ensures var after := Merged(m, groups, h, repair);
            && after.Some? && |after.value| == |groups| + 1 && groups <= after.value
            && var added := after.value[|groups|];
               && added.Obj?
               && Get(added.members, "matcher") == (if h.matcher == "" then None else Some(Text(h.matcher)))
               && Get(added.members, "hooks").Some? && Get(added.members, "hooks").value.Arr?
               && |Get(added.members, "hooks").value.items| == 1
               && var entry := Get(added.members, "hooks").value.items[0];
                  && entry.Obj? && |entry.members| == 2
                  && Get(entry.members, "type") == Some(Text("command"))
                  && Get(entry.members, "command") == Some(Text(m.path + " " + h.verb))
  {
    hide Has, AllEntries;
    var g, e := NewGroup(m, h), NewEntry(m, h);
    IndexOfIs(g.members, "hooks", |g.members| - 1);
    if h.matcher != "" {
      IndexOfIs(g.members, "matcher", 0);
    } else {
      assert forall k :: 0 <= k < |g.members| ==> g.members[k].key != "matcher";
      assert IndexOf(g.members, "matcher") == |g.members|;
    }
    IndexOfIs(e.members, "type", 0);
    IndexOfIs(e.members, "command", 1);
  }

  /** The list of groups of an event; a value that is no list is refused. */
  function GroupsOf(hooks: seq<Member>, event: string): Option<seq<Json>> {
    match Get(hooks, event)
    case None => Some([])
    case Some(v) => if v.Arr? then Some(v.items) else None
  }

  /** What the merge makes of the groups of one event, if it changes them. */
  function Merged(m: Machine, groups: seq<Json>, h: Hook, repair: bool): Option<seq<Json>> {
    var es := AllEntries(groups);
    if Has(m, es, h.verb, Dead) then if repair then Some(RepairGroups(m, groups, h.verb)) else None
    else if Has(m, es, h.verb, Works) then None
    else Some(groups + [NewGroup(m, h)])
  }

  /** One event is settled in one go: merging again changes nothing. */
  lemma EventSettles(m: Machine, groups: seq<Json>, h: Hook, repair: bool)
    ensures var after := Merged(m, groups, h, repair);
            after.Some? ==> Merged(m, after.value, h, repair).None? && !Has(m, AllEntries(after.value), h.verb, Dead)
                            && Has(m, AllEntries(after.value), h.verb, Works)
  {
    hide Judge;
    var es := AllEntries(groups);
    if Has(m, es, h.verb, Dead) {
      RepairSettles(m, groups, h.verb);
    } else if !Has(m, es, h.verb, Works) {
      AllEntriesConcat(groups, [NewGroup(m, h)]);
      NewGroupWorks(m, h);
      HasSplit(m, es, [NewEntry(m, h)], h.verb, Works);
      HasSplit(m, es, [NewEntry(m, h)], h.verb, Dead);
      HasOne(m, NewEntry(m, h), h.verb);
    }
  }

  // ---- the whole merge ----

  predicate Distinct(hs: seq<Hook>) {
    forall i, j :: 0 <= i < j < |hs| ==> hs[i].event != hs[j].event
  }

  /** `"hooks"` of the settings; a value that is no object is refused. */
  function HooksOf(settings: seq<Member>): Option<seq<Member>> {
    match Get(settings, "hooks")
    case None => Some([])
    case Some(v) => if v.Obj? then Some(v.members) else None
  }

  predicate Mergeable(hooks: seq<Member>, hs: seq<Hook>) {
    forall h <- hs :: GroupsOf(hooks, h.event).Some?
  }

  function MergeAll(m: Machine, hooks: seq<Member>, hs: seq<Hook>, repair: bool): seq<Member>
    requires Mergeable(hooks, hs)
    decreases |hs|
  {
    if hs == [] then hooks
    else
      var h := hs[|hs| - 1];
      var before := MergeAll(m, hooks, hs[..|hs| - 1], repair);
      match Merged(m, GroupsOf(hooks, h.event).value, h, repair)
      case None => before
      case Some(groups) => Put(before, h.event, Arr(groups))
  }

  predicate Changes(m: Machine, hooks: seq<Member>, hs: seq<Hook>, repair: bool)
    requires Mergeable(hooks, hs)
  {
    exists i :: 0 <= i < |hs| && Merged(m, GroupsOf(hooks, hs[i].event).value, hs[i], repair).Some?
  }

  datatype Outcome = Refused | Unchanged | Wrote(settings: seq<Member>)

  /** The merge in terms of what it writes. */
  function Merge(m: Machine, settings: seq<Member>, hs: seq<Hook>, repair: bool): Outcome {
    var hooks := HooksOf(settings);
    if hooks.None? || !Mergeable(hooks.value, hs) then Refused
    else if !Changes(m, hooks.value, hs, repair) then Unchanged
    else Wrote(Put(settings, "hooks", Obj(MergeAll(m, hooks.value, hs, repair))))
  }

  method MergeClaudeHooks(m: Machine, settings: seq<Member>, hs: seq<Hook>, repair: bool) returns (out: Outcome)
    ensures out == Merge(m, settings, hs, repair)
  {
    hide Merged, Has, GroupsOf, Put;
    var hooks := HooksOf(settings);
    if hooks.None? {
      return Refused;
    }
    for i := 0 to |hs|
      invariant forall k :: 0 <= k < i ==> GroupsOf(hooks.value, hs[k].event).Some?
    {
      if GroupsOf(hooks.value, hs[i].event).None? {
        return Refused;
      }
    }
    var merged, wrote := hooks.value, false;
    for i := 0 to |hs|
      invariant Mergeable(hooks.value, hs[..i]) && merged == MergeAll(m, hooks.value, hs[..i], repair)
      invariant wrote == exists k :: 0 <= k < i && Merged(m, GroupsOf(hooks.value, hs[k].event).value, hs[k], repair).Some?
    {
      assert hs[..i + 1][..i] == hs[..i];
      var groups := GroupsOf(hooks.value, hs[i].event).value;
      var change := MergeEvent(m, groups, hs[i], repair);
      if change.Some? {
        merged, wrote := Put(merged, hs[i].event, Arr(change.value)), true;
      }
    }
    assert hs[..|hs|] == hs;
    return if wrote then Wrote(Put(settings, "hooks", Obj(merged))) else Unchanged;
  }

  method MergeEvent(m: Machine, groups: seq<Json>, h: Hook, repair: bool) returns (change: Option<seq<Json>>)
    ensures change == Merged(m, groups, h, repair)
  {
    var present, dead := FindHookCommand(m, groups, h.verb);
    if dead {
      return if repair then Some(RepairGroups(m, groups, h.verb)) else None;
    }
    return if present then None else Some(groups + [NewGroup(m, h)]);
  }

  /** Events that no hook is for stay as they are. */
  lemma {:induction false} OtherEventsStay(m: Machine, hooks: seq<Member>, hs: seq<Hook>, repair: bool, event: string)
    requires Mergeable(hooks, hs) && forall i :: 0 <= i < |hs| ==> hs[i].event != event
    ensures Get(MergeAll(m, hooks, hs, repair), event) == Get(hooks, event)
    decreases |hs|
  {
    hide Merged, Put, Get, GroupsOf;
    if hs != [] {
      var n := |hs| - 1;
      OtherEventsStay(m, hooks, hs[..n], repair, event);
      var change := Merged(m, GroupsOf(hooks, hs[n].event).value, hs[n], repair);
      if change.Some? {
        GetPut(MergeAll(m, hooks, hs[..n], repair), hs[n].event, Arr(change.value), event);
      }
    }
  }

  /** Every other event ends up with what its own merge makes of it. */
  lemma {:induction false} EventIsMerged(m: Machine, hooks: seq<Member>, hs: seq<Hook>, repair: bool, i: nat)
    requires Mergeable(hooks, hs) && Distinct(hs) && i < |hs|
    ensures var change := Merged(m, GroupsOf(hooks, hs[i].event).value, hs[i], repair);
            Get(MergeAll(m, hooks, hs, repair), hs[i].event) ==
            if change.Some? then Some(Arr(change.value)) else Get(hooks, hs[i].event)
    decreases |hs|
  {
    hide Merged, Put, Get, GroupsOf;
    var n := |hs| - 1;
    var before := MergeAll(m, hooks, hs[..n], repair);
    if i < n {
      EventIsMerged(m, hooks, hs[..n], repair, i);
    } else {
      OtherEventsStay(m, hooks, hs[..n], repair, hs[n].event);
    }
    var change := Merged(m, GroupsOf(hooks, hs[n].event).value, hs[n], repair);
    if change.Some? {
      GetPut(before, hs[n].event, Arr(change.value), hs[i].event);
    }
  }

  /** The merge settles in one go: merging its own output again changes nothing. */
  lemma MergeSettles(m: Machine, settings: seq<Member>, hs: seq<Hook>, repair: bool)
    requires Distinct(hs) && Merge(m, settings, hs, repair).Wrote?
    ensures Merge(m, Merge(m, settings, hs, repair).settings, hs, repair) == Unchanged
  {
    hide Merged, MergeAll, Put, Get;
    var hooks := HooksOf(settings).value;
    var merged := MergeAll(m, hooks, hs, repair);
    GetPut(settings, "hooks", Obj(merged), "hooks");
    var again := Merge(m, settings, hs, repair).settings;
    assert HooksOf(again) == Some(merged);
    forall i | 0 <= i < |hs|
      ensures GroupsOf(merged, hs[i].event).Some? && Merged(m, GroupsOf(merged, hs[i].event).value, hs[i], repair).None?
    {
      EventIsMerged(m, hooks, hs, repair, i);
      EventSettles(m, GroupsOf(hooks, hs[i].event).value, hs[i], repair);
    }
  }

  /** Whatever else the settings hold is kept: other members, other events, and, without a
      repair, every group that was there, in front of the one that is added. */
  lemma MergeKeepsTheRest(m: Machine, settings: seq<Member>, hs: seq<Hook>, repair: bool, key: string, event: string)
    requires Distinct(hs) && Merge(m, settings, hs, repair).Wrote?
    ensures var t := Merge(m, settings, hs, repair).settings;
            && (key != "hooks" ==> Get(t, key) == Get(settings, key))
            && HooksOf(t).Some?
            && ((forall h <- hs :: h.event != event) ==> Get(HooksOf(t).value, event) == Get(HooksOf(settings).value, event))
            && (!repair && GroupsOf(HooksOf(settings).value, event).Some? ==>
                  && GroupsOf(HooksOf(t).value, event).Some?
                  && GroupsOf(HooksOf(settings).value, event).value <= GroupsOf(HooksOf(t).value, event).value)
  {
    hide MergeAll, Put, Get, Has;
    var hooks := HooksOf(settings).value;
    var merged := MergeAll(m, hooks, hs, repair);
    GetPut(settings, "hooks", Obj(merged), "hooks");
    GetPut(settings, "hooks", Obj(merged), key);
    if i: nat :| i < |hs| && hs[i].event == event {
      EventIsMerged(m, hooks, hs, repair, i);
    } else {
      OtherEventsStay(m, hooks, hs, repair, event);
    }
  }

  /** A repair of one entry leaves it alone unless it is dead, and then changes its command only. */
  lemma RepairChangesCommands(m: Machine, e: Json, verb: string, key: string)
    ensures Judge(m, e, verb) != Dead ==> RepairEntry(m, e, verb) == e
    ensures Judge(m, e, verb) == Dead ==>
              var out := RepairEntry(m, e, verb);
              && out.Obj?
              && Get(out.members, key) == if key == "command" then Some(Text(m.Command(verb))) else Get(e.members, key)
  {
    if Judge(m, e, verb) == Dead {
      GetPut(e.members, "command", Text(m.Command(verb)), key);
    }
  }

  /** A repair of the groups keeps their number and order, in each group every member but its
      entries, and the number and order of these. */
  lemma RepairKeepsGroups(m: Machine, groups: seq<Json>, verb: string, k: nat, key: string)
    requires k < |groups|
    ensures var out := RepairGroups(m, groups, verb);
            && |out| == |groups|
            && Entries(out[k]) == RepairAll(m, Entries(groups[k]), verb)
            && (groups[k].Obj? && key != "hooks" ==> out[k].Obj? && Get(out[k].members, key) == Get(groups[k].members, key))
            && (!groups[k].Obj? ==> out[k] == groups[k])
  {
    hide RepairGroups, RepairAll;
    RepairedEntries(m, groups[k], verb);
    if Entries(groups[k]) != [] {
      GetPut(groups[k].members, "hooks", Arr(RepairAll(m, Entries(groups[k]), verb)), key);
    }
  }

  /** A merge with repair adds no group to an event that has a dead entry: it repairs the groups
      that are there. */
  lemma MergeRepairs(m: Machine, settings: seq<Member>, hs: seq<Hook>, i: nat)
    requires Distinct(hs) && i < |hs| && HooksOf(settings).Some? && Mergeable(HooksOf(settings).value, hs)
    requires Has(m, AllEntries(GroupsOf(HooksOf(settings).value, hs[i].event).value), hs[i].verb, Dead)
    ensures var out := Merge(m, settings, hs, true);
            && out.Wrote? && HooksOf(out.settings).Some?
            && GroupsOf(HooksOf(out.settings).value, hs[i].event) ==
               Some(RepairGroups(m, GroupsOf(HooksOf(settings).value, hs[i].event).value, hs[i].verb))
  {
    hide MergeAll, Put, Get, Has;
    var hooks := HooksOf(settings).value;
    GetPut(settings, "hooks", Obj(MergeAll(m, hooks, hs, true)), "hooks");
    EventIsMerged(m, hooks, hs, true, i);
    assert Merged(m, GroupsOf(hooks, hs[i].event).value, hs[i], true).Some?;
  }

  /** A merge adds to an event that has no entry for the verb exactly the new group, behind what
      is there. */
  lemma MergeAdds(m: Machine, settings: seq<Member>, hs: seq<Hook>, repair: bool, i: nat)
    requires Distinct(hs) && i < |hs| && HooksOf(settings).Some? && Mergeable(HooksOf(settings).value, hs)
    requires var es := AllEntries(GroupsOf(HooksOf(settings).value, hs[i].event).value);
             !Has(m, es, hs[i].verb, Works) && !Has(m, es, hs[i].verb, Dead)
    ensures var out := Merge(m, settings, hs, repair);
            && out.Wrote? && HooksOf(out.settings).Some?
            && GroupsOf(HooksOf(out.settings).value, hs[i].event) ==
               Some(GroupsOf(HooksOf(settings).value, hs[i].event).value + [NewGroup(m, hs[i])])
  {
    hide MergeAll, Put, Get, Has;
    var hooks := HooksOf(settings).value;
    GetPut(settings, "hooks", Obj(MergeAll(m, hooks, hs, repair)), "hooks");
    EventIsMerged(m, hooks, hs, repair, i);
    assert Merged(m, GroupsOf(hooks, hs[i].event).value, hs[i], repair).Some?;
  }

  /** A merge is refused exactly when the hooks are there and no object, or an event that it is for
      is there and no list. */
  lemma MergeRefusesExactly(m: Machine, settings: seq<Member>, hs: seq<Hook>, repair: bool)
    ensures Merge(m, settings, hs, repair) == Refused <==>
            match Get(settings, "hooks")
            case None => false
            case Some(v) => !v.Obj? || exists h <- hs :: Get(v.members, h.event).Some? && !Get(v.members, h.event).value.Arr?
  {
    hide Get, MergeAll, Merged;
    if Get(settings, "hooks") == None {
      NothingThere();
    }
  }

  lemma NothingThere()
    ensures forall event :: Get([], event) == None
  {
  }

  // ---- one settings file, several machines ----

  /** The entry that a cbus adds for its own program is found by the cbus of any other machine,
      working or dead. */
  lemma SharedEntryIsFound(m: Machine, dir: string, name: string, home: string, other: Machine, h: Hook)
    requires IsCbusName(name) && Absolute(dir + "/" + name) && m.path == HookCommandPath(dir + "/" + name, home)
    requires IsVerb(h.verb)
    ensures Judge(other, NewEntry(m, h), h.verb) != Unrelated
  {
    var e := NewEntry(m, h);
    IndexOfIs(e.members, "command", 1);
    assert CommandText(other, e.members) == m.Command(h.verb);
    hide HookCommandPath, Judgement, IsVerb;
    WrittenCommandIsFound(dir, name, home, h.verb, other.host);
  }

  /** A settings file shared by several machines does not collect entries: where one machine
      has added its entry, a merge on another one adds none. */
  lemma SharedSettingsAreNotAddedTo(
    m: Machine, dir: string, name: string, home: string, other: Machine, h: Hook, groups: seq<Json>, repair: bool)
    requires IsCbusName(name) && Absolute(dir + "/" + name) && m.path == HookCommandPath(dir + "/" + name, home)
    requires IsVerb(h.verb)
    requires NewEntry(m, h) in AllEntries(groups)
    ensures var after := Merged(other, groups, h, repair);
            && (!repair ==> after.None?)
            && (after.Some? ==> after.value == RepairGroups(other, groups, h.verb))
  {
    hide HookCommandPath, IsVerb, Judge, AllEntries;
    SharedEntryIsFound(m, dir, name, home, other, h);
    var e, es := NewEntry(m, h), AllEntries(groups);
    assert e in es && (Judge(other, e, h.verb) == Works || Judge(other, e, h.verb) == Dead);
  }
}
