/**
 Claude reports a tool call twice, through hooks and through the transcript.  Hook observations are
 matched to transcript observations, and calls are rebuilt under their canonical ids
 (apps/core/src/tool-aliases.ts).
 */
module ToolAliases {
  import opened Common
  import opened ToolCalls

  const MAX_ALIAS_DISTANCE_MS: int := 5000

  /** Tool events the matching looks at. */
  predicate FromClaude(e: Event) { e.adapter.Hook? || e.adapter.Transcript? }

  // ---------------------------------------------------------------- nodes of the compatibility graph

  /** Call ids seen through an adapter, in order of first appearance. */
  function IdsOf(events: seq<Event>, adapter: Adapter): seq<CallId>
    decreases |events|
  {
    if events == [] then []
    else
      var before, last := IdsOf(events[..|events| - 1], adapter), events[|events| - 1];
      if last.adapter == adapter && last.call !in before then before + [last.call] else before
  }

  predicate At(e: Event, adapter: Adapter, id: CallId) { e.adapter == adapter && e.call == id }

  /** A node is named by its first event. */
  function NameOf(events: seq<Event>, adapter: Adapter, id: CallId): string {
    var first := FirstWith(events, (e: Event) => At(e, adapter, id));
    if first.Some? then first.value.toolName else ""
  }

  predicate Near(a: Event, b: Event) {
    -MAX_ALIAS_DISTANCE_MS <= a.time - b.time <= MAX_ALIAS_DISTANCE_MS
  }

  predicate Close(events: seq<Event>, hook: CallId, transcript: CallId) {
    exists a, b :: a in events && b in events && At(a, Hook, hook) && At(b, Transcript, transcript) && Near(a, b)
  }

  /** An edge: same tool, different ids, some timestamps at most five seconds apart. */
  predicate Compatible(events: seq<Event>, hook: CallId, transcript: CallId) {
    && hook != transcript
    && NameOf(events, Hook, hook) == NameOf(events, Transcript, transcript)
    && Close(events, hook, transcript)
  }

  function From(events: seq<Event>, hook: CallId): CallId -> bool { (t: CallId) => Compatible(events, hook, t) }
  function To(events: seq<Event>, transcript: CallId): CallId -> bool { (h: CallId) => Compatible(events, h, transcript) }

  function Candidates(events: seq<Event>, hook: CallId): seq<CallId> {
    Filter(IdsOf(events, Transcript), From(events, hook))
  }

  function Reverse(events: seq<Event>, transcript: CallId): seq<CallId> {
    Filter(IdsOf(events, Hook), To(events, transcript))
  }

  /** A hook with one candidate that has no other hook. */
  function AliasOf(events: seq<Event>, hook: CallId): Option<CallId> {
    var candidates := Candidates(events, hook);
    if |candidates| == 1 && |Reverse(events, candidates[0])| == 1 then Some(candidates[0]) else None
  }

  function Aliases(events: seq<Event>): map<CallId, CallId> {
    map h | h in IdsOf(events, Hook) && AliasOf(events, h).Some? :: AliasOf(events, h).value
  }

  // ---------------------------------------------------------------- aliases are the isolated edges

  lemma {:induction false} IdsOfIs(events: seq<Event>, adapter: Adapter)
    ensures NoDup(IdsOf(events, adapter))
    ensures forall id :: id in IdsOf(events, adapter) <==> exists e :: e in events && At(e, adapter, id)
    decreases |events|
  {
    if events != [] {
      var before, last := events[..|events| - 1], events[|events| - 1];
      assert events == before + [last];
      IdsOfIs(before, adapter);
      NoDupAppend(IdsOf(before, adapter), last.call);
      forall id ensures id in IdsOf(events, adapter) <==> exists e :: e in events && At(e, adapter, id) {
        if id in IdsOf(before, adapter) {
          var e :| e in before && At(e, adapter, id);
          assert e in events;
        } else if At(last, adapter, id) {
          assert last in events;
        }
      }
    }
  }

  lemma TwoDiffer<T(!new)>(s: seq<T>, x: T)
    requires NoDup(s) && |s| > 1
    ensures exists y :: y in s && y != x
  {
    assert s[0] != s[1];
    assert s[0] in s && s[1] in s;
  }

  /** Filtering leaves one element exactly when one element has the property. */
  lemma FilterSingle<T(!new)>(s: seq<T>, p: T -> bool, x: T)
    requires NoDup(s)
    ensures Filter(s, p) == [x] <==> x in s && p(x) && forall y :: y in s && p(y) ==> y == x
  {
    var f := Filter(s, p);
    FilterNoDup(s, p);
    forall y ensures y in f <==> y in s && p(y) { FilterIs(s, p, y); }
    if x in s && p(x) && forall y :: y in s && p(y) ==> y == x {
      assert forall i :: 0 <= i < |f| ==> f[i] == x by {
        forall i | 0 <= i < |f| ensures f[i] == x { assert f[i] in f; }
      }
      if |f| > 1 { TwoDiffer(f, x); }
    }
  }

  /** An edge that meets no other edge. */
  ghost predicate Isolated(events: seq<Event>, hook: CallId, transcript: CallId) {
    && Compatible(events, hook, transcript)
    && (forall t :: Compatible(events, hook, t) ==> t == transcript)
    && (forall h :: Compatible(events, h, transcript) ==> h == hook)
  }

  lemma CompatibleNodes(events: seq<Event>, hook: CallId, transcript: CallId)
    requires Compatible(events, hook, transcript)
    ensures hook in IdsOf(events, Hook) && transcript in IdsOf(events, Transcript)
  {
    IdsOfIs(events, Hook);
    IdsOfIs(events, Transcript);
  }

  /** The two length tests of the code find exactly the isolated edges. */
  lemma AliasIff(events: seq<Event>, hook: CallId, transcript: CallId)
    ensures AliasOf(events, hook) == Some(transcript) <==> Isolated(events, hook, transcript)
  {
    IdsOfIs(events, Hook);
    IdsOfIs(events, Transcript);
    FilterSingle(IdsOf(events, Transcript), From(events, hook), transcript);
    FilterSingle(IdsOf(events, Hook), To(events, transcript), hook);
    if AliasOf(events, hook) == Some(transcript) {
      assert Candidates(events, hook) == [transcript];
      CandidateReverse(events, hook, transcript);
      forall t | Compatible(events, hook, t) ensures t == transcript { CompatibleNodes(events, hook, t); }
      forall h | Compatible(events, h, transcript) ensures h == hook { CompatibleNodes(events, h, transcript); }
    }
    if Isolated(events, hook, transcript) {
      CompatibleNodes(events, hook, transcript);
      assert Candidates(events, hook) == [transcript];
      assert Reverse(events, transcript) == [hook];
    }
  }

  lemma CandidateReverse(events: seq<Event>, hook: CallId, transcript: CallId)
    requires Candidates(events, hook) == [transcript] && |Reverse(events, transcript)| == 1
    ensures Reverse(events, transcript) == [hook]
  {
    FilterIs(IdsOf(events, Transcript), From(events, hook), transcript);
    assert transcript in Candidates(events, hook);
    CompatibleNodes(events, hook, transcript);
    FilterIs(IdsOf(events, Hook), To(events, transcript), hook);
    assert hook in Reverse(events, transcript);
  }

  /** So the aliases form a partial injection from hook ids to transcript ids. */
  lemma AliasesAreIsolatedEdges(events: seq<Event>)
    ensures forall h, t :: h in Aliases(events) && Aliases(events)[h] == t <==> Isolated(events, h, t)
    ensures forall h, h' :: h in Aliases(events) && h' in Aliases(events) && Aliases(events)[h] == Aliases(events)[h'] ==> h == h'
    ensures forall h :: h in Aliases(events) ==>
              h in IdsOf(events, Hook) && Aliases(events)[h] in IdsOf(events, Transcript) && Aliases(events)[h] != h
  {
    var aliases := Aliases(events);
    forall h, t ensures h in aliases && aliases[h] == t <==> Isolated(events, h, t) {
      AliasIff(events, h, t);
      if Isolated(events, h, t) { CompatibleNodes(events, h, t); }
    }
    forall h, h' | h in aliases && h' in aliases && aliases[h] == aliases[h'] ensures h == h' {
      assert Isolated(events, h, aliases[h]) && Isolated(events, h', aliases[h]);
    }
    forall h | h in aliases
      ensures h in IdsOf(events, Hook) && aliases[h] in IdsOf(events, Transcript) && aliases[h] != h
    {
      assert Isolated(events, h, aliases[h]);
      CompatibleNodes(events, h, aliases[h]);
    }
  }

  // ---------------------------------------------------------------- order of the stored events

  /** All events of a node name the same tool. */
  ghost predicate NodesNamed(events: seq<Event>) {
    forall a, b :: a in events && b in events && FromClaude(a) && a.adapter == b.adapter && a.call == b.call ==>
      a.toolName == b.toolName
  }

  lemma {:induction false} FirstWithIn(events: seq<Event>, p: Event -> bool)
    ensures match FirstWith(events, p)
            case None => forall x :: x in events ==> !p(x)
            case Some(e) => e in events && p(e)
    decreases |events|
  {
    if events != [] {
      FirstWithIn(events[..|events| - 1], p);
      assert events == events[..|events| - 1] + [events[|events| - 1]];
    }
  }

  lemma SameNames(a: seq<Event>, b: seq<Event>, adapter: Adapter, id: CallId)
    requires SameEvents(a, b) && NodesNamed(a) && !adapter.OtherAdapter?
    ensures NameOf(a, adapter, id) == NameOf(b, adapter, id)
  {
    var p := (e: Event) => At(e, adapter, id);
    FirstWithIn(a, p);
    FirstWithIn(b, p);
  }

  lemma SameCompatible(a: seq<Event>, b: seq<Event>, hook: CallId, transcript: CallId)
    requires SameEvents(a, b) && NodesNamed(a)
    ensures Compatible(a, hook, transcript) <==> Compatible(b, hook, transcript)
  {
    SameNames(a, b, Hook, hook);
    SameNames(a, b, Transcript, transcript);
    assert Close(a, hook, transcript) <==> Close(b, hook, transcript);
  }

  /** The aliases depend on which events are stored, not on their order. */
  lemma AliasOrderDoesNotMatter(a: seq<Event>, b: seq<Event>)
    requires SameEvents(a, b) && NodesNamed(a)
    ensures Aliases(a) == Aliases(b)
  {
    AliasesAreIsolatedEdges(a);
    AliasesAreIsolatedEdges(b);
    forall h, t ensures Isolated(a, h, t) <==> Isolated(b, h, t) {
      forall x, y ensures Compatible(a, x, y) <==> Compatible(b, x, y) { SameCompatible(a, b, x, y); }
    }
    forall h
      ensures h in Aliases(a) <==> h in Aliases(b)
      ensures h in Aliases(a) && h in Aliases(b) ==> Aliases(a)[h] == Aliases(b)[h]
    {
      if h in Aliases(a) { assert Isolated(a, h, Aliases(a)[h]); }
      if h in Aliases(b) { assert Isolated(b, h, Aliases(b)[h]); }
    }
  }

  // ---------------------------------------------------------------- rebuilding the calls

  /** The lookup knows the id only, not which adapter reported it. */
  function Canonical(aliases: map<CallId, CallId>, id: CallId): CallId {
    if id in aliases then aliases[id] else id
  }

  function Belongs(aliases: map<CallId, CallId>, canonical: CallId): Event -> bool {
    (e: Event) => FromClaude(e) && Canonical(aliases, e.call) == canonical
  }

  function Group(events: seq<Event>, aliases: map<CallId, CallId>, canonical: CallId): seq<Event> {
    Filter(events, Belongs(aliases, canonical))
  }

  function Groups(events: seq<Event>, aliases: map<CallId, CallId>): map<CallId, seq<Event>>
    decreases |events|
  {
    if events == [] then map[]
    else
      var before, e := Groups(events[..|events| - 1], aliases), events[|events| - 1];
      var id := Canonical(aliases, e.call);
      if !FromClaude(e) then before
      else if id in before then before[id := before[id] + [e]] else before[id := [e]]
  }

  function Rebuild(events: seq<Event>): map<CallId, Row> {
    var groups := Groups(events, Aliases(events));
    map id | id in groups :: RecomputeGroup(groups[id])
  }

  /** The groups partition the events: a group holds exactly the events whose canonical id it is. */
  lemma {:induction false} GroupsPartition(events: seq<Event>, aliases: map<CallId, CallId>, id: CallId)
    ensures id in Groups(events, aliases) <==> exists e :: e in events && Belongs(aliases, id)(e)
    ensures id in Groups(events, aliases) ==> Groups(events, aliases)[id] == Group(events, aliases, id)
    ensures id !in Groups(events, aliases) ==> Group(events, aliases, id) == []
    decreases |events|
  {
    if events != [] {
      var before, e := events[..|events| - 1], events[|events| - 1];
      assert events == before + [e];
      GroupsPartition(before, aliases, id);
      assert Group(events, aliases, id)
             == if Belongs(aliases, id)(e) then Group(before, aliases, id) + [e] else Group(before, aliases, id);
      if Belongs(aliases, id)(e) { assert e in events; }
      if exists x :: x in before && Belongs(aliases, id)(x) {
        var x :| x in before && Belongs(aliases, id)(x);
        assert x in events;
      }
    }
  }

  /** Rebuilding gives the same rows whatever order the events were stored in. */
  lemma RebuildOrderDoesNotMatter(a: seq<Event>, b: seq<Event>)
    requires SameEvents(a, b) && NodesNamed(a) && IdsName(a)
    ensures Rebuild(a) == Rebuild(b)
  {
    AliasOrderDoesNotMatter(a, b);
    var aliases := Aliases(a);
    forall id
      ensures id in Groups(a, aliases) <==> id in Groups(b, aliases)
      ensures id in Groups(a, aliases) && id in Groups(b, aliases) ==>
                RecomputeGroup(Groups(a, aliases)[id]) == RecomputeGroup(Groups(b, aliases)[id])
    {
      GroupsPartition(a, aliases, id);
      GroupsPartition(b, aliases, id);
      var x, y := Group(a, aliases, id), Group(b, aliases, id);
      forall e ensures e in x <==> e in y {
        FilterIs(a, Belongs(aliases, id), e);
        FilterIs(b, Belongs(aliases, id), e);
      }
      assert IdsName(x) by {
        forall e, f | e in x && f in x && e.id == f.id ensures e == f {
          FilterIs(a, Belongs(aliases, id), e);
          FilterIs(a, Belongs(aliases, id), f);
        }
      }
      OrderDoesNotMatter(x, y);
    }
  }

  // ---------------------------------------------------------------- counting

  function CallIds(events: seq<Event>): set<CallId> {
    set e | e in events && FromClaude(e) :: e.call
  }

  /** The canonical ids are the ids without the aliased ones, plus the targets. */
  lemma CanonicalIds(events: seq<Event>, aliases: map<CallId, CallId>)
    requires forall h :: h in aliases ==> h in CallIds(events) && aliases[h] in CallIds(events)
    ensures Groups(events, aliases).Keys == (CallIds(events) - aliases.Keys) + (aliases.Values * aliases.Keys)
  {
    var ids := CallIds(events);
    forall id ensures id in Groups(events, aliases) <==> (id in ids && id !in aliases) || id in aliases.Values {
      GroupsPartition(events, aliases, id);
      if id in Groups(events, aliases) {
        var e :| e in events && Belongs(aliases, id)(e);
        assert e.call in ids;
      }
      if id in ids && id !in aliases {
        var e :| e in events && FromClaude(e) && e.call == id;
        assert Belongs(aliases, id)(e);
      }
      if id in aliases.Values {
        var h :| h in aliases && aliases[h] == id;
        var e :| e in events && FromClaude(e) && e.call == h;
        assert Belongs(aliases, id)(e);
      }
    }
  }

  lemma ClaudeIds(events: seq<Event>, h: CallId)
    requires h in Aliases(events)
    ensures h in CallIds(events) && Aliases(events)[h] in CallIds(events)
  {
    AliasesAreIsolatedEdges(events);
    IdsOfIs(events, Hook);
    IdsOfIs(events, Transcript);
  }

  /**
   Each alias removes one call, except where an alias leads to an id that is itself aliased away:
   the number of calls is the number of ids, less the aliases, plus such targets.
   */
  lemma CallCount(events: seq<Event>)
    ensures var aliases := Aliases(events);
      |Rebuild(events)| == |CallIds(events)| - |aliases| + |aliases.Values * aliases.Keys|
  {
    var aliases := Aliases(events);
    var ids := CallIds(events);
    forall h | h in aliases ensures h in ids && aliases[h] in ids { ClaudeIds(events, h); }
    CanonicalIds(events, aliases);
    CountUnion(ids, aliases.Keys, aliases.Values * aliases.Keys);
    SizeOfRebuild(events, (ids - aliases.Keys) + aliases.Values * aliases.Keys);
    assert |aliases| == |aliases.Keys|;
  }

  lemma CountUnion<T>(all: set<T>, gone: set<T>, back: set<T>)
    requires gone <= all && back <= gone
    ensures |(all - gone) + back| == |all| - |gone| + |back|
  {
    assert (all - gone) * back == {};
    assert |(all - gone) + back| == |all - gone| + |back| - |(all - gone) * back|;
  }

  lemma SizeOfRebuild(events: seq<Event>, ids: set<CallId>)
    requires Groups(events, Aliases(events)).Keys == ids
    ensures |Rebuild(events)| == |ids|
  {
    assert Rebuild(events).Keys == ids;
  }

  /** With hook ids and transcript ids disjoint, every alias merges exactly two ids. */
  lemma DisjointIdsCount(events: seq<Event>)
    requires forall id :: id in IdsOf(events, Hook) ==> id !in IdsOf(events, Transcript)
    ensures |Rebuild(events)| == |CallIds(events)| - |Aliases(events)|
  {
    AliasesAreIsolatedEdges(events);
    CallCount(events);
    var aliases := Aliases(events);
    assert aliases.Values * aliases.Keys == {};
  }

  // ---------------------------------------------------------------- an id used on both sides

  function Seen(id: int, call: CallId, adapter: Adapter, tool: string, time: int): Event {
    Event(id, call, adapter, tool, Called, time, None)
  }

  /** Hook `a` and transcript `b` read, hook `b` and transcript `c` write. */
  function Overlap(a: CallId, b: CallId, c: CallId, time: int): seq<Event> {
    [Seen(1, a, Hook, "Read", time), Seen(2, b, Transcript, "Read", time),
     Seen(3, b, Hook, "Write", time), Seen(4, c, Transcript, "Write", time)]
  }

  lemma OverlapElements(a: CallId, b: CallId, c: CallId, time: int, x: Event)
    ensures x in Overlap(a, b, c, time) <==>
              || x == Seen(1, a, Hook, "Read", time) || x == Seen(2, b, Transcript, "Read", time)
              || x == Seen(3, b, Hook, "Write", time) || x == Seen(4, c, Transcript, "Write", time)
  {}

  lemma OverlapNames(a: CallId, b: CallId, c: CallId, time: int)
    requires a != b && b != c && a != c
    ensures var events := Overlap(a, b, c, time);
      && NameOf(events, Hook, a) == "Read" && NameOf(events, Transcript, b) == "Read"
      && NameOf(events, Hook, b) == "Write" && NameOf(events, Transcript, c) == "Write"
  {
    var events := Overlap(a, b, c, time);
    forall x ensures x in events <==>
              || x == Seen(1, a, Hook, "Read", time) || x == Seen(2, b, Transcript, "Read", time)
              || x == Seen(3, b, Hook, "Write", time) || x == Seen(4, c, Transcript, "Write", time)
    {
      OverlapElements(a, b, c, time, x);
    }
    NodeName(events, Seen(1, a, Hook, "Read", time));
    NodeName(events, Seen(2, b, Transcript, "Read", time));
    NodeName(events, Seen(3, b, Hook, "Write", time));
    NodeName(events, Seen(4, c, Transcript, "Write", time));
  }

  lemma OverlapClose(a: CallId, b: CallId, c: CallId, time: int, h: CallId, t: CallId)
    ensures Close(Overlap(a, b, c, time), h, t) <==> (h == a || h == b) && (t == b || t == c)
  {
    var events := Overlap(a, b, c, time);
    if Close(events, h, t) {
      var x, y :| x in events && y in events && At(x, Hook, h) && At(y, Transcript, t) && Near(x, y);
      OverlapElements(a, b, c, time, x);
      OverlapElements(a, b, c, time, y);
    }
    if (h == a || h == b) && (t == b || t == c) {
      var x := if h == a then events[0] else events[2];
      var y := if t == b then events[1] else events[3];
      assert x in events && y in events && At(x, Hook, h) && At(y, Transcript, t) && Near(x, y);
    }
  }

  lemma OverlapAliases(a: CallId, b: CallId, c: CallId, time: int)
    requires a != b && b != c && a != c
    ensures Aliases(Overlap(a, b, c, time)) == map[a := b, b := c]
  {
    var events := Overlap(a, b, c, time);
    OverlapNames(a, b, c, time);
    assert |"Read"| != |"Write"|;
    forall h, t ensures Compatible(events, h, t) <==> (h == a && t == b) || (h == b && t == c) {
      OverlapClose(a, b, c, time, h, t);
    }
    AliasesAreIsolatedEdges(events);
    assert Isolated(events, a, b) && Isolated(events, b, c);
    forall h ensures h in Aliases(events) <==> h in map[a := b, b := c] {
      if h in Aliases(events) { assert Isolated(events, h, Aliases(events)[h]); }
    }
  }

  /**
   When an id is used on both sides, a chain of aliases puts a transcript event into the call of
   another tool: the transcript's own `b`, a Read, ends up in call `c`, a Write, and one call more
   remains than ids less aliases.
   */
  lemma OverlapMisplacesTranscript(a: CallId, b: CallId, c: CallId, time: int)
    requires a != b && b != c && a != c
    ensures var events := Overlap(a, b, c, time);
      && c in Groups(events, Aliases(events)) && events[1] in Groups(events, Aliases(events))[c]
      && |Rebuild(events)| == |CallIds(events)| - |Aliases(events)| + 1
  {
    var events := Overlap(a, b, c, time);
    OverlapAliases(a, b, c, time);
    assert events[1] in events;
    InItsGroup(events, Aliases(events), events[1]);
    ChainCount(events, a, b, c);
  }

  /** Transcript events stay in the calls of their own ids if and only if no aliased hook id is a transcript id. */
  lemma TranscriptsInPlaceIff(events: seq<Event>)
    ensures (forall e :: e in events && e.adapter.Transcript? ==>
               e.call in Groups(events, Aliases(events)) && e in Groups(events, Aliases(events))[e.call])
            <==> forall h :: h in Aliases(events) ==> h !in IdsOf(events, Transcript)
  {
    var aliases := Aliases(events);
    IdsOfIs(events, Transcript);
    AliasesAreIsolatedEdges(events);
    forall e | e in events && e.adapter.Transcript?
      ensures e.call in Groups(events, aliases) && e in Groups(events, aliases)[e.call] <==> e.call !in aliases
    {
      GroupsPartition(events, aliases, e.call);
      FilterIs(events, Belongs(aliases, e.call), e);
      InItsGroup(events, aliases, e);
    }
    forall h | h in aliases && h in IdsOf(events, Transcript)
      ensures exists e :: e in events && e.adapter.Transcript? && e.call in aliases
    {
      var e :| e in events && At(e, Transcript, h);
      assert e.call in aliases;
    }
    forall e | e in events && e.adapter.Transcript? ensures e.call in IdsOf(events, Transcript) {
      assert At(e, Transcript, e.call);
    }
  }

  lemma InItsGroup(events: seq<Event>, aliases: map<CallId, CallId>, e: Event)
    requires e in events && FromClaude(e)
    ensures var id := Canonical(aliases, e.call); id in Groups(events, aliases) && e in Groups(events, aliases)[id]
  {
    var id := Canonical(aliases, e.call);
    assert Belongs(aliases, id)(e);
    GroupsPartition(events, aliases, id);
    FilterIs(events, Belongs(aliases, id), e);
  }

  lemma ChainCount(events: seq<Event>, a: CallId, b: CallId, c: CallId)
    requires a != b && b != c && a != c && Aliases(events) == map[a := b, b := c]
    ensures |Rebuild(events)| == |CallIds(events)| - |Aliases(events)| + 1
  {
    CallCount(events);
    ChainOverlap(a, b, c);
  }

  lemma ChainOverlap(a: CallId, b: CallId, c: CallId)
    requires a != b && b != c && a != c
    ensures map[a := b, b := c].Values * map[a := b, b := c].Keys == {b}
  {
    var m := map[a := b, b := c];
    assert m[a] == b && m[b] == c;
  }

  lemma NodeName(events: seq<Event>, e: Event)
    requires e in events && forall x :: x in events && x.adapter == e.adapter && x.call == e.call ==> x == e
    ensures NameOf(events, e.adapter, e.call) == e.toolName
  {
    FirstWithIn(events, (x: Event) => At(x, e.adapter, e.call));
  }
}
