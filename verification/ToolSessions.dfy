/**
 Tool calls of one session over whole runs: batches of events are observed, and a batch with Claude
 events is followed by a rebuild of the session's calls
 (apps/core/src/domain-projection.ts `projectNormalizedEventsInTransaction`, tool-aliases.ts).

 Events of the Claude vendor are those of its two adapters.
 */
module ToolSessions {
  import opened Common
  import opened ToolCalls
  import opened ToolAliases

  // ---------------------------------------------------------------- when a rebuilt call has succeeded

  /** An id names one tool, through whichever adapter it is seen. */
  ghost predicate IdNamed(events: seq<Event>) {
    forall a, b :: a in events && b in events && FromClaude(a) && FromClaude(b) && a.call == b.call ==>
      a.toolName == b.toolName
  }

  /** Hooks and transcripts use different ids. */
  ghost predicate DisjointSides(events: seq<Event>) {
    forall x, y :: x in events && y in events && x.adapter.Hook? && y.adapter.Transcript? ==> x.call != y.call
  }

  /** The call an observed id belongs to. */
  function CallOf(events: seq<Event>, id: CallId): CallId {
    Canonical(Aliases(events), id)
  }

  /** The id itself has reported success. */
  ghost predicate OwnSuccess(events: seq<Event>, id: CallId) {
    exists e :: e in events && FromClaude(e) && e.call == id && e.kind.Succeeded?
  }

  ghost predicate Grows(events: seq<Event>, later: seq<Event>) {
    forall e :: e in events ==> e in later
  }

  lemma GroupHolds(events: seq<Event>, id: CallId, e: Event)
    ensures e in Group(events, Aliases(events), id) <==> e in events && FromClaude(e) && CallOf(events, e.call) == id
  {
    FilterIs(events, Belongs(Aliases(events), id), e);
  }

  /** Whatever the names, a row shows success by the rule for single calls, applied to the events of its group. */
  lemma RowStatusIff(events: seq<Event>, id: CallId)
    ensures var group := Group(events, Aliases(events), id); var start := StartOf(group);
      && (id in Rebuild(events) <==> group != [])
      && (id in Rebuild(events) && Rebuild(events)[id].status.Success?
          <==> || Exists(group, MatchedSuccess(start))
               || (!Exists(group, Matches(start)) && Exists(group, IsSuccess())))
  {
    var group := Group(events, Aliases(events), id);
    GroupsPartition(events, Aliases(events), id);
    StatusIff(group);
    if id in Rebuild(events) {
      var e :| e in events && Belongs(Aliases(events), id)(e);
      FilterIs(events, Belongs(Aliases(events), id), e);
    }
  }

  /** A rebuilt call of one tool has succeeded exactly when an event of its group has. */
  lemma GroupSuccessIff(events: seq<Event>, id: CallId)
    requires OneName(Group(events, Aliases(events), id))
    ensures id in Rebuild(events) && Rebuild(events)[id].status.Success?
            <==> exists e :: e in events && FromClaude(e) && e.kind.Succeeded? && CallOf(events, e.call) == id
  {
    var group := Group(events, Aliases(events), id);
    GroupsPartition(events, Aliases(events), id);
    SucceededIff(group);
    StatusIff(group);
    if id in Rebuild(events) && Rebuild(events)[id].status.Success? {
      var e :| e in group && e.kind.Succeeded?;
      GroupHolds(events, id, e);
    }
    if exists e :: e in events && FromClaude(e) && e.kind.Succeeded? && CallOf(events, e.call) == id {
      var e :| e in events && FromClaude(e) && e.kind.Succeeded? && CallOf(events, e.call) == id;
      GroupHolds(events, id, e);
      assert Belongs(Aliases(events), id)(e);
    }
  }

  lemma NodeIsNamed(events: seq<Event>, e: Event)
    requires NodesNamed(events) && e in events && FromClaude(e)
    ensures NameOf(events, e.adapter, e.call) == e.toolName
  {
    FirstWithIn(events, (x: Event) => At(x, e.adapter, e.call));
  }

  lemma AliasSides(events: seq<Event>, hook: CallId)
    requires hook in Aliases(events)
    ensures exists e :: e in events && At(e, Hook, hook)
    ensures exists e :: e in events && At(e, Transcript, Aliases(events)[hook])
    ensures Compatible(events, hook, Aliases(events)[hook])
  {
    AliasesAreIsolatedEdges(events);
    IdsOfIs(events, Hook);
    IdsOfIs(events, Transcript);
    assert Isolated(events, hook, Aliases(events)[hook]);
  }

  /** A transcript id is its own call. */
  lemma TranscriptIsCall(events: seq<Event>, e: Event)
    requires DisjointSides(events) && e in events && e.adapter.Transcript?
    ensures e.call !in Aliases(events) && CallOf(events, e.call) == e.call
  {
    forall hook | hook in Aliases(events) ensures hook != e.call {
      AliasSides(events, hook);
      var h :| h in events && At(h, Hook, hook);
    }
  }

  /** An event of a call either carries the call's id or comes from the hook aliased to it. */
  lemma InCall(events: seq<Event>, e: Event, id: CallId)
    requires e in events && CallOf(events, e.call) == id
    ensures e.call == id || (e.call in Aliases(events) && Aliases(events)[e.call] == id)
  {}

  /** The two ids of an alias name one tool. */
  lemma AliasNames(events: seq<Event>, hook: CallId, x: Event, y: Event)
    requires IdNamed(events) && hook in Aliases(events)
    requires x in events && FromClaude(x) && x.call == hook
    requires y in events && FromClaude(y) && y.call == Aliases(events)[hook]
    ensures x.toolName == y.toolName
  {
    AliasSides(events, hook);
    var h :| h in events && At(h, Hook, hook);
    var t :| t in events && At(t, Transcript, Aliases(events)[hook]);
    NodeIsNamed(events, h);
    NodeIsNamed(events, t);
  }

  /** When every id names one tool, so does every call. */
  lemma CallsAreNamed(events: seq<Event>, id: CallId)
    requires IdNamed(events)
    ensures OneName(Group(events, Aliases(events), id))
  {
    var group := Group(events, Aliases(events), id);
    AliasesAreIsolatedEdges(events);
    forall x, y | x in group && y in group ensures x.toolName == y.toolName {
      GroupHolds(events, id, x);
      GroupHolds(events, id, y);
      InCall(events, x, id);
      InCall(events, y, id);
      if x.call != id && y.call == id {
        AliasNames(events, x.call, x, y);
      } else if x.call == id && y.call != id {
        AliasNames(events, y.call, y, x);
      } else {
        assert x.call == y.call;
      }
    }
  }

  /** With disjoint sides one name per node is one name per id. */
  lemma DisjointNamed(events: seq<Event>)
    requires NodesNamed(events) && DisjointSides(events)
    ensures IdNamed(events)
  {}

  /**
   A row shows success exactly when its own id has reported success and no alias moves that id away,
   or a hook aliased to it has.
   */
  lemma SucceedsIff(events: seq<Event>, id: CallId)
    requires OneName(Group(events, Aliases(events), id))
    ensures id in Rebuild(events) && Rebuild(events)[id].status.Success?
            <==> || (id !in Aliases(events) && OwnSuccess(events, id))
                 || exists h :: h in Aliases(events) && Aliases(events)[h] == id && OwnSuccess(events, h)
  {
    GroupSuccessIff(events, id);
    if exists e :: e in events && FromClaude(e) && e.kind.Succeeded? && CallOf(events, e.call) == id {
      var e :| e in events && FromClaude(e) && e.kind.Succeeded? && CallOf(events, e.call) == id;
      assert OwnSuccess(events, e.call);
    }
    if id !in Aliases(events) && OwnSuccess(events, id) {
      var e :| e in events && FromClaude(e) && e.call == id && e.kind.Succeeded?;
      assert CallOf(events, e.call) == id;
    }
    if exists h :: h in Aliases(events) && Aliases(events)[h] == id && OwnSuccess(events, h) {
      var h :| h in Aliases(events) && Aliases(events)[h] == id && OwnSuccess(events, h);
      var e :| e in events && FromClaude(e) && e.call == h && e.kind.Succeeded?;
      assert CallOf(events, e.call) == id;
    }
  }

  // ---------------------------------------------------------------- success under later events

  /** Another edge meets the edge from `hook` to `transcript`. */
  ghost predicate Rival(events: seq<Event>, hook: CallId, transcript: CallId) {
    || (exists t :: t != transcript && Compatible(events, hook, t))
    || (exists h :: h != hook && Compatible(events, h, transcript))
  }

  lemma NamesShrink(events: seq<Event>, later: seq<Event>)
    requires Grows(events, later)
    ensures NodesNamed(later) ==> NodesNamed(events)
    ensures DisjointSides(later) ==> DisjointSides(events)
    ensures IdNamed(later) ==> IdNamed(events) && NodesNamed(later)
  {}

  lemma NameStays(events: seq<Event>, later: seq<Event>, e: Event)
    requires Grows(events, later) && NodesNamed(later) && e in events && FromClaude(e)
    ensures NameOf(events, e.adapter, e.call) == NameOf(later, e.adapter, e.call) == e.toolName
  {
    NamesShrink(events, later);
    NodeIsNamed(events, e);
    NodeIsNamed(later, e);
  }

  /** Later events add edges and take none away. */
  lemma EdgesStay(events: seq<Event>, later: seq<Event>, hook: CallId, transcript: CallId)
    requires Grows(events, later) && NodesNamed(later) && Compatible(events, hook, transcript)
    ensures Compatible(later, hook, transcript)
  {
    var a, b :| a in events && b in events && At(a, Hook, hook) && At(b, Transcript, transcript) && Near(a, b);
    NameStays(events, later, a);
    NameStays(events, later, b);
    assert a in later && b in later;
  }

  /** An id that reported success itself belongs to a succeeded call for good. */
  lemma OwnSuccessIsFinal(events: seq<Event>, later: seq<Event>, id: CallId)
    requires Grows(events, later) && OwnSuccess(events, id)
    requires OneName(Group(later, Aliases(later), CallOf(later, id)))
    ensures CallOf(later, id) in Rebuild(later) && Rebuild(later)[CallOf(later, id)].status.Success?
  {
    var e :| e in events && FromClaude(e) && e.call == id && e.kind.Succeeded?;
    assert e in later;
    GroupSuccessIff(later, CallOf(later, id));
  }

  /** Where the success of a call comes from. */
  lemma SuccessComesFrom(events: seq<Event>, id: CallId)
    requires NodesNamed(events) && DisjointSides(events)
    requires id in Rebuild(events) && Rebuild(events)[id].status.Success?
    ensures || OwnSuccess(events, id)
            || exists h :: h in Aliases(events) && Aliases(events)[h] == id && OwnSuccess(events, h)
  {
    DisjointNamed(events);
    CallsAreNamed(events, id);
    GroupSuccessIff(events, id);
    var e :| e in events && FromClaude(e) && e.kind.Succeeded? && CallOf(events, e.call) == id;
    assert OwnSuccess(events, e.call);
  }

  lemma TargetIsCall(events: seq<Event>, later: seq<Event>, hook: CallId)
    requires Grows(events, later) && NodesNamed(later) && DisjointSides(later) && hook in Aliases(events)
    ensures CallOf(later, Aliases(events)[hook]) == Aliases(events)[hook]
    ensures Compatible(later, hook, Aliases(events)[hook])
  {
    AliasSides(events, hook);
    EdgesStay(events, later, hook, Aliases(events)[hook]);
    var t :| t in events && At(t, Transcript, Aliases(events)[hook]);
    assert t in later;
    TranscriptIsCall(later, t);
  }

  /** An edge is an alias exactly when it has no rival. */
  lemma AliasUnlessRival(events: seq<Event>, hook: CallId, transcript: CallId)
    requires Compatible(events, hook, transcript)
    ensures hook in Aliases(events) && Aliases(events)[hook] == transcript <==> !Rival(events, hook, transcript)
    ensures forall h :: h in Aliases(events) && Aliases(events)[h] == transcript ==> h == hook
  {
    AliasesAreIsolatedEdges(events);
    forall h | h in Aliases(events) && Aliases(events)[h] == transcript ensures h == hook {
      assert Isolated(events, h, transcript);
    }
    assert Isolated(events, hook, transcript) <==> !Rival(events, hook, transcript);
  }

  /** Success a call owes to its hook alone lasts exactly as long as no other edge meets theirs. */
  lemma BorrowedSuccess(events: seq<Event>, later: seq<Event>, hook: CallId, id: CallId)
    requires Grows(events, later) && NodesNamed(later) && DisjointSides(later)
    requires hook in Aliases(events) && Aliases(events)[hook] == id && !OwnSuccess(later, id)
    ensures CallOf(later, id) == id
    ensures id in Rebuild(later) && Rebuild(later)[id].status.Success?
            <==> OwnSuccess(later, hook) && !Rival(later, hook, id)
  {
    TargetIsCall(events, later, hook);
    AliasUnlessRival(later, hook, id);
    DisjointNamed(later);
    CallsAreNamed(later, id);
    GroupSuccessIff(later, id);
    if exists e :: e in later && FromClaude(e) && e.kind.Succeeded? && CallOf(later, e.call) == id {
      var e :| e in later && FromClaude(e) && e.kind.Succeeded? && CallOf(later, e.call) == id;
      InCall(later, e, id);
      assert e.call == hook;
    }
    if OwnSuccess(later, hook) && !Rival(later, hook, id) {
      var e :| e in later && FromClaude(e) && e.call == hook && e.kind.Succeeded?;
      assert CallOf(later, e.call) == id;
    }
  }

  /** Two events that make an edge between their ids. */
  predicate Match(x: Event, y: Event) {
    x.adapter.Hook? && y.adapter.Transcript? && x.call != y.call && x.toolName == y.toolName
    && x.time - 5000 <= y.time <= x.time + 5000
  }

  lemma EdgeMatches(events: seq<Event>, x: Event, y: Event)
    requires NodesNamed(events) && x in events && y in events && x.adapter.Hook? && y.adapter.Transcript?
    ensures NameOf(events, Hook, x.call) == x.toolName && NameOf(events, Transcript, y.call) == y.toolName
    ensures At(x, Hook, x.call) && At(y, Transcript, y.call)
    ensures Match(x, y) <==> x.call != y.call && x.toolName == y.toolName && Near(x, y)
  {
    NodeIsNamed(events, x);
    NodeIsNamed(events, y);
  }

  lemma EdgeIff(events: seq<Event>, hook: CallId, transcript: CallId)
    requires NodesNamed(events)
    ensures Compatible(events, hook, transcript)
            <==> exists x, y :: x in events && y in events && Match(x, y) && x.call == hook && y.call == transcript
  {
    if Compatible(events, hook, transcript) {
      var x, y :| x in events && y in events && At(x, Hook, hook) && At(y, Transcript, transcript) && Near(x, y);
      EdgeMatches(events, x, y);
    }
    if exists x, y :: x in events && y in events && Match(x, y) && x.call == hook && y.call == transcript {
      var x, y :| x in events && y in events && Match(x, y) && x.call == hook && y.call == transcript;
      EdgeMatches(events, x, y);
    }
  }

  /**
   What gives a matched pair a rival, told by the events: one of them new, a hook and a transcript
   event of one tool at most five seconds apart, exactly one of which belongs to the pair.
   */
  lemma RivalIff(events: seq<Event>, later: seq<Event>, hook: CallId, transcript: CallId)
    requires Grows(events, later) && NodesNamed(later) && Isolated(events, hook, transcript)
    ensures Rival(later, hook, transcript)
            <==> exists x, y :: x in later && y in later && Match(x, y)
                                && (x.call == hook <==> y.call != transcript) && !(x in events && y in events)
  {
    NamesShrink(events, later);
    forall h, t ensures Compatible(later, h, t)
                        <==> exists x, y :: x in later && y in later && Match(x, y) && x.call == h && y.call == t {
      EdgeIff(later, h, t);
    }
    forall x, y | x in events && y in events && Match(x, y) ensures x.call == hook <==> y.call == transcript {
      EdgeIff(events, x.call, y.call);
    }
    if Rival(later, hook, transcript) {
      var h, t :| Compatible(later, h, t) && (h == hook <==> t != transcript);
      var x, y :| x in later && y in later && Match(x, y) && x.call == h && y.call == t;
      assert !(x in events && y in events);
    }
    if exists x, y :: x in later && y in later && Match(x, y)
                      && (x.call == hook <==> y.call != transcript) && !(x in events && y in events) {
      var x, y :| x in later && y in later && Match(x, y) && (x.call == hook <==> y.call != transcript);
      assert Compatible(later, x.call, y.call);
    }
  }

  lemma OwnSuccessGrows(events: seq<Event>, later: seq<Event>, id: CallId)
    requires Grows(events, later)
    ensures OwnSuccess(events, id) ==> OwnSuccess(later, id)
  {}

  /**
   A succeeded call is still succeeded after later events if and only if its own id has reported
   success, or the hook it was matched to has and no later event gives either of the two a second
   match.  (A hook call that meanwhile found its transcript lives on under the transcript's id.)
   */
  lemma DisjointSuccessStaysIff(events: seq<Event>, later: seq<Event>, id: CallId)
    requires Grows(events, later) && NodesNamed(later) && DisjointSides(later)
    requires id in Rebuild(events) && Rebuild(events)[id].status.Success?
    ensures CallOf(later, id) in Rebuild(later) && Rebuild(later)[CallOf(later, id)].status.Success?
            <==> || OwnSuccess(later, id)
                 || exists h :: h in Aliases(events) && Aliases(events)[h] == id
                                && OwnSuccess(later, h) && !Rival(later, h, id)
  {
    if OwnSuccess(later, id) {
      DisjointNamed(later);
      CallsAreNamed(later, CallOf(later, id));
      OwnSuccessIsFinal(later, later, id);
    } else {
      NamesShrink(events, later);
      SuccessComesFrom(events, id);
      OwnSuccessGrows(events, later, id);
      var hook :| hook in Aliases(events) && Aliases(events)[hook] == id;
      BorrowedSuccess(events, later, hook, id);
      AliasesAreIsolatedEdges(events);
    }
  }

  // ---------------------------------------------------------------- ids used on both sides

  /** A matched pair that was not there before. */
  ghost predicate NewMatch(events: seq<Event>, later: seq<Event>, x: Event, y: Event) {
    x in later && y in later && Match(x, y) && !(x in events && y in events)
  }

  /** Whatever matches the one matches the other. */
  ghost predicate Alone(events: seq<Event>, hook: CallId, transcript: CallId) {
    forall x, y :: x in events && y in events && Match(x, y) ==> (x.call == hook <==> y.call == transcript)
  }

  /** A new pair meets exactly one of the two ids. */
  ghost predicate Rivaled(events: seq<Event>, later: seq<Event>, hook: CallId, transcript: CallId) {
    exists x, y :: NewMatch(events, later, x, y) && (x.call == hook <==> y.call != transcript)
  }

  /** A new pair joins the two ids, and no pair joins either to a third. */
  ghost predicate NewlyLinked(events: seq<Event>, later: seq<Event>, hook: CallId, transcript: CallId) {
    && (exists x, y :: NewMatch(events, later, x, y) && x.call == hook && y.call == transcript)
    && Alone(later, hook, transcript)
  }

  /** What the new events say about a hook id and a transcript id. */
  ghost predicate LinkedLater(events: seq<Event>, later: seq<Event>, hook: CallId, transcript: CallId) {
    if hook in Aliases(events) && Aliases(events)[hook] == transcript then !Rivaled(events, later, hook, transcript)
    else NewlyLinked(events, later, hook, transcript)
  }

  /** The new events leave the id its own success, or link a hook to it that has one. */
  ghost predicate SuccessLeft(events: seq<Event>, later: seq<Event>, id: CallId) {
    || (OwnSuccess(later, id) && forall t :: !LinkedLater(events, later, id, t))
    || exists h :: OwnSuccess(later, h) && LinkedLater(events, later, h, id)
  }

  lemma IsolatedIff(events: seq<Event>, hook: CallId, transcript: CallId)
    requires NodesNamed(events)
    ensures Isolated(events, hook, transcript)
            <==> Alone(events, hook, transcript)
                 && exists x, y :: x in events && y in events && Match(x, y) && x.call == hook && y.call == transcript
  {
    forall h, t ensures Compatible(events, h, t)
                        <==> exists x, y :: x in events && y in events && Match(x, y) && x.call == h && y.call == t {
      EdgeIff(events, h, t);
    }
    forall x, y | x in events && y in events && Match(x, y) ensures Compatible(events, x.call, y.call) {}
    if Alone(events, hook, transcript) {
      forall h, t | Compatible(events, h, t) ensures h == hook <==> t == transcript {
        var x, y :| x in events && y in events && Match(x, y) && x.call == h && y.call == t;
      }
    }
  }

  lemma StillIsolatedIff(events: seq<Event>, later: seq<Event>, hook: CallId, transcript: CallId)
    requires Grows(events, later) && NodesNamed(later) && Isolated(events, hook, transcript)
    ensures Isolated(later, hook, transcript) <==> !Rivaled(events, later, hook, transcript)
  {
    RivalIff(events, later, hook, transcript);
    EdgesStay(events, later, hook, transcript);
    assert Isolated(later, hook, transcript) <==> !Rival(later, hook, transcript);
    if Rival(later, hook, transcript) {
      var x, y :| x in later && y in later && Match(x, y)
                  && (x.call == hook <==> y.call != transcript) && !(x in events && y in events);
      assert NewMatch(events, later, x, y);
    }
  }

  lemma NewlyIsolatedIff(events: seq<Event>, later: seq<Event>, hook: CallId, transcript: CallId)
    requires Grows(events, later) && NodesNamed(later) && !Isolated(events, hook, transcript)
    ensures Isolated(later, hook, transcript) <==> NewlyLinked(events, later, hook, transcript)
  {
    NamesShrink(events, later);
    IsolatedIff(later, hook, transcript);
    IsolatedIff(events, hook, transcript);
    if Isolated(later, hook, transcript) {
      var x, y :| x in later && y in later && Match(x, y) && x.call == hook && y.call == transcript;
      assert Alone(events, hook, transcript);
      assert NewMatch(events, later, x, y);
    }
  }

  /** The aliases after later events, told by the aliases before and the matched pairs that are new. */
  lemma AliasedLaterIff(events: seq<Event>, later: seq<Event>, hook: CallId, transcript: CallId)
    requires Grows(events, later) && NodesNamed(later)
    ensures hook in Aliases(later) && Aliases(later)[hook] == transcript <==> LinkedLater(events, later, hook, transcript)
  {
    AliasesAreIsolatedEdges(events);
    AliasesAreIsolatedEdges(later);
    if Isolated(events, hook, transcript) {
      StillIsolatedIff(events, later, hook, transcript);
    } else {
      NewlyIsolatedIff(events, later, hook, transcript);
    }
  }

  /** When an id without an alias acquires one. */
  lemma AcquiresIff(events: seq<Event>, later: seq<Event>, id: CallId)
    requires Grows(events, later) && NodesNamed(later) && id !in Aliases(events)
    ensures id in Aliases(later) <==> exists t :: NewlyLinked(events, later, id, t)
  {
    forall t ensures id in Aliases(later) && Aliases(later)[id] == t <==> NewlyLinked(events, later, id, t) {
      AliasedLaterIff(events, later, id, t);
    }
    if id in Aliases(later) {
      assert NewlyLinked(events, later, id, Aliases(later)[id]);
    }
  }

  /**
   Whether the row of an id shows success after later events, also when hooks and transcripts share
   ids: its own id has reported success and the pairs now there do not move it away, or a hook has
   that they link to it.  So a success is lost exactly when a new pair gives the id an alias of its
   own or its hook a rival, and no hook with success is linked to the row instead.
   */
  lemma SuccessStaysIff(events: seq<Event>, later: seq<Event>, id: CallId)
    requires Grows(events, later) && IdNamed(later)
    ensures id in Rebuild(later) && Rebuild(later)[id].status.Success?
            <==> SuccessLeft(events, later, id)
  {
    NamesShrink(events, later);
    CallsAreNamed(later, id);
    SucceedsIff(later, id);
    forall t ensures id in Aliases(later) && Aliases(later)[id] == t <==> LinkedLater(events, later, id, t) {
      AliasedLaterIff(events, later, id, t);
    }
    forall h ensures h in Aliases(later) && Aliases(later)[h] == id <==> LinkedLater(events, later, h, id) {
      AliasedLaterIff(events, later, h, id);
    }
    assert id in Aliases(later) <==> exists t :: LinkedLater(events, later, id, t) by {
      if id in Aliases(later) { assert LinkedLater(events, later, id, Aliases(later)[id]); }
    }
  }

  /** The start and the end of a call, seen through the hook and through the transcript under one id. */
  function Shared(first: int, id: CallId, time: int, kind: Kind): seq<Event> {
    [Event(first, id, Hook, "Read", Called, time, None), Event(first + 1, id, Hook, "Read", kind, time + 500, None),
     Event(first + 2, id, Transcript, "Read", Called, time, None),
     Event(first + 3, id, Transcript, "Read", kind, time + 500, None)]
  }

  lemma SharedElements(first: int, id: CallId, time: int, kind: Kind, e: Event)
    ensures var s := Shared(first, id, time, kind); e in s <==> e == s[0] || e == s[1] || e == s[2] || e == s[3]
  {}

  lemma SharedEvents(a: CallId, b: CallId, e: Event)
    requires e in Shared(1, a, 1000, Succeeded) + Shared(5, b, 2000, Failed)
    ensures FromClaude(e) && e.toolName == "Read" && 1000 <= e.time <= 2500
    ensures e.call == a || e.call == b
    ensures e.kind.Succeeded? ==> e.call == a
    ensures e in Shared(1, a, 1000, Succeeded) ==> e.call == a
  {
    SharedElements(1, a, 1000, Succeeded, e);
    SharedElements(5, b, 2000, Failed, e);
  }

  lemma SharedEdges(a: CallId, b: CallId, h: CallId, t: CallId)
    requires a != b
    ensures var later := Shared(1, a, 1000, Succeeded) + Shared(5, b, 2000, Failed);
      NodesNamed(later) && (Isolated(later, h, t) <==> (h == a && t == b) || (h == b && t == a))
  {
    var later := Shared(1, a, 1000, Succeeded) + Shared(5, b, 2000, Failed);
    forall e | e in later ensures FromClaude(e) && e.toolName == "Read" && (e.call == a || e.call == b) {
      SharedEvents(a, b, e);
    }
    IsolatedIff(later, h, t);
    assert later[0] in later && later[2] in later && later[4] in later && later[6] in later;
    assert Match(later[0], later[6]) && Match(later[4], later[2]);
  }

  lemma CrossedAliases(events: seq<Event>, a: CallId, b: CallId)
    requires a != b && forall h, t :: Isolated(events, h, t) <==> (h == a && t == b) || (h == b && t == a)
    ensures Aliases(events) == map[a := b, b := a]
  {
    AliasesAreIsolatedEdges(events);
    assert Isolated(events, a, b) && Isolated(events, b, a);
    forall h ensures h in Aliases(events) <==> h in map[a := b, b := a] {
      if h in Aliases(events) { assert Isolated(events, h, Aliases(events)[h]); }
    }
  }

  lemma SharedAliases(a: CallId, b: CallId)
    requires a != b
    ensures Aliases(Shared(1, a, 1000, Succeeded) + Shared(5, b, 2000, Failed)) == map[a := b, b := a]
  {
    var later := Shared(1, a, 1000, Succeeded) + Shared(5, b, 2000, Failed);
    forall h, t ensures Isolated(later, h, t) <==> (h == a && t == b) || (h == b && t == a) {
      SharedEdges(a, b, h, t);
    }
    CrossedAliases(later, a, b);
  }

  /** Events of one id have no alias. */
  lemma OneIdNoAlias(events: seq<Event>, id: CallId)
    requires forall e :: e in events ==> e.call == id
    ensures id !in Aliases(events) && forall h :: h in Aliases(events) ==> Aliases(events)[h] != id
  {
    if exists h :: h in Aliases(events) && (h == id || Aliases(events)[h] == id) {
      var h :| h in Aliases(events) && (h == id || Aliases(events)[h] == id);
      AliasSides(events, h);
    }
  }

  lemma SharedFacts(a: CallId, b: CallId)
    requires a != b
    ensures var events, later := Shared(1, a, 1000, Succeeded), Shared(1, a, 1000, Succeeded) + Shared(5, b, 2000, Failed);
      && Grows(events, later) && IdNamed(events) && IdNamed(later)
      && OwnSuccess(events, a) && OwnSuccess(later, a) && !OwnSuccess(later, b)
      && a !in Aliases(events) && (forall h :: h in Aliases(events) ==> Aliases(events)[h] != a)
  {
    var events := Shared(1, a, 1000, Succeeded);
    var later := events + Shared(5, b, 2000, Failed);
    forall e | e in later
      ensures FromClaude(e) && e.toolName == "Read" && (e.kind.Succeeded? ==> e.call == a)
      ensures e in events ==> e.call == a
    {
      SharedEvents(a, b, e);
    }
    OneIdNoAlias(events, a);
    assert events[1] in events && events[1] in later;
  }

  /**
   Ids that hook and transcript share do not protect a success.  Call `a` has succeeded on both sides;
   a parallel call `b` of the same tool fails on both sides within five seconds.  Each hook is then
   aliased to the other's transcript: row `a` shows the failure of `b`, and row `b` the success of `a`.
   */
  lemma SharedIdsSwap(a: CallId, b: CallId)
    requires a != b
    ensures var events, later := Shared(1, a, 1000, Succeeded), Shared(1, a, 1000, Succeeded) + Shared(5, b, 2000, Failed);
      && Grows(events, later) && IdNamed(later)
      && a in Rebuild(events) && Rebuild(events)[a].status.Success?
      && a in Rebuild(later) && Rebuild(later)[a].status.Failure?
      && b in Rebuild(later) && Rebuild(later)[b].status.Success?
  {
    var events := Shared(1, a, 1000, Succeeded);
    var later := events + Shared(5, b, 2000, Failed);
    SharedFacts(a, b);
    SharedAliases(a, b);
    assert Aliases(later)[a] == b && Aliases(later)[b] == a;
    CallsAreNamed(events, a);
    SucceedsIff(events, a);
    CallsAreNamed(later, b);
    SucceedsIff(later, b);
    SharedFailure(a, b);
  }

  lemma SharedFailure(a: CallId, b: CallId)
    requires a != b
    ensures var later := Shared(1, a, 1000, Succeeded) + Shared(5, b, 2000, Failed);
      a in Rebuild(later) && Rebuild(later)[a].status.Failure?
  {
    var later := Shared(1, a, 1000, Succeeded) + Shared(5, b, 2000, Failed);
    SharedFacts(a, b);
    SharedAliases(a, b);
    CallsAreNamed(later, a);
    SucceedsIff(later, a);
    assert later[5] == Event(6, b, Hook, "Read", Failed, 2500, None) && later[5] in later;
    StatusOfCall(later, a, later[5]);
  }

  // ---------------------------------------------------------------- a parallel call takes success away

  /** Hook `a` succeeded, transcript `x` of the same call has or has not failed; a parallel hook `b` comes later. */
  function Matched(a: CallId, x: CallId, failed: bool): seq<Event> {
    [Event(1, a, Hook, "Read", Called, 1000, None), Event(2, a, Hook, "Read", Succeeded, 1500, None),
     Event(3, x, Transcript, "Read", Called, 1000, None),
     Event(4, x, Transcript, "Read", if failed then Failed else Called, 1600, None)]
  }

  function Parallel(b: CallId): Event { Event(5, b, Hook, "Read", Called, 2000, None) }

  lemma MatchedElements(a: CallId, x: CallId, failed: bool, e: Event)
    ensures var s := Matched(a, x, failed);
      e in s <==> e == s[0] || e == s[1] || e == s[2] || e == s[3]
  {}

  lemma MatchedNodes(a: CallId, b: CallId, x: CallId, failed: bool)
    requires a != b && b != x && a != x
    ensures var events, later := Matched(a, x, failed), Matched(a, x, failed) + [Parallel(b)];
      Grows(events, later) && NodesNamed(later) && DisjointSides(later)
  {
    var events, later := Matched(a, x, failed), Matched(a, x, failed) + [Parallel(b)];
    forall e | e in later
      ensures e.toolName == "Read" && (e.adapter.Transcript? ==> e.call == x) && (e.adapter.Hook? ==> e.call != x)
    {
      MatchedElements(a, x, failed, e);
    }
  }

  lemma MatchedEdges(a: CallId, b: CallId, x: CallId, failed: bool)
    requires a != b && b != x && a != x
    ensures var events, later := Matched(a, x, failed), Matched(a, x, failed) + [Parallel(b)];
      (forall h, t :: Compatible(events, h, t) <==> h == a && t == x) && Compatible(later, b, x)
  {
    var events, later := Matched(a, x, failed), Matched(a, x, failed) + [Parallel(b)];
    MatchedNodes(a, b, x, failed);
    NamesShrink(events, later);
    forall h, t ensures Compatible(events, h, t) <==> h == a && t == x {
      EdgeIff(events, h, t);
      assert Match(events[0], events[2]);
    }
    EdgeIff(later, b, x);
    assert Match(Parallel(b), events[2]) && Parallel(b) in later && events[2] in later;
  }

  /** With one tool name throughout, a parallel call within five seconds takes a success back. */
  lemma ParallelCallLosesSuccess(a: CallId, b: CallId, x: CallId, failed: bool)
    requires a != b && b != x && a != x
    ensures var events, later := Matched(a, x, failed), Matched(a, x, failed) + [Parallel(b)];
      && x in Rebuild(events) && Rebuild(events)[x].status.Success?
      && x in Rebuild(later) && Rebuild(later)[x].status == if failed then Failure else Started
  {
    var events, later := Matched(a, x, failed), Matched(a, x, failed) + [Parallel(b)];
    MatchedNodes(a, b, x, failed);
    MatchedEdges(a, b, x, failed);
    NamesShrink(events, later);
    AliasUnlessRival(events, a, x);
    assert events[1] in events && OwnSuccess(events, a);
    DisjointNamed(events);
    CallsAreNamed(events, x);
    GroupSuccessIff(events, x);
    NoOwnSuccess(a, b, x, failed);
    BorrowedSuccess(events, later, a, x);
    StatusAfter(a, b, x, failed);
  }

  lemma NoOwnSuccess(a: CallId, b: CallId, x: CallId, failed: bool)
    requires a != b && b != x && a != x
    ensures forall e :: e in Matched(a, x, failed) + [Parallel(b)] && e.call == x ==> !e.kind.Succeeded?
    ensures forall e :: e in Matched(a, x, failed) + [Parallel(b)] && e.call == x && !failed ==> !Terminal(e)
  {
    forall e | e in Matched(a, x, failed) + [Parallel(b)] && e.call == x
      ensures !e.kind.Succeeded? && (!failed ==> !Terminal(e))
    {
      MatchedElements(a, x, failed, e);
    }
  }

  /** In the later events the call `x` holds its own events only. */
  lemma StatusAfter(a: CallId, b: CallId, x: CallId, failed: bool)
    requires a != b && b != x && a != x
    ensures var later := Matched(a, x, failed) + [Parallel(b)];
      x in Rebuild(later) && (Rebuild(later)[x].status.Started? <==> !failed)
  {
    var events, later := Matched(a, x, failed), Matched(a, x, failed) + [Parallel(b)];
    MatchedNodes(a, b, x, failed);
    MatchedEdges(a, b, x, failed);
    EdgesStay(events, later, a, x);
    AliasesAreIsolatedEdges(later);
    forall h | h in Aliases(later) ensures Aliases(later)[h] != x {
      assert Isolated(later, h, Aliases(later)[h]);
    }
    assert events[2] in later && events[3] in later;
    TranscriptIsCall(later, events[2]);
    if failed {
      StatusOfCall(later, x, events[3]);
    } else {
      StatusOfCall(later, x, events[2]);
      NoOwnSuccess(a, b, x, failed);
      forall e | e in later && FromClaude(e) && CallOf(later, e.call) == x ensures !Terminal(e) {
        InCall(later, e, x);
      }
    }
  }

  /** A rebuilt call is open exactly when none of its events is terminal. */
  lemma StatusOfCall(events: seq<Event>, id: CallId, e: Event)
    requires e in events && FromClaude(e) && CallOf(events, e.call) == id
    ensures id in Rebuild(events)
    ensures Rebuild(events)[id].status.Started?
            <==> forall x :: x in events && FromClaude(x) && CallOf(events, x.call) == id ==> !Terminal(x)
  {
    var group := Group(events, Aliases(events), id);
    assert Belongs(Aliases(events), id)(e);
    GroupsPartition(events, Aliases(events), id);
    StatusIff(group);
    forall x ensures x in group <==> x in events && FromClaude(x) && CallOf(events, x.call) == id {
      GroupHolds(events, id, x);
    }
    if exists x :: x in group && Terminal(x) {
      var x :| x in group && Terminal(x);
      assert IsTerminal()(x);
    }
  }

  // ---------------------------------------------------------------- batches

  function ObserveEach(t: Tables, batch: seq<Event>): Tables
    decreases |batch|
  {
    if batch == [] then t else Observe(ObserveEach(t, batch[..|batch| - 1]), batch[|batch| - 1])
  }

  predicate Affected(batch: seq<Event>) {
    exists i :: 0 <= i < |batch| && FromClaude(batch[i])
  }

  /** A batch with a Claude event ends with a rebuild of all calls of the session. */
  function ObserveBatch(t: Tables, batch: seq<Event>): Tables {
    var seen := ObserveEach(t, batch);
    if Affected(batch) then seen.(rows := Rebuild(seen.stored)) else seen
  }

  function ObserveBatches(batches: seq<seq<Event>>): Tables
    decreases |batches|
  {
    if batches == [] then Tables([], map[])
    else ObserveBatch(ObserveBatches(batches[..|batches| - 1]), batches[|batches| - 1])
  }

  function Flatten(batches: seq<seq<Event>>): seq<Event>
    decreases |batches|
  {
    if batches == [] then [] else Flatten(batches[..|batches| - 1]) + batches[|batches| - 1]
  }

  lemma {:induction false} StoredGrows(t: Tables, batch: seq<Event>)
    requires IdsName(t.stored + batch)
    ensures forall e :: e in ObserveEach(t, batch).stored <==> e in t.stored || e in batch
    decreases |batch|
  {
    if batch != [] {
      var before, last := batch[..|batch| - 1], batch[|batch| - 1];
      assert batch == before + [last];
      assert IdsName(t.stored + before) by {
        forall a, b | a in t.stored + before && b in t.stored + before && a.id == b.id ensures a == b {
          assert a in t.stored + batch && b in t.stored + batch;
        }
      }
      StoredGrows(t, before);
      var seen := ObserveEach(t, before);
      WithIdIs(seen.stored, last.id);
      if WithId(seen.stored, last.id).Some? {
        var known := WithId(seen.stored, last.id).value;
        assert known in t.stored + batch && last in t.stored + batch;
      }
    }
  }

  /** Whatever the batching, exactly the observed events are stored. */
  lemma {:induction false} BatchesStore(batches: seq<seq<Event>>)
    requires IdsName(Flatten(batches))
    ensures SameEvents(ObserveBatches(batches).stored, Flatten(batches))
    decreases |batches|
  {
    if batches != [] {
      var before, last := batches[..|batches| - 1], batches[|batches| - 1];
      assert IdsName(Flatten(before)) by {
        forall a, b | a in Flatten(before) && b in Flatten(before) && a.id == b.id ensures a == b {
          assert a in Flatten(batches) && b in Flatten(batches);
        }
      }
      BatchesStore(before);
      var t := ObserveBatches(before);
      assert IdsName(t.stored + last) by {
        forall a, b | a in t.stored + last && b in t.stored + last && a.id == b.id ensures a == b {
          assert a in Flatten(batches) && b in Flatten(batches);
        }
      }
      StoredGrows(t, last);
    }
  }

  ghost predicate ClaudeSession(events: seq<Event>) {
    forall e :: e in events ==> FromClaude(e)
  }

  /** In a Claude session the calls after any batch are the rebuilt ones. */
  lemma {:induction false} ClaudeRows(batches: seq<seq<Event>>)
    requires ClaudeSession(Flatten(batches))
    ensures ObserveBatches(batches).rows == Rebuild(ObserveBatches(batches).stored)
    decreases |batches|
  {
    if batches != [] {
      var before, last := batches[..|batches| - 1], batches[|batches| - 1];
      assert forall e :: e in Flatten(before) ==> e in Flatten(batches);
      ClaudeRows(before);
      if last != [] {
        assert last[0] in Flatten(batches);
        assert Affected(last);
      }
    }
  }

  /** In a Claude session the calls do not depend on arrival order, repetition or batching. */
  lemma ClaudeBatchingDoesNotMatter(a: seq<seq<Event>>, b: seq<seq<Event>>)
    requires ClaudeSession(Flatten(a)) && IdsName(Flatten(a)) && NodesNamed(Flatten(a))
    requires SameEvents(Flatten(a), Flatten(b))
    ensures ObserveBatches(a).rows == ObserveBatches(b).rows
  {
    var x, y := Flatten(a), Flatten(b);
    assert ClaudeSession(y) && IdsName(y);
    ClaudeRows(a);
    ClaudeRows(b);
    BatchesStore(a);
    BatchesStore(b);
    var s, t := ObserveBatches(a).stored, ObserveBatches(b).stored;
    assert IdsName(s) && NodesNamed(s) by {
      forall e, f | e in s && f in s
        ensures e.id == f.id ==> e == f
        ensures e.adapter == f.adapter && e.call == f.call ==> e.toolName == f.toolName
      {
        assert e in x && f in x;
      }
    }
    RebuildOrderDoesNotMatter(s, t);
  }

  lemma {:induction false} EachIsAll(events: seq<Event>, batch: seq<Event>)
    ensures ObserveEach(ObserveAll(events), batch) == ObserveAll(events + batch)
    decreases |batch|
  {
    if batch == [] {
      assert events + batch == events;
    } else {
      EachIsAll(events, batch[..|batch| - 1]);
      assert (events + batch)[..|events + batch| - 1] == events + batch[..|batch| - 1];
    }
  }

  lemma {:induction false} OtherRows(batches: seq<seq<Event>>)
    requires forall e :: e in Flatten(batches) ==> !FromClaude(e)
    ensures ObserveBatches(batches) == ObserveAll(Flatten(batches))
    decreases |batches|
  {
    if batches != [] {
      var before, last := batches[..|batches| - 1], batches[|batches| - 1];
      assert forall e :: e in Flatten(before) ==> e in Flatten(batches);
      OtherRows(before);
      EachIsAll(Flatten(before), last);
      forall i | 0 <= i < |last| ensures !FromClaude(last[i]) {
        assert last[i] in Flatten(batches);
      }
    }
  }

  /** The same without Claude events, where every call is recomputed by itself. */
  lemma OtherBatchingDoesNotMatter(a: seq<seq<Event>>, b: seq<seq<Event>>)
    requires IdsName(Flatten(a)) && SameEvents(Flatten(a), Flatten(b))
    requires forall e :: e in Flatten(a) ==> !FromClaude(e)
    ensures ObserveBatches(a).rows == ObserveBatches(b).rows
  {
    OtherRows(a);
    OtherRows(b);
    ArrivalOrderDoesNotMatter(Flatten(a), Flatten(b));
  }

  lemma {:induction false} FlattenAppend(a: seq<seq<Event>>, b: seq<seq<Event>>)
    ensures Flatten(a + b) == Flatten(a) + Flatten(b)
    decreases |b|
  {
    if b == [] {
      assert a + b == a;
      assert Flatten(a) + [] == Flatten(a);
    } else {
      FlattenAppend(a, b[..|b| - 1]);
      assert (a + b)[..|a + b| - 1] == a + b[..|b| - 1];
      assert (Flatten(a) + Flatten(b[..|b| - 1])) + b[|b| - 1] == Flatten(a) + (Flatten(b[..|b| - 1]) + b[|b| - 1]);
    }
  }

  /**
   Over a run of batches of a Claude session: what later batches do to the success of a row is what
   `SuccessStaysIff` says about the stored events.
   */
  lemma ClaudeSuccessStaysIff(batches: seq<seq<Event>>, more: seq<seq<Event>>, id: CallId)
    requires var all := Flatten(batches + more); ClaudeSession(all) && IdsName(all) && IdNamed(all)
    ensures var s, t := ObserveBatches(batches).stored, ObserveBatches(batches + more);
      (id in t.rows && t.rows[id].status.Success? <==> SuccessLeft(s, t.stored, id))
  {
    FlattenAppend(batches, more);
    var all := Flatten(batches + more);
    assert forall e :: e in Flatten(batches) ==> e in all;
    assert IdsName(Flatten(batches)) by {
      forall a, b | a in Flatten(batches) && b in Flatten(batches) && a.id == b.id ensures a == b {
        assert a in all && b in all;
      }
    }
    BatchesStore(batches);
    BatchesStore(batches + more);
    ClaudeRows(batches + more);
    var s, t := ObserveBatches(batches).stored, ObserveBatches(batches + more).stored;
    assert Grows(t, all) && Grows(s, t);
    NamesShrink(t, all);
    SuccessStaysIff(s, t, id);
  }
}
