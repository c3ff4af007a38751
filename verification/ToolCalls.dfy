/**
 One row per tool call, recomputed from all stored events of the call
 (apps/core/src/domain-projection.ts `recomputeToolCall`, tool-aliases.ts `rebuildClaudeToolCalls`).

 Times are milliseconds and event ids are numbered in their collation order.
 */
module ToolCalls {
  import opened Common

  datatype CallId = CallId(text: string)
  datatype Adapter = Hook | Transcript | OtherAdapter
  datatype Kind = Called | Succeeded | Failed

  datatype Event = Event(
    id: int,
    call: CallId,
    adapter: Adapter,
    toolName: string,
    kind: Kind,
    time: int,
    duration: Option<nat>)

  datatype Status = Started | Success | Failure

  datatype Row = Row(
    toolName: string,
    startedAt: Option<int>,
    finishedAt: Option<int>,
    status: Status,
    duration: Option<nat>)

  predicate Terminal(e: Event) { !e.kind.Called? }

  /** Sort order: time, then id. */
  predicate Before(a: Event, b: Event) {
    a.time < b.time || (a.time == b.time && a.id < b.id)
  }

  ghost predicate Sorted(events: seq<Event>) {
    forall i, j :: 0 <= i < j < |events| ==> !Before(events[j], events[i])
  }

  // ---------------------------------------------------------------- sorting

  function Insert(sorted: seq<Event>, e: Event): seq<Event>
    decreases |sorted|
  {
    if sorted == [] then [e]
    else
      var last := sorted[|sorted| - 1];
      if Before(e, last) then Insert(sorted[..|sorted| - 1], e) + [last] else sorted + [e]
  }

  function Sort(events: seq<Event>): seq<Event>
    decreases |events|
  {
    if events == [] then [] else Insert(Sort(events[..|events| - 1]), events[|events| - 1])
  }

  // ---------------------------------------------------------------- picking

  /** A property of events and the order picked by: the earliest or the latest that has it. */
  function FirstWith(events: seq<Event>, p: Event -> bool): Option<Event>
    decreases |events|
  {
    if events == [] then None
    else
      var before := FirstWith(events[..|events| - 1], p);
      if before.Some? then before else if p(events[|events| - 1]) then Some(events[|events| - 1]) else None
  }

  function LastWith(events: seq<Event>, p: Event -> bool): Option<Event>
    decreases |events|
  {
    if events == [] then None
    else if p(events[|events| - 1]) then Some(events[|events| - 1])
    else LastWith(events[..|events| - 1], p)
  }

  function OrElse(a: Option<Event>, b: Option<Event>): Option<Event> {
    if a.Some? then a else b
  }

  function Matches(start: Option<Event>): Event -> bool {
    (e: Event) => Terminal(e) && (start.None? || e.toolName == start.value.toolName)
  }

  function IsStart(): Event -> bool { (e: Event) => e.kind.Called? }
  function IsTerminal(): Event -> bool { (e: Event) => Terminal(e) }
  function IsSuccess(): Event -> bool { (e: Event) => e.kind.Succeeded? }
  function MatchedSuccess(start: Option<Event>): Event -> bool {
    (e: Event) => Matches(start)(e) && e.kind.Succeeded?
  }

  /** The terminal that decides: name-matched success, last name-matched, any success, last. */
  function Deciding(sorted: seq<Event>, start: Option<Event>): Option<Event> {
    OrElse(FirstWith(sorted, MatchedSuccess(start)),
           OrElse(LastWith(sorted, Matches(start)),
                  OrElse(FirstWith(sorted, IsSuccess()), LastWith(sorted, IsTerminal()))))
  }

  function TimeOf(e: Option<Event>): Option<int> {
    if e.Some? then Some(e.value.time) else None
  }

  /** Where the plain recomputation reads the time: the earliest event of the same kind. */
  function TimeOfKind(sorted: seq<Event>, e: Option<Event>): Option<int> {
    if e.None? then None else TimeOf(FirstWith(sorted, (x: Event) => x.kind == e.value.kind))
  }

  function DurationOf(terminal: Option<Event>, startedAt: Option<int>, finishedAt: Option<int>): Option<nat> {
    if terminal.Some? && terminal.value.duration.Some? then terminal.value.duration
    else if startedAt.Some? && finishedAt.Some? && finishedAt.value >= startedAt.value
    then Some(finishedAt.value - startedAt.value)
    else None
  }

  function StatusOf(terminal: Option<Event>): Status {
    if terminal.None? then Started else if terminal.value.kind.Succeeded? then Success else Failure
  }

  function RowOf(start: Option<Event>, terminal: Option<Event>, startedAt: Option<int>, finishedAt: Option<int>): Row {
    Row(if start.Some? then start.value.toolName else if terminal.Some? then terminal.value.toolName else "unknown",
        startedAt, finishedAt, StatusOf(terminal), DurationOf(terminal, startedAt, finishedAt))
  }

  /** The row of a call, from the events of the call in any order. */
  function Recompute(events: seq<Event>): Row {
    var sorted := Sort(events);
    var start := FirstWith(sorted, IsStart());
    var terminal := Deciding(sorted, start);
    RowOf(start, terminal, TimeOfKind(sorted, start), TimeOfKind(sorted, terminal))
  }

  /** The row of a Claude group, which takes the deciding event's own time. */
  function RecomputeGroup(events: seq<Event>): Row {
    var sorted := Sort(events);
    var start := FirstWith(sorted, IsStart());
    var terminal := Deciding(sorted, start);
    RowOf(start, terminal, TimeOf(start), TimeOf(terminal))
  }

  // ---------------------------------------------------------------- sorting forgets the order

  ghost predicate SameEvents(a: seq<Event>, b: seq<Event>) {
    forall e :: e in a <==> e in b
  }

  lemma {:induction false} InsertElements(sorted: seq<Event>, e: Event, x: Event)
    ensures x in Insert(sorted, e) <==> x in sorted || x == e
    ensures |Insert(sorted, e)| == |sorted| + 1
    decreases |sorted|
  {
    if sorted != [] {
      var before, last := sorted[..|sorted| - 1], sorted[|sorted| - 1];
      assert sorted == before + [last];
      if Before(e, last) {
        InsertElements(before, e, x);
      }
    }
  }

  lemma {:induction false} SortElements(events: seq<Event>, x: Event)
    ensures x in Sort(events) <==> x in events
    ensures |Sort(events)| == |events|
    decreases |events|
  {
    if events != [] {
      var before, last := events[..|events| - 1], events[|events| - 1];
      assert events == before + [last];
      SortElements(before, x);
      InsertElements(Sort(before), last, x);
    }
  }

  lemma SortedPrefix(sorted: seq<Event>)
    requires Sorted(sorted) && sorted != []
    ensures Sorted(sorted[..|sorted| - 1])
    ensures forall i :: 0 <= i < |sorted| - 1 ==> !Before(sorted[|sorted| - 1], sorted[i])
  {}

  lemma SortedAppend(sorted: seq<Event>, e: Event)
    requires Sorted(sorted) && forall x :: x in sorted ==> !Before(e, x)
    ensures Sorted(sorted + [e])
  {}

  lemma {:induction false} InsertSorted(sorted: seq<Event>, e: Event)
    requires Sorted(sorted)
    ensures Sorted(Insert(sorted, e))
    decreases |sorted|
  {
    if sorted != [] {
      var before, last := sorted[..|sorted| - 1], sorted[|sorted| - 1];
      SortedPrefix(sorted);
      if Before(e, last) {
        InsertSorted(before, e);
        forall x | x in Insert(before, e) ensures !Before(last, x) { InsertElements(before, e, x); }
        SortedAppend(Insert(before, e), last);
      } else {
        forall x | x in sorted ensures !Before(e, x) { assert x in before || x == last; }
        SortedAppend(sorted, e);
      }
    }
  }

  lemma {:induction false} SortSorts(events: seq<Event>)
    ensures Sorted(Sort(events))
    decreases |events|
  {
    if events != [] {
      SortSorts(events[..|events| - 1]);
      InsertSorted(Sort(events[..|events| - 1]), events[|events| - 1]);
    }
  }

  /** In a sorted list the first hit is the least of all hits. */
  lemma {:induction false} FirstIsLeast(sorted: seq<Event>, p: Event -> bool)
    requires Sorted(sorted)
    ensures match FirstWith(sorted, p)
            case None => forall x :: x in sorted ==> !p(x)
            case Some(e) => e in sorted && p(e) && forall x :: x in sorted && p(x) ==> !Before(x, e)
    decreases |sorted|
  {
    if sorted != [] {
      SortedPrefix(sorted);
      FirstIsLeast(sorted[..|sorted| - 1], p);
      assert sorted == sorted[..|sorted| - 1] + [sorted[|sorted| - 1]];
    }
  }

  /** And the last hit is the greatest. */
  lemma {:induction false} LastIsGreatest(sorted: seq<Event>, p: Event -> bool)
    requires Sorted(sorted)
    ensures match LastWith(sorted, p)
            case None => forall x :: x in sorted ==> !p(x)
            case Some(e) => e in sorted && p(e) && forall x :: x in sorted && p(x) ==> !Before(e, x)
    decreases |sorted|
  {
    if sorted != [] {
      SortedPrefix(sorted);
      LastIsGreatest(sorted[..|sorted| - 1], p);
      assert sorted == sorted[..|sorted| - 1] + [sorted[|sorted| - 1]];
    }
  }

  /** Equal ids mean equal events, across two lists of the same events. */
  ghost predicate IdsName(events: seq<Event>) {
    forall a, b :: a in events && b in events && a.id == b.id ==> a == b
  }

  lemma SamePicks(a: seq<Event>, b: seq<Event>, p: Event -> bool)
    requires Sorted(a) && Sorted(b) && SameEvents(a, b) && IdsName(a)
    ensures FirstWith(a, p) == FirstWith(b, p) && LastWith(a, p) == LastWith(b, p)
  {
    FirstIsLeast(a, p);
    FirstIsLeast(b, p);
    LastIsGreatest(a, p);
    LastIsGreatest(b, p);
  }

  /** The row of a call depends on which events are stored, not on the order they came in. */
  lemma OrderDoesNotMatter(a: seq<Event>, b: seq<Event>)
    requires SameEvents(a, b) && IdsName(a)
    ensures Recompute(a) == Recompute(b) && RecomputeGroup(a) == RecomputeGroup(b)
  {
    var x, y := Sort(a), Sort(b);
    SortSorts(a);
    SortSorts(b);
    forall e ensures e in x <==> e in a { SortElements(a, e); }
    forall e ensures e in y <==> e in b { SortElements(b, e); }
    SamePicks(x, y, IsStart());
    var start := FirstWith(x, IsStart());
    SameDeciding(x, y, start);
    var terminal := Deciding(x, start);
    if start.Some? { SamePicks(x, y, (e: Event) => e.kind == start.value.kind); }
    if terminal.Some? { SamePicks(x, y, (e: Event) => e.kind == terminal.value.kind); }
  }

  lemma SameDeciding(a: seq<Event>, b: seq<Event>, start: Option<Event>)
    requires Sorted(a) && Sorted(b) && SameEvents(a, b) && IdsName(a)
    ensures Deciding(a, start) == Deciding(b, start)
  {
    SamePicks(a, b, MatchedSuccess(start));
    SamePicks(a, b, Matches(start));
    SamePicks(a, b, IsSuccess());
    SamePicks(a, b, IsTerminal());
  }

  // ---------------------------------------------------------------- what the status means

  /** The call's start: its earliest `called` event. */
  function StartOf(events: seq<Event>): Option<Event> {
    FirstWith(Sort(events), IsStart())
  }

  lemma PickExists(events: seq<Event>, p: Event -> bool)
    ensures FirstWith(Sort(events), p).Some? <==> exists e :: e in events && p(e)
    ensures LastWith(Sort(events), p).Some? <==> exists e :: e in events && p(e)
    ensures FirstWith(Sort(events), p).Some? ==>
              p(FirstWith(Sort(events), p).value) && FirstWith(Sort(events), p).value in events
    ensures LastWith(Sort(events), p).Some? ==>
              p(LastWith(Sort(events), p).value) && LastWith(Sort(events), p).value in events
  {
    SortSorts(events);
    forall e ensures e in Sort(events) <==> e in events { SortElements(events, e); }
    FirstIsLeast(Sort(events), p);
    LastIsGreatest(Sort(events), p);
  }

  ghost predicate Exists(events: seq<Event>, p: Event -> bool) {
    exists e :: e in events && p(e)
  }

  /**
   A call has succeeded exactly when a success carries the name of the start, or no terminal event
   does and some success is stored; it is still running exactly when nothing terminal is stored.
   */
  lemma StatusIff(events: seq<Event>)
    ensures var start := StartOf(events);
      && (Recompute(events).status.Success? <==>
            Exists(events, MatchedSuccess(start)) || (!Exists(events, Matches(start)) && Exists(events, IsSuccess())))
      && (Recompute(events).status.Started? <==> !Exists(events, IsTerminal()))
    ensures RecomputeGroup(events).status == Recompute(events).status
  {
    var start := StartOf(events);
    PickExists(events, MatchedSuccess(start));
    PickExists(events, Matches(start));
    PickExists(events, IsSuccess());
    PickExists(events, IsTerminal());
    var last := LastWith(Sort(events), Matches(start));
    assert last.Some? && last.value.kind.Succeeded? ==> MatchedSuccess(start)(last.value);
  }

  // ---------------------------------------------------------------- what the other columns mean

  /** No event with the property is earlier, by time and then id. */
  ghost predicate Earliest(events: seq<Event>, p: Event -> bool, e: Event) {
    e in events && p(e)
    && forall x :: x in events && p(x) ==> e.time < x.time || (e.time == x.time && e.id <= x.id)
  }

  ghost predicate Latest(events: seq<Event>, p: Event -> bool, e: Event) {
    e in events && p(e)
    && forall x :: x in events && p(x) ==> x.time < e.time || (x.time == e.time && x.id <= e.id)
  }

  predicate Ends(e: Event) { e.kind.Succeeded? || e.kind.Failed? }

  /** Under the name of the start, or under any name when there is no start. */
  predicate Named(start: Option<Event>, e: Event) { start.Some? ==> e.toolName == start.value.toolName }

  /** The start of a call: its earliest `called` event, if it has one. */
  ghost predicate IsStartOf(events: seq<Event>, start: Option<Event>) {
    match start
    case None => forall e :: e in events ==> !e.kind.Called?
    case Some(s) => Earliest(events, (e: Event) => e.kind.Called?, s)
  }

  /**
   The terminal event that decides: the earliest success under the start's name; without one the
   latest terminal under that name; without one the earliest success; without one the latest terminal.
   */
  ghost predicate IsDeciding(events: seq<Event>, start: Option<Event>, terminal: Option<Event>) {
    if exists e :: e in events && Named(start, e) && e.kind.Succeeded? then
      terminal.Some? && Earliest(events, (e: Event) => Named(start, e) && e.kind.Succeeded?, terminal.value)
    else if exists e :: e in events && Named(start, e) && Ends(e) then
      terminal.Some? && Latest(events, (e: Event) => Named(start, e) && Ends(e), terminal.value)
    else if exists e :: e in events && e.kind.Succeeded? then
      terminal.Some? && Earliest(events, (e: Event) => e.kind.Succeeded?, terminal.value)
    else if exists e :: e in events && Ends(e) then
      terminal.Some? && Latest(events, (e: Event) => Ends(e), terminal.value)
    else terminal.None?
  }

  /** What a row shows of its start, its deciding terminal and the time it finished. */
  predicate Shows(row: Row, start: Option<Event>, terminal: Option<Event>, finishedAt: Option<int>) {
    && row.toolName == (if start.Some? then start.value.toolName
                        else if terminal.Some? then terminal.value.toolName else "unknown")
    && row.startedAt == (if start.Some? then Some(start.value.time) else None)
    && row.finishedAt == finishedAt
    && (row.status.Started? <==> terminal.None?)
    && (row.status.Success? <==> terminal.Some? && terminal.value.kind.Succeeded?)
    && (if terminal.Some? && terminal.value.duration.Some? then row.duration == terminal.value.duration
        else if start.Some? && finishedAt.Some? && start.value.time <= finishedAt.value
        then row.duration.Some? && start.value.time + row.duration.value == finishedAt.value
        else row.duration.None?)
  }

  /** The earliest time at which the call ended the way it ended. */
  ghost predicate IsFirstTime(events: seq<Event>, terminal: Option<Event>, at: Option<int>) {
    match terminal
    case None => at.None?
    case Some(t) =>
      && (exists e :: e in events && e.kind == t.kind && at == Some(e.time))
      && (forall e :: e in events && e.kind == t.kind ==> at.Some? && at.value <= e.time)
  }

  lemma PicksAre(events: seq<Event>, p: Event -> bool, q: Event -> bool)
    requires forall e :: e in events ==> (p(e) <==> q(e))
    ensures match FirstWith(Sort(events), p)
            case None => forall e :: e in events ==> !q(e)
            case Some(e) => Earliest(events, q, e)
    ensures match LastWith(Sort(events), p)
            case None => forall e :: e in events ==> !q(e)
            case Some(e) => Latest(events, q, e)
  {
    SortSorts(events);
    forall e ensures e in Sort(events) <==> e in events { SortElements(events, e); }
    FirstIsLeast(Sort(events), p);
    LastIsGreatest(Sort(events), p);
  }

  lemma StartIs(events: seq<Event>)
    ensures IsStartOf(events, StartOf(events))
  {
    PicksAre(events, IsStart(), (e: Event) => e.kind.Called?);
  }

  lemma DecidingIs(events: seq<Event>, start: Option<Event>)
    ensures IsDeciding(events, start, Deciding(Sort(events), start))
  {
    assert forall e :: Matches(start)(e) <==> Named(start, e) && Ends(e);
    assert forall e :: MatchedSuccess(start)(e) <==> Matches(start)(e) && e.kind.Succeeded?;
    PicksAre(events, MatchedSuccess(start), (e: Event) => Named(start, e) && e.kind.Succeeded?);
    PicksAre(events, Matches(start), (e: Event) => Named(start, e) && Ends(e));
    PicksAre(events, IsSuccess(), (e: Event) => e.kind.Succeeded?);
    PicksAre(events, IsTerminal(), (e: Event) => Ends(e));
  }

  lemma FirstTimeIs(events: seq<Event>, terminal: Option<Event>)
    requires terminal.Some? ==> terminal.value in events
    ensures IsFirstTime(events, terminal, TimeOfKind(Sort(events), terminal))
  {
    if terminal.Some? {
      var kind := terminal.value.kind;
      PicksAre(events, (e: Event) => e.kind == terminal.value.kind, (e: Event) => e.kind == kind);
    }
  }

  /** The columns of a rebuilt row, told by the events: the finish is the deciding terminal's own time. */
  lemma GroupRowMeans(events: seq<Event>) returns (start: Option<Event>, terminal: Option<Event>)
    ensures IsStartOf(events, start) && IsDeciding(events, start, terminal)
    ensures Shows(RecomputeGroup(events), start, terminal, if terminal.Some? then Some(terminal.value.time) else None)
  {
    start := StartOf(events);
    terminal := Deciding(Sort(events), start);
    StartIs(events);
    DecidingIs(events, start);
  }

  /** And of a row recomputed by itself: the finish is the earliest time of the deciding kind. */
  lemma RowMeans(events: seq<Event>) returns (start: Option<Event>, terminal: Option<Event>)
    ensures IsStartOf(events, start) && IsDeciding(events, start, terminal)
    ensures IsFirstTime(events, terminal, Recompute(events).finishedAt)
    ensures Shows(Recompute(events), start, terminal, Recompute(events).finishedAt)
  {
    start := StartOf(events);
    terminal := Deciding(Sort(events), start);
    StartIs(events);
    DecidingIs(events, start);
    FirstTimeIs(events, terminal);
    FirstTimeIs(events, start);
  }

  ghost predicate OneName(events: seq<Event>) {
    forall a, b :: a in events && b in events ==> a.toolName == b.toolName
  }

  lemma SucceededIff(events: seq<Event>)
    requires OneName(events)
    ensures Recompute(events).status.Success? <==> exists e :: e in events && e.kind.Succeeded?
  {
    StatusIff(events);
    var start := StartOf(events);
    PickExists(events, IsStart());
    SortSorts(events);
    FirstIsLeast(Sort(events), IsStart());
    if start.Some? { SortElements(events, start.value); }
    if exists e :: e in events && e.kind.Succeeded? {
      var e :| e in events && e.kind.Succeeded?;
      assert MatchedSuccess(start)(e);
    }
    if Exists(events, MatchedSuccess(start)) {
      var e :| e in events && MatchedSuccess(start)(e);
      assert e.kind.Succeeded?;
    }
    if Exists(events, IsSuccess()) {
      var e :| e in events && IsSuccess()(e);
      assert e.kind.Succeeded?;
    }
  }

  /** Recomputed by itself, a succeeded call is not made failed by any event that comes later. */
  lemma SuccessIsFinal(events: seq<Event>, more: seq<Event>)
    requires OneName(events + more) && Recompute(events).status.Success?
    ensures Recompute(events + more).status.Success?
  {
    assert OneName(events) by {
      forall a, b | a in events && b in events ensures a.toolName == b.toolName {
        assert a in events + more && b in events + more;
      }
    }
    SucceededIff(events);
    SucceededIff(events + more);
    var e :| e in events && e.kind.Succeeded?;
    assert e in events + more;
  }

  /**
   Whatever the names: once a success is stored, the call shows success after more events if and only if
   some success carries the name of the start, or no terminal event does.
   */
  lemma StoredSuccessIff(events: seq<Event>, more: seq<Event>)
    requires Exists(events, IsSuccess())
    ensures var all := events + more; var start := StartOf(all);
      && (Recompute(all).status.Success? <==> Exists(all, MatchedSuccess(start)) || !Exists(all, Matches(start)))
      && RecomputeGroup(all).status == Recompute(all).status
  {
    StatusIff(events + more);
    var e :| e in events && IsSuccess()(e);
    assert e in events + more;
  }

  /** Without consistent names success can be taken back: a failure under the start's name outranks it. */
  lemma SuccessCanBeLost(start: Event, success: Event, failure: Event)
    requires start.kind.Called? && success.kind.Succeeded? && failure.kind.Failed?
    requires success.toolName != start.toolName && failure.toolName == start.toolName
    ensures Recompute([start, success]).status.Success?
    ensures Recompute([start, success, failure]).status.Failure?
  {
    StatusIff([start, success]);
    StatusIff([start, success, failure]);
    OnlyStart([start, success], start);
    OnlyStart([start, success, failure], start);
    assert success in [start, success] && IsSuccess()(success);
    assert failure in [start, success, failure] && Matches(Some(start))(failure) && IsTerminal()(failure);
  }

  lemma OnlyStart(events: seq<Event>, start: Event)
    requires start in events && forall e :: e in events ==> (e.kind.Called? <==> e == start)
    ensures StartOf(events) == Some(start)
  {
    PickExists(events, IsStart());
    SortSorts(events);
    FirstIsLeast(Sort(events), IsStart());
    SortElements(events, StartOf(events).value);
  }

  // ---------------------------------------------------------------- the table as events arrive

  function OfCall(events: seq<Event>, call: CallId): seq<Event>
    decreases |events|
  {
    if events == [] then []
    else
      var last := events[|events| - 1];
      OfCall(events[..|events| - 1], call) + if last.call == call then [last] else []
  }

  function WithId(events: seq<Event>, id: int): Option<Event> {
    FirstWith(events, (e: Event) => e.id == id)
  }

  datatype Tables = Tables(stored: seq<Event>, rows: map<CallId, Row>)

  /** Insert-if-absent; a differing event under a known id is a conflict and recomputes nothing. */
  function Observe(t: Tables, e: Event): Tables {
    var known := WithId(t.stored, e.id);
    if known.Some? && known.value != e then t
    else
      var stored := if known.Some? then t.stored else t.stored + [e];
      Tables(stored, t.rows[e.call := Recompute(OfCall(stored, e.call))])
  }

  function ObserveAll(events: seq<Event>): Tables
    decreases |events|
  {
    if events == [] then Tables([], map[])
    else Observe(ObserveAll(events[..|events| - 1]), events[|events| - 1])
  }

  ghost predicate RowsOk(t: Tables) {
    forall call :: RowOk(t, call)
  }

  lemma {:induction false} OfCallIs(events: seq<Event>, call: CallId, x: Event)
    ensures x in OfCall(events, call) <==> x in events && x.call == call
    decreases |events|
  {
    if events != [] {
      var before, last := events[..|events| - 1], events[|events| - 1];
      assert events == before + [last];
      OfCallIs(before, call, x);
      assert OfCall(events, call) == if last.call == call then OfCall(before, call) + [last] else OfCall(before, call);
    }
  }

  lemma OfCallAppend(events: seq<Event>, e: Event, call: CallId)
    ensures OfCall(events + [e], call) == if e.call == call then OfCall(events, call) + [e] else OfCall(events, call)
  {
    assert (events + [e])[..|events|] == events;
    assert OfCall(events, call) + [] == OfCall(events, call);
  }

  lemma {:induction false} WithIdIs(events: seq<Event>, id: int)
    ensures match WithId(events, id)
            case None => forall x :: x in events ==> x.id != id
            case Some(e) => e in events && e.id == id
    decreases |events|
  {
    if events != [] {
      WithIdIs(events[..|events| - 1], id);
      assert events == events[..|events| - 1] + [events[|events| - 1]];
    }
  }

  /** What is stored and which row is recomputed. */
  lemma ObserveIs(t: Tables, e: Event)
    ensures var t' := Observe(t, e);
      || t' == t
      || (t'.rows == t.rows[e.call := Recompute(OfCall(t'.stored, e.call))]
          && (t'.stored == t.stored || t'.stored == t.stored + [e]) && e in t'.stored)
  {
    WithIdIs(t.stored, e.id);
  }

  ghost predicate RowOk(t: Tables, call: CallId) {
    && (call in t.rows <==> exists e :: e in t.stored && e.call == call)
    && (call in t.rows ==> t.rows[call] == Recompute(OfCall(t.stored, call)))
  }

  lemma ObserveKeepsRow(t: Tables, e: Event, call: CallId)
    requires RowOk(t, call)
    ensures RowOk(Observe(t, e), call)
  {
    var t' := Observe(t, e);
    ObserveIs(t, e);
    OfCallAppend(t.stored, e, call);
    if call in t.rows {
      var x :| x in t.stored && x.call == call;
      assert x in t'.stored;
    }
  }

  lemma ObserveKeepsRows(t: Tables, e: Event)
    requires RowsOk(t)
    ensures RowsOk(Observe(t, e))
  {
    forall call ensures RowOk(Observe(t, e), call) {
      assert RowOk(t, call);
      ObserveKeepsRow(t, e, call);
    }
  }

  /** Every observed event is stored unless it conflicts, and every row is recomputed from what is stored. */
  lemma {:induction false} RunRows(events: seq<Event>)
    requires IdsName(events)
    ensures RowsOk(ObserveAll(events)) && SameEvents(ObserveAll(events).stored, events)
    decreases |events|
  {
    if events != [] {
      var before, e := events[..|events| - 1], events[|events| - 1];
      assert events == before + [e];
      RunRows(before);
      var t := ObserveAll(before);
      ObserveKeepsRows(t, e);
      WithIdIs(t.stored, e.id);
    }
  }

  ghost predicate IdsOnce(events: seq<Event>) {
    forall i, j :: 0 <= i < j < |events| ==> events[i].id != events[j].id
  }

  lemma IdsOnceAppend(events: seq<Event>, e: Event)
    requires IdsOnce(events) && forall x :: x in events ==> x.id != e.id
    ensures IdsOnce(events + [e])
  {
    forall i | 0 <= i < |events| ensures events[i].id != e.id { assert events[i] in events; }
  }

  /** No event id is stored twice, whatever repeats or conflicts. */
  lemma {:induction false} StoredOnce(events: seq<Event>)
    ensures IdsOnce(ObserveAll(events).stored)
    decreases |events|
  {
    if events != [] {
      var t, e := ObserveAll(events[..|events| - 1]), events[|events| - 1];
      StoredOnce(events[..|events| - 1]);
      WithIdIs(t.stored, e.id);
      if WithId(t.stored, e.id).None? { IdsOnceAppend(t.stored, e); }
    }
  }

  lemma SameCallRow(s: seq<Event>, t: seq<Event>, call: CallId)
    requires SameEvents(s, t) && IdsName(s)
    ensures Recompute(OfCall(s, call)) == Recompute(OfCall(t, call))
  {
    var x, y := OfCall(s, call), OfCall(t, call);
    forall e ensures (e in x <==> e in s && e.call == call) && (e in y <==> e in t && e.call == call) {
      OfCallIs(s, call, e);
      OfCallIs(t, call, e);
    }
    OrderDoesNotMatter(x, y);
  }

  /** Arrival order and repetition leave no trace in calls recomputed one by one. */
  lemma ArrivalOrderDoesNotMatter(a: seq<Event>, b: seq<Event>)
    requires IdsName(a) && SameEvents(a, b)
    ensures ObserveAll(a).rows == ObserveAll(b).rows
  {
    RunRows(a);
    RunRows(b);
    var s, t := ObserveAll(a), ObserveAll(b);
    assert SameEvents(s.stored, t.stored) && IdsName(s.stored);
    forall call
      ensures call in s.rows <==> call in t.rows
      ensures call in s.rows ==> s.rows[call] == t.rows[call]
    {
      assert RowOk(s, call) && RowOk(t, call);
      SameCallRow(s.stored, t.stored, call);
    }
    assert s.rows == t.rows;
  }

  /** On names that agree, a call once stored as succeeded is succeeded at every later point of the run. */
  lemma SucceededStays(events: seq<Event>, more: seq<Event>, call: CallId)
    requires IdsName(events + more) && OneName(OfCall(events + more, call))
    requires call in ObserveAll(events).rows && ObserveAll(events).rows[call].status.Success?
    ensures call in ObserveAll(events + more).rows && ObserveAll(events + more).rows[call].status.Success?
  {
    var all := events + more;
    assert IdsName(events) by {
      forall x, y | x in events && y in events && x.id == y.id ensures x == y { assert x in all && y in all; }
    }
    RunRows(events);
    RunRows(all);
    var s, t := ObserveAll(events), ObserveAll(all);
    forall x ensures x in OfCall(s.stored, call) ==> x in OfCall(t.stored, call) && x in OfCall(all, call) {
      OfCallIs(s.stored, call, x);
      OfCallIs(t.stored, call, x);
      OfCallIs(all, call, x);
      if x in events { assert x in all; }
    }
    forall x ensures x in OfCall(t.stored, call) <==> x in OfCall(all, call) {
      OfCallIs(t.stored, call, x);
      OfCallIs(all, call, x);
    }
    assert RowOk(s, call) && RowOk(t, call);
    var x :| x in s.stored && x.call == call;
    assert x in events && x in all;
    assert x in t.stored;
    SucceededIff(OfCall(s.stored, call));
    SucceededIff(OfCall(t.stored, call));
  }
}
