/**
 When a session started and ended, merged from its events as they are projected
 (apps/core/src/domain-projection.ts `ensureSession`).
 */
module SessionAnchors {
  import opened Common

  datatype Event = Started(time: int) | Ended(time: int, exitCode: Option<int>) | Other(time: int)

  datatype Session = Session(startedAt: Option<int>, endedAt: Option<int>, exitCode: Option<int>)

  function EndOf(e: Event): Option<int> { if e.Ended? then Some(e.time) else None }
  function ExitOf(e: Event): Option<int> { if e.Ended? then e.exitCode else None }

  /** Insert the row, or merge into the one that is there. */
  function Ensure(row: Option<Session>, e: Event): Session {
    if row.None? then Session(Some(e.time), EndOf(e), ExitOf(e))
    else
      var s := row.value;
      Session(
        if e.Started? then
          if s.startedAt.None? || e.time < s.startedAt.value then Some(e.time) else s.startedAt
        else if s.startedAt.Some? then s.startedAt else Some(e.time),
        if EndOf(e).None? then s.endedAt
        else if s.endedAt.None? || EndOf(e).value > s.endedAt.value then EndOf(e) else s.endedAt,
        if ExitOf(e).Some? then ExitOf(e) else s.exitCode)
  }

  function EnsureAll(events: seq<Event>): Option<Session>
    decreases |events|
  {
    if events == [] then None
    else Some(Ensure(EnsureAll(events[..|events| - 1]), events[|events| - 1]))
  }

  /** A bound that some element reaches. */
  ghost predicate IsLeast(events: seq<Event>, p: Event -> bool, n: int) {
    && (exists i :: 0 <= i < |events| && p(events[i]) && events[i].time == n)
    && (forall i :: 0 <= i < |events| && p(events[i]) ==> n <= events[i].time)
  }

  ghost predicate IsGreatest(events: seq<Event>, p: Event -> bool, n: int) {
    && (exists i :: 0 <= i < |events| && p(events[i]) && events[i].time == n)
    && (forall i :: 0 <= i < |events| && p(events[i]) ==> events[i].time <= n)
  }

  /** Only announcements and the event that came first count for the start. */
  predicate Anchors(events: seq<Event>, i: nat)
    requires i < |events|
  {
    i == 0 || events[i].Started?
  }

  /** The start is the earliest of the first event and all announcements, in whatever order they came. */
  lemma {:induction false} StartIsEarliestAnchor(events: seq<Event>)
    requires events != []
    ensures EnsureAll(events).Some? && EnsureAll(events).value.startedAt.Some?
    ensures var start := EnsureAll(events).value.startedAt.value;
      && (exists i :: 0 <= i < |events| && Anchors(events, i) && events[i].time == start)
      && (forall i :: 0 <= i < |events| && Anchors(events, i) ==> start <= events[i].time)
    decreases |events|
  {
    var before, e := events[..|events| - 1], events[|events| - 1];
    assert Anchors(events, 0);
    if before != [] {
      StartIsEarliestAnchor(before);
      var start := EnsureAll(before).value.startedAt.value;
      var i :| 0 <= i < |before| && Anchors(before, i) && before[i].time == start;
      assert Anchors(events, i) && events[i].time == start;
      forall k | 0 <= k < |events| && Anchors(events, k)
        ensures EnsureAll(events).value.startedAt.value <= events[k].time
      {
        if k < |before| { assert Anchors(before, k); }
      }
      if e.Started? { assert Anchors(events, |events| - 1); }
    }
  }

  predicate ReportsExit(e: Event) { e.Ended? && e.exitCode.Some? }

  /** The end is the latest session end, and the exit code the last one reported. */
  lemma {:induction false} EndIsLatest(events: seq<Event>)
    requires events != []
    ensures EnsureAll(events).Some?
    ensures match EnsureAll(events).value.endedAt
            case None => forall i :: 0 <= i < |events| ==> !events[i].Ended?
            case Some(end) => IsGreatest(events, (e: Event) => e.Ended?, end)
    ensures match EnsureAll(events).value.exitCode
            case None => forall i :: 0 <= i < |events| ==> !ReportsExit(events[i])
            case Some(code) => exists i :: 0 <= i < |events| && ReportsExit(events[i]) && events[i].exitCode == Some(code)
                                 && forall k :: i < k < |events| ==> !ReportsExit(events[k])
    decreases |events|
  {
    var before, e := events[..|events| - 1], events[|events| - 1];
    if before != [] {
      EndIsLatest(before);
      assert forall i :: 0 <= i < |before| ==> events[i] == before[i];
      var s := EnsureAll(before).value;
      if !ReportsExit(e) && s.exitCode.Some? {
        var i :| 0 <= i < |before| && ReportsExit(before[i]) && before[i].exitCode == s.exitCode
                 && forall k :: i < k < |before| ==> !ReportsExit(before[k]);
        assert ReportsExit(events[i]);
      }
    }
    assert events[|events| - 1] == e;
  }

  /**
   When the first event announces the session, later events cannot drag the start: it is the earliest
   announcement.
   */
  lemma AnchoredStart(events: seq<Event>)
    requires events != [] && events[0].Started?
    ensures EnsureAll(events).Some? && EnsureAll(events).value.startedAt.Some?
    ensures IsLeast(events, (e: Event) => e.Started?, EnsureAll(events).value.startedAt.value)
  {
    StartIsEarliestAnchor(events);
    forall i | 0 <= i < |events| ensures Anchors(events, i) <==> events[i].Started? {}
  }

  // ---------------------------------------------------------------- the order of the events

  function StartOf(events: seq<Event>): Option<int> {
    if EnsureAll(events).Some? then EnsureAll(events).value.startedAt else None
  }

  /** Every other event is preceded or matched in time by an announcement. */
  ghost predicate Announced(events: seq<Event>) {
    forall e :: e in events && !e.Started? ==> exists s :: s in events && s.Started? && s.time <= e.time
  }

  ghost predicate OneTime(events: seq<Event>) {
    forall a, b :: a in events && b in events ==> a.time == b.time
  }

  ghost predicate Reordered(events: seq<Event>, other: seq<Event>) {
    multiset(other) == multiset(events)
  }

  lemma SameElements(events: seq<Event>, other: seq<Event>)
    requires Reordered(events, other)
    ensures forall e :: e in events <==> e in other
    ensures |events| == |other|
  {
    assert forall e :: e in events <==> e in multiset(events);
    assert forall e :: e in other <==> e in multiset(other);
    assert |multiset(events)| == |multiset(other)|;
  }

  /** What the start is, told by the elements of the list. */
  lemma StartBounds(events: seq<Event>)
    requires events != []
    ensures StartOf(events).Some?
    ensures exists e :: e in events && (e == events[0] || e.Started?) && e.time == StartOf(events).value
    ensures StartOf(events).value <= events[0].time
    ensures forall e :: e in events && e.Started? ==> StartOf(events).value <= e.time
  {
    StartIsEarliestAnchor(events);
    var i :| 0 <= i < |events| && Anchors(events, i) && events[i].time == StartOf(events).value;
    assert events[i] in events;
    assert Anchors(events, 0);
    forall e | e in events && e.Started? ensures StartOf(events).value <= e.time {
      var k :| 0 <= k < |events| && events[k] == e;
      assert Anchors(events, k);
    }
  }

  /** In an announced list some announcement has the time of the start. */
  lemma StartIsAnnounced(events: seq<Event>)
    requires events != [] && Announced(events)
    ensures StartOf(events).Some? && exists s :: s in events && s.Started? && s.time == StartOf(events).value
  {
    StartBounds(events);
    var e :| e in events && (e == events[0] || e.Started?) && e.time == StartOf(events).value;
    if !e.Started? {
      var s :| s in events && s.Started? && s.time <= e.time;
    }
  }

  function MovedFirst(events: seq<Event>, i: nat): seq<Event>
    requires i < |events|
  {
    [events[i]] + events[..i] + events[i + 1..]
  }

  lemma MovedIsReordered(events: seq<Event>, i: nat)
    requires i < |events|
    ensures Reordered(events, MovedFirst(events, i))
  {
    assert events == events[..i] + [events[i]] + events[i + 1..];
  }

  /** Moving one or the other of two events to the front gives two starts when one of them is not announced. */
  lemma FrontDecides(events: seq<Event>, i: nat, k: nat)
    requires i < |events| && k < |events| && events[i].time != events[k].time
    requires forall s :: s in events && s.Started? ==> events[i].time < s.time
    ensures StartOf(MovedFirst(events, i)) != StartOf(MovedFirst(events, k))
  {
    var a, b := MovedFirst(events, i), MovedFirst(events, k);
    MovedIsReordered(events, i);
    MovedIsReordered(events, k);
    SameElements(events, a);
    SameElements(events, b);
    StartBounds(a);
    StartBounds(b);
  }

  /**
   A session's start is the same in every order of its events if and only if each event that is no
   announcement is preceded or matched in time by one, or all events have one time.
   */
  lemma ReorderIff(events: seq<Event>)
    requires events != []
    ensures (forall other | Reordered(events, other) :: StartOf(other) == StartOf(events))
            <==> Announced(events) || OneTime(events)
  {
    if Announced(events) || OneTime(events) {
      forall other | Reordered(events, other) ensures StartOf(other) == StartOf(events) {
        SameElements(events, other);
        StartBounds(events);
        StartBounds(other);
        if Announced(events) {
          assert Announced(other);
          StartIsAnnounced(events);
          StartIsAnnounced(other);
        }
      }
    } else {
      var e :| e in events && !e.Started? && forall s :: s in events && s.Started? ==> e.time < s.time;
      var i :| 0 <= i < |events| && events[i] == e;
      var k :| 0 <= k < |events| && events[k].time != e.time;
      FrontDecides(events, i, k);
      MovedIsReordered(events, i);
      MovedIsReordered(events, k);
    }
  }
}
