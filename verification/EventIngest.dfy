/**
 The event log, the tables and the stored cursor as one system
 (apps/core/src/event-log-projector.ts, raw-ingest.ts, event-log-rotation.ts).

 The log grows, bounded ingests read from the cursor and commit tables and cursor together, an
 ingest may be lost before its transaction commits, the cursor row may become unreadable, and the
 file may be replaced.  Reading is at-least-once; the lemmas show the effect is exactly-once.

 `read` stands for parsing and normalising a line, which also sees the line's byte offset.
 */
module EventIngest {
  import opened Common
  import opened EventLogReader
  import opened UsageProjection

  type LineReader = (seq<byte>, nat) -> Option<Event>

  /** `mark` and `seen` are history: how far the current file was ever committed, and what was read on first sight. */
  datatype State = State(
    file: seq<byte>,
    birth: int,
    tables: Tables,
    cursor: Option<Cursor>,
    mark: nat,
    seen: seq<Event>)

  datatype Step =
    | Append(bytes: seq<byte>)
    | Ingest(got: nat)
    | LostIngest(got: nat)
    | LoseCursor
    | Replace(content: seq<byte>, newBirth: int)

  function Init(file: seq<byte>, birth: int): State {
    State(file, birth, EMPTY, None, 0, [])
  }

  // ---------------------------------------------------------------- the events of a stretch

  function EventsOf(read: LineReader, records: seq<LineRecord>): seq<Event>
    decreases |records|
  {
    if records == [] then []
    else
      var e := read(records[0].line, records[0].offsetBytes);
      (if e.Some? then [e.value] else []) + EventsOf(read, records[1..])
  }

  function Lines(read: LineReader, file: seq<byte>, from: nat, to: nat): seq<Event>
    requires from <= to <= |file|
  {
    EventsOf(read, Split(file, from, to))
  }

  lemma {:induction false} EventsOfConcat(read: LineReader, a: seq<LineRecord>, b: seq<LineRecord>)
    ensures EventsOf(read, a + b) == EventsOf(read, a) + EventsOf(read, b)
    decreases |a|
  {
    if a == [] {
      assert a + b == b;
    } else {
      EventsOfConcat(read, a[1..], b);
      assert (a + b)[1..] == a[1..] + b;
      var e := read(a[0].line, a[0].offsetBytes);
      Associate(if e.Some? then [e.value] else [], EventsOf(read, a[1..]), EventsOf(read, b));
    }
  }

  /** The file read up to here ends with a complete line. */
  predicate Boundary(file: seq<byte>, n: nat) {
    n <= |file| && Committed(file, 0, n) == n
  }

  lemma BoundarySplit(read: LineReader, file: seq<byte>, from: nat, mid: nat, to: nat)
    requires from <= mid <= to <= |file| && Boundary(file, from) && Boundary(file, mid)
    ensures Lines(read, file, from, to) == Lines(read, file, from, mid) + Lines(read, file, mid, to)
    ensures Committed(file, from, mid) == mid
  {
    SplitExtends(file, 0, from, mid);
    SplitExtends(file, from, mid, to);
    EventsOfConcat(read, Split(file, from, mid), Split(file, mid, to));
  }

  lemma CommittedIsBoundary(file: seq<byte>, from: nat, to: nat)
    requires from <= to <= |file| && Boundary(file, from)
    ensures Boundary(file, Committed(file, from, to))
  {
    SplitExtends(file, 0, from, to);
    CommittedTwice(file, 0, to);
  }

  lemma {:induction false} CommittedTwice(file: seq<byte>, from: nat, to: nat)
    requires from <= to <= |file|
    ensures Committed(file, from, Committed(file, from, to)) == Committed(file, from, to)
    decreases if from <= to then to - from else 0
  {
    var k := FirstNewline(file, from, to);
    if k < to {
      CommittedTwice(file, k + 1, to);
      SplitFirst(file, from, Committed(file, from, to), k);
    } else {
      SplitNothing(file, from, from);
    }
  }

  lemma AppendKeepsPrefix(file: seq<byte>, more: seq<byte>, from: nat, to: nat)
    requires from <= to <= |file|
    ensures Split(file + more, from, to) == Split(file, from, to)
    ensures Committed(file + more, from, to) == Committed(file, from, to)
  {
    SplitLocal(file, file + more, from, to);
  }

  lemma SplitCommitted(file: seq<byte>, from: nat, to: nat)
    requires from <= to <= |file|
    ensures Split(file, from, Committed(file, from, to)) == Split(file, from, to)
  {
    var c := Committed(file, from, to);
    CommittedTwice(file, from, to);
    SplitExtends(file, from, c, to);
    SplitNothing(file, c, to);
    assert Split(file, from, c) + [] == Split(file, from, c);
  }

  // ---------------------------------------------------------------- steps

  function Start(hash: Hash, s: State): (n: nat)
    ensures n <= |s.file|
  {
    StartOf(hash, s.birth, s.file, s.cursor)
  }

  /** Where the bytes of one ingest end. */
  function Window(hash: Hash, s: State, got: nat): (to: nat)
    ensures Start(hash, s) <= to <= |s.file|
  {
    Start(hash, s) + Min(got, |s.file| - Start(hash, s))
  }

  /** How far the lines of one ingest reach. */
  function Reach(hash: Hash, s: State, got: nat): (n: nat)
    ensures Start(hash, s) <= n <= |s.file|
  {
    Committed(s.file, Start(hash, s), Window(hash, s, got))
  }

  /** The events of the lines one ingest reads. */
  function Taken(hash: Hash, read: LineReader, s: State, got: nat): seq<Event> {
    Lines(read, s.file, Start(hash, s), Window(hash, s, got))
  }

  /** One ingest: what the reader returned is projected and the new cursor stored, in one transaction. */
  function IngestOnce(hash: Hash, read: LineReader, s: State, got: nat): State {
    var reach := Reach(hash, s, got);
    s.(tables := ProjectAll(s.tables, Taken(hash, read, s, got)),
       cursor := Some(CursorAt(hash, s.birth, s.file, reach)),
       mark := if reach > s.mark then reach else s.mark,
       seen := if reach > s.mark then s.seen + Lines(read, s.file, s.mark, reach) else s.seen)
  }

  function Next(hash: Hash, read: LineReader, s: State, step: Step): State {
    match step
    case Append(bytes) => s.(file := s.file + bytes)
    case Ingest(got) => IngestOnce(hash, read, s, got)
    case LostIngest(got) => s
    case LoseCursor => s.(cursor := None)
    case Replace(content, newBirth) => s.(file := content, birth := newBirth, mark := 0)
  }

  /** A replaced file is younger than the one it replaces. */
  predicate Allowed(s: State, step: Step) {
    step.Replace? ==> step.newBirth > s.birth
  }

  ghost predicate AllKnown(seen: seq<Event>, events: seq<Event>) {
    forall i :: 0 <= i < |events| ==> First(seen, events[i].id).Some?
  }

  predicate CursorOk(s: State) {
    s.cursor.Some? ==>
      var c := s.cursor.value;
      || c.identity.birth < s.birth
      || (c.identity.birth == s.birth && c.committedOffset <= s.mark && Boundary(s.file, c.committedOffset))
  }

  ghost predicate SystemInv(read: LineReader, s: State) {
    && Boundary(s.file, s.mark)
    && CursorOk(s)
    && Reflects(s.tables, s.seen)
    && AllKnown(s.seen, Lines(read, s.file, 0, s.mark))
  }

  // ---------------------------------------------------------------- projecting a list

  lemma {:induction false} ProjectAllConcat(t: Tables, a: seq<Event>, b: seq<Event>)
    ensures ProjectAll(t, a + b) == ProjectAll(ProjectAll(t, a), b)
    decreases |b|
  {
    if b == [] {
      assert a + b == a;
    } else {
      ProjectAllConcat(t, a, b[..|b| - 1]);
      assert (a + b)[..|a + b| - 1] == a + b[..|b| - 1];
    }
  }

  /** Events whose ids are known leave the image of the log as it is. */
  lemma {:induction false} RepeatReflects(t: Tables, seen: seq<Event>, events: seq<Event>)
    requires Reflects(t, seen) && AllKnown(seen, events)
    ensures Reflects(ProjectAll(t, events), seen)
    decreases |events|
  {
    if events != [] {
      var before, e := events[..|events| - 1], events[|events| - 1];
      RepeatReflects(t, seen, before);
      StepReflects(ProjectAll(t, before), seen, e);
    }
  }

  lemma {:induction false} NewReflects(t: Tables, seen: seq<Event>, events: seq<Event>)
    requires Reflects(t, seen)
    ensures Reflects(ProjectAll(t, events), seen + events)
    decreases |events|
  {
    if events == [] {
      assert seen + events == seen;
    } else {
      var before, e := events[..|events| - 1], events[|events| - 1];
      NewReflects(t, seen, before);
      StepReflects(ProjectAll(t, before), seen + before, e);
      assert seen + events == (seen + before) + [e];
    }
  }

  lemma {:induction false} FirstConcat(a: seq<Event>, b: seq<Event>, id: EventId)
    ensures First(a + b, id) == if First(a, id).Some? then First(a, id) else First(b, id)
    decreases |b|
  {
    if b == [] {
      assert a + b == a;
    } else {
      FirstConcat(a, b[..|b| - 1], id);
      assert (a + b)[..|a + b| - 1] == a + b[..|b| - 1];
    }
  }

  lemma KnownConcat(seen: seq<Event>, a: seq<Event>, b: seq<Event>)
    ensures AllKnown(seen, a + b) <==> AllKnown(seen, a) && AllKnown(seen, b)
  {
    if AllKnown(seen, a + b) {
      forall i | 0 <= i < |a| ensures First(seen, a[i].id).Some? { assert (a + b)[i] == a[i]; }
      forall i | 0 <= i < |b| ensures First(seen, b[i].id).Some? { assert (a + b)[|a| + i] == b[i]; }
    }
  }

  lemma KnownExtends(seen: seq<Event>, more: seq<Event>, events: seq<Event>)
    requires AllKnown(seen, events)
    ensures AllKnown(seen + more, events + more)
  {
    forall i | 0 <= i < |events + more| ensures First(seen + more, (events + more)[i].id).Some? {
      FirstConcat(seen, more, (events + more)[i].id);
      if i >= |events| {
        OccursFirst(more, i - |events|);
      }
    }
  }

  // ---------------------------------------------------------------- every step keeps the invariant

  lemma StartIsBoundary(hash: Hash, read: LineReader, s: State)
    requires SystemInv(read, s)
    ensures Start(hash, s) <= s.mark && Boundary(s.file, Start(hash, s))
  {
    SplitNothing(s.file, 0, 0);
  }

  /** What an ingest projects, in terms of line boundaries. */
  lemma IngestShape(hash: Hash, read: LineReader, s: State, got: nat)
    requires SystemInv(read, s)
    ensures var start, reach := Start(hash, s), Reach(hash, s, got);
      && start <= s.mark && Boundary(s.file, start) && Boundary(s.file, reach)
      && Taken(hash, read, s, got) == Lines(read, s.file, start, reach)
  {
    StartIsBoundary(hash, read, s);
    StretchShape(read, s.file, Start(hash, s), Window(hash, s, got));
  }

  lemma StretchShape(read: LineReader, file: seq<byte>, from: nat, to: nat)
    requires from <= to <= |file| && Boundary(file, from)
    ensures Boundary(file, Committed(file, from, to))
    ensures Lines(read, file, from, to) == Lines(read, file, from, Committed(file, from, to))
  {
    CommittedIsBoundary(file, from, to);
    SplitCommitted(file, from, to);
  }

  lemma KnownStretch(read: LineReader, file: seq<byte>, seen: seq<Event>, from: nat, to: nat, mark: nat)
    requires from <= to <= mark <= |file| && Boundary(file, from) && Boundary(file, to) && Boundary(file, mark)
    requires AllKnown(seen, Lines(read, file, 0, mark))
    ensures AllKnown(seen, Lines(read, file, from, to))
  {
    SplitNothing(file, 0, 0);
    BoundarySplit(read, file, 0, from, mark);
    BoundarySplit(read, file, from, to, mark);
    KnownConcat(seen, Lines(read, file, 0, from), Lines(read, file, from, mark));
    KnownConcat(seen, Lines(read, file, from, to), Lines(read, file, to, mark));
  }

  /** At-least-once reading: whatever the cursor makes the reader read again changes nothing it should not. */
  lemma IngestReflects(hash: Hash, read: LineReader, s: State, got: nat)
    requires SystemInv(read, s)
    ensures Reflects(IngestOnce(hash, read, s, got).tables, IngestOnce(hash, read, s, got).seen)
  {
    IngestShape(hash, read, s, got);
    var start, reach := Start(hash, s), Reach(hash, s, got);
    if reach <= s.mark {
      KnownStretch(read, s.file, s.seen, start, reach, s.mark);
      RepeatReflects(s.tables, s.seen, Lines(read, s.file, start, reach));
    } else {
      var again, more := Lines(read, s.file, start, s.mark), Lines(read, s.file, s.mark, reach);
      KnownStretch(read, s.file, s.seen, start, s.mark, s.mark);
      RepeatReflects(s.tables, s.seen, again);
      NewReflects(ProjectAll(s.tables, again), s.seen, more);
      BoundarySplit(read, s.file, start, s.mark, reach);
      ProjectAllConcat(s.tables, again, more);
    }
  }

  lemma IngestInv(hash: Hash, read: LineReader, s: State, got: nat)
    requires SystemInv(read, s)
    ensures SystemInv(read, IngestOnce(hash, read, s, got))
  {
    IngestShape(hash, read, s, got);
    IngestReflects(hash, read, s, got);
    var reach := Reach(hash, s, got);
    if reach > s.mark {
      MarkMoves(read, s.file, s.seen, s.mark, reach);
    }
  }

  lemma MarkMoves(read: LineReader, file: seq<byte>, seen: seq<Event>, mark: nat, reach: nat)
    requires mark <= reach <= |file| && Boundary(file, mark) && Boundary(file, reach)
    requires AllKnown(seen, Lines(read, file, 0, mark))
    ensures AllKnown(seen + Lines(read, file, mark, reach), Lines(read, file, 0, reach))
  {
    SplitNothing(file, 0, 0);
    BoundarySplit(read, file, 0, mark, reach);
    KnownExtends(seen, Lines(read, file, mark, reach), Lines(read, file, 0, mark));
  }

  lemma AppendInv(read: LineReader, s: State, bytes: seq<byte>)
    requires SystemInv(read, s)
    ensures SystemInv(read, s.(file := s.file + bytes))
  {
    AppendKeepsPrefix(s.file, bytes, 0, s.mark);
    if s.cursor.Some? && s.cursor.value.committedOffset <= |s.file| {
      AppendKeepsPrefix(s.file, bytes, 0, s.cursor.value.committedOffset);
    }
  }

  lemma ReplaceInv(read: LineReader, s: State, content: seq<byte>, newBirth: int)
    requires SystemInv(read, s) && newBirth > s.birth
    ensures SystemInv(read, s.(file := content, birth := newBirth, mark := 0))
  {
    SplitNothing(content, 0, 0);
  }

  lemma NextInv(hash: Hash, read: LineReader, s: State, step: Step)
    requires SystemInv(read, s) && Allowed(s, step)
    ensures SystemInv(read, Next(hash, read, s, step))
  {
    match step
    case Append(bytes) => AppendInv(read, s, bytes);
    case Ingest(got) => IngestInv(hash, read, s, got);
    case LostIngest(got) =>
    case LoseCursor =>
    case Replace(content, newBirth) => ReplaceInv(read, s, content, newBirth);
  }

  lemma InitInv(read: LineReader, file: seq<byte>, birth: int)
    ensures SystemInv(read, Init(file, birth))
  {
    SplitNothing(file, 0, 0);
    EmptyReflects();
  }

  // ---------------------------------------------------------------- runs

  function Exec(hash: Hash, read: LineReader, s: State, steps: seq<Step>): State
    decreases |steps|
  {
    if steps == [] then s
    else Next(hash, read, Exec(hash, read, s, steps[..|steps| - 1]), steps[|steps| - 1])
  }

  ghost predicate Run(hash: Hash, read: LineReader, s: State, steps: seq<Step>) {
    forall i :: 0 <= i < |steps| ==> Allowed(Exec(hash, read, s, steps[..i]), steps[i])
  }

  lemma RunPrefix(hash: Hash, read: LineReader, s: State, steps: seq<Step>)
    requires Run(hash, read, s, steps) && steps != []
    ensures Run(hash, read, s, steps[..|steps| - 1])
    ensures Allowed(Exec(hash, read, s, steps[..|steps| - 1]), steps[|steps| - 1])
  {
    var before := steps[..|steps| - 1];
    forall i | 0 <= i < |before| ensures Allowed(Exec(hash, read, s, before[..i]), before[i]) {
      assert before[..i] == steps[..i];
      assert Allowed(Exec(hash, read, s, steps[..i]), steps[i]);
    }
  }

  lemma {:induction false} ReachableInv(hash: Hash, read: LineReader, file: seq<byte>, birth: int, steps: seq<Step>)
    requires Run(hash, read, Init(file, birth), steps)
    ensures SystemInv(read, Exec(hash, read, Init(file, birth), steps))
    decreases |steps|
  {
    if steps == [] {
      InitInv(read, file, birth);
    } else {
      RunPrefix(hash, read, Init(file, birth), steps);
      var before := steps[..|steps| - 1];
      ReachableInv(hash, read, file, birth, before);
      NextInv(hash, read, Exec(hash, read, Init(file, birth), before), steps[|steps| - 1]);
    }
  }

  /** While the file only grows, what was read on first sight is exactly its lines up to the mark. */
  predicate SeenIsPrefix(read: LineReader, s: State)
    requires s.mark <= |s.file|
  {
    s.seen == Lines(read, s.file, 0, s.mark)
  }

  /** While the file only grows, a stored cursor is one of this file. */
  predicate OwnCursor(s: State) {
    s.cursor.Some? ==> s.cursor.value.identity.birth == s.birth
  }

  lemma NextSeen(hash: Hash, read: LineReader, s: State, step: Step)
    requires SystemInv(read, s) && SeenIsPrefix(read, s) && OwnCursor(s) && !step.Replace?
    ensures Next(hash, read, s, step).mark <= |Next(hash, read, s, step).file|
    ensures SeenIsPrefix(read, Next(hash, read, s, step)) && OwnCursor(Next(hash, read, s, step))
  {
    if step.Append? {
      AppendKeepsPrefix(s.file, step.bytes, 0, s.mark);
    } else if step.Ingest? {
      IngestShape(hash, read, s, step.got);
      if Reach(hash, s, step.got) > s.mark {
        SplitNothing(s.file, 0, 0);
        BoundarySplit(read, s.file, 0, s.mark, Reach(hash, s, step.got));
      }
    }
  }

  lemma {:induction false} GrowingRunSeen(hash: Hash, read: LineReader, file: seq<byte>, birth: int, steps: seq<Step>)
    requires forall i :: 0 <= i < |steps| ==> !steps[i].Replace?
    ensures SystemInv(read, Exec(hash, read, Init(file, birth), steps))
    ensures SeenIsPrefix(read, Exec(hash, read, Init(file, birth), steps))
    ensures OwnCursor(Exec(hash, read, Init(file, birth), steps))
    decreases |steps|
  {
    if steps == [] {
      InitInv(read, file, birth);
      SplitNothing(file, 0, 0);
    } else {
      var before := steps[..|steps| - 1];
      GrowingRunSeen(hash, read, file, birth, before);
      var s := Exec(hash, read, Init(file, birth), before);
      NextSeen(hash, read, s, steps[|steps| - 1]);
      NextInv(hash, read, s, steps[|steps| - 1]);
    }
  }

  /**
   Exactly-once effect: after any interleaving of appends, bounded ingests, lost batches and lost
   cursors, the event table is one insert-if-absent pass over the lines up to the mark, the trigger
   has counted its rows, and the cursor stands on a line boundary not beyond the mark.
   */
  lemma ExactlyOnceEffect(hash: Hash, read: LineReader, file: seq<byte>, birth: int, steps: seq<Step>)
    requires forall i :: 0 <= i < |steps| ==> !steps[i].Replace?
    ensures var s := Exec(hash, read, Init(file, birth), steps);
      && Boundary(s.file, s.mark)
      && (s.cursor.Some? ==>
            s.cursor.value.committedOffset <= s.mark && Boundary(s.file, s.cursor.value.committedOffset))
      && s.tables.count == |s.tables.events|
      && Reflects(s.tables, Lines(read, s.file, 0, s.mark))
      && ((forall e :: e in Lines(read, s.file, 0, s.mark) ==> !WorkbuddyUsageEvent(e)) ==>
            s.tables.events == InsertAll(Lines(read, s.file, 0, s.mark)))
  {
    GrowingRunSeen(hash, read, file, birth, steps);
    var s := Exec(hash, read, Init(file, birth), steps);
    if forall e :: e in Lines(read, s.file, 0, s.mark) ==> !WorkbuddyUsageEvent(e) {
      ReflectsIsInsertAll(s.tables, s.seen);
    }
  }

  // ---------------------------------------------------------------- rows are never lost

  /** No step, replacing the file included, removes or rewrites a projected row; it may only enrich it. */
  lemma StepKeepsRows(hash: Hash, read: LineReader, s: State, step: Step, id: EventId)
    requires Inv(s.tables) && id in s.tables.events
    ensures id in Next(hash, read, s, step).tables.events
    ensures Enriches(s.tables.events[id].payload, Next(hash, read, s, step).tables.events[id].payload)
  {
    if step.Ingest? {
      RunEnriches(s.tables, Taken(hash, read, s, step.got), id);
    }
  }

  lemma {:induction false} RunKeepsRows(hash: Hash, read: LineReader, s: State, steps: seq<Step>, id: EventId)
    requires SystemInv(read, s) && Run(hash, read, s, steps) && id in s.tables.events
    ensures SystemInv(read, Exec(hash, read, s, steps)) && id in Exec(hash, read, s, steps).tables.events
    ensures Enriches(s.tables.events[id].payload, Exec(hash, read, s, steps).tables.events[id].payload)
    decreases |steps|
  {
    if steps != [] {
      RunPrefix(hash, read, s, steps);
      var before := steps[..|steps| - 1];
      RunKeepsRows(hash, read, s, before, id);
      var middle := Exec(hash, read, s, before);
      NextInv(hash, read, middle, steps[|steps| - 1]);
      StepKeepsRows(hash, read, middle, steps[|steps| - 1], id);
      EnrichesTransitive(s.tables.events[id].payload, middle.tables.events[id].payload,
                         Exec(hash, read, s, steps).tables.events[id].payload);
    }
  }

  // ---------------------------------------------------------------- reaching the end

  /** Every complete line has been committed. */
  ghost predicate Drained(s: State)
    requires s.mark <= |s.file|
  {
    Clean(s.file, s.mark, |s.file|)
  }

  /** What the ingest reports: no record in the window, or the size seen before reading is covered. */
  predicate AtEnd(hash: Hash, s: State, got: nat, size: nat) {
    Reach(hash, s, got) == Start(hash, s) || Reach(hash, s, got) >= size
  }

  predicate EndsLineAt(file: seq<byte>, n: nat) { 0 < n <= |file| && file[n - 1] == NEWLINE }

  /**
   The end is reported when the window holds no complete line, or when its last one ends at or behind the
   size seen.
   */
  lemma AtEndIff(hash: Hash, s: State, got: nat, size: nat)
    ensures var start, to := Start(hash, s), Window(hash, s, got);
      AtEnd(hash, s, got, size)
      <==> Clean(s.file, start, to) || exists n: nat :: start < n <= to && size <= n && EndsLineAt(s.file, n)
  {
    var start, to, reach := Start(hash, s), Window(hash, s, got), Reach(hash, s, got);
    SplitNothing(s.file, start, to);
    EndsLine(s.file, start, to);
    assert Clean(s.file, reach, to);
    forall n: nat | start < n <= to && EndsLineAt(s.file, n) ensures n <= reach {}
    assert reach > start ==> EndsLineAt(s.file, reach);
  }

  lemma {:induction false} EndsLine(file: seq<byte>, from: nat, to: nat)
    requires from <= to <= |file|
    ensures Committed(file, from, to) == from || (from < Committed(file, from, to) && file[Committed(file, from, to) - 1] == NEWLINE)
    decreases if from <= to then to - from else 0
  {
    var k := FirstNewline(file, from, to);
    if k < to {
      EndsLine(file, k + 1, to);
    }
  }

  /** What the steps of a run have written: the last replacement and what was appended to it. */
  function Written(file: seq<byte>, steps: seq<Step>): seq<byte>
    decreases |steps|
  {
    if steps == [] then file
    else
      match steps[|steps| - 1]
      case Append(bytes) => Written(file, steps[..|steps| - 1]) + bytes
      case Replace(content, _) => content
      case _ => Written(file, steps[..|steps| - 1])
  }

  /** Only appends and replacements change the log, whatever is ingested, and a lost cursor is gone. */
  lemma {:induction false} FileIsWritten(hash: Hash, read: LineReader, s: State, steps: seq<Step>)
    ensures Exec(hash, read, s, steps).file == Written(s.file, steps)
    ensures steps != [] && steps[|steps| - 1].LoseCursor? ==> Exec(hash, read, s, steps).cursor == None
    decreases |steps|
  {
    if steps != [] {
      FileIsWritten(hash, read, s, steps[..|steps| - 1]);
    }
  }

  /** The next line, newline included, is longer than the window. */
  predicate NextLineTooLong(hash: Hash, s: State, maxBytes: nat) {
    var start := Start(hash, s);
    var k := FirstNewline(s.file, start, |s.file|);
    k < |s.file| && k + 1 - start > maxBytes
  }

  /**
   An ingest that fills its window gets no record exactly when no complete line is left or the next one is
   too long.
   */
  lemma NothingReadIff(hash: Hash, s: State, maxBytes: nat)
    ensures Reach(hash, s, maxBytes) == Start(hash, s) <==>
              Clean(s.file, Start(hash, s), |s.file|) || NextLineTooLong(hash, s, maxBytes)
  {
    var start := Start(hash, s);
    var to := Window(hash, s, maxBytes);
    SplitNothing(s.file, start, to);
    var k := FirstNewline(s.file, start, |s.file|);
    if k < |s.file| && k < to {
      assert !Clean(s.file, start, to);
    }
  }

  /**
   The reported end is the end unless the next line does not fit: for the file as it was when the
   call looked at its size, `atEnd` is right if and only if the next line is not too long.
   */
  lemma AtEndIsRight(hash: Hash, read: LineReader, s: State, maxBytes: nat)
    requires SystemInv(read, s) && AtEnd(hash, s, maxBytes, |s.file|)
    ensures SystemInv(read, IngestOnce(hash, read, s, maxBytes))
    ensures Clean(s.file, Reach(hash, s, maxBytes), |s.file|) <==> !NextLineTooLong(hash, s, maxBytes)
    ensures !NextLineTooLong(hash, s, maxBytes) ==> Drained(IngestOnce(hash, read, s, maxBytes))
  {
    IngestInv(hash, read, s, maxBytes);
    NothingReadIff(hash, s, maxBytes);
    var start, reach := Start(hash, s), Reach(hash, s, maxBytes);
    if NextLineTooLong(hash, s, maxBytes) {
      var k := FirstNewline(s.file, start, |s.file|);
      assert s.file[k] == NEWLINE;
    }
  }

  /** A line that does not fit is never passed: the ingest changes nothing but the stored cursor, which stays. */
  lemma WindowStalls(hash: Hash, read: LineReader, s: State, maxBytes: nat, got: nat, more: seq<byte>)
    requires SystemInv(read, s) && NextLineTooLong(hash, s, maxBytes) && got <= maxBytes
    ensures AtEnd(hash, s, got, |s.file|)
    ensures IngestOnce(hash, read, s, got).tables == s.tables
    ensures Start(hash, IngestOnce(hash, read, s, got)) == Start(hash, s)
    ensures |s.file| >= PREFIX_HASH_BYTES ==>
              var s' := IngestOnce(hash, read, s, got).(file := s.file + more);
              Start(hash, s') == Start(hash, s) && NextLineTooLong(hash, s', maxBytes)
  {
    var start := Start(hash, s);
    var to := Window(hash, s, got);
    SplitNothing(s.file, start, to);
    CursorSurvivesAppend(hash, s.birth, s.file, [], start);
    CursorSurvivesAppend(hash, s.birth, s.file, more, start);
    assert s.file + [] == s.file;
    FirstNewlineIs(s.file + more, start, |s.file + more|, FirstNewline(s.file, start, |s.file|));
  }

  /** When lines fit, an ingest that is not at the end leaves less of the file to commit. */
  lemma IngestAdvances(hash: Hash, read: LineReader, s: State, maxBytes: nat)
    requires SystemInv(read, s) && !AtEnd(hash, s, maxBytes, |s.file|)
    ensures var s' := IngestOnce(hash, read, s, maxBytes);
      |s'.file| - Start(hash, s') < |s.file| - Start(hash, s)
  {
    CursorSurvivesAppend(hash, s.birth, s.file, [], Reach(hash, s, maxBytes));
    assert s.file + [] == s.file;
  }
}
