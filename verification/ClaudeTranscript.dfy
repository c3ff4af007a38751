/**
 One usage event per assistant message of a Claude transcript, with timings that need a closed window
 (packages/adapters-claude/src/transcript-sync.ts).

 A transcript row is a user row, an assistant row with or without usage, or something else; other
 observations of a row only pass the ledger and are left out.
 */
module ClaudeTranscript {
  import opened Common

  const MAX_FIRST_TOKEN_LATENCY_MS: int := 600000

  datatype MessageId = MessageId(text: string)

  /** The usage snapshot an assistant row repeats. */
  datatype Usage = Usage(session: string, message: MessageId, tokens: int)

  datatype Row = User(ms: Option<int>) | Assistant(usage: Usage, ms: Option<int>) | Plain(ms: Option<int>)

  datatype Pending = Pending(usage: Usage, firstRow: Option<int>, lastRow: Option<int>, user: Option<int>)

  datatype Key = Key(session: string, message: MessageId)

  datatype Event = Event(usage: Usage, firstTokenLatency: Option<int>, decodeDuration: Option<int>)

  /** The plain form of the machine, with room for one pending usage; `WindowsAreOne` shows that it is enough. */
  datatype State = State(pending: Option<Pending>, user: Option<int>, seen: set<Key>, log: seq<Event>)

  function KeyOf(u: Usage): Key { Key(u.session, u.message) }

  function ResolveFirstTokenLatency(p: Pending): Option<int> {
    if p.firstRow.None? || p.user.None? then None
    else
      var latency := p.firstRow.value - p.user.value;
      if 0 <= latency <= MAX_FIRST_TOKEN_LATENCY_MS then Some(latency) else None
  }

  function ResolveDecodeDuration(p: Pending): Option<int> {
    if p.firstRow.None? || p.lastRow.None? || p.lastRow.value <= p.firstRow.value then None
    else Some(p.lastRow.value - p.firstRow.value)
  }

  function EventOf(p: Pending): Event {
    Event(p.usage, ResolveFirstTokenLatency(p), ResolveDecodeDuration(p))
  }

  // ---------------------------------------------------------------- rows one by one

  function Flush(s: State): State {
    if s.pending.None? then s
    else if KeyOf(s.pending.value.usage) in s.seen then s.(pending := None)
    else s.(pending := None, seen := s.seen + {KeyOf(s.pending.value.usage)}, log := s.log + [EventOf(s.pending.value)])
  }

  predicate Pends(s: State, message: MessageId) {
    s.pending.Some? && s.pending.value.usage.message == message
  }

  function Next(s: State, row: Row): State {
    match row
    case User(ms) => Flush(s).(user := ms)
    case Plain(ms) => s
    case Assistant(usage, ms) =>
      if Pends(s, usage.message) then
        if ms.Some? then s.(pending := Some(s.pending.value.(lastRow := ms))) else s
      else
        var flushed := Flush(s);
        flushed.(pending := Some(Pending(usage, ms, ms, s.user)))
  }

  function Read(s: State, rows: seq<Row>): State
    decreases |rows|
  {
    if rows == [] then s else Next(Read(s, rows[..|rows| - 1]), rows[|rows| - 1])
  }

  /** One increment: nothing pends at its start, the anchor is unknown, and its end closes the window. */
  function Increment(seen: set<Key>, log: seq<Event>, rows: seq<Row>): State {
    Flush(Read(State(None, None, seen, log), rows))
  }

  /** Increments share the ledger and the log. */
  function Sync(seen: set<Key>, log: seq<Event>, batches: seq<seq<Row>>): (r: (set<Key>, seq<Event>))
    decreases |batches|
  {
    if batches == [] then (seen, log)
    else
      var before := Sync(seen, log, batches[..|batches| - 1]);
      var s := Increment(before.0, before.1, batches[|batches| - 1]);
      (s.seen, s.log)
  }

  // ---------------------------------------------------------------- the pending map

  /** The machine as written: pending usage by message id, in insertion order. */
  datatype Windows = Windows(pending: seq<Pending>, user: Option<int>, seen: set<Key>, log: seq<Event>)

  /** Position of the message's entry, or the number of entries. */
  function Find(pending: seq<Pending>, message: MessageId): (k: nat)
    ensures k <= |pending| && (k < |pending| ==> pending[k].usage.message == message)
    ensures forall j :: 0 <= j < k ==> pending[j].usage.message != message
    decreases |pending|
  {
    if pending == [] || pending[0].usage.message == message then 0 else 1 + Find(pending[1..], message)
  }

  /** Emit one entry unless the ledger has it. */
  function FlushOne(w: Windows, p: Pending): Windows {
    if KeyOf(p.usage) in w.seen then w else w.(seen := w.seen + {KeyOf(p.usage)}, log := w.log + [EventOf(p)])
  }

  function FlushEach(w: Windows, entries: seq<Pending>): Windows
    decreases |entries|
  {
    if entries == [] then w else FlushOne(FlushEach(w, entries[..|entries| - 1]), entries[|entries| - 1])
  }

  /** The map is emptied, then its former entries are emitted in order. */
  function FlushAll(w: Windows): Windows { FlushEach(w.(pending := []), w.pending) }

  function OpenWindow(w: Windows, usage: Usage, ms: Option<int>): Windows {
    w.(pending := w.pending + [Pending(usage, ms, ms, w.user)])
  }

  function NextRow(w: Windows, row: Row): Windows {
    match row
    case User(ms) => FlushAll(w).(user := ms)
    case Plain(ms) => w
    case Assistant(usage, ms) =>
      var k := Find(w.pending, usage.message);
      if k == |w.pending| then OpenWindow(FlushAll(w), usage, ms)
      else if ms.Some? then w.(pending := w.pending[k := w.pending[k].(lastRow := ms)])
      else w
  }

  function ReadRows(w: Windows, rows: seq<Row>): Windows
    decreases |rows|
  {
    if rows == [] then w else NextRow(ReadRows(w, rows[..|rows| - 1]), rows[|rows| - 1])
  }

  function AsWindows(s: State): Windows {
    Windows(if s.pending.Some? then [s.pending.value] else [], s.user, s.seen, s.log)
  }

  lemma FlushAllIs(s: State)
    ensures FlushAll(AsWindows(s)) == AsWindows(Flush(s))
  {
    if s.pending.Some? {
      FlushEachOne(AsWindows(s).(pending := []), s.pending.value);
    }
  }

  lemma FlushEachOne(w: Windows, p: Pending)
    ensures FlushEach(w, [p]) == FlushOne(w, p)
  {
    assert [p][..0] == [];
    assert FlushEach(w, [p][..0]) == w;
  }

  lemma NextRowIs(s: State, row: Row)
    ensures NextRow(AsWindows(s), row) == AsWindows(Next(s, row))
  {
    FlushAllIs(s);
  }

  /**
   The pending map never holds more than one usage: it is the plain form's single window, whatever
   the rows and sessions, because a usage row of another message flushes the map first.
   */
  lemma {:induction false} WindowsAreOne(s: State, rows: seq<Row>)
    ensures ReadRows(AsWindows(s), rows) == AsWindows(Read(s, rows))
    ensures |ReadRows(AsWindows(s), rows).pending| <= 1
    decreases |rows|
  {
    if rows != [] {
      WindowsAreOne(s, rows[..|rows| - 1]);
      NextRowIs(Read(s, rows[..|rows| - 1]), rows[|rows| - 1]);
    }
  }

  // ---------------------------------------------------------------- what should come out

  predicate UsageRow(row: Row, message: MessageId) {
    row.Assistant? && row.usage.message == message
  }

  /** A user row or another message's usage ends a block. */
  predicate Breaks(row: Row, message: MessageId) {
    row.User? || (row.Assistant? && row.usage.message != message)
  }

  /** The message's first row, or the length. */
  function FirstRow(rows: seq<Row>, message: MessageId): (i: nat)
    ensures i <= |rows|
    ensures i < |rows| ==> UsageRow(rows[i], message)
    ensures forall k :: 0 <= k < i ==> !UsageRow(rows[k], message)
    decreases |rows|
  {
    if rows == [] then 0
    else
      var before := FirstRow(rows[..|rows| - 1], message);
      if before < |rows| - 1 then before else if UsageRow(rows[|rows| - 1], message) then |rows| - 1 else |rows|
  }

  /** Where the block that contains position `from` ends. */
  function BlockEnd(rows: seq<Row>, message: MessageId, from: nat): (j: nat)
    requires from <= |rows|
    ensures from <= j <= |rows|
    ensures j < |rows| ==> Breaks(rows[j], message)
    ensures forall k :: from <= k < j ==> !Breaks(rows[k], message)
    decreases if from <= |rows| then |rows| - from else 0
  {
    if from == |rows| || Breaks(rows[from], message) then from else BlockEnd(rows, message, from + 1)
  }

  /** The last known time of the message's rows before `until`, starting from the block's first row. */
  function LastTime(rows: seq<Row>, message: MessageId, from: nat, until: nat): Option<int>
    requires from < until <= |rows|
    decreases until
  {
    var row := rows[until - 1];
    if until == from + 1 then row.ms
    else if UsageRow(row, message) && row.ms.Some? then row.ms
    else LastTime(rows, message, from, until - 1)
  }

  /** The time of the last user row before `until`. */
  function Anchor(rows: seq<Row>, until: nat): Option<int>
    requires until <= |rows|
  {
    if until == 0 then None else if rows[until - 1].User? then rows[until - 1].ms else Anchor(rows, until - 1)
  }

  /** The message's first block in the batch, read off the rows. */
  function FirstBlock(rows: seq<Row>, message: MessageId): Pending
    requires FirstRow(rows, message) < |rows|
  {
    var i := FirstRow(rows, message);
    Pending(rows[i].usage, rows[i].ms, LastTime(rows, message, i, BlockEnd(rows, message, i + 1)), Anchor(rows, i))
  }

  function Entries(log: seq<Event>, key: Key): seq<Event>
    decreases |log|
  {
    if log == [] then []
    else Entries(log[..|log| - 1], key) + if KeyOf(log[|log| - 1].usage) == key then [log[|log| - 1]] else []
  }

  ghost predicate OneSession(rows: seq<Row>, session: string) {
    forall i :: 0 <= i < |rows| && rows[i].Assistant? ==> rows[i].usage.session == session
  }

  // ---------------------------------------------------------------- growing the batch by a row

  lemma FirstRowAppend(rows: seq<Row>, row: Row, message: MessageId)
    ensures FirstRow(rows + [row], message)
            == if FirstRow(rows, message) < |rows| then FirstRow(rows, message)
               else if UsageRow(row, message) then |rows| else |rows| + 1
  {
    assert (rows + [row])[..|rows|] == rows;
  }

  lemma {:induction false} BlockEndAppend(rows: seq<Row>, row: Row, message: MessageId, from: nat)
    requires from <= |rows|
    ensures BlockEnd(rows + [row], message, from)
            == if BlockEnd(rows, message, from) < |rows| then BlockEnd(rows, message, from)
               else if Breaks(row, message) then |rows| else |rows| + 1
    decreases if from <= |rows| then |rows| - from else 0
  {
    var all := rows + [row];
    if from < |rows| {
      assert all[from] == rows[from];
      if !Breaks(rows[from], message) {
        BlockEndAppend(rows, row, message, from + 1);
      }
    }
  }

  lemma {:induction false} LastTimeAppend(rows: seq<Row>, row: Row, message: MessageId, from: nat, until: nat)
    requires from < until <= |rows|
    ensures LastTime(rows + [row], message, from, until) == LastTime(rows, message, from, until)
    decreases until
  {
    assert (rows + [row])[until - 1] == rows[until - 1];
    if from + 1 < until {
      LastTimeAppend(rows, row, message, from, until - 1);
    }
  }

  lemma {:induction false} AnchorAppend(rows: seq<Row>, row: Row, until: nat)
    requires until <= |rows|
    ensures Anchor(rows + [row], until) == Anchor(rows, until)
    decreases until
  {
    if 0 < until {
      assert (rows + [row])[until - 1] == rows[until - 1];
      AnchorAppend(rows, row, until - 1);
    }
  }

  /** The first block is still open at the end of the batch. */
  predicate FirstOpen(rows: seq<Row>, message: MessageId)
    requires FirstRow(rows, message) < |rows|
  {
    BlockEnd(rows, message, FirstRow(rows, message) + 1) == |rows|
  }

  lemma FirstOpenAppend(rows: seq<Row>, row: Row, message: MessageId)
    requires FirstRow(rows, message) < |rows|
    ensures FirstRow(rows + [row], message) == FirstRow(rows, message)
    ensures FirstOpen(rows + [row], message) <==> FirstOpen(rows, message) && !Breaks(row, message)
  {
    FirstRowAppend(rows, row, message);
    BlockEndAppend(rows, row, message, FirstRow(rows, message) + 1);
  }

  lemma LastTimeGrows(rows: seq<Row>, row: Row, message: MessageId, from: nat)
    requires from < |rows|
    ensures LastTime(rows + [row], message, from, |rows| + 1)
            == if UsageRow(row, message) && row.ms.Some? then row.ms else LastTime(rows, message, from, |rows|)
  {
    LastTimeAppend(rows, row, message, from, |rows|);
    assert (rows + [row])[|rows|] == row;
  }

  /** What a further row does to a first block. */
  lemma FirstBlockAppend(rows: seq<Row>, row: Row, message: MessageId)
    requires FirstRow(rows, message) < |rows|
    ensures FirstRow(rows + [row], message) == FirstRow(rows, message)
    ensures FirstBlock(rows + [row], message)
            == if FirstOpen(rows, message) && UsageRow(row, message) && row.ms.Some?
               then FirstBlock(rows, message).(lastRow := row.ms) else FirstBlock(rows, message)
  {
    var i := FirstRow(rows, message);
    var j := BlockEnd(rows, message, i + 1);
    FirstOpenAppend(rows, row, message);
    BlockEndAppend(rows, row, message, i + 1);
    AnchorAppend(rows, row, i);
    assert (rows + [row])[i] == rows[i];
    if j == |rows| && !Breaks(row, message) {
      LastTimeGrows(rows, row, message, i);
    } else {
      LastTimeAppend(rows, row, message, i, j);
    }
  }

  /** A message seen for the first time starts a block of one row. */
  lemma FirstBlockStarts(rows: seq<Row>, row: Row, message: MessageId)
    requires FirstRow(rows, message) == |rows| && UsageRow(row, message)
    ensures FirstRow(rows + [row], message) == |rows| && FirstOpen(rows + [row], message)
    ensures FirstBlock(rows + [row], message) == Pending(row.usage, row.ms, row.ms, Anchor(rows, |rows|))
  {
    FirstRowAppend(rows, row, message);
    AnchorAppend(rows, row, |rows|);
    assert (rows + [row])[|rows|] == row;
  }

  lemma EntriesAppend(log: seq<Event>, e: Event, key: Key)
    ensures Entries(log + [e], key) == if KeyOf(e.usage) == key then Entries(log, key) + [e] else Entries(log, key)
  {
    assert (log + [e])[..|log|] == log;
    assert Entries(log, key) + [] == Entries(log, key);
  }

  // ---------------------------------------------------------------- the invariant of a batch

  /**
   For a message not in the ledger before the batch: once it has a key, its first block is over and
   the log holds that block's event, once; before that, a message that has occurred is the pending
   one, and what pends is its first block so far.
   */
  ghost predicate Tracks(s: State, rows: seq<Row>, session: string, message: MessageId, before: seq<Event>) {
    var key := Key(session, message);
    if key in s.seen then
      && FirstRow(rows, message) < |rows| && !FirstOpen(rows, message)
      && Entries(s.log, key) == Entries(before, key) + [EventOf(FirstBlock(rows, message))]
    else
      && Entries(s.log, key) == Entries(before, key)
      && (FirstRow(rows, message) < |rows| ==>
            FirstOpen(rows, message) && s.pending == Some(FirstBlock(rows, message)))
      && (FirstRow(rows, message) == |rows| ==> !Pends(s, message))
  }

  ghost predicate StateOk(s: State, rows: seq<Row>, session: string) {
    && s.user == Anchor(rows, |rows|)
    && (s.pending.Some? ==> s.pending.value.usage.session == session)
  }

  /** Flushing closes the window of whatever pends and changes nothing for other messages. */
  lemma FlushOther(s: State, session: string, message: MessageId)
    requires s.pending.Some? ==> s.pending.value.usage.session == session
    requires !Pends(s, message)
    ensures var key := Key(session, message);
      (key in Flush(s).seen <==> key in s.seen) && Entries(Flush(s).log, key) == Entries(s.log, key)
  {
    if s.pending.Some? {
      EntriesAppend(s.log, EventOf(s.pending.value), Key(session, message));
    }
  }

  /** Flushing a first block puts its event into the log. */
  lemma FlushFirst(s: State, rows: seq<Row>, session: string, message: MessageId, before: seq<Event>)
    requires StateOk(s, rows, session) && Tracks(s, rows, session, message, before) && Pends(s, message)
    ensures FirstRow(rows, message) < |rows| && Key(session, message) in Flush(s).seen
    ensures Entries(Flush(s).log, Key(session, message))
            == Entries(before, Key(session, message)) + [EventOf(FirstBlock(rows, message))]
  {
    EntriesAppend(s.log, EventOf(s.pending.value), Key(session, message));
  }

  /** Rows that close the window. */
  lemma TracksBreak(s: State, rows: seq<Row>, row: Row, session: string, message: MessageId, before: seq<Event>)
    requires StateOk(s, rows, session) && Tracks(s, rows, session, message, before)
    requires Breaks(row, message) && (row.Assistant? ==> !Pends(s, row.usage.message))
    ensures Tracks(Next(s, row), rows + [row], session, message, before)
  {
    if Pends(s, message) {
      FlushFirst(s, rows, session, message, before);
    } else {
      FlushOther(s, session, message);
    }
    if FirstRow(rows, message) < |rows| {
      FirstOpenAppend(rows, row, message);
      FirstBlockAppend(rows, row, message);
    } else {
      FirstRowAppend(rows, row, message);
    }
  }

  /** Rows that leave the window as it is. */
  lemma TracksQuiet(s: State, rows: seq<Row>, row: Row, session: string, message: MessageId, before: seq<Event>)
    requires StateOk(s, rows, session) && Tracks(s, rows, session, message, before)
    requires row.Plain? || (row.Assistant? && row.usage.message != message && Pends(s, row.usage.message))
    ensures Tracks(Next(s, row), rows + [row], session, message, before)
  {
    if FirstRow(rows, message) < |rows| {
      FirstOpenAppend(rows, row, message);
      FirstBlockAppend(rows, row, message);
    } else {
      FirstRowAppend(rows, row, message);
    }
  }

  /** Rows of the message itself. */
  lemma TracksOwn(s: State, rows: seq<Row>, row: Row, session: string, message: MessageId, before: seq<Event>)
    requires StateOk(s, rows, session) && Tracks(s, rows, session, message, before) && UsageRow(row, message)
    requires row.usage.session == session
    ensures Tracks(Next(s, row), rows + [row], session, message, before)
  {
    if FirstRow(rows, message) < |rows| {
      FirstOpenAppend(rows, row, message);
      FirstBlockAppend(rows, row, message);
    } else {
      FirstBlockStarts(rows, row, message);
    }
    if !Pends(s, message) {
      FlushOther(s, session, message);
    }
  }

  lemma NextStateOk(s: State, rows: seq<Row>, row: Row, session: string)
    requires StateOk(s, rows, session) && (row.Assistant? ==> row.usage.session == session)
    ensures StateOk(Next(s, row), rows + [row], session)
  {
    AnchorAppend(rows, row, |rows|);
    assert (rows + [row])[|rows|] == row;
  }

  lemma {:induction false} ReadTracks(seen: set<Key>, log: seq<Event>, rows: seq<Row>, session: string, message: MessageId)
    requires OneSession(rows, session) && Key(session, message) !in seen
    ensures StateOk(Read(State(None, None, seen, log), rows), rows, session)
    ensures Tracks(Read(State(None, None, seen, log), rows), rows, session, message, log)
    decreases |rows|
  {
    if rows != [] {
      var before, row := rows[..|rows| - 1], rows[|rows| - 1];
      assert rows == before + [row];
      assert OneSession(before, session);
      ReadTracks(seen, log, before, session, message);
      var s := Read(State(None, None, seen, log), before);
      NextStateOk(s, before, row, session);
      if UsageRow(row, message) {
        TracksOwn(s, before, row, session, message, log);
      } else if row.Plain? || (row.Assistant? && Pends(s, row.usage.message)) {
        TracksQuiet(s, before, row, session, message, log);
      } else {
        TracksBreak(s, before, row, session, message, log);
      }
    }
  }

  // ---------------------------------------------------------------- the results

  /**
   One increment emits, for every message not in the ledger, exactly one event if the message occurs,
   with the usage of its first row and the timings of its first contiguous block.
   */
  lemma IncrementEmits(seen: set<Key>, log: seq<Event>, rows: seq<Row>, session: string, message: MessageId)
    requires OneSession(rows, session) && Key(session, message) !in seen
    ensures var s := Increment(seen, log, rows);
      var key := Key(session, message);
      if FirstRow(rows, message) < |rows| then
        key in s.seen && Entries(s.log, key) == Entries(log, key) + [EventOf(FirstBlock(rows, message))]
      else key !in s.seen && Entries(s.log, key) == Entries(log, key)
  {
    ReadTracks(seen, log, rows, session, message);
    var s := Read(State(None, None, seen, log), rows);
    if Pends(s, message) {
      FlushFirst(s, rows, session, message, log);
    } else {
      FlushOther(s, session, message);
    }
  }

  /** A message in the ledger is never emitted again, by any rows of any session. */
  lemma {:induction false} SeenStaysSilent(s: State, rows: seq<Row>, key: Key)
    requires key in s.seen
    ensures key in Read(s, rows).seen && Entries(Read(s, rows).log, key) == Entries(s.log, key)
    decreases |rows|
  {
    if rows != [] {
      SeenStaysSilent(s, rows[..|rows| - 1], key);
      FlushSilent(Read(s, rows[..|rows| - 1]), key);
    }
  }

  lemma FlushSilent(s: State, key: Key)
    requires key in s.seen
    ensures key in Flush(s).seen && Entries(Flush(s).log, key) == Entries(s.log, key)
  {
    if s.pending.Some? {
      EntriesAppend(s.log, EventOf(s.pending.value), key);
    }
  }

  lemma IncrementSilent(seen: set<Key>, log: seq<Event>, rows: seq<Row>, key: Key)
    requires key in seen
    ensures key in Increment(seen, log, rows).seen && Entries(Increment(seen, log, rows).log, key) == Entries(log, key)
  {
    SeenStaysSilent(State(None, None, seen, log), rows, key);
    FlushSilent(Read(State(None, None, seen, log), rows), key);
  }

  /** The first increment in which the message occurs, or their number. */
  function FirstBatch(batches: seq<seq<Row>>, message: MessageId): (i: nat)
    ensures i <= |batches|
    ensures i < |batches| ==> FirstRow(batches[i], message) < |batches[i]|
    decreases |batches|
  {
    if batches == [] then 0
    else
      var before := FirstBatch(batches[..|batches| - 1], message);
      if before < |batches| - 1 then before
      else if FirstRow(batches[|batches| - 1], message) < |batches[|batches| - 1]| then |batches| - 1
      else |batches|
  }

  /**
   Over all increments of a transcript with one session: a message not in the ledger to begin with
   is emitted exactly once if it ever occurs, in the first increment that has it and with the timings
   of its first block there; a message in the ledger is not emitted at all.
   */
  lemma {:induction false} EmittedExactlyOnce(seen: set<Key>, log: seq<Event>, batches: seq<seq<Row>>,
                                              session: string, message: MessageId)
    requires forall i :: 0 <= i < |batches| ==> OneSession(batches[i], session)
    ensures var r := Sync(seen, log, batches);
      var key := Key(session, message);
      var i := FirstBatch(batches, message);
      if key in seen then key in r.0 && Entries(r.1, key) == Entries(log, key)
      else if i < |batches| then
        key in r.0 && Entries(r.1, key) == Entries(log, key) + [EventOf(FirstBlock(batches[i], message))]
      else key !in r.0 && Entries(r.1, key) == Entries(log, key)
    decreases |batches|
  {
    if batches != [] {
      var before, last := batches[..|batches| - 1], batches[|batches| - 1];
      EmittedExactlyOnce(seen, log, before, session, message);
      var r := Sync(seen, log, before);
      if Key(session, message) in r.0 {
        IncrementSilent(r.0, r.1, last, Key(session, message));
      } else {
        IncrementEmits(r.0, r.1, last, session, message);
      }
    }
  }

  /** The last row of the message before `until` that has a time. */
  ghost predicate LastTimed(rows: seq<Row>, message: MessageId, j: nat, until: nat)
    requires j < until <= |rows|
  {
    && UsageRow(rows[j], message) && rows[j].ms.Some?
    && forall k :: j < k < until && UsageRow(rows[k], message) ==> rows[k].ms.None?
  }

  /**
   The decode time is given exactly when the block's first row has a time and a later row of the
   block is the last with a time and lies behind it; it is the time between the two.
   */
  lemma DecodeIsBlockLength(rows: seq<Row>, message: MessageId, duration: int)
    requires FirstRow(rows, message) < |rows|
    ensures var i, end := FirstRow(rows, message), BlockEnd(rows, message, FirstRow(rows, message) + 1);
      EventOf(FirstBlock(rows, message)).decodeDuration == Some(duration)
      <==> && duration > 0 && rows[i].ms.Some?
           && exists j :: i < j < end && LastTimed(rows, message, j, end)
                          && duration == rows[j].ms.value - rows[i].ms.value
  {
    var i, end := FirstRow(rows, message), BlockEnd(rows, message, FirstRow(rows, message) + 1);
    LastTimeWitness(rows, message, i, end);
    forall j | i < j < end && LastTimed(rows, message, j, end) ensures LastTime(rows, message, i, end) == rows[j].ms {
      LastTimedIs(rows, message, i, end, j);
    }
  }

  lemma {:induction false} LastTimedIs(rows: seq<Row>, message: MessageId, from: nat, until: nat, j: nat)
    requires from < j < until <= |rows| && LastTimed(rows, message, j, until)
    ensures LastTime(rows, message, from, until) == rows[j].ms
    decreases until
  {
    if j < until - 1 {
      LastTimedIs(rows, message, from, until - 1, j);
    }
  }

  /** Row `u` is the last user row before `until`. */
  ghost predicate LastUser(rows: seq<Row>, u: nat, until: nat)
    requires u < until <= |rows|
  {
    rows[u].User? && forall k :: u < k < until ==> !rows[k].User?
  }

  lemma {:induction false} AnchorIs(rows: seq<Row>, until: nat, user: int)
    requires until <= |rows|
    ensures Anchor(rows, until) == Some(user) <==> exists u :: 0 <= u < until && LastUser(rows, u, until) && rows[u].ms == Some(user)
    decreases until
  {
    if until > 0 {
      if rows[until - 1].User? {
        assert LastUser(rows, until - 1, until);
      } else {
        AnchorIs(rows, until - 1, user);
        forall u | 0 <= u < until - 1 ensures LastUser(rows, u, until) <==> LastUser(rows, u, until - 1) {}
      }
    }
  }

  /**
   The first-token latency is given exactly when the message's first row and the user row before it
   have times and their difference is in range; it is that difference.
   */
  lemma LatencyIsFromUserRow(rows: seq<Row>, message: MessageId, latency: int)
    requires FirstRow(rows, message) < |rows|
    ensures var i := FirstRow(rows, message);
      EventOf(FirstBlock(rows, message)).firstTokenLatency == Some(latency)
      <==> && 0 <= latency <= MAX_FIRST_TOKEN_LATENCY_MS && rows[i].ms.Some?
           && exists u :: 0 <= u < i && LastUser(rows, u, i) && rows[u].ms == Some(rows[i].ms.value - latency)
  {
    var i := FirstRow(rows, message);
    if rows[i].ms.Some? {
      AnchorIs(rows, i, rows[i].ms.value - latency);
    }
  }

  lemma {:induction false} LastTimeWitness(rows: seq<Row>, message: MessageId, from: nat, until: nat)
    requires from < until <= |rows|
    ensures LastTime(rows, message, from, until) == rows[from].ms
            || exists j :: from < j < until && UsageRow(rows[j], message) && rows[j].ms.Some?
                 && LastTime(rows, message, from, until) == rows[j].ms
                 && forall k :: j < k < until && UsageRow(rows[k], message) ==> rows[k].ms.None?
    decreases until
  {
    if from + 1 < until {
      var row := rows[until - 1];
      if UsageRow(row, message) && row.ms.Some? {
        assert LastTime(rows, message, from, until) == rows[until - 1].ms;
      } else {
        LastTimeWitness(rows, message, from, until - 1);
      }
    }
  }

  // ---------------------------------------------------------------- the sync as it runs

  class TranscriptSync {
    var seenKeys: set<Key>
    var eventLog: seq<Event>
    var pendingUsage: seq<Pending>

    constructor (seenKeys: set<Key>)
      ensures this.seenKeys == seenKeys && eventLog == [] && pendingUsage == []
    {
      this.seenKeys, eventLog, pendingUsage := seenKeys, [], [];
    }

    ghost function Abs(user: Option<int>): Windows
      reads this
    {
      Windows(pendingUsage, user, seenKeys, eventLog)
    }

    method FlushPendingUsage(ghost user: Option<int>)
      modifies this
      ensures Abs(user) == FlushAll(old(Abs(user)))
    {
      var pending := pendingUsage;
      pendingUsage := [];
      for i := 0 to |pending|
        invariant Abs(user) == FlushEach(old(Abs(user)).(pending := []), pending[..i])
      {
        assert pending[..i + 1][..i] == pending[..i];
        var ledgerKey := Key(pending[i].usage.session, pending[i].usage.message);
        if ledgerKey in seenKeys { continue; }
        eventLog := eventLog + [Event(pending[i].usage, ResolveFirstTokenLatency(pending[i]),
                                      ResolveDecodeDuration(pending[i]))];
        seenKeys := seenKeys + {ledgerKey};
      }
      assert pending[..|pending|] == pending;
    }

    /** The rows of one increment. */
    method SyncTranscriptReference(rows: seq<Row>)
      requires pendingUsage == []
      modifies this
      ensures pendingUsage == []
      ensures seenKeys == Increment(old(seenKeys), old(eventLog), rows).seen
      ensures eventLog == Increment(old(seenKeys), old(eventLog), rows).log
    {
      ghost var start := State(None, None, seenKeys, eventLog);
      var triggeringUserMs: Option<int> := None;
      for i := 0 to |rows|
        invariant Abs(triggeringUserMs) == ReadRows(AsWindows(start), rows[..i])
      {
        assert rows[..i + 1][..i] == rows[..i];
        var row := rows[i];
        var k := if row.Assistant? then Find(pendingUsage, row.usage.message) else 0;
        if row.User? || (row.Assistant? && k == |pendingUsage|) {
          FlushPendingUsage(triggeringUserMs);
          if row.Assistant? {
            pendingUsage := pendingUsage + [Pending(row.usage, row.ms, row.ms, triggeringUserMs)];
          }
        } else if row.Assistant? && row.ms.Some? {
          pendingUsage := pendingUsage[k := pendingUsage[k].(lastRow := row.ms)];
        }
        if row.User? {
          triggeringUserMs := row.ms;
        }
      }
      assert rows[..|rows|] == rows;
      WindowsAreOne(start, rows);
      FlushAllIs(Read(start, rows));
      FlushPendingUsage(triggeringUserMs);
    }
  }
}
