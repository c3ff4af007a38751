/**
 The synchronizer as it runs: one bounded ingest at a time until the log is drained, skipping a file
 whose signature was already drained (apps/core/src/event-log-projector.ts).
 */
module EventLogSynchronizers {
  import opened Common
  import opened EventLogReader
  import opened UsageProjection
  import opened UsageProjectors
  import opened EventIngest

  const MAX_INGESTS: nat := 512
  const READ_CHUNK_BYTES: nat := 64 * 1024

  datatype Signature = Signature(mtimeMs: int, size: nat)

  class EventLogSynchronizer {
    const hash: Hash
    const read: LineReader
    const maxBytes: nat
    const projector: UsageProjector

    var file: seq<byte>
    var birth: int
    var mtimeMs: int
    var cursor: Option<Cursor>
    var lastFullyDrained: Option<Signature>
    ghost var mark: nat
    ghost var seen: seq<Event>

    ghost function Abs(): State
      reads this, projector
    {
      State(file, birth, projector.Abs(), cursor, mark, seen)
    }

    function CurrentSignature(): Signature
      reads this
    {
      Signature(mtimeMs, |file|)
    }

    /** Drained, or some line is longer than the window. */
    ghost predicate Done()
      reads this, projector
    {
      mark <= |file| && (LinesFit(file, maxBytes) ==> Drained(Abs()))
    }

    /** A signature recorded as drained is never from the future, and tells the truth about the present file. */
    ghost predicate Valid()
      reads this, projector
    {
      && SystemInv(read, Abs())
      && (lastFullyDrained.Some? ==>
            && lastFullyDrained.value.mtimeMs <= mtimeMs
            && (lastFullyDrained.value.mtimeMs == mtimeMs ==> lastFullyDrained.value.size <= |file|))
      && (lastFullyDrained == Some(CurrentSignature()) ==> Done())
    }

    constructor (hash: Hash, read: LineReader, maxBytes: nat, file: seq<byte>, birth: int, mtimeMs: int)
      ensures Valid() && Abs() == Init(file, birth)
    {
      this.hash, this.read, this.maxBytes := hash, read, maxBytes;
      projector := new UsageProjector();
      this.file, this.birth, this.mtimeMs := file, birth, mtimeMs;
      cursor, lastFullyDrained, mark, seen := None, None, 0, [];
      new;
      InitInv(read, file, birth);
    }

    /** A writer appends to the log. */
    method AppendBytes(bytes: seq<byte>, now: int)
      requires Valid() && now >= mtimeMs
      modifies this
      ensures Valid() && Abs() == Next(hash, read, old(Abs()), Append(bytes))
      ensures cursor == old(cursor) && lastFullyDrained == old(lastFullyDrained) && birth == old(birth)
      ensures bytes == [] ==> file == old(file) && mtimeMs == old(mtimeMs) && Abs() == old(Abs())
      ensures bytes != [] ==> |file| > |old(file)| && mtimeMs == now
    {
      AppendInv(read, Abs(), bytes);
      if bytes != [] {
        file, mtimeMs := file + bytes, now;
      } else {
        assert file + bytes == file;
      }
    }

    /** Rotation puts a younger file in place. */
    method ReplaceFile(content: seq<byte>, newBirth: int, now: int)
      requires Valid() && newBirth > birth && now > mtimeMs
      modifies this
      ensures Valid() && Abs() == Next(hash, read, old(Abs()), Replace(content, newBirth))
    {
      ReplaceInv(read, Abs(), content, newBirth);
      file, birth, mtimeMs, mark := content, newBirth, now, 0;
    }

    /** The row holding the cursor is missing or malformed. */
    method DropCursor()
      requires Valid()
      modifies this`cursor
      ensures Valid() && Abs() == Next(hash, read, old(Abs()), LoseCursor)
    {
      cursor := None;
    }

    /** Parse and normalise the lines; lines that fail leave a diagnostic instead of an event. */
    method Normalize(records: seq<LineRecord>) returns (events: seq<Event>)
      ensures events == EventsOf(read, records)
    {
      events := [];
      for i := 0 to |records|
        invariant events == EventsOf(read, records[..i])
      {
        OneMore(read, records, i);
        var e := read(records[i].line, records[i].offsetBytes);
        if e.Some? {
          events := events + [e.value];
        }
      }
      assert records[..|records|] == records;
    }

    /** Read and project one window; `got` is what each read call returns. */
    method IngestEventLog(got: nat -> nat) returns (atEnd: bool, bytesRead: nat)
      requires Valid()
      modifies this`cursor, this`mark, this`seen, projector
      ensures bytesRead <= maxBytes
      ensures Abs() == IngestOnce(hash, read, old(Abs()), bytesRead)
      ensures atEnd <==> AtEnd(hash, old(Abs()), bytesRead, |file|)
      ensures (forall i: nat :: got(i) > 0) ==>
                bytesRead == Min(maxBytes, |file| - Start(hash, old(Abs())))
    {
      ghost var s := Abs();
      var result;
      result, bytesRead := ReadEventLogIncremental(hash, birth, file, cursor, maxBytes, READ_CHUNK_BYTES, got);
      ResultIs(hash, read, s, bytesRead, result);
      Remember(Reach(hash, s, bytesRead));
      var events := Normalize(result.records);
      var outcomes := projector.ProjectNormalizedEvents(events);
      cursor := Some(result.next);
      atEnd := |result.records| == 0 || result.next.committedOffset >= |file|;
    }

    /**
     Ingest until the end is reported, at most 512 times.  Writers may append between two ingests
     (`arrivals`); a read call returns at least one byte before the end of the file.  Ending while
     the file stood still means it is drained, or has a line longer than the window; not ending
     means 512 ingests that each advanced.
     */
    method Sync(got: nat -> nat -> nat, arrivals: nat -> seq<byte>, now: int) returns (finished: bool, ingests: nat)
      requires Valid() && now >= mtimeMs
      requires forall i: nat, j: nat :: got(i)(j) > 0
      modifies this, projector
      ensures Valid() && ingests <= MAX_INGESTS
      ensures old(lastFullyDrained) == Some(old(CurrentSignature())) ==>
                finished && ingests == 0 && Abs() == old(Abs()) && lastFullyDrained == old(lastFullyDrained)
      ensures old(lastFullyDrained) != Some(old(CurrentSignature())) ==> ingests > 0
      ensures !finished ==> ingests == MAX_INGESTS && lastFullyDrained == old(lastFullyDrained)
      ensures |file| >= |old(file)| && (|file| == |old(file)| ==> file == old(file))
      ensures finished && file == old(file) ==> lastFullyDrained == Some(CurrentSignature()) && Done()
      ensures !finished && file == old(file) ==>
                Start(hash, Abs()) >= Start(hash, old(Abs())) + MAX_INGESTS
    {
      var nextSignature := CurrentSignature();
      if lastFullyDrained == Some(nextSignature) {
        return true, 0;
      }
      finished, ingests := false, 0;
      ghost var grew, origin := false, Start(hash, Abs());
      while ingests < MAX_INGESTS
        invariant ingests <= MAX_INGESTS && Valid() && nextSignature.mtimeMs <= mtimeMs <= now
        invariant lastFullyDrained == old(lastFullyDrained)
        invariant grew ==> |file| > nextSignature.size
        invariant !grew ==> file == old(file) && CurrentSignature() == nextSignature
        invariant !grew ==> Start(hash, Abs()) >= origin + ingests
        decreases MAX_INGESTS - ingests
      {
        var bytes := arrivals(ingests);
        grew := grew || bytes != [];
        AppendBytes(bytes, now);
        var atEnd, bytesRead := Advance(got(ingests));
        ingests := ingests + 1;
        if atEnd {
          RecordDrained(nextSignature);
          return true, ingests;
        }
      }
    }

    method RecordDrained(signature: Signature)
      requires Valid() && signature.mtimeMs <= mtimeMs && signature.size <= |file|
      requires signature == CurrentSignature() ==> Done()
      modifies this`lastFullyDrained
      ensures Valid() && Abs() == old(Abs()) && lastFullyDrained == Some(signature)
    {
      lastFullyDrained := Some(signature);
    }

    /** An ingest whose reads return bytes: the end it reports is real, and short of the end it advances. */
    method Advance(got: nat -> nat) returns (atEnd: bool, bytesRead: nat)
      requires Valid() && forall j: nat :: got(j) > 0
      modifies this`cursor, this`mark, this`seen, projector
      ensures Valid() && Abs() == IngestOnce(hash, read, old(Abs()), bytesRead)
      ensures atEnd ==> Done()
      ensures !atEnd ==> Start(hash, Abs()) >= Start(hash, old(Abs())) + 1
    {
      ghost var s := Abs();
      atEnd, bytesRead := IngestEventLog(got);
      IngestInv(hash, read, s, bytesRead);
      if atEnd {
        EndIsDone(hash, read, s, maxBytes, bytesRead);
      } else {
        IngestAdvances(hash, read, s, bytesRead);
      }
    }

    /** History: remember how far the file was committed and which events that showed for the first time. */
    ghost method Remember(reach: nat)
      requires mark <= |file| && reach <= |file|
      modifies this`mark, this`seen
      ensures mark == if reach > old(mark) then reach else old(mark)
      ensures seen == if reach > old(mark) then old(seen) + Lines(read, file, old(mark), reach) else old(seen)
    {
      if reach > mark {
        seen := seen + Lines(read, file, mark, reach);
        mark := reach;
      }
    }
  }

  lemma OneMore(read: LineReader, records: seq<LineRecord>, i: nat)
    requires i < |records|
    ensures var e := read(records[i].line, records[i].offsetBytes);
      EventsOf(read, records[..i + 1]) == if e.Some? then EventsOf(read, records[..i]) + [e.value]
                                          else EventsOf(read, records[..i])
  {
    assert records[..i + 1] == records[..i] + [records[i]];
    EventsOfConcat(read, records[..i], [records[i]]);
    assert [records[i]][1..] == [];
    var e := read(records[i].line, records[i].offsetBytes);
    assert EventsOf(read, [records[i]]) == if e.Some? then [e.value] else [];
  }

  lemma ResultIs(hash: Hash, read: LineReader, s: State, n: nat, result: ReadResult)
    requires Start(hash, s) + n <= |s.file| && result == ReadOf(hash, s.birth, s.file, s.cursor, n)
    ensures EventsOf(read, result.records) == Taken(hash, read, s, n)
    ensures result.next == CursorAt(hash, s.birth, s.file, Reach(hash, s, n))
    ensures result.records == [] <==> Reach(hash, s, n) == Start(hash, s)
  {
    ReadOfFields(hash, s.birth, s.file, s.cursor, n);
    TakenIs(hash, read, s, n);
    NoRecordsIff(s.file, Start(hash, s), Start(hash, s) + n);
  }

  lemma TakenIs(hash: Hash, read: LineReader, s: State, n: nat)
    requires Start(hash, s) + n <= |s.file|
    ensures Taken(hash, read, s, n) == EventsOf(read, Split(s.file, Start(hash, s), Start(hash, s) + n))
    ensures Reach(hash, s, n) == Committed(s.file, Start(hash, s), Start(hash, s) + n)
  {
    assert Window(hash, s, n) == Start(hash, s) + n;
  }

  lemma NoRecordsIff(file: seq<byte>, from: nat, to: nat)
    requires from <= to <= |file|
    ensures Split(file, from, to) == [] <==> Committed(file, from, to) == from
  {
    SplitNothing(file, from, to);
  }

  /** Filling the window is as good as asking for all of it. */
  lemma EndIsDone(hash: Hash, read: LineReader, s: State, maxBytes: nat, n: nat)
    requires SystemInv(read, s) && n == Min(maxBytes, |s.file| - Start(hash, s))
    requires AtEnd(hash, s, n, |s.file|)
    ensures IngestOnce(hash, read, s, n).mark <= |s.file|
    ensures LinesFit(s.file, maxBytes) ==> Drained(IngestOnce(hash, read, s, n))
  {
    AtEndIsRight(hash, read, s, n);
    if LinesFit(s.file, maxBytes) {
      var k := FirstNewline(s.file, Start(hash, s), |s.file|);
      assert Clean(s.file, Start(hash, s), k);
    }
  }
}
