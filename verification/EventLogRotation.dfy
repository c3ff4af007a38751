/**
 Keeping the event log bounded (apps/core/src/event-log-rotation.ts): trim by age into a temporary
 file, move the log into the archive, move the trimmed copy into its place.
 */
module EventLogRotation {
  import opened Common
  import opened EventLogReader
  import opened UsageProjection
  import opened EventIngest

  /** Milliseconds of the first timestamp of a line; None for a line without one. */
  type Timestamps = seq<byte> -> Option<int>

  predicate Keeps(time: Timestamps, cutoff: int, line: seq<byte>) {
    line != [] && time(line).Some? && time(line).value >= cutoff
  }

  function Kept(time: Timestamps, cutoff: int, lines: seq<seq<byte>>): seq<seq<byte>>
    decreases |lines|
  {
    if lines == [] then []
    else
      var last := lines[|lines| - 1];
      Kept(time, cutoff, lines[..|lines| - 1]) + if Keeps(time, cutoff, last) then [last] else []
  }

  /** Lines as they are written: each followed by a newline. */
  function Render(lines: seq<seq<byte>>): seq<byte>
    decreases |lines|
  {
    if lines == [] then [] else Render(lines[..|lines| - 1]) + (lines[|lines| - 1] + [NEWLINE])
  }

  /** What a line reader delivers: no newline inside, no carriage return at the end. */
  predicate IsText(line: seq<byte>) {
    NEWLINE !in line && (line != [] ==> line[|line| - 1] != CARRIAGE_RETURN)
  }

  function TextsOf(records: seq<LineRecord>): seq<seq<byte>> {
    seq(|records|, i requires 0 <= i < |records| => records[i].line)
  }

  lemma OneLineSplit(prefix: seq<byte>, line: seq<byte>)
    requires IsText(line)
    ensures var file := prefix + (line + [NEWLINE]);
      && Split(file, |prefix|, |file|) == [LineRecord(line, |prefix|, |file|)]
      && Committed(file, |prefix|, |file|) == |file|
  {
    var file := prefix + (line + [NEWLINE]);
    var k := |prefix| + |line|;
    assert forall i :: |prefix| <= i < k ==> file[i] == line[i - |prefix|];
    assert file[|prefix|..k] == line;
    SplitFirst(file, |prefix|, |file|, k);
    SplitNothing(file, |file|, |file|);
  }

  /** Round trip: reading what was written gives back the lines, and nothing is left over. */
  lemma {:induction false} RenderRoundTrip(lines: seq<seq<byte>>)
    requires forall i :: 0 <= i < |lines| ==> IsText(lines[i])
    ensures TextsOf(Split(Render(lines), 0, |Render(lines)|)) == lines
    ensures Committed(Render(lines), 0, |Render(lines)|) == |Render(lines)|
    decreases |lines|
  {
    if lines == [] {
      SplitNothing([], 0, 0);
    } else {
      var before, last := lines[..|lines| - 1], lines[|lines| - 1];
      RenderRoundTrip(before);
      var prefix := Render(before);
      var file := prefix + (last + [NEWLINE]);
      SplitLocal(prefix, file, 0, |prefix|);
      SplitExtends(file, 0, |prefix|, |file|);
      OneLineSplit(prefix, last);
      TextsAppend(Split(file, 0, |prefix|), LineRecord(last, |prefix|, |file|));
      assert lines == before + [last];
    }
  }

  lemma TextsAppend(records: seq<LineRecord>, r: LineRecord)
    ensures TextsOf(records + [r]) == TextsOf(records) + [r.line]
  {}

  lemma {:induction false} KeptAreTexts(time: Timestamps, cutoff: int, lines: seq<seq<byte>>)
    requires forall i :: 0 <= i < |lines| ==> IsText(lines[i])
    ensures forall line :: line in Kept(time, cutoff, lines) <==>
              line in lines && line != [] && time(line).Some? && cutoff <= time(line).value
    ensures forall line :: line in Kept(time, cutoff, lines) ==> IsText(line)
    decreases |lines|
  {
    if lines != [] {
      KeptAreTexts(time, cutoff, lines[..|lines| - 1]);
      assert lines == lines[..|lines| - 1] + [lines[|lines| - 1]];
    }
  }

  /** The lines that stay keep their order and number, and each is judged by itself. */
  lemma {:induction false} KeptIsFilter(time: Timestamps, cutoff: int, a: seq<seq<byte>>, b: seq<seq<byte>>)
    ensures Kept(time, cutoff, a + b) == Kept(time, cutoff, a) + Kept(time, cutoff, b)
    ensures |b| == 1 ==> Kept(time, cutoff, b)
                         == if b[0] != [] && time(b[0]).Some? && cutoff <= time(b[0]).value then b else []
    decreases |b|
  {
    if b == [] {
      assert a + b == a;
      assert Kept(time, cutoff, a) + [] == Kept(time, cutoff, a);
    } else {
      var before, last := b[..|b| - 1], b[|b| - 1];
      KeptIsFilter(time, cutoff, a, before);
      assert (a + b)[..|a + b| - 1] == a + before;
      var one := if Keeps(time, cutoff, last) then [last] else [];
      assert (Kept(time, cutoff, a) + Kept(time, cutoff, before)) + one
             == Kept(time, cutoff, a) + (Kept(time, cutoff, before) + one);
    }
  }

  /** The lines a line reader delivers: the complete ones and, if there is any, the unterminated rest. */
  function FileTexts(content: seq<byte>): seq<seq<byte>> {
    var tail := content[Committed(content, 0, |content|)..];
    TextsOf(Split(content, 0, |content|)) + if tail == [] then [] else [Decode(tail)]
  }

  /** Every complete line is delivered, and a rest without newline as one line more. */
  lemma RestIsDelivered(content: seq<byte>)
    ensures forall i :: 0 <= i < |Split(content, 0, |content|)| ==>
              i < |FileTexts(content)| && FileTexts(content)[i] == Split(content, 0, |content|)[i].line
    ensures if content == [] || content[|content| - 1] == NEWLINE then |FileTexts(content)| == |Split(content, 0, |content|)|
            else
              && |FileTexts(content)| == |Split(content, 0, |content|)| + 1
              && exists n :: 0 <= n < |content| && Clean(content, n, |content|) && (n == 0 || content[n - 1] == NEWLINE)
                             && TextOf(content[n..], FileTexts(content)[|FileTexts(content)| - 1])
  {
    var n := Committed(content, 0, |content|);
    SplitTiles(content, 0, |content|);
    var records := Split(content, 0, |content|);
    if records != [] {
      assert Follows(content, 0, records, |records| - 1);
    }
    assert Clean(content, n, |content|);
    DecodeIsText(content[n..], Decode(content[n..]));
  }

  /** Carriage returns only in front of a newline or at the end. */
  ghost predicate PlainLines(content: seq<byte>) {
    forall i :: 0 <= i < |content| - 1 && content[i] == CARRIAGE_RETURN ==> content[i + 1] == NEWLINE
  }

  lemma StretchIsText(content: seq<byte>, from: nat, to: nat)
    requires PlainLines(content) && from <= to <= |content| && Clean(content, from, to)
    ensures IsText(Decode(content[from..to]))
  {
    var raw := content[from..to];
    assert forall i :: 0 <= i < |raw| ==> raw[i] == content[from + i];
    if raw != [] && raw[|raw| - 1] == CARRIAGE_RETURN && |raw| > 1 {
      assert content[to - 1] != NEWLINE;
    }
  }

  lemma FileTextsAreTexts(content: seq<byte>)
    requires PlainLines(content)
    ensures forall i :: 0 <= i < |FileTexts(content)| ==> IsText(FileTexts(content)[i])
  {
    var records, end := Split(content, 0, |content|), Committed(content, 0, |content|);
    SplitTiles(content, 0, |content|);
    forall i | 0 <= i < |FileTexts(content)| ensures IsText(FileTexts(content)[i]) {
      if i < |records| {
        assert Follows(content, 0, records, i);
        StretchIsText(content, records[i].offsetBytes, records[i].endOffsetBytes - 1);
      } else {
        assert content[end..] == content[end..|content|];
        StretchIsText(content, end, |content|);
      }
    }
  }

  function NonEmpty(lines: seq<seq<byte>>): nat
    decreases |lines|
  {
    if lines == [] then 0 else NonEmpty(lines[..|lines| - 1]) + if lines[|lines| - 1] == [] then 0 else 1
  }

  /** Lines that are not empty and have no timestamp. */
  function Undated(time: Timestamps, lines: seq<seq<byte>>): nat
    decreases |lines|
  {
    if lines == [] then 0
    else
      var last := lines[|lines| - 1];
      Undated(time, lines[..|lines| - 1]) + if last != [] && time(last).None? then 1 else 0
  }

  /** Copy the lines that are young enough; every non-empty line is counted as kept or dropped. */
  method TrimEventLogFile(source: seq<byte>, time: Timestamps, cutoff: int)
    returns (target: seq<byte>, keptLines: nat, droppedLines: nat, malformedLines: nat, keptBytes: nat)
    ensures target == Render(Kept(time, cutoff, FileTexts(source))) && keptBytes == |target|
    ensures keptLines == |Kept(time, cutoff, FileTexts(source))|
    ensures keptLines + droppedLines == NonEmpty(FileTexts(source)) && malformedLines == Undated(time, FileTexts(source))
  {
    var lines := FileTexts(source);
    target, keptLines, droppedLines, malformedLines, keptBytes := [], 0, 0, 0, 0;
    for i := 0 to |lines|
      invariant target == Render(Kept(time, cutoff, lines[..i])) && keptBytes == |target|
      invariant keptLines == |Kept(time, cutoff, lines[..i])| && keptLines + droppedLines == NonEmpty(lines[..i])
      invariant malformedLines == Undated(time, lines[..i])
    {
      TrimStep(time, cutoff, lines, i);
      var line := lines[i];
      if |line| == 0 {
        continue;
      }
      var timestamp := time(line);
      if timestamp.None? {
        malformedLines, droppedLines := malformedLines + 1, droppedLines + 1;
        continue;
      }
      if timestamp.value < cutoff {
        droppedLines := droppedLines + 1;
        continue;
      }
      var record := line + [NEWLINE];
      keptLines, keptBytes := keptLines + 1, keptBytes + |record|;
      target := target + record;
    }
    assert lines[..|lines|] == lines;
  }

  lemma TrimStep(time: Timestamps, cutoff: int, lines: seq<seq<byte>>, i: nat)
    requires i < |lines|
    ensures var kept := Kept(time, cutoff, lines[..i]);
      && Undated(time, lines[..i + 1]) == Undated(time, lines[..i]) + (if lines[i] != [] && time(lines[i]).None? then 1 else 0)
      && NonEmpty(lines[..i + 1]) == NonEmpty(lines[..i]) + (if lines[i] == [] then 0 else 1)
      && (if Keeps(time, cutoff, lines[i])
          then Kept(time, cutoff, lines[..i + 1]) == kept + [lines[i]]
               && Render(kept + [lines[i]]) == Render(kept) + (lines[i] + [NEWLINE])
          else Kept(time, cutoff, lines[..i + 1]) == kept)
  {
    assert lines[..i + 1][..i] == lines[..i];
    var kept := Kept(time, cutoff, lines[..i]);
    assert (kept + [lines[i]])[..|kept|] == kept;
    assert kept + [] == kept;
  }

  // ---------------------------------------------------------------- the files

  datatype Path = Live | Temp | Archive(attempt: nat)

  type Files = map<Path, seq<byte>>

  /** Which of the moves fail. */
  datatype Faults = Faults(trim: bool, toArchive: bool, toLive: bool, backToLive: bool)

  datatype Outcome = NoLog | BelowThreshold | Rotated(archive: nat) | Threw

  /** The old log is in its place or in the archive. */
  predicate Holds(files: Files, original: seq<byte>) {
    (Live in files && files[Live] == original)
    || exists i: nat :: i < 100 && Archive(i) in files && files[Archive(i)] == original
  }

  /** The first of a hundred archive names that is free. */
  ghost predicate FirstFree(files: Files, k: nat) {
    k < 100 && Archive(k) !in files && forall i: nat :: i < k ==> Archive(i) in files
  }

  /** What a call that threw leaves behind, by the move that failed. */
  ghost predicate LeftBehind(before: Files, trimmed: seq<byte>, faults: Faults, after: Files)
    requires Live in before
  {
    if faults.trim then after == before - {Temp}
    else if faults.toArchive || !exists k :: FirstFree(before, k) then after == before[Temp := trimmed]
    else if !faults.backToLive then after == before - {Temp}
    else exists k :: FirstFree(before, k) && after == (before - {Live, Temp})[Archive(k) := before[Live]]
  }

  class EventLogDirectory {
    var files: Files
    /** Every state the directory has been in, for what a crash may leave behind. */
    ghost var history: seq<Files>

    constructor (files: Files)
      ensures this.files == files && history == [files]
    {
      this.files, history := files, [files];
    }

    method Write(path: Path, content: seq<byte>)
      modifies this
      ensures files == old(files)[path := content] && history == old(history) + [files]
    {
      files := files[path := content];
      history := history + [files];
    }

    method Rename(from: Path, to: Path)
      requires from in files && from != to
      modifies this
      ensures files == (old(files) - {from})[to := old(files)[from]] && history == old(history) + [files]
    {
      files := (files - {from})[to := files[from]];
      history := history + [files];
    }

    method Unlink(path: Path)
      modifies this
      ensures files == old(files) - {path} && history == old(history) + [files]
    {
      files := files - {path};
      history := history + [files];
    }

    /** The first of a hundred names that is free. */
    method NextArchivePath() returns (attempt: Option<nat>)
      ensures attempt.Some? ==> FirstFree(files, attempt.value)
      ensures attempt.None? ==> forall i: nat :: i < 100 ==> Archive(i) in files
    {
      for i := 0 to 100
        invariant forall k: nat :: k < i ==> Archive(k) in files
      {
        if Archive(i) !in files {
          return Some(i);
        }
      }
      attempt := None;
    }

    /**
     Rotate.  In every state on the way the old content is still there; a failed call leaves the log
     in place unless moving it back failed too, and then the archive has it.
     */
    method RotateEventLogIfNeeded(maxBytes: nat, time: Timestamps, cutoff: int, faults: Faults)
      returns (outcome: Outcome)
      modifies this
      ensures outcome.NoLog? <==> Live !in old(files)
      ensures outcome.BelowThreshold? <==> Live in old(files) && |old(files)[Live]| <= maxBytes
      ensures outcome.NoLog? || outcome.BelowThreshold? ==> files == old(files) && history == old(history)
      ensures outcome.Rotated? <==> Live in old(files) && |old(files)[Live]| > maxBytes && !faults.trim && !faults.toArchive
                                    && !faults.toLive && exists k :: FirstFree(old(files), k)
      ensures outcome.Threw? ==>
                LeftBehind(old(files), Render(Kept(time, cutoff, FileTexts(old(files)[Live]))), faults, files)
      ensures outcome.Rotated? ==>
                && FirstFree(old(files), outcome.archive)
                && files == (old(files) - {Temp})[Live := Render(Kept(time, cutoff, FileTexts(old(files)[Live])))]
                                               [Archive(outcome.archive) := old(files)[Live]]
      ensures outcome.Threw? && Live !in files ==> faults.toLive && faults.backToLive
      ensures Live in old(files) && Live !in files ==> outcome.Threw?
      ensures outcome.Threw? && Live in files ==> files[Live] == old(files)[Live]
      ensures |history| >= |old(history)|
      ensures Live in old(files) ==>
                forall i :: |old(history)| <= i < |history| ==> Holds(history[i], old(files)[Live])
      ensures forall i: nat :: Archive(i) in old(files) ==>
                Archive(i) in files && files[Archive(i)] == old(files)[Archive(i)]
    {
      if Live !in files { return NoLog; }
      if |files[Live]| <= maxBytes { return BelowThreshold; }
      ghost var original := files[Live];
      var target, keptLines, droppedLines, malformedLines, keptBytes := TrimEventLogFile(files[Live], time, cutoff);
      Write(Temp, target);
      if faults.trim {
        Unlink(Temp);
        return Threw;
      }
      var attempt := NextArchivePath();
      assert forall k :: FirstFree(files, k) <==> FirstFree(old(files), k);
      assert attempt.Some? <==> exists k :: FirstFree(old(files), k);
      if attempt.None? || faults.toArchive { return Threw; }
      var done := Exchange(attempt.value, faults);
      outcome := if done then Rotated(attempt.value) else Threw;
    }

    /** Archive the log and move the trimmed copy into its place; if that fails, move the log back. */
    method Exchange(archive: nat, faults: Faults) returns (done: bool)
      requires Live in files && Temp in files && FirstFree(files, archive)
      modifies this
      ensures done <==> !faults.toLive
      ensures files == (if done then (old(files) - {Temp})[Live := old(files)[Temp]][Archive(archive) := old(files)[Live]]
                        else if !faults.backToLive then old(files) - {Temp}
                        else (old(files) - {Live, Temp})[Archive(archive) := old(files)[Live]])
      ensures old(history) <= history
      ensures forall i :: |old(history)| <= i < |history| ==> Holds(history[i], old(files)[Live])
    {
      Rename(Live, Archive(archive));
      if faults.toLive {
        if !faults.backToLive {
          Rename(Archive(archive), Live);
        }
        Unlink(Temp);
        assert !faults.backToLive ==> files == old(files) - {Temp};
        return false;
      }
      Rename(Temp, Live);
      done := true;
    }
  }

  // ---------------------------------------------------------------- rotation and the tables

  /** A replaced file is read from its beginning, whatever the stored cursor says. */
  lemma ReplacedFileStartsOver(hash: Hash, read: LineReader, s: State, content: seq<byte>, newBirth: int)
    requires SystemInv(read, s) && newBirth > s.birth
    ensures Start(hash, Next(hash, read, s, Replace(content, newBirth))) == 0
  {}

  /** A file not read before, read to its end, adds its lines to what was seen. */
  lemma UnreadFile(hash: Hash, read: LineReader, s: State)
    requires SystemInv(read, s) && s.mark == 0 && Start(hash, s) == 0
    requires Committed(s.file, 0, |s.file|) == |s.file|
    ensures IngestOnce(hash, read, s, |s.file|).seen == s.seen + Lines(read, s.file, 0, |s.file|)
  {
    assert Reach(hash, s, |s.file|) == |s.file|;
    if s.file == [] {
      SplitNothing(s.file, 0, 0);
      assert s.seen + [] == s.seen;
    }
  }

  lemma FreshRead(hash: Hash, read: LineReader, s: State)
    requires SystemInv(read, s) && s.mark == 0 && Start(hash, s) == 0
    requires Committed(s.file, 0, |s.file|) == |s.file|
    ensures SystemInv(read, IngestOnce(hash, read, s, |s.file|))
    ensures IngestOnce(hash, read, s, |s.file|).seen == s.seen + Lines(read, s.file, 0, |s.file|)
  {
    IngestInv(hash, read, s, |s.file|);
    UnreadFile(hash, read, s);
  }

  lemma ReplacementRead(hash: Hash, read: LineReader, s: State, replaced: State, content: seq<byte>, newBirth: int)
    requires SystemInv(read, s) && newBirth > s.birth && Committed(content, 0, |content|) == |content|
    requires replaced == Next(hash, read, s, Replace(content, newBirth))
    ensures SystemInv(read, IngestOnce(hash, read, replaced, |content|))
    ensures IngestOnce(hash, read, replaced, |content|).seen == s.seen + Lines(read, content, 0, |content|)
  {
    ReplaceInv(read, s, content, newBirth);
    ReplacedFileStartsOver(hash, read, s, content, newBirth);
    FreshRead(hash, read, replaced);
  }

  /** Replacing the file and ingesting keeps every row. */
  lemma ReplacementKeepsRows(hash: Hash, read: LineReader, s: State, content: seq<byte>, newBirth: int, got: nat, id: EventId)
    requires SystemInv(read, s) && newBirth > s.birth && id in s.tables.events
    ensures var after := IngestOnce(hash, read, Next(hash, read, s, Replace(content, newBirth)), got);
      id in after.tables.events && Enriches(s.tables.events[id].payload, after.tables.events[id].payload)
  {
    var replaced := Next(hash, read, s, Replace(content, newBirth));
    ReplaceInv(read, s, content, newBirth);
    StepKeepsRows(hash, read, replaced, Ingest(got), id);
  }

  /** What rotation leaves of the log. */
  function Trimmed(time: Timestamps, cutoff: int, file: seq<byte>): seq<byte> {
    Render(Kept(time, cutoff, FileTexts(file)))
  }

  /** Rotate, then read the trimmed log to its end. */
  function AfterRotation(hash: Hash, read: LineReader, s: State, time: Timestamps, cutoff: int, newBirth: int): State {
    var content := Trimmed(time, cutoff, s.file);
    IngestOnce(hash, read, Next(hash, read, s, Replace(content, newBirth)), |content|)
  }

  /** The ids stored afterwards are those projected before and those of the kept lines of the log. */
  lemma RotationKeepsProjectedRows(hash: Hash, read: LineReader, s: State, time: Timestamps, cutoff: int, newBirth: int,
                                   id: EventId)
    requires SystemInv(read, s) && newBirth > s.birth && PlainLines(s.file)
    ensures var content := Trimmed(time, cutoff, s.file);
      var after := AfterRotation(hash, read, s, time, cutoff, newBirth);
      && TextsOf(Split(content, 0, |content|)) == Kept(time, cutoff, FileTexts(s.file))
      && (id in after.tables.events <==>
            id in s.tables.events || First(Lines(read, content, 0, |content|), id).Some?)
      && (id in s.tables.events ==> Enriches(s.tables.events[id].payload, after.tables.events[id].payload))
      && SystemInv(read, after)
  {
    var content := Trimmed(time, cutoff, s.file);
    FileTextsAreTexts(s.file);
    KeptAreTexts(time, cutoff, FileTexts(s.file));
    RenderRoundTrip(Kept(time, cutoff, FileTexts(s.file)));
    ReplacementRead(hash, read, s, Next(hash, read, s, Replace(content, newBirth)), content, newBirth);
    if id in s.tables.events {
      ReplacementKeepsRows(hash, read, s, content, newBirth, |content|, id);
    }
    FirstConcat(s.seen, Lines(read, content, 0, |content|), id);
  }

  /** What a line says does not depend on where it stands, as for every line with a record id. */
  ghost predicate OffsetFree(read: LineReader) {
    forall line, i, j :: read(line, i) == read(line, j)
  }

  predicate Names(read: LineReader, line: seq<byte>, id: EventId) {
    read(line, 0).Some? && read(line, 0).value.id == id
  }

  lemma {:induction false} FirstOfRecords(read: LineReader, records: seq<LineRecord>, id: EventId)
    requires OffsetFree(read)
    ensures First(EventsOf(read, records), id).Some? <==> exists line :: line in TextsOf(records) && Names(read, line, id)
    decreases |records|
  {
    if records != [] {
      var rest := records[1..];
      FirstOfRecords(read, rest, id);
      var e := read(records[0].line, records[0].offsetBytes);
      var one := if e.Some? then [e.value] else [];
      assert read(records[0].line, 0) == e;
      FirstConcat(one, EventsOf(read, rest), id);
      FirstOfOne(e, id);
      assert TextsOf(records) == [records[0].line] + TextsOf(rest);
      assert forall line :: line in TextsOf(records) <==> line == records[0].line || line in TextsOf(rest);
      if exists line :: line in TextsOf(rest) && Names(read, line, id) {
        var line :| line in TextsOf(rest) && Names(read, line, id);
        assert line in TextsOf(records);
      }
      if Names(read, records[0].line, id) { assert records[0].line in TextsOf(records); }
    }
  }

  lemma FirstOfOne(e: Option<Event>, id: EventId)
    ensures First(if e.Some? then [e.value] else [], id).Some? <==> e.Some? && e.value.id == id
  {
    if e.Some? {
      assert [e.value][..0] == [];
      assert First([e.value][..0], id).None?;
    }
  }

  /**
   Exactly which events survive: those projected before, and those of a line of the old log that is
   non-empty, dated and young enough.  Every other event of the log is lost.
   */
  lemma RotationLosesIff(hash: Hash, read: LineReader, s: State, time: Timestamps, cutoff: int, newBirth: int, id: EventId)
    requires SystemInv(read, s) && newBirth > s.birth && PlainLines(s.file) && OffsetFree(read)
    ensures id in AfterRotation(hash, read, s, time, cutoff, newBirth).tables.events
            <==> || id in s.tables.events
                 || exists line :: line in FileTexts(s.file) && Keeps(time, cutoff, line) && Names(read, line, id)
  {
    var content := Trimmed(time, cutoff, s.file);
    RotationKeepsProjectedRows(hash, read, s, time, cutoff, newBirth, id);
    FileTextsAreTexts(s.file);
    KeptAreTexts(time, cutoff, FileTexts(s.file));
    FirstOfRecords(read, Split(content, 0, |content|), id);
  }

  /** A log of one old line that had not been read: an ingest would store its event, rotation loses it. */
  lemma OldUnreadLineIsLost(hash: Hash, read: LineReader, time: Timestamps, cutoff: int, line: seq<byte>, birth: int)
    requires OffsetFree(read) && read(line, 0).Some? && IsText(line) && CARRIAGE_RETURN !in line
    requires time(line).Some? && time(line).value < cutoff
    ensures var s, id := Init(line + [NEWLINE], birth), read(line, 0).value.id;
      && id in IngestOnce(hash, read, s, |s.file|).tables.events
      && id !in AfterRotation(hash, read, s, time, cutoff, birth + 1).tables.events
  {
    var s, id := Init(line + [NEWLINE], birth), read(line, 0).value.id;
    InitInv(read, s.file, birth);
    OneLineFile(line);
    RotationLosesIff(hash, read, s, time, cutoff, birth + 1, id);
    OneLineIsStored(hash, read, line, birth);
  }

  lemma OneLineFile(line: seq<byte>)
    requires IsText(line) && CARRIAGE_RETURN !in line
    ensures var file := line + [NEWLINE];
      && PlainLines(file) && Committed(file, 0, |file|) == |file|
      && TextsOf(Split(file, 0, |file|)) == [line] && FileTexts(file) == [line]
  {
    OneLineSplit([], line);
    assert [] + (line + [NEWLINE]) == line + [NEWLINE];
  }

  lemma OneLineIsStored(hash: Hash, read: LineReader, line: seq<byte>, birth: int)
    requires OffsetFree(read) && read(line, 0).Some? && IsText(line) && CARRIAGE_RETURN !in line
    ensures read(line, 0).value.id in IngestOnce(hash, read, Init(line + [NEWLINE], birth), |line| + 1).tables.events
  {
    var s, id := Init(line + [NEWLINE], birth), read(line, 0).value.id;
    InitInv(read, s.file, birth);
    OneLineFile(line);
    IngestInv(hash, read, s, |s.file|);
    UnreadFile(hash, read, s);
    assert line in TextsOf(Split(s.file, 0, |s.file|)) && Names(read, line, id);
    FirstOfRecords(read, Split(s.file, 0, |s.file|), id);
    FirstConcat(s.seen, Lines(read, s.file, 0, |s.file|), id);
  }

  /**
   Exactly once across a rotation: when the log had been read to its last byte, reading the trimmed
   log adds no row, and outside WorkBuddy usage the event table and its counter are what they were.
   */
  lemma DrainedRotation(hash: Hash, read: LineReader, s: State, time: Timestamps, cutoff: int, newBirth: int)
    requires SystemInv(read, s) && newBirth > s.birth && PlainLines(s.file) && OffsetFree(read) && s.mark == |s.file|
    ensures var after := AfterRotation(hash, read, s, time, cutoff, newBirth);
      && after.tables.events.Keys == s.tables.events.Keys && after.tables.count == s.tables.count
      && ((forall id :: id in s.tables.events ==> !WorkbuddyUsageEvent(s.tables.events[id].payload)) ==>
            after.tables.events == s.tables.events)
  {
    var after := AfterRotation(hash, read, s, time, cutoff, newBirth).tables;
    forall id
      ensures id in after.events <==> id in s.tables.events
      ensures id in s.tables.events && !WorkbuddyUsageEvent(s.tables.events[id].payload) ==>
                after.events[id] == s.tables.events[id]
    {
      DrainedRow(hash, read, s, time, cutoff, newBirth, id);
    }
    RotatedInv(hash, read, s, time, cutoff, newBirth);
    CountsAgree(s.tables, after);
    if forall id :: id in s.tables.events ==> !WorkbuddyUsageEvent(s.tables.events[id].payload) {
      assert after.events == s.tables.events;
    }
  }

  lemma RotatedInv(hash: Hash, read: LineReader, s: State, time: Timestamps, cutoff: int, newBirth: int)
    requires SystemInv(read, s) && newBirth > s.birth && PlainLines(s.file)
    ensures Inv(AfterRotation(hash, read, s, time, cutoff, newBirth).tables)
  {
    RotationKeepsProjectedRows(hash, read, s, time, cutoff, newBirth, EventId(""));
  }

  lemma DrainedRow(hash: Hash, read: LineReader, s: State, time: Timestamps, cutoff: int, newBirth: int, id: EventId)
    requires SystemInv(read, s) && newBirth > s.birth && PlainLines(s.file) && OffsetFree(read) && s.mark == |s.file|
    ensures var after := AfterRotation(hash, read, s, time, cutoff, newBirth).tables;
      && (id in after.events <==> id in s.tables.events)
      && (id in s.tables.events && !WorkbuddyUsageEvent(s.tables.events[id].payload) ==>
            after.events[id] == s.tables.events[id])
  {
    RotationLosesIff(hash, read, s, time, cutoff, newBirth, id);
    RotationKeepsProjectedRows(hash, read, s, time, cutoff, newBirth, id);
    DrainedTexts(read, s, id);
    if id in s.tables.events {
      SamePayloadSameRow(s.tables, AfterRotation(hash, read, s, time, cutoff, newBirth).tables, id);
    }
  }

  lemma SamePayloadSameRow(a: Tables, b: Tables, id: EventId)
    ensures Inv(a) && Inv(b) && id in a.events && id in b.events && a.events[id].payload == b.events[id].payload ==>
              a.events[id] == b.events[id]
  {
    if Inv(a) && Inv(b) && id in a.events && id in b.events {
      assert EventOk(a, id) && EventOk(b, id);
    }
  }

  /** A log read to its last byte has no line whose event is not stored. */
  lemma DrainedTexts(read: LineReader, s: State, id: EventId)
    requires SystemInv(read, s) && OffsetFree(read) && s.mark == |s.file|
    ensures (exists line :: line in FileTexts(s.file) && Names(read, line, id)) ==> id in s.tables.events
  {
    var texts := TextsOf(Split(s.file, 0, |s.file|));
    assert s.file[|s.file|..] == [] && FileTexts(s.file) == texts;
    if exists line :: line in FileTexts(s.file) && Names(read, line, id) {
      FirstOfRecords(read, Split(s.file, 0, |s.file|), id);
      DrainedIsKnown(read, s, id);
    }
  }

  lemma DrainedIsKnown(read: LineReader, s: State, id: EventId)
    requires SystemInv(read, s) && s.mark == |s.file| && First(Lines(read, s.file, 0, |s.file|), id).Some?
    ensures id in s.tables.events
  {
    var events := Lines(read, s.file, 0, |s.file|);
    FirstIsIn(events, id);
    var i :| 0 <= i < |events| && events[i] == First(events, id).value;
    assert First(s.seen, events[i].id).Some?;
  }

  lemma CountsAgree(a: Tables, b: Tables)
    requires Inv(a) && Inv(b) && a.events.Keys == b.events.Keys
    ensures a.count == b.count
  {
    assert |a.events| == |a.events.Keys| && |b.events| == |b.events.Keys|;
  }
}
