/**
 The per-file work of a CodeBuddy log pass, on mutable cursor, ledger and event log
 (packages/adapters-codebuddy-log/src/codebuddy-log-sync.ts).
 */
module CodebuddySync {
  import opened Common
  import opened EventLogReader
  import opened CodebuddyTail

  /** The sightings a ledger lets through, in order. */
  function Appended(ledger: set<LedgerKey>, sightings: seq<Sighting>): seq<Sighting>
    decreases |sightings|
  {
    if sightings == [] then []
    else
      var before := Ledger(ledger, sightings[..|sightings| - 1]);
      var last := sightings[|sightings| - 1];
      Appended(ledger, sightings[..|sightings| - 1]) + if AppendIfNew(before, last).1 then [last] else []
  }

  /** The log gets exactly as many sightings of an id as the ledger lets through. */
  lemma {:induction false} AppendedCount(ledger: set<LedgerKey>, sightings: seq<Sighting>, id: string)
    ensures Count(Appended(ledger, sightings), id) == Appends(ledger, sightings, id)
    decreases |sightings|
  {
    if sightings != [] {
      var before, last := sightings[..|sightings| - 1], sightings[|sightings| - 1];
      AppendedCount(ledger, before, id);
      var log := Appended(ledger, before);
      assert (log + [last])[..|log|] == log;
      assert log + [] == log;
    }
  }

  function Count(log: seq<Sighting>, id: string): nat
    decreases |log|
  {
    if log == [] then 0 else Count(log[..|log| - 1], id) + if log[|log| - 1].id == id then 1 else 0
  }

  /** The bytes handed to the parser. */
  function TailText(file: seq<byte>, fromOffset: nat): seq<byte>
    requires fromOffset <= |file|
  {
    var start := ReadFrom(fromOffset);
    var from, to := TextFrom(file, start), LastBoundary(file, start);
    if from <= to then file[from..to] else []
  }

  /** A log shorter than the cursor was rotated and is read from its start. */
  function FromOffset(file: seq<byte>, cursor: nat): nat { if cursor > |file| then 0 else cursor }

  function Parsed(parse: seq<byte> -> seq<Sighting>, text: seq<byte>): seq<Sighting> {
    if text == [] then [] else parse(text)
  }

  lemma BoundaryAt(file: seq<byte>, start: nat, boundary: nat)
    requires start < boundary <= |file| && file[boundary - 1] == NEWLINE && Clean(file, boundary, |file|)
    ensures LastBoundary(file, start) == boundary
  {
    CommittedAtEnd(file, start, boundary);
    SplitExtends(file, start, boundary, |file|);
    SplitNothing(file, boundary, |file|);
  }

  class CodebuddyLogSync {
    const decoded: DecodedLength
    var cursor: nat
    var seenEventIds: set<LedgerKey>
    var eventLog: seq<Sighting>

    constructor (decoded: DecodedLength, seenEventIds: set<LedgerKey>)
      ensures cursor == 0 && this.seenEventIds == seenEventIds && eventLog == [] && this.decoded == decoded
    {
      this.decoded, this.seenEventIds := decoded, seenEventIds;
      cursor, eventLog := 0, [];
    }

    /** Position of the last newline of a buffer, or -1. */
    static method LastIndexOfNewline(chunk: seq<byte>) returns (index: int)
      ensures -1 <= index < |chunk|
      ensures index >= 0 ==> chunk[index] == NEWLINE
      ensures Clean(chunk, (index + 1) as nat, |chunk|)
    {
      index := |chunk| - 1;
      while index >= 0
        invariant -1 <= index < |chunk| && Clean(chunk, (index + 1) as nat, |chunk|)
      {
        if chunk[index] == NEWLINE { return; }
        index := index - 1;
      }
    }

    /** Read from the cursor, less the overlap, to the last complete line. */
    method ReadLogTail(file: seq<byte>, fromOffset: nat) returns (text: seq<byte>, nextOffset: nat)
      requires fromOffset <= |file|
      ensures nextOffset == NextOffset(decoded, file, fromOffset)
      ensures text == TailText(file, fromOffset)
    {
      var start := if fromOffset >= OVERLAP_BYTES then fromOffset - OVERLAP_BYTES else 0;
      var chunk := file[start..];
      assert forall i :: 0 <= i < |chunk| ==> chunk[i] == file[start + i];
      var lastNewline := LastIndexOfNewline(chunk);
      if lastNewline == -1 {
        assert Clean(file, start, |file|);
        SplitNothing(file, start, |file|);
        return [], fromOffset;
      }
      var boundary := start + lastNewline + 1;
      assert forall i :: boundary <= i < |file| ==> file[i] == chunk[i - start];
      BoundaryAt(file, start, boundary);
      var complete := chunk[..lastNewline + 1];
      assert chunk[lastNewline + 1..] == file[boundary..];
      var tail := decoded(chunk[lastNewline + 1..]);
      nextOffset := if tail <= |file| then |file| - tail else 0;
      if start == 0 {
        text := complete;
        return;
      }
      var newline := IndexOfNewline(complete);
      assert complete[lastNewline] == NEWLINE;
      FirstNewlineIs(file, start, |file|, start + newline);
      text := complete[newline + 1..];
      assert text == file[start + newline + 1..boundary];
    }

    /** Append an event unless everything it carries has been appended. */
    method Append(e: Sighting) returns (written: bool)
      modifies `seenEventIds, `eventLog
      ensures (seenEventIds, written) == AppendIfNew(old(seenEventIds), e)
      ensures eventLog == if written then old(eventLog) + [e] else old(eventLog)
    {
      var missingDetail := (e.usage && e.credit && CreditSeen(e.id) !in seenEventIds)
                           || (e.usage && e.cache && CacheSeen(e.id) !in seenEventIds);
      if Seen(e.id) in seenEventIds && !missingDetail {
        return false;
      }
      eventLog := eventLog + [e];
      seenEventIds := seenEventIds + {Seen(e.id)};
      if e.usage && e.credit { seenEventIds := seenEventIds + {CreditSeen(e.id)}; }
      if e.usage && e.cache { seenEventIds := seenEventIds + {CacheSeen(e.id)}; }
      assert seenEventIds == old(seenEventIds) + LedgerKeys(e);
      written := true;
    }

    /** One file: read its tail, append what is new, keep the offset.  `parse` is the request-log parser. */
    method SyncFile(file: seq<byte>, parse: seq<byte> -> seq<Sighting>) returns (requestsWritten: nat)
      modifies this
      ensures var from := FromOffset(file, old(cursor));
        if from == |file| then unchanged(this) && requestsWritten == 0
        else
          var sightings := Parsed(parse, TailText(file, from));
          && cursor == NextOffset(decoded, file, from)
          && seenEventIds == Ledger(old(seenEventIds), sightings)
          && eventLog == old(eventLog) + Appended(old(seenEventIds), sightings)
          && requestsWritten == |Appended(old(seenEventIds), sightings)|
    {
      var fromOffset := if cursor > |file| then 0 else cursor;
      if fromOffset == |file| {
        return 0;
      }
      var text, nextOffset := ReadLogTail(file, fromOffset);
      if |text| == 0 {
        cursor := nextOffset;
        assert eventLog + [] == eventLog;
        return 0;
      }
      requestsWritten := AppendAll(parse(text));
      cursor := nextOffset;
    }

    method AppendAll(sightings: seq<Sighting>) returns (written: nat)
      modifies `seenEventIds, `eventLog
      ensures seenEventIds == Ledger(old(seenEventIds), sightings)
      ensures eventLog == old(eventLog) + Appended(old(seenEventIds), sightings)
      ensures written == |Appended(old(seenEventIds), sightings)|
    {
      ghost var ledger, log := seenEventIds, eventLog;
      written := 0;
      for i := 0 to |sightings|
        invariant seenEventIds == Ledger(ledger, sightings[..i])
        invariant eventLog == log + Appended(ledger, sightings[..i])
        invariant written == |Appended(ledger, sightings[..i])|
      {
        assert sightings[..i + 1][..i] == sightings[..i];
        var appended := Append(sightings[i]);
        if appended {
          Associate(log, Appended(ledger, sightings[..i]), [sightings[i]]);
          written := written + 1;
        }
      }
      assert sightings[..|sightings|] == sightings;
    }
  }
}
