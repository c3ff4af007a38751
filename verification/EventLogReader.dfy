/**
 The bounded, resumable reader of the event log (apps/core/src/raw-ingest.ts, raw-primitives.ts).

 A file is a sequence of bytes.  `Split` is the plain meaning of "the complete lines between two
 positions, with their offsets"; the reader computes it chunk by chunk over a window, and cursors make
 later calls continue where the last complete line ended.  Digests are computed by a function
 `hash` about which nothing is assumed.
 */
module EventLogReader {
  import opened Common

  newtype byte = b: int | 0 <= b < 256
  type Hash = seq<byte> -> int

  const NEWLINE: byte := 10
  const CARRIAGE_RETURN: byte := 13
  const PREFIX_HASH_BYTES: nat := 4096

  datatype LineRecord = LineRecord(line: seq<byte>, offsetBytes: nat, endOffsetBytes: nat)

  datatype FileIdentity = FileIdentity(birth: int, headHash: int)

  datatype Cursor = Cursor(identity: FileIdentity, committedOffset: nat, prefixHash: int)

  datatype ReadResult = ReadResult(
    identity: FileIdentity,
    startOffset: nat,
    reset: bool,
    records: seq<LineRecord>,
    trailing: seq<byte>,
    next: Cursor)

  // ---------------------------------------------------------------- complete lines of a stretch

  /** No newline at positions `from` up to `to`. */
  ghost predicate Clean(file: seq<byte>, from: nat, to: nat)
    requires to <= |file|
  {
    forall i :: from <= i < to ==> file[i] != NEWLINE
  }

  /** Position of the first newline in `[from, to)`, or `to` when there is none. */
  function FirstNewline(file: seq<byte>, from: nat, to: nat): (k: nat)
    requires from <= to <= |file|
    ensures from <= k <= to && Clean(file, from, k) && (k < to ==> file[k] == NEWLINE)
    decreases if from <= to then to - from else 0
  {
    if from == to || file[from] == NEWLINE then from else FirstNewline(file, from + 1, to)
  }

  lemma FirstNewlineIs(file: seq<byte>, from: nat, to: nat, k: nat)
    requires from <= k < to <= |file| && file[k] == NEWLINE && Clean(file, from, k)
    ensures FirstNewline(file, from, to) == k
  {}

  /** A line loses one trailing carriage return when decoded. */
  function Decode(raw: seq<byte>): seq<byte> {
    if raw != [] && raw[|raw| - 1] == CARRIAGE_RETURN then raw[..|raw| - 1] else raw
  }

  function LineAt(file: seq<byte>, from: nat, newline: nat): LineRecord
    requires from <= newline < |file|
  {
    LineRecord(Decode(file[from..newline]), from, newline + 1)
  }

  /** The complete lines of `file[from..to]`. */
  function Split(file: seq<byte>, from: nat, to: nat): seq<LineRecord>
    requires from <= to <= |file|
    decreases if from <= to then to - from else 0
  {
    var k := FirstNewline(file, from, to);
    if k == to then [] else [LineAt(file, from, k)] + Split(file, k + 1, to)
  }

  /** Where the last complete line of `file[from..to]` ends. */
  function Committed(file: seq<byte>, from: nat, to: nat): (n: nat)
    requires from <= to <= |file|
    ensures from <= n <= to
    ensures Clean(file, n, to)
    decreases if from <= to then to - from else 0
  {
    var k := FirstNewline(file, from, to);
    if k == to then from else Committed(file, k + 1, to)
  }

  lemma SplitFirst(file: seq<byte>, from: nat, to: nat, k: nat)
    requires from <= k < to <= |file| && file[k] == NEWLINE && Clean(file, from, k)
    ensures Split(file, from, to) == [LineAt(file, from, k)] + Split(file, k + 1, to)
    ensures Committed(file, from, to) == Committed(file, k + 1, to)
  {
    FirstNewlineIs(file, from, to, k);
  }

  /** Reading further continues behind the last complete line and disturbs nothing before it. */
  lemma {:induction false} SplitExtends(file: seq<byte>, from: nat, mid: nat, to: nat)
    requires from <= mid <= to <= |file|
    ensures Split(file, from, to) == Split(file, from, mid) + Split(file, Committed(file, from, mid), to)
    ensures Committed(file, from, to) == Committed(file, Committed(file, from, mid), to)
    decreases if from <= mid then mid - from else 0
  {
    var k := FirstNewline(file, from, mid);
    if k < mid {
      SplitFirst(file, from, mid, k);
      SplitFirst(file, from, to, k);
      SplitExtends(file, k + 1, mid, to);
      Reassociate(LineAt(file, from, k), Split(file, k + 1, mid), Split(file, Committed(file, k + 1, mid), to));
    }
  }

  lemma Reassociate<T>(x: T, a: seq<T>, b: seq<T>)
    ensures [x] + (a + b) == ([x] + a) + b
  {}

  lemma JoinSlices<T>(s: seq<T>, from: nat, mid: nat, to: nat)
    requires from <= mid <= to <= |s|
    ensures s[from..mid] + s[mid..to] == s[from..to]
  {}

  lemma SplitNothing(file: seq<byte>, from: nat, to: nat)
    requires from <= to <= |file|
    ensures Split(file, from, to) == [] <==> Clean(file, from, to)
    ensures Committed(file, from, to) == from <==> Clean(file, from, to)
  {}

  /** The lines of a stretch depend on the bytes of the stretch only. */
  lemma {:induction false} SplitLocal(file: seq<byte>, other: seq<byte>, from: nat, to: nat)
    requires from <= to <= |file| && to <= |other|
    requires forall i :: from <= i < to ==> file[i] == other[i]
    ensures Split(file, from, to) == Split(other, from, to)
    ensures Committed(file, from, to) == Committed(other, from, to)
    decreases if from <= to then to - from else 0
  {
    var k := FirstNewline(file, from, to);
    SameFirstNewline(file, other, from, to);
    if k < to {
      SameSlice(file, other, from, k);
      SplitLocal(file, other, k + 1, to);
    }
  }

  lemma SameFirstNewline(file: seq<byte>, other: seq<byte>, from: nat, to: nat)
    requires from <= to <= |file| && to <= |other|
    requires forall i :: from <= i < to ==> file[i] == other[i]
    ensures FirstNewline(file, from, to) == FirstNewline(other, from, to)
  {
    var k := FirstNewline(file, from, to);
    if k < to {
      FirstNewlineIs(other, from, to, k);
    }
  }

  lemma SameSlice(file: seq<byte>, other: seq<byte>, from: nat, to: nat)
    requires from <= to <= |file| && to <= |other|
    requires forall i :: from <= i < to ==> file[i] == other[i]
    ensures file[from..to] == other[from..to]
  {}

  // ---------------------------------------------------------------- an independent reading of the records

  /** The text of a stretch: its bytes, less a carriage return at the end. */
  predicate TextOf(raw: seq<byte>, line: seq<byte>) {
    if raw != [] && raw[|raw| - 1] == CARRIAGE_RETURN then raw == line + [CARRIAGE_RETURN] else line == raw
  }

  lemma DecodeIsText(raw: seq<byte>, line: seq<byte>)
    ensures line == Decode(raw) <==> TextOf(raw, line)
  {
    if raw != [] && raw[|raw| - 1] == CARRIAGE_RETURN {
      assert raw == raw[..|raw| - 1] + [CARRIAGE_RETURN];
      assert raw == line + [CARRIAGE_RETURN] ==> raw[..|raw| - 1] == line;
    }
  }

  /** The bytes in front of the record's end are its line and the only newline of the stretch. */
  ghost predicate IsLine(file: seq<byte>, r: LineRecord) {
    && r.offsetBytes < r.endOffsetBytes <= |file|
    && file[r.endOffsetBytes - 1] == NEWLINE
    && Clean(file, r.offsetBytes, r.endOffsetBytes - 1)
    && TextOf(file[r.offsetBytes..r.endOffsetBytes - 1], r.line)
  }

  /** Where record `i` has to start, given that the first one starts at `from`. */
  function Edge(from: nat, records: seq<LineRecord>, i: nat): nat
    requires i <= |records|
  {
    if i == 0 then from else records[i - 1].endOffsetBytes
  }

  /** The records are lines that follow each other without gap from `from` to `to`. */
  ghost predicate Tiles(file: seq<byte>, from: nat, to: nat, records: seq<LineRecord>) {
    && Edge(from, records, |records|) == to
    && forall i :: 0 <= i < |records| ==> Follows(file, from, records, i)
  }

  /** Record `i` is a line and starts where the previous one ended. */
  ghost predicate Follows(file: seq<byte>, from: nat, records: seq<LineRecord>, i: nat)
    requires i < |records|
  {
    IsLine(file, records[i]) && records[i].offsetBytes == Edge(from, records, i)
  }

  lemma {:induction false} SplitTiles(file: seq<byte>, from: nat, to: nat)
    requires from <= to <= |file|
    ensures Tiles(file, from, Committed(file, from, to), Split(file, from, to))
    decreases if from <= to then to - from else 0
  {
    var k := FirstNewline(file, from, to);
    if k < to {
      SplitTiles(file, k + 1, to);
      LineAtIsLine(file, from, k);
      TilesCons(file, LineAt(file, from, k), Committed(file, k + 1, to), Split(file, k + 1, to));
    }
  }

  lemma LineAtIsLine(file: seq<byte>, from: nat, newline: nat)
    requires from <= newline < |file| && Clean(file, from, newline) && file[newline] == NEWLINE
    ensures IsLine(file, LineAt(file, from, newline))
  {
    DecodeIsText(file[from..newline], Decode(file[from..newline]));
  }

  lemma TilesCons(file: seq<byte>, r: LineRecord, to: nat, rest: seq<LineRecord>)
    requires IsLine(file, r) && Tiles(file, r.endOffsetBytes, to, rest)
    ensures Tiles(file, r.offsetBytes, to, [r] + rest)
  {
    OneLineTiles(file, r);
    TilesConcat(file, r.offsetBytes, r.endOffsetBytes, to, [r], rest);
  }

  lemma OneLineTiles(file: seq<byte>, r: LineRecord)
    requires IsLine(file, r)
    ensures Tiles(file, r.offsetBytes, r.endOffsetBytes, [r])
  {}

  lemma TilesTail(file: seq<byte>, from: nat, to: nat, records: seq<LineRecord>)
    requires Tiles(file, from, to, records) && records != []
    ensures IsLine(file, records[0]) && records[0].offsetBytes == from
    ensures Tiles(file, records[0].endOffsetBytes, to, records[1..])
  {
    assert Follows(file, from, records, 0);
    var rest := records[1..];
    forall i | 0 <= i < |rest|
      ensures Follows(file, records[0].endOffsetBytes, rest, i)
    {
      assert Follows(file, from, records, i + 1);
      assert rest[i] == records[i + 1];
    }
  }

  /** Tiling a stretch leaves no freedom: the records are the split of the stretch. */
  lemma {:induction false} TilesUnique(file: seq<byte>, from: nat, to: nat, records: seq<LineRecord>)
    requires Tiles(file, from, to, records) && from <= |file|
    ensures from <= to <= |file|
    ensures records == Split(file, from, to) && Committed(file, from, to) == to
    decreases |records|
  {
    if records != [] {
      TilesTail(file, from, to, records);
      var k := records[0].endOffsetBytes - 1;
      DecodeIsText(file[from..k], records[0].line);
      TilesUnique(file, k + 1, to, records[1..]);
      FirstNewlineIs(file, from, to, k);
      HeadTail(records);
    }
  }

  lemma HeadTail<T>(s: seq<T>)
    requires s != []
    ensures s == [s[0]] + s[1..]
  {}

  lemma TilesConcat(file: seq<byte>, from: nat, mid: nat, to: nat, a: seq<LineRecord>, b: seq<LineRecord>)
    requires Tiles(file, from, mid, a) && Tiles(file, mid, to, b)
    ensures Tiles(file, from, to, a + b)
  {
    var c := a + b;
    forall i | 0 <= i < |c| ensures Follows(file, from, c, i) {
      if i < |a| {
        assert Follows(file, from, a, i);
      } else {
        assert Follows(file, mid, b, i - |a|);
      }
    }
  }

  // ---------------------------------------------------------------- cursors

  function Identity(hash: Hash, birth: int, file: seq<byte>): FileIdentity {
    FileIdentity(birth, hash(file[..Min(PREFIX_HASH_BYTES, |file|)]))
  }

  /** The up to 4 KiB in front of an offset. */
  function Before(file: seq<byte>, offset: nat): seq<byte>
    requires offset <= |file|
  {
    file[offset - Min(offset, PREFIX_HASH_BYTES)..offset]
  }

  function CursorAt(hash: Hash, birth: int, file: seq<byte>, offset: nat): Cursor
    requires offset <= |file|
  {
    Cursor(Identity(hash, birth, file), offset, hash(Before(file, offset)))
  }

  predicate CursorMatches(hash: Hash, birth: int, file: seq<byte>, c: Cursor) {
    && c.identity == Identity(hash, birth, file)
    && c.committedOffset <= |file|
    && hash(Before(file, c.committedOffset)) == c.prefixHash
  }

  function StartOf(hash: Hash, birth: int, file: seq<byte>, cursor: Option<Cursor>): (n: nat)
    ensures n <= |file|
  {
    if cursor.Some? && CursorMatches(hash, birth, file, cursor.value) then cursor.value.committedOffset else 0
  }

  /**
   Appending keeps a cursor usable once the file has reached 4 KiB: its identity hashes the first
   4 KiB only.  (A shorter file that grows changes identity, and the next read starts over.)
   */
  lemma CursorSurvivesAppend(hash: Hash, birth: int, file: seq<byte>, more: seq<byte>, offset: nat)
    requires offset <= |file|
    ensures CursorMatches(hash, birth, file, CursorAt(hash, birth, file, offset))
    ensures |file| >= PREFIX_HASH_BYTES ==>
              CursorMatches(hash, birth, file + more, CursorAt(hash, birth, file, offset))
    ensures CursorMatches(hash, birth, file + more, CursorAt(hash, birth, file, offset)) <==>
              Identity(hash, birth, file + more) == Identity(hash, birth, file)
  {
    assert Before(file + more, offset) == Before(file, offset);
    if |file| >= PREFIX_HASH_BYTES {
      assert (file + more)[..PREFIX_HASH_BYTES] == file[..PREFIX_HASH_BYTES];
    }
  }

  /**
   When a cursor is good for a file: same creation time, same first 4 KiB, a file that reaches its
   offset, and the same 4 KiB in front of the offset, as far as hashes tell.
   */
  lemma CursorMatchesIff(hash: Hash, birth: int, file: seq<byte>, offset: nat, birth': int, file': seq<byte>)
    requires offset <= |file|
    ensures var head, head' := Min(4096, |file|), Min(4096, |file'|);
      var from := if offset <= 4096 then 0 else offset - 4096;
      CursorMatches(hash, birth', file', CursorAt(hash, birth, file, offset))
      <==> birth == birth' && hash(file[..head]) == hash(file'[..head'])
           && offset <= |file'| && hash(file[from..offset]) == hash(file'[from..offset])
  {}

  // ---------------------------------------------------------------- the reader

  /** What one call returns when it got `n` bytes from where its cursor points. */
  function ReadOf(hash: Hash, birth: int, file: seq<byte>, cursor: Option<Cursor>, n: nat): ReadResult
    requires StartOf(hash, birth, file, cursor) + n <= |file|
  {
    var start := StartOf(hash, birth, file, cursor);
    var committed := Committed(file, start, start + n);
    ReadResult(Identity(hash, birth, file), start,
               cursor.Some? && !CursorMatches(hash, birth, file, cursor.value),
               Split(file, start, start + n), file[committed..start + n],
               CursorAt(hash, birth, file, committed))
  }

  lemma ReadOfFields(hash: Hash, birth: int, file: seq<byte>, cursor: Option<Cursor>, n: nat)
    requires StartOf(hash, birth, file, cursor) + n <= |file|
    ensures var start := StartOf(hash, birth, file, cursor);
      var result := ReadOf(hash, birth, file, cursor, n);
      && result.records == Split(file, start, start + n)
      && result.next == CursorAt(hash, birth, file, Committed(file, start, start + n))
  {}

  /**
   Read at most `maxBytes` in chunks of at most `chunkBytes`; the operating system may return less
   than asked (`got`), and returning nothing ends the call early.
   */
  method ReadEventLogIncremental(hash: Hash, birth: int, file: seq<byte>, cursor: Option<Cursor>,
                                 maxBytes: nat, chunkBytes: nat, got: nat -> nat)
    returns (result: ReadResult, bytesRead: nat)
    requires chunkBytes > 0
    ensures StartOf(hash, birth, file, cursor) + bytesRead <= |file| && bytesRead <= maxBytes
    ensures result == ReadOf(hash, birth, file, cursor, bytesRead)
    ensures (forall i: nat :: got(i) > 0) ==>
              bytesRead == Min(maxBytes, |file| - StartOf(hash, birth, file, cursor))
  {
    var identity := Identity(hash, birth, file);
    var reset := cursor.Some? && !CursorMatches(hash, birth, file, cursor.value);
    var startOffset := if reset then 0 else if cursor.Some? then cursor.value.committedOffset else 0;
    assert startOffset == StartOf(hash, birth, file, cursor);
    var records, committedOffset, pending;
    records, committedOffset, pending, bytesRead := ReadWindow(file, startOffset, maxBytes, chunkBytes, got);
    result := ReadResult(identity, startOffset, reset, records, pending,
                         CursorAt(hash, birth, file, committedOffset));
    ReadOfIs(hash, birth, file, cursor, bytesRead, result);
  }

  lemma ReadOfIs(hash: Hash, birth: int, file: seq<byte>, cursor: Option<Cursor>, n: nat, result: ReadResult)
    requires StartOf(hash, birth, file, cursor) + n <= |file|
    requires result.identity == Identity(hash, birth, file)
    requires result.startOffset == StartOf(hash, birth, file, cursor)
    requires result.reset <==> cursor.Some? && !CursorMatches(hash, birth, file, cursor.value)
    requires result.records == Split(file, result.startOffset, result.startOffset + n)
    requires result.next
             == CursorAt(hash, birth, file, Committed(file, result.startOffset, result.startOffset + n))
    requires result.trailing
             == file[Committed(file, result.startOffset, result.startOffset + n)..result.startOffset + n]
    ensures result == ReadOf(hash, birth, file, cursor, n)
  {}

  /** Lines, committed offset and pending bytes of the stretch read so far. */
  ghost predicate ReadSoFar(file: seq<byte>, from: nat, to: nat, records: seq<LineRecord>, committed: nat, pending: seq<byte>) {
    && from <= committed <= to <= |file|
    && records == Split(file, from, to) && committed == Committed(file, from, to)
    && pending == file[committed..to]
  }

  /** The chunk loop. */
  method ReadWindow(file: seq<byte>, startOffset: nat, maxBytes: nat, chunkBytes: nat, got: nat -> nat)
    returns (records: seq<LineRecord>, committedOffset: nat, pending: seq<byte>, bytesRead: nat)
    requires chunkBytes > 0 && startOffset <= |file|
    ensures bytesRead <= maxBytes
    ensures ReadSoFar(file, startOffset, startOffset + bytesRead, records, committedOffset, pending)
    ensures (forall i: nat :: got(i) > 0) ==> bytesRead == Min(maxBytes, |file| - startOffset)
  {
    records, pending := [], [];
    committedOffset, bytesRead := startOffset, 0;
    var readOffset := startOffset;
    var calls: nat := 0;
    while readOffset < |file| && bytesRead < maxBytes
      invariant readOffset == startOffset + bytesRead && bytesRead <= maxBytes
      invariant ReadSoFar(file, startOffset, readOffset, records, committedOffset, pending)
      decreases |file| - readOffset
    {
      var readLength := Min(chunkBytes, Min(maxBytes - bytesRead, |file| - readOffset));
      var currentBytes := Min(got(calls), readLength);
      if currentBytes == 0 {
        assert got(calls) == 0;
        break;
      }
      calls := calls + 1;
      records, committedOffset, pending :=
        AddChunk(file, startOffset, readOffset, currentBytes, records, committedOffset, pending);
      readOffset := readOffset + currentBytes;
      bytesRead := bytesRead + currentBytes;
    }
  }

  /** One chunk arrives: append it to the pending bytes and take the lines that are now complete. */
  method AddChunk(file: seq<byte>, ghost startOffset: nat, readOffset: nat, currentBytes: nat,
                  before: seq<LineRecord>, start: nat, bytes: seq<byte>)
    returns (records: seq<LineRecord>, committedOffset: nat, pending: seq<byte>)
    requires readOffset + currentBytes <= |file|
    requires ReadSoFar(file, startOffset, readOffset, before, start, bytes)
    ensures ReadSoFar(file, startOffset, readOffset + currentBytes, records, committedOffset, pending)
  {
    var to := readOffset + currentBytes;
    SplitExtends(file, startOffset, readOffset, to);
    JoinSlices(file, start, readOffset, to);
    var joined := bytes + file[readOffset..to];
    records, committedOffset, pending := TakeLines(file, before, start, to, joined);
  }

  /** Position of the first newline in a buffer, or -1. */
  method IndexOfNewline(buffer: seq<byte>) returns (index: int)
    ensures -1 <= index < |buffer|
    ensures index >= 0 ==> buffer[index] == NEWLINE && Clean(buffer, 0, index)
    ensures index < 0 ==> Clean(buffer, 0, |buffer|)
  {
    index := 0;
    while index < |buffer|
      invariant 0 <= index <= |buffer| && Clean(buffer, 0, index)
    {
      if buffer[index] == NEWLINE { return; }
      index := index + 1;
    }
    index := -1;
  }

  /** The inner loop: move complete lines from the pending bytes to the records. */
  method TakeLines(ghost file: seq<byte>, before: seq<LineRecord>, start: nat, ghost to: nat, bytes: seq<byte>)
    returns (records: seq<LineRecord>, committedOffset: nat, pending: seq<byte>)
    requires start <= to <= |file| && bytes == file[start..to]
    ensures records == before + Split(file, start, to)
    ensures committedOffset == Committed(file, start, to)
    ensures pending == file[committedOffset..to]
  {
    records, committedOffset, pending := before, start, bytes;
    var newlineIndex := IndexOfNewline(pending);
    BufferNewline(file, start, to, pending, newlineIndex);
    while newlineIndex >= 0
      invariant start <= committedOffset <= to && pending == file[committedOffset..to]
      invariant -1 <= newlineIndex < |pending|
      invariant FirstNewline(file, committedOffset, to)
                == if newlineIndex >= 0 then committedOffset + newlineIndex else to
      invariant records + Split(file, committedOffset, to) == before + Split(file, start, to)
      invariant Committed(file, committedOffset, to) == Committed(file, start, to)
      decreases |pending|, newlineIndex + 1
    {
      var endOffset := committedOffset + newlineIndex + 1;
      var record := LineRecord(Decode(pending[..newlineIndex]), committedOffset, endOffset);
      FirstLine(file, committedOffset, to, pending, newlineIndex);
      Associate(records, [record], Split(file, endOffset, to));
      records, committedOffset, pending := records + [record], endOffset, pending[newlineIndex + 1..];
      newlineIndex := IndexOfNewline(pending);
      BufferNewline(file, committedOffset, to, pending, newlineIndex);
    }
  }

  /** Searching the buffer is searching the stretch of the file it holds. */
  lemma BufferNewline(file: seq<byte>, from: nat, to: nat, buffer: seq<byte>, index: int)
    requires from <= to <= |file| && buffer == file[from..to] && -1 <= index < |buffer|
    requires index >= 0 ==> buffer[index] == NEWLINE && Clean(buffer, 0, index)
    requires index < 0 ==> Clean(buffer, 0, |buffer|)
    ensures FirstNewline(file, from, to) == if index >= 0 then from + index else to
  {
    assert forall i :: from <= i < to ==> file[i] == buffer[i - from];
    if index >= 0 {
      FirstNewlineIs(file, from, to, from + index);
    }
  }

  /** The first line of the buffer is the first line of the stretch. */
  lemma FirstLine(file: seq<byte>, from: nat, to: nat, buffer: seq<byte>, index: nat)
    requires from <= to <= |file| && buffer == file[from..to] && index < |buffer|
    requires FirstNewline(file, from, to) == from + index
    ensures Split(file, from, to)
            == [LineRecord(Decode(buffer[..index]), from, from + index + 1)] + Split(file, from + index + 1, to)
    ensures Committed(file, from, to) == Committed(file, from + index + 1, to)
    ensures buffer[index + 1..] == file[from + index + 1..to]
  {
    assert buffer[..index] == file[from..from + index];
  }

  // ---------------------------------------------------------------- resuming

  /** Several calls in a row, each getting up to `takes[i]` bytes from the offset the last one committed. */
  function Resume(file: seq<byte>, offset: nat, takes: seq<nat>): (r: (seq<LineRecord>, nat))
    requires offset <= |file|
    ensures offset <= r.1 <= |file|
    decreases |takes|
  {
    if takes == [] then ([], offset)
    else
      var to := offset + Min(takes[0], |file| - offset);
      var (more, end) := Resume(file, Committed(file, offset, to), takes[1..]);
      (Split(file, offset, to) + more, end)
  }

  /** Several calls in a row as they are made: each resumes from the cursor the last one returned. */
  function Reads(hash: Hash, birth: int, file: seq<byte>, cursor: Option<Cursor>, takes: seq<nat>)
    : (seq<LineRecord>, Option<Cursor>)
    decreases |takes|
  {
    if takes == [] then ([], cursor)
    else
      var result := ReadOf(hash, birth, file, cursor, Min(takes[0], |file| - StartOf(hash, birth, file, cursor)));
      var (more, last) := Reads(hash, birth, file, Some(result.next), takes[1..]);
      (result.records + more, last)
  }

  /** The first of several calls, and the cursor it hands to the rest. */
  lemma FirstRead(hash: Hash, birth: int, file: seq<byte>, cursor: Option<Cursor>, takes: seq<nat>)
    returns (to: nat, next: Cursor)
    requires takes != []
    ensures var start := StartOf(hash, birth, file, cursor);
      && start <= to <= |file| && to == start + Min(takes[0], |file| - start)
      && StartOf(hash, birth, file, Some(next)) == Committed(file, start, to)
      && Reads(hash, birth, file, cursor, takes)
         == (Split(file, start, to) + Reads(hash, birth, file, Some(next), takes[1..]).0,
             Reads(hash, birth, file, Some(next), takes[1..]).1)
  {
    var start := StartOf(hash, birth, file, cursor);
    to := start + Min(takes[0], |file| - start);
    next := ReadOf(hash, birth, file, cursor, to - start).next;
  }

  lemma FirstResume(file: seq<byte>, offset: nat, takes: seq<nat>, to: nat)
    requires offset <= |file| && takes != [] && to == offset + Min(takes[0], |file| - offset)
    ensures Resume(file, offset, takes)
            == (Split(file, offset, to) + Resume(file, Committed(file, offset, to), takes[1..]).0,
                Resume(file, Committed(file, offset, to), takes[1..]).1)
  {}

  /** On an unchanged file a returned cursor is accepted, so the calls continue where the last one ended. */
  lemma {:induction false} ReadsResume(hash: Hash, birth: int, file: seq<byte>, cursor: Option<Cursor>, takes: seq<nat>)
    ensures Reads(hash, birth, file, cursor, takes).0 == Resume(file, StartOf(hash, birth, file, cursor), takes).0
    ensures StartOf(hash, birth, file, Reads(hash, birth, file, cursor, takes).1)
            == Resume(file, StartOf(hash, birth, file, cursor), takes).1
    decreases |takes|
  {
    if takes != [] {
      var to, next := FirstRead(hash, birth, file, cursor, takes);
      FirstResume(file, StartOf(hash, birth, file, cursor), takes, to);
      ReadsResume(hash, birth, file, Some(next), takes[1..]);
    }
  }

  lemma SplitContinues(file: seq<byte>, offset: nat, to: nat, end: nat, more: seq<LineRecord>)
    requires offset <= to <= |file| && end <= |file|
    requires Split(file, Committed(file, offset, to), |file|) == more + Split(file, end, |file|)
    ensures Split(file, offset, |file|) == Split(file, offset, to) + more + Split(file, end, |file|)
  {
    SplitExtends(file, offset, to, |file|);
    Associate(Split(file, offset, to), more, Split(file, end, |file|));
  }

  /**
   However the file is cut into calls, their records put together are its lines in order, once
   each, and what is left to read is what the calls have not committed.
   */
  lemma {:induction false} ResumeIsSplit(file: seq<byte>, offset: nat, takes: seq<nat>)
    requires offset <= |file|
    ensures var (records, end) := Resume(file, offset, takes);
      && Tiles(file, offset, end, records)
      && Split(file, offset, |file|) == records + Split(file, end, |file|)
    decreases |takes|
  {
    if takes != [] {
      var to := offset + Min(takes[0], |file| - offset);
      var mid := Committed(file, offset, to);
      var first := Split(file, offset, to);
      ResumeIsSplit(file, mid, takes[1..]);
      var (more, end) := Resume(file, mid, takes[1..]);
      SplitTiles(file, offset, to);
      TilesConcat(file, offset, mid, end, first, more);
      SplitContinues(file, offset, to, end, more);
    }
  }

  /** Every line of the file, newline included, is at most `limit` bytes long. */
  ghost predicate LinesFit(file: seq<byte>, limit: nat) {
    forall i, j {:trigger Clean(file, i, j)} ::
      0 <= i <= j < |file| && file[j] == NEWLINE && Clean(file, i, j) ==> j - i < limit
  }

  /** A window that is no shorter than the next line makes progress. */
  lemma WindowProgress(file: seq<byte>, offset: nat, longest: nat, take: nat)
    requires offset <= |file| && LinesFit(file, longest) && take >= longest && !Clean(file, offset, |file|)
    ensures Committed(file, offset, offset + Min(take, |file| - offset)) > offset
  {
    var k := FirstNewline(file, offset, |file|);
    assert Clean(file, offset, k);
    SplitNothing(file, offset, offset + Min(take, |file| - offset));
    assert k < offset + Min(take, |file| - offset);
  }

  /** Enough windows, none smaller than the longest line, deliver exactly the lines of the file. */
  lemma {:induction false} ResumeDeliversAll(file: seq<byte>, offset: nat, longest: nat, takes: seq<nat>)
    requires offset <= |file| && |takes| >= |file| - offset
    requires LinesFit(file, longest) && forall i :: 0 <= i < |takes| ==> takes[i] >= longest
    ensures Resume(file, offset, takes).0 == Split(file, offset, |file|)
    ensures Clean(file, Resume(file, offset, takes).1, |file|)
  {
    ResumeIsSplit(file, offset, takes);
    ResumeReachesTail(file, offset, longest, takes);
    SplitNothing(file, Resume(file, offset, takes).1, |file|);
  }

  lemma {:induction false} ResumeReachesTail(file: seq<byte>, offset: nat, longest: nat, takes: seq<nat>)
    requires offset <= |file| && |takes| >= |file| - offset
    requires LinesFit(file, longest) && forall i :: 0 <= i < |takes| ==> takes[i] >= longest
    ensures Clean(file, Resume(file, offset, takes).1, |file|)
    decreases |takes|
  {
    if takes != [] {
      var to := offset + Min(takes[0], |file| - offset);
      if Clean(file, offset, |file|) {
        ResumeStays(file, offset, takes);
      } else {
        WindowProgress(file, offset, longest, takes[0]);
        ResumeReachesTail(file, Committed(file, offset, to), longest, takes[1..]);
      }
    }
  }

  /** Without a further complete line nothing is committed. */
  lemma {:induction false} ResumeStays(file: seq<byte>, offset: nat, takes: seq<nat>)
    requires offset <= |file| && Clean(file, offset, |file|)
    ensures Resume(file, offset, takes).1 == offset
    decreases |takes|
  {
    if takes != [] {
      SplitNothing(file, offset, offset + Min(takes[0], |file| - offset));
      ResumeStays(file, offset, takes[1..]);
    }
  }
}
