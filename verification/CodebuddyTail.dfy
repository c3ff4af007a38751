/**
 Reading the end of a request log again and again, and the ledger that keeps repeated sightings from
 being appended repeatedly (packages/adapters-codebuddy-log/src/codebuddy-log-sync.ts).

 A pass re-reads 128 KiB before its cursor.  Decoding bytes as UTF-8 may lengthen an unterminated tail
 (a cut character becomes a replacement character), which only moves the stored cursor back.
 */
module CodebuddyTail {
  import opened Common
  import opened EventLogReader

  const OVERLAP_BYTES: nat := 128 * 1024

  /** Length in bytes of the decoded and re-encoded unterminated tail; at least its raw length. */
  type DecodedLength = seq<byte> -> nat

  ghost predicate Lengthens(decoded: DecodedLength) {
    forall tail :: decoded(tail) >= |tail|
  }

  /** Where a pass starts reading. */
  function ReadFrom(cursor: nat): nat {
    if cursor >= OVERLAP_BYTES then cursor - OVERLAP_BYTES else 0
  }

  /** Behind the first newline at or after `start`; at the start of the file nothing is skipped. */
  function TextFrom(file: seq<byte>, start: nat): (n: nat)
    requires start <= |file|
    ensures start <= n <= |file|
  {
    if start == 0 then 0
    else
      var k := FirstNewline(file, start, |file|);
      if k == |file| then k else k + 1
  }

  /** The last line boundary of the file that a pass from `start` sees. */
  function LastBoundary(file: seq<byte>, start: nat): (n: nat)
    requires start <= |file|
    ensures start <= n <= |file|
  {
    Committed(file, start, |file|)
  }

  /** The lines a pass hands to the parser, as records with their offsets. */
  function Text(file: seq<byte>, cursor: nat): seq<LineRecord>
    requires ReadFrom(cursor) <= |file|
  {
    var start := ReadFrom(cursor);
    var from, to := TextFrom(file, start), LastBoundary(file, start);
    if from <= to then Split(file, from, to) else []
  }

  /** The offset stored for the next pass; it cannot go below zero when stored. */
  function NextOffset(decoded: DecodedLength, file: seq<byte>, cursor: nat): nat
    requires ReadFrom(cursor) <= |file|
  {
    var start := ReadFrom(cursor);
    var boundary := LastBoundary(file, start);
    if FirstNewline(file, start, |file|) == |file| then cursor
    else
      var tail := decoded(file[boundary..]);
      if tail <= |file| then |file| - tail else 0
  }

  // ---------------------------------------------------------------- nothing is skipped

  predicate LineStart(file: seq<byte>, n: nat) {
    n <= |file| && (n == 0 || file[n - 1] == NEWLINE)
  }

  lemma CommittedAtEnd(file: seq<byte>, from: nat, to: nat)
    requires from <= to <= |file| && (from == to || file[to - 1] == NEWLINE)
    ensures Committed(file, from, to) == to
  {}

  lemma {:induction false} CommittedIsLineStart(file: seq<byte>, from: nat, to: nat)
    requires from <= to <= |file|
    ensures Committed(file, from, to) == from || LineStart(file, Committed(file, from, to))
    decreases if from <= to then to - from else 0
  {
    var k := FirstNewline(file, from, to);
    if k < to {
      CommittedIsLineStart(file, k + 1, to);
    }
  }

  lemma SplitAtLineStart(file: seq<byte>, from: nat, mid: nat, to: nat)
    requires from <= mid <= to <= |file| && (from == mid || LineStart(file, mid))
    ensures Split(file, from, to) == Split(file, from, mid) + Split(file, mid, to)
    ensures Committed(file, from, to) == Committed(file, mid, to)
  {
    CommittedAtEnd(file, from, mid);
    SplitExtends(file, from, mid, to);
  }

  /** A pass skips no further than what earlier passes have covered, however long the lines are. */
  lemma TextStartsCovered(file: seq<byte>, cursor: nat, covered: nat)
    requires cursor <= covered && LineStart(file, covered)
    ensures TextFrom(file, ReadFrom(cursor)) <= covered && LineStart(file, TextFrom(file, ReadFrom(cursor)))
    ensures covered <= LastBoundary(file, ReadFrom(cursor)) && LineStart(file, LastBoundary(file, ReadFrom(cursor)))
  {
    var start := ReadFrom(cursor);
    if start > 0 {
      var k := FirstNewline(file, start, |file|);
      assert k <= covered - 1;
    }
    CommittedIsLineStart(file, start, |file|);
    assert Clean(file, LastBoundary(file, start), |file|);
  }

  lemma PassText(file: seq<byte>, cursor: nat, covered: nat)
    requires cursor <= covered && LineStart(file, covered)
    ensures var to := LastBoundary(file, ReadFrom(cursor));
      && Split(file, 0, |file|) == Split(file, 0, to)
      && (forall r :: r in Split(file, 0, to) ==> r in Split(file, 0, covered) || r in Text(file, cursor))
  {
    var start := ReadFrom(cursor);
    var from, to := TextFrom(file, start), LastBoundary(file, start);
    TextStartsCovered(file, cursor, covered);
    SplitAtLineStart(file, 0, from, to);
    SplitAtLineStart(file, 0, from, covered);
    SplitAtLineStart(file, 0, to, |file|);
    SplitNothing(file, to, |file|);
  }

  lemma OffsetCovered(decoded: DecodedLength, file: seq<byte>, cursor: nat)
    requires ReadFrom(cursor) <= |file| && cursor <= |file| && Lengthens(decoded)
    requires cursor <= LastBoundary(file, ReadFrom(cursor))
    ensures NextOffset(decoded, file, cursor) <= LastBoundary(file, ReadFrom(cursor))
  {
    var tail := file[LastBoundary(file, ReadFrom(cursor))..];
    assert decoded(tail) >= |tail|;
  }

  /** Whatever was complete when the pass read the file is either covered before or in its text. */
  lemma PassDelivers(decoded: DecodedLength, file: seq<byte>, cursor: nat, covered: nat)
    requires cursor <= covered && LineStart(file, covered) && Lengthens(decoded)
    ensures var to := LastBoundary(file, ReadFrom(cursor));
      && covered <= to && LineStart(file, to) && NextOffset(decoded, file, cursor) <= to
      && Split(file, 0, |file|) == Split(file, 0, to)
      && (forall r :: r in Split(file, 0, to) ==> r in Split(file, 0, covered) || r in Text(file, cursor))
  {
    TextStartsCovered(file, cursor, covered);
    PassText(file, cursor, covered);
    OffsetCovered(decoded, file, cursor);
  }

  /**
   After a pass that sees a newline the stored offset is the last line boundary exactly when the
   unterminated tail decodes to its own length.
   */
  lemma NextOffsetIsBoundaryIff(decoded: DecodedLength, file: seq<byte>, cursor: nat)
    requires ReadFrom(cursor) <= |file| && Lengthens(decoded) && FirstNewline(file, ReadFrom(cursor), |file|) < |file|
    ensures var to := LastBoundary(file, ReadFrom(cursor));
      NextOffset(decoded, file, cursor) == to <==> decoded(file[to..]) == |file| - to
  {
    var to := LastBoundary(file, ReadFrom(cursor));
    SplitNothing(file, ReadFrom(cursor), |file|);
    assert decoded(file[to..]) >= |file[to..]|;
  }

  /** A pass that sees no newline delivers nothing and keeps its cursor. */
  lemma QuietPassKeepsCursor(decoded: DecodedLength, file: seq<byte>, cursor: nat)
    requires ReadFrom(cursor) <= |file| && FirstNewline(file, ReadFrom(cursor), |file|) == |file|
    ensures NextOffset(decoded, file, cursor) == cursor && Text(file, cursor) == []
  {
    SplitNothing(file, ReadFrom(cursor), |file|);
    SplitNothing(file, |file|, |file|);
  }

  /** A cut character that decodes to three bytes: the offset lands on an earlier line boundary. */
  lemma LengthenedTailHitsEarlierBoundary(decoded: DecodedLength)
    requires decoded([128]) == 3
    ensures var file: seq<byte> := [NEWLINE, NEWLINE, NEWLINE, 128];
      NextOffset(decoded, file, 0) == 1 && LineStart(file, 1) && LastBoundary(file, 0) == 3
  {
    var file: seq<byte> := [NEWLINE, NEWLINE, NEWLINE, 128];
    CommittedThen(file, 0, 3);
    assert file[3..] == [128];
  }

  /** Or inside a line. */
  lemma LengthenedTailMissesBoundary(decoded: DecodedLength)
    requires decoded([128]) == 3
    ensures var file: seq<byte> := [65, 65, NEWLINE, 128];
      NextOffset(decoded, file, 0) == 1 && !LineStart(file, 1) && LastBoundary(file, 0) == 3
  {
    var file: seq<byte> := [65, 65, NEWLINE, 128];
    CommittedThen(file, 0, 3);
    assert file[3..] == [128];
  }

  /** Behind a line boundary without further newlines nothing moves. */
  lemma CommittedThen(file: seq<byte>, from: nat, boundary: nat)
    requires from <= boundary <= |file| && (from == boundary || LineStart(file, boundary))
    requires forall k :: boundary <= k < |file| ==> file[k] != NEWLINE
    ensures Committed(file, from, |file|) == boundary
  {
    SplitAtLineStart(file, from, boundary, |file|);
    SplitNothing(file, boundary, |file|);
  }

  lemma {:induction false} RecordsWithin(file: seq<byte>, from: nat, to: nat, r: LineRecord)
    requires from <= to <= |file| && r in Split(file, from, to)
    ensures from <= r.offsetBytes < r.endOffsetBytes <= to
    ensures r.offsetBytes == from || file[r.offsetBytes - 1] == NEWLINE
    decreases if from <= to then to - from else 0
  {
    var k := FirstNewline(file, from, to);
    if r != LineAt(file, from, k) {
      RecordsWithin(file, k + 1, to, r);
    }
  }

  /**
   How far back a pass looks: of all complete lines it has exactly those that start in the last 128 KiB
   before its cursor or behind it.
   */
  lemma PassRereads(file: seq<byte>, cursor: nat, r: LineRecord)
    requires cursor - 131072 <= |file| && r in Split(file, 0, |file|)
    ensures ReadFrom(cursor) <= |file|
    ensures r in Text(file, cursor) <==> cursor <= 131072 || cursor - 131072 < r.offsetBytes
  {
    var start := ReadFrom(cursor);
    var from, to := TextFrom(file, start), LastBoundary(file, start);
    RecordsWithin(file, 0, |file|, r);
    CommittedIsLineStart(file, start, |file|);
    if start > 0 && FirstNewline(file, start, |file|) == |file| {
      SplitNothing(file, start, |file|);
      assert !(start < r.offsetBytes);
      if r in Text(file, cursor) { RecordsWithin(file, from, to, r); }
    } else {
      PassTiles(file, start, from, to);
      if r in Split(file, 0, from) { RecordsWithin(file, 0, from, r); }
      if r in Split(file, from, to) { RecordsWithin(file, from, to, r); }
    }
  }

  lemma PassTiles(file: seq<byte>, start: nat, from: nat, to: nat)
    requires start <= |file| && from == TextFrom(file, start) && to == LastBoundary(file, start)
    requires start == 0 || FirstNewline(file, start, |file|) < |file|
    ensures from <= to && Split(file, 0, |file|) == Split(file, 0, from) + Split(file, from, to)
  {
    CommittedIsLineStart(file, start, |file|);
    assert Clean(file, to, |file|);
    assert from == 0 || file[from - 1] == NEWLINE;
    SplitAtLineStart(file, 0, from, |file|);
    SplitAtLineStart(file, from, to, |file|);
    SplitNothing(file, to, |file|);
  }

  // ---------------------------------------------------------------- passes over a growing log

  datatype Step = Append(bytes: seq<byte>) | Pass

  /** `covered` is history: up to where complete lines have been delivered. */
  datatype State = State(file: seq<byte>, cursor: nat, delivered: seq<LineRecord>, covered: nat)

  function Next(decoded: DecodedLength, s: State, step: Step): State {
    match step
    case Append(bytes) => s.(file := s.file + bytes)
    case Pass =>
      if s.cursor == |s.file| || ReadFrom(s.cursor) > |s.file| then s
      else State(s.file, NextOffset(decoded, s.file, s.cursor), s.delivered + Text(s.file, s.cursor),
                 LastBoundary(s.file, ReadFrom(s.cursor)))
  }

  function Exec(decoded: DecodedLength, s: State, steps: seq<Step>): State
    decreases |steps|
  {
    if steps == [] then s else Next(decoded, Exec(decoded, s, steps[..|steps| - 1]), steps[|steps| - 1])
  }

  ghost predicate Ok(s: State) {
    && s.cursor <= s.covered && LineStart(s.file, s.covered)
    && forall r :: r in Split(s.file, 0, s.covered) ==> r in s.delivered
  }

  lemma NextOk(decoded: DecodedLength, s: State, step: Step)
    requires Ok(s) && Lengthens(decoded)
    ensures Ok(Next(decoded, s, step))
  {
    if step.Append? {
      SplitLocal(s.file, s.file + step.bytes, 0, s.covered);
    } else {
      PassDelivers(decoded, s.file, s.cursor, s.covered);
    }
  }

  lemma {:induction false} RunOk(decoded: DecodedLength, file: seq<byte>, steps: seq<Step>)
    requires Lengthens(decoded)
    ensures Ok(Exec(decoded, State(file, 0, [], 0), steps))
    decreases |steps|
  {
    if steps == [] {
      SplitNothing(file, 0, 0);
    } else {
      RunOk(decoded, file, steps[..|steps| - 1]);
      NextOk(decoded, Exec(decoded, State(file, 0, [], 0), steps[..|steps| - 1]), steps[|steps| - 1]);
    }
  }

  /** What has been appended, put together. */
  function Arrived(steps: seq<Step>): seq<byte>
    decreases |steps|
  {
    if steps == [] then []
    else
      var last := steps[|steps| - 1];
      Arrived(steps[..|steps| - 1]) + if last.Append? then last.bytes else []
  }

  /** Passes leave the log alone, so it is what was there and what was appended. */
  lemma {:induction false} FileIsAppended(decoded: DecodedLength, file: seq<byte>, steps: seq<Step>)
    ensures Exec(decoded, State(file, 0, [], 0), steps).file == file + Arrived(steps)
    decreases |steps|
  {
    if steps == [] {
      assert file + [] == file;
    } else {
      FileIsAppended(decoded, file, steps[..|steps| - 1]);
      var before, last := Arrived(steps[..|steps| - 1]), steps[|steps| - 1];
      assert (file + before) + (if last.Append? then last.bytes else []) == file + (before + if last.Append? then last.bytes else []);
    }
  }

  /** After any history of appends and passes, one more pass has delivered every complete line of the log. */
  lemma EveryLineIsDelivered(decoded: DecodedLength, file: seq<byte>, steps: seq<Step>, r: LineRecord)
    requires Lengthens(decoded)
    requires r in Split(Exec(decoded, State(file, 0, [], 0), steps).file, 0, |Exec(decoded, State(file, 0, [], 0), steps).file|)
    ensures r in Next(decoded, Exec(decoded, State(file, 0, [], 0), steps), Pass).delivered
  {
    RunOk(decoded, file, steps);
    var s := Exec(decoded, State(file, 0, [], 0), steps);
    if s.cursor != |s.file| {
      PassDelivers(decoded, s.file, s.cursor, s.covered);
    }
  }

  lemma NextOnBoundary(decoded: DecodedLength, s: State, step: Step)
    requires Ok(s) && LineStart(s.file, s.cursor) && forall tail :: decoded(tail) == |tail|
    ensures LineStart(Next(decoded, s, step).file, Next(decoded, s, step).cursor)
  {
    if step.Pass? && s.cursor != |s.file| {
      TextStartsCovered(s.file, s.cursor, s.covered);
      if FirstNewline(s.file, ReadFrom(s.cursor), |s.file|) < |s.file| {
        NextOffsetIsBoundaryIff(decoded, s.file, s.cursor);
      }
    }
  }

  /** When no tail changes its length in decoding, the cursor stands on a line boundary after any history. */
  lemma {:induction false} CursorOnBoundary(decoded: DecodedLength, file: seq<byte>, steps: seq<Step>)
    requires forall tail :: decoded(tail) == |tail|
    ensures var s := Exec(decoded, State(file, 0, [], 0), steps); LineStart(s.file, s.cursor)
    decreases |steps|
  {
    if steps != [] {
      CursorOnBoundary(decoded, file, steps[..|steps| - 1]);
      RunOk(decoded, file, steps[..|steps| - 1]);
      NextOnBoundary(decoded, Exec(decoded, State(file, 0, [], 0), steps[..|steps| - 1]), steps[|steps| - 1]);
    }
  }

  // ---------------------------------------------------------------- the ledger

  datatype LedgerKey = Seen(id: string) | CreditSeen(id: string) | CacheSeen(id: string)

  /** An event as the ledger sees it; only usage events carry details. */
  datatype Sighting = Sighting(id: string, usage: bool, credit: bool, cache: bool)

  function LedgerKeys(e: Sighting): set<LedgerKey> {
    {Seen(e.id)} + (if e.usage && e.credit then {CreditSeen(e.id)} else {})
    + (if e.usage && e.cache then {CacheSeen(e.id)} else {})
  }

  function AppendIfNew(ledger: set<LedgerKey>, e: Sighting): (set<LedgerKey>, bool) {
    if LedgerKeys(e) <= ledger then (ledger, false) else (ledger + LedgerKeys(e), true)
  }

  function Ledger(ledger: set<LedgerKey>, sightings: seq<Sighting>): set<LedgerKey>
    decreases |sightings|
  {
    if sightings == [] then ledger
    else AppendIfNew(Ledger(ledger, sightings[..|sightings| - 1]), sightings[|sightings| - 1]).0
  }

  /** How many sightings of an id were appended to the log. */
  function Appends(ledger: set<LedgerKey>, sightings: seq<Sighting>, id: string): nat
    decreases |sightings|
  {
    if sightings == [] then 0
    else
      var before := Ledger(ledger, sightings[..|sightings| - 1]);
      var last := sightings[|sightings| - 1];
      Appends(ledger, sightings[..|sightings| - 1], id)
      + if last.id == id && AppendIfNew(before, last).1 then 1 else 0
  }

  function KeysOf(id: string): set<LedgerKey> { {Seen(id), CreditSeen(id), CacheSeen(id)} }

  lemma {:induction false} AppendsFit(ledger: set<LedgerKey>, sightings: seq<Sighting>, id: string)
    ensures ledger <= Ledger(ledger, sightings)
    ensures Appends(ledger, sightings, id) + |ledger * KeysOf(id)| <= |Ledger(ledger, sightings) * KeysOf(id)|
    decreases |sightings|
  {
    if sightings != [] {
      var last := sightings[|sightings| - 1];
      AppendsFit(ledger, sightings[..|sightings| - 1], id);
      OneAppend(Ledger(ledger, sightings[..|sightings| - 1]), last, id);
    }
  }

  lemma OneAppend(ledger: set<LedgerKey>, e: Sighting, id: string)
    ensures ledger <= AppendIfNew(ledger, e).0 && LedgerKeys(e) <= AppendIfNew(ledger, e).0
    ensures |ledger * KeysOf(id)| + (if e.id == id && AppendIfNew(ledger, e).1 then 1 else 0)
            <= |AppendIfNew(ledger, e).0 * KeysOf(id)|
  {
    var old', new' := ledger * KeysOf(id), AppendIfNew(ledger, e).0 * KeysOf(id);
    assert old' <= new';
    if e.id == id && AppendIfNew(ledger, e).1 {
      assert old' != new' by {
        var key :| key in LedgerKeys(e) && key !in ledger;
        assert key in new' && key !in old';
      }
      SmallerSet(old', new');
    } else {
      SmallerOrSame(old', new');
    }
  }

  lemma SmallerSet<T>(a: set<T>, b: set<T>)
    requires a < b
    ensures |a| < |b|
  {
    var x :| x in b && x !in a;
    SmallerOrSame(a, b - {x});
  }

  lemma {:induction false} SmallerOrSame<T>(a: set<T>, b: set<T>)
    requires a <= b
    ensures |a| <= |b|
  {
    assert b == a + (b - a);
    assert |a + (b - a)| == |a| + |b - a|;
  }

  /** A request reaches the event log at most three times: bare, with its credit, with its cache split. */
  lemma AtMostThreeAppends(ledger: set<LedgerKey>, sightings: seq<Sighting>, id: string)
    ensures Appends(ledger, sightings, id) <= 3
    ensures (forall i :: 0 <= i < |sightings| && sightings[i].id == id ==> !sightings[i].usage) ==>
              Appends(ledger, sightings, id) <= 1
  {
    AppendsFit(ledger, sightings, id);
    SmallerOrSame(Ledger(ledger, sightings) * KeysOf(id), KeysOf(id));
    if forall i :: 0 <= i < |sightings| && sightings[i].id == id ==> !sightings[i].usage {
      PlainAppends(ledger, sightings, id);
    }
  }

  lemma {:induction false} PlainAppends(ledger: set<LedgerKey>, sightings: seq<Sighting>, id: string)
    requires forall i :: 0 <= i < |sightings| && sightings[i].id == id ==> !sightings[i].usage
    ensures Appends(ledger, sightings, id) <= if Seen(id) in Ledger(ledger, sightings) then 1 else 0
    decreases |sightings|
  {
    if sightings != [] {
      PlainAppends(ledger, sightings[..|sightings| - 1], id);
      OneAppend(Ledger(ledger, sightings[..|sightings| - 1]), sightings[|sightings| - 1], id);
    }
  }

  predicate Bills(e: Sighting) { e.usage && e.credit }
  predicate Splits(e: Sighting) { e.usage && e.cache }

  lemma {:induction false} LedgerIs(sightings: seq<Sighting>, key: LedgerKey)
    ensures key in Ledger({}, sightings)
            <==> match key
                 case Seen(id) => exists k :: 0 <= k < |sightings| && sightings[k].id == id
                 case CreditSeen(id) => exists k :: 0 <= k < |sightings| && sightings[k].id == id && Bills(sightings[k])
                 case CacheSeen(id) => exists k :: 0 <= k < |sightings| && sightings[k].id == id && Splits(sightings[k])
    decreases |sightings|
  {
    if sightings != [] {
      var before, last := sightings[..|sightings| - 1], sightings[|sightings| - 1];
      LedgerIs(before, key);
      assert forall k :: 0 <= k < |before| ==> sightings[k] == before[k];
      assert key in Ledger({}, sightings) <==> key in Ledger({}, before) || key in LedgerKeys(last);
    }
  }

  /**
   A sighting is appended exactly when it is the first of its id, or the first with a credit, or the first
   with a cache split.
   */
  lemma AppendedIff(sightings: seq<Sighting>, e: Sighting)
    ensures AppendIfNew(Ledger({}, sightings), e).1
            <==> || (forall k :: 0 <= k < |sightings| ==> sightings[k].id != e.id)
                 || (Bills(e) && forall k :: 0 <= k < |sightings| && sightings[k].id == e.id ==> !Bills(sightings[k]))
                 || (Splits(e) && forall k :: 0 <= k < |sightings| && sightings[k].id == e.id ==> !Splits(sightings[k]))
  {
    LedgerIs(sightings, Seen(e.id));
    LedgerIs(sightings, CreditSeen(e.id));
    LedgerIs(sightings, CacheSeen(e.id));
  }

  /** Nothing is dropped either: once a sighting was handled, every detail it carries has been appended. */
  lemma {:induction false} DetailsAreRecorded(ledger: set<LedgerKey>, sightings: seq<Sighting>, i: nat)
    requires i < |sightings|
    ensures LedgerKeys(sightings[i]) <= Ledger(ledger, sightings)
    decreases |sightings|
  {
    var before, last := sightings[..|sightings| - 1], sightings[|sightings| - 1];
    OneAppend(Ledger(ledger, before), last, last.id);
    if i < |before| {
      DetailsAreRecorded(ledger, before, i);
    }
  }
}
