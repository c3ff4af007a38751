/**
 Tool calls, usage and turn timings from a Codex rollout
 (packages/adapters-codex/src/codex.ts).

 A line is what the extractor takes from it.  `Start` stands for a custom tool call or a tracked
 function call, `Output` for either kind of output, `OtherTool` for tool events that carry their own
 start (searches, commands, patches), `Tokens` and `Mirror` for reports with non-zero usage.
 */
module CodexRollout {
  import opened Common

  const MAX_DECODE_GAP_MS: int := 120000
  const MAX_FIRST_TOKEN_LATENCY_MS: int := 600000

  datatype CallId = CallId(text: string)

  datatype Line =
    | Start(call: CallId, name: string, ms: int)
    | Output(call: CallId, success: bool, duration: nat, ms: int)
    | OtherTool(call: CallId, name: string, success: bool, ms: int)
    | TaskStarted(started: Option<int>)
    | Tokens(total: nat, tokens: nat, time: Option<int>)
    | Mirror(key: string, tokens: nat)
    | Ignored

  /** `line` is the position the event comes from. */
  datatype Event =
    | Called(line: nat, call: CallId, name: string, ms: int)
    | Finished(line: nat, call: CallId, name: string, success: bool, duration: nat, ms: int)
    | Alone(line: nat, call: CallId, name: string, success: bool, ms: int)
    | Usage(line: nat, total: nat, tokens: nat, firstToken: Option<int>, decode: Option<int>)
    | Mirrored(line: nat, key: string, tokens: nat)

  datatype Scan = Scan(
    pending: map<CallId, string>,
    events: seq<Event>,
    mirrored: seq<Event>,
    tokenCount: nat,
    lastToken: Option<int>,
    turnStarted: Option<int>,
    reported: bool)

  const EMPTY := Scan(map[], [], [], 0, None, None, false)

  // ---------------------------------------------------------------- one line

  function DecodeWindow(lastToken: Option<int>, time: Option<int>): Option<int> {
    if lastToken.Some? && time.Some? && 0 <= time.value - lastToken.value <= MAX_DECODE_GAP_MS
    then Some(time.value - lastToken.value) else None
  }

  function FirstTokenLatency(reported: bool, turnStarted: Option<int>, time: Option<int>): Option<int> {
    if !reported && turnStarted.Some? && time.Some? && 0 <= time.value - turnStarted.value <= MAX_FIRST_TOKEN_LATENCY_MS
    then Some(time.value - turnStarted.value) else None
  }

  function Next(s: Scan, i: nat, line: Line): Scan {
    match line
    case Start(call, name, ms) =>
      s.(pending := s.pending[call := name], events := s.events + [Called(i, call, name, ms)])
    case Output(call, success, duration, ms) =>
      if call !in s.pending then s
      else s.(pending := s.pending - {call},
              events := s.events + [Finished(i, call, s.pending[call], success, duration, ms)])
    case OtherTool(call, name, success, ms) => s.(events := s.events + [Alone(i, call, name, success, ms)])
    case TaskStarted(started) => s.(lastToken := None, turnStarted := started, reported := false)
    case Tokens(total, tokens, time) =>
      s.(events := s.events + [Usage(i, total, tokens, FirstTokenLatency(s.reported, s.turnStarted, time),
                                     DecodeWindow(s.lastToken, time))],
         tokenCount := s.tokenCount + 1,
         lastToken := if time.Some? then time else s.lastToken,
         reported := true)
    case Mirror(key, tokens) => s.(mirrored := s.mirrored + [Mirrored(i, key, tokens)])
    case Ignored => s
  }

  function Read(lines: seq<Line>): Scan
    decreases |lines|
  {
    if lines == [] then EMPTY else Next(Read(lines[..|lines| - 1]), |lines| - 1, lines[|lines| - 1])
  }

  /** The mirror is used only when the token stream gave nothing. */
  function Collected(lines: seq<Line>): seq<Event> {
    var s := Read(lines);
    if s.tokenCount == 0 then s.events + s.mirrored else s.events
  }

  // ---------------------------------------------------------------- order of the result

  function Priority(e: Event): nat {
    match e
    case Called(_, _, _, _) => 2
    case Finished(_, _, _, _, _, _) => 4
    case Alone(_, _, _, _, _) => 4
    case Usage(_, _, _, _, _) => 6
    case Mirrored(_, _, _) => 6
  }

  /** Where the timestamp and the id of an event stand among the texts. */
  datatype Collation = Collation(stamp: Event -> int, id: Event -> int)

  /** Earlier time first, then by kind, then by id. */
  predicate NotAfter(c: Collation, a: Event, b: Event) {
    || c.stamp(a) < c.stamp(b)
    || (&& c.stamp(a) == c.stamp(b)
        && (Priority(a) < Priority(b) || (Priority(a) == Priority(b) && c.id(a) <= c.id(b))))
  }

  function InsertEvent(c: Collation, sorted: seq<Event>, x: Event): seq<Event>
    decreases |sorted|
  {
    if sorted == [] || NotAfter(c, sorted[|sorted| - 1], x) then sorted + [x]
    else InsertEvent(c, sorted[..|sorted| - 1], x) + [sorted[|sorted| - 1]]
  }

  /** The stable sort. */
  function SortEvents(c: Collation, events: seq<Event>): seq<Event>
    decreases |events|
  {
    if events == [] then [] else InsertEvent(c, SortEvents(c, events[..|events| - 1]), events[|events| - 1])
  }

  ghost predicate InEventOrder(c: Collation, s: seq<Event>) {
    forall p, q :: 0 <= p < q < |s| ==> NotAfter(c, s[p], s[q])
  }

  lemma {:induction false} InsertHolds(c: Collation, sorted: seq<Event>, x: Event)
    ensures multiset(InsertEvent(c, sorted, x)) == multiset(sorted) + multiset{x}
    decreases |sorted|
  {
    if sorted != [] && !NotAfter(c, sorted[|sorted| - 1], x) {
      var before, last := sorted[..|sorted| - 1], sorted[|sorted| - 1];
      assert sorted == before + [last];
      InsertHolds(c, before, x);
    }
  }

  lemma OrderedAppend(c: Collation, s: seq<Event>, last: Event)
    requires InEventOrder(c, s) && forall e :: e in s ==> NotAfter(c, e, last)
    ensures InEventOrder(c, s + [last])
  {}

  lemma LastIsLatest(c: Collation, s: seq<Event>, e: Event)
    requires InEventOrder(c, s) && e in s
    ensures NotAfter(c, e, s[|s| - 1])
  {
    var k :| 0 <= k < |s| && s[k] == e;
    assert k < |s| - 1 ==> NotAfter(c, s[k], s[|s| - 1]);
  }

  lemma {:induction false} InsertIsOrdered(c: Collation, sorted: seq<Event>, x: Event)
    requires InEventOrder(c, sorted)
    ensures InEventOrder(c, InsertEvent(c, sorted, x))
    decreases |sorted|
  {
    if sorted != [] {
      forall e | e in sorted ensures NotAfter(c, e, sorted[|sorted| - 1]) {
        LastIsLatest(c, sorted, e);
      }
      if NotAfter(c, sorted[|sorted| - 1], x) {
        OrderedAppend(c, sorted, x);
      } else {
        var before, last := sorted[..|sorted| - 1], sorted[|sorted| - 1];
        InsertIsOrdered(c, before, x);
        InsertHolds(c, before, x);
        forall e | e in InsertEvent(c, before, x) ensures NotAfter(c, e, last) {
          assert e in multiset(InsertEvent(c, before, x));
          assert e == x || e in before;
        }
        OrderedAppend(c, InsertEvent(c, before, x), last);
      }
    }
  }

  /** The result is in order and holds the same events. */
  lemma {:induction false} SortIsOrdered(c: Collation, events: seq<Event>)
    ensures InEventOrder(c, SortEvents(c, events)) && multiset(SortEvents(c, events)) == multiset(events)
    decreases |events|
  {
    if events != [] {
      var before, last := events[..|events| - 1], events[|events| - 1];
      assert events == before + [last];
      SortIsOrdered(c, before);
      InsertIsOrdered(c, SortEvents(c, before), last);
      InsertHolds(c, SortEvents(c, before), last);
    }
  }

  /** Neither comes after the other. */
  function Ties(c: Collation, e: Event): Event -> bool {
    (x: Event) => NotAfter(c, e, x) && NotAfter(c, x, e)
  }

  lemma FilterLast(s: seq<Event>, x: Event, p: Event -> bool)
    ensures Filter(s + [x], p) == Filter(s, p) + if p(x) then [x] else []
  {
    assert (s + [x])[..|s|] == s;
  }

  lemma {:induction false} InsertKeepsTies(c: Collation, sorted: seq<Event>, x: Event, tied: Event -> bool)
    requires forall a, b :: tied(a) && tied(b) ==> NotAfter(c, a, b)
    ensures Filter(InsertEvent(c, sorted, x), tied) == Filter(sorted + [x], tied)
    decreases |sorted|
  {
    if sorted != [] && !NotAfter(c, sorted[|sorted| - 1], x) {
      var before, last := sorted[..|sorted| - 1], sorted[|sorted| - 1];
      assert sorted == before + [last];
      InsertKeepsTies(c, before, x, tied);
      FilterLast(InsertEvent(c, before, x), last, tied);
      FilterLast(before, x, tied);
      FilterLast(before, last, tied);
      FilterLast(sorted, x, tied);
    }
  }

  /** Events that tie keep the order they were found in. */
  lemma {:induction false} SortIsStable(c: Collation, events: seq<Event>, e: Event)
    ensures Filter(SortEvents(c, events), Ties(c, e)) == Filter(events, Ties(c, e))
    decreases |events|
  {
    if events != [] {
      var before, last := events[..|events| - 1], events[|events| - 1];
      assert events == before + [last];
      SortIsStable(c, before, e);
      InsertKeepsTies(c, SortEvents(c, before), last, Ties(c, e));
      FilterLast(SortEvents(c, before), last, Ties(c, e));
      FilterLast(before, last, Ties(c, e));
    }
  }

  function Extract(c: Collation, lines: seq<Line>): seq<Event> {
    SortEvents(c, Collected(lines))
  }

  lemma ExtractHolds(c: Collation, lines: seq<Line>, e: Event)
    ensures e in Extract(c, lines) <==> e in Collected(lines)
  {
    SortIsOrdered(c, Collected(lines));
    assert e in Extract(c, lines) <==> e in multiset(Extract(c, lines));
    assert e in Collected(lines) <==> e in multiset(Collected(lines));
  }

  /** A sum over events. */
  function Total(events: seq<Event>, weight: Event -> int): int
    decreases |events|
  {
    if events == [] then 0 else Total(events[..|events| - 1], weight) + weight(events[|events| - 1])
  }

  lemma TotalAppend(events: seq<Event>, e: Event, weight: Event -> int)
    ensures Total(events + [e], weight) == Total(events, weight) + weight(e)
  {
    assert (events + [e])[..|events|] == events;
  }

  lemma {:induction false} InsertTotal(c: Collation, sorted: seq<Event>, x: Event, weight: Event -> int)
    ensures Total(InsertEvent(c, sorted, x), weight) == Total(sorted, weight) + weight(x)
    decreases |sorted|
  {
    if sorted != [] && !NotAfter(c, sorted[|sorted| - 1], x) {
      InsertTotal(c, sorted[..|sorted| - 1], x, weight);
      TotalAppend(InsertEvent(c, sorted[..|sorted| - 1], x), sorted[|sorted| - 1], weight);
    } else {
      TotalAppend(sorted, x, weight);
    }
  }

  lemma {:induction false} SortTotal(c: Collation, events: seq<Event>, weight: Event -> int)
    ensures Total(SortEvents(c, events), weight) == Total(events, weight)
    decreases |events|
  {
    if events != [] {
      SortTotal(c, events[..|events| - 1], weight);
      InsertTotal(c, SortEvents(c, events[..|events| - 1]), events[|events| - 1], weight);
    }
  }

  /** A sum to which mirrored usage adds nothing is the sum over what the lines were read to. */
  lemma {:induction false} ResultTotal(c: Collation, lines: seq<Line>, weight: Event -> int)
    requires forall e: Event :: e.Mirrored? ==> weight(e) == 0
    ensures Total(Extract(c, lines), weight) == Total(Read(lines).events, weight)
  {
    SortTotal(c, Collected(lines), weight);
    MirroredAreMirrored(lines);
    NoWeight(Read(lines).events, Read(lines).mirrored, weight);
  }

  lemma {:induction false} MirroredAreMirrored(lines: seq<Line>)
    ensures forall e :: e in Read(lines).mirrored ==> e.Mirrored?
    decreases |lines|
  {
    if lines != [] {
      MirroredAreMirrored(lines[..|lines| - 1]);
    }
  }

  lemma {:induction false} NoWeight(events: seq<Event>, more: seq<Event>, weight: Event -> int)
    requires forall e :: e in more ==> weight(e) == 0
    ensures Total(events + more, weight) == Total(events, weight)
    decreases |more|
  {
    if more == [] {
      assert events + more == events;
    } else {
      NoWeight(events, more[..|more| - 1], weight);
      assert events + more == (events + more[..|more| - 1]) + [more[|more| - 1]];
      TotalAppend(events + more[..|more| - 1], more[|more| - 1], weight);
    }
  }

  // ---------------------------------------------------------------- tool calls

  predicate Starts(line: Line, call: CallId) { line.Start? && line.call == call }
  predicate Ends(line: Line, call: CallId) { line.Output? && line.call == call }

  /** Position `i` starts the call and nothing about the call follows before `j`. */
  ghost predicate OpenAt(lines: seq<Line>, call: CallId, i: nat, j: nat)
    requires j <= |lines|
  {
    && i < j && Starts(lines[i], call)
    && forall k :: i < k < j ==> !Starts(lines[k], call) && !Ends(lines[k], call)
  }

  /** A call is open before `j` when some start of it has been neither finished nor repeated. */
  ghost predicate Open(lines: seq<Line>, call: CallId, j: nat)
    requires j <= |lines|
  {
    exists i: nat :: OpenAt(lines, call, i, j)
  }

  lemma Unwind(lines: seq<Line>)
    requires lines != []
    ensures lines == lines[..|lines| - 1] + [lines[|lines| - 1]]
  {}

  lemma OpenAtPrefix(lines: seq<Line>, more: seq<Line>, call: CallId, i: nat, j: nat)
    requires j <= |lines|
    ensures OpenAt(lines + more, call, i, j) <==> OpenAt(lines, call, i, j)
  {
    assert forall k :: 0 <= k < j ==> (lines + more)[k] == lines[k];
  }

  /** The pending map is exactly the open calls, each with the name its start gave. */
  lemma {:induction false} PendingIsOpen(lines: seq<Line>, call: CallId)
    ensures call in Read(lines).pending ==>
              exists i: nat :: OpenAt(lines, call, i, |lines|) && lines[i].name == Read(lines).pending[call]
    ensures call !in Read(lines).pending ==> !Open(lines, call, |lines|)
    decreases |lines|
  {
    if lines != [] {
      var before, last := lines[..|lines| - 1], lines[|lines| - 1];
      Unwind(lines);
      PendingIsOpen(before, call);
      if Starts(last, call) {
        assert OpenAt(lines, call, |lines| - 1, |lines|);
      } else if call in Read(lines).pending {
        var i: nat :| OpenAt(before, call, i, |before|) && before[i].name == Read(before).pending[call];
        OpenAtPrefix(before, [last], call, i, |before|);
        assert OpenAt(lines, call, i, |lines|);
      } else {
        forall i: nat ensures !OpenAt(lines, call, i, |lines|) {
          OpenAtPrefix(before, [last], call, i, |before|);
        }
      }
    }
  }

  /** The terminal event a line gives, if any. */
  function TerminalAt(lines: seq<Line>, j: nat): Option<Event>
    requires j < |lines|
  {
    var s := Read(lines[..j]);
    if lines[j].Output? && lines[j].call in s.pending then
      Some(Finished(j, lines[j].call, s.pending[lines[j].call], lines[j].success, lines[j].duration, lines[j].ms))
    else None
  }

  /**
   An output gives a terminal event exactly when its call is open, and the event carries the name of
   the start it closes.
   */
  lemma LineClosesItsStart(lines: seq<Line>, j: nat)
    requires j < |lines|
    ensures TerminalAt(lines, j).Some? <==> lines[j].Output? && Open(lines, lines[j].call, j)
    ensures TerminalAt(lines, j).Some? ==>
              exists i: nat :: OpenAt(lines, lines[j].call, i, j) && lines[i].name == TerminalAt(lines, j).value.name
  {
    if lines[j].Output? {
      var call := lines[j].call;
      PendingIsOpen(lines[..j], call);
      assert lines == lines[..j] + lines[j..];
      forall i: nat ensures OpenAt(lines, call, i, j) <==> OpenAt(lines[..j], call, i, j) {
        OpenAtPrefix(lines[..j], lines[j..], call, i, j);
      }
    }
  }

  lemma TerminalName(lines: seq<Line>, i: nat, j: nat)
    requires j < |lines| && TerminalAt(lines, j).Some? && OpenAt(lines, lines[j].call, i, j)
    ensures TerminalAt(lines, j).value.name == lines[i].name
  {
    LineClosesItsStart(lines, j);
    var k: nat :| OpenAt(lines, lines[j].call, k, j) && lines[k].name == TerminalAt(lines, j).value.name;
    assert k == i;
  }

  function CountStarts(lines: seq<Line>, call: CallId): nat
    decreases |lines|
  {
    if lines == [] then 0
    else CountStarts(lines[..|lines| - 1], call) + if Starts(lines[|lines| - 1], call) then 1 else 0
  }

  /** Counts the terminals of a call. */
  function FinishedOf(call: CallId): Event -> int {
    (e: Event) => if e.Finished? && e.call == call then 1 else 0
  }

  function CountRestarts(lines: seq<Line>, call: CallId): nat
    decreases |lines|
  {
    if lines == [] then 0
    else
      CountRestarts(lines[..|lines| - 1], call)
      + if Starts(lines[|lines| - 1], call) && call in Read(lines[..|lines| - 1]).pending then 1 else 0
  }

  /** What one line adds to the finished events of a call. */
  lemma NextFinished(s: Scan, i: nat, line: Line, call: CallId)
    ensures Total(Next(s, i, line).events, FinishedOf(call))
            == Total(s.events, FinishedOf(call)) + if Ends(line, call) && call in s.pending then 1 else 0
  {
    var after := Next(s, i, line).events;
    if after != s.events {
      assert after == s.events + [after[|s.events|]];
      TotalAppend(s.events, after[|s.events|], FinishedOf(call));
    }
  }

  lemma NextPending(s: Scan, i: nat, line: Line, call: CallId)
    ensures call in Next(s, i, line).pending <==> Starts(line, call) || (call in s.pending && !Ends(line, call))
  {}

  lemma LastStart(lines: seq<Line>, call: CallId)
    requires lines != []
    ensures var before, last := lines[..|lines| - 1], lines[|lines| - 1];
      && Read(lines) == Next(Read(before), |before|, last)
      && CountStarts(lines, call) == CountStarts(before, call) + (if Starts(last, call) then 1 else 0)
      && CountRestarts(lines, call)
         == CountRestarts(before, call) + (if Starts(last, call) && call in Read(before).pending then 1 else 0)
  {}

  lemma {:induction false} StartsAreCounted(lines: seq<Line>, call: CallId)
    ensures CountStarts(lines, call)
            == Total(Read(lines).events, FinishedOf(call)) + CountRestarts(lines, call)
               + if call in Read(lines).pending then 1 else 0
    decreases |lines|
  {
    if lines != [] {
      var before, last := lines[..|lines| - 1], lines[|lines| - 1];
      StartsAreCounted(before, call);
      NextFinished(Read(before), |before|, last, call);
      NextPending(Read(before), |before|, last, call);
      LastStart(lines, call);
    }
  }

  /**
   The starts of a call are its terminals in the result, those given up by a restart, and one that may be
   open at the end.
   */
  lemma StartsAreAccountedFor(c: Collation, lines: seq<Line>, call: CallId)
    ensures CountStarts(lines, call)
            == Total(Extract(c, lines), FinishedOf(call)) + CountRestarts(lines, call)
               + if Open(lines, call, |lines|) then 1 else 0
  {
    StartsAreCounted(lines, call);
    ResultTotal(c, lines, FinishedOf(call));
    PendingIsOpen(lines, call);
  }

  // ---------------------------------------------------------------- usage

  predicate IsUsage(e: Event) { e.Usage? || e.Mirrored? }

  lemma {:induction false} ReadKinds(lines: seq<Line>)
    ensures var s := Read(lines);
      && (forall e :: e in s.events ==> !e.Mirrored? && e.line < |lines|)
      && (forall e :: e in s.mirrored ==> e.Mirrored?)
      && (s.tokenCount == 0 <==> forall e :: e in s.events ==> !e.Usage?)
    decreases |lines|
  {
    if lines != [] {
      var before := Read(lines[..|lines| - 1]);
      var after := Read(lines);
      ReadKinds(lines[..|lines| - 1]);
      if |after.events| > |before.events| {
        var e := after.events[|before.events|];
        assert after.events == before.events + [e];
        assert e in after.events;
      }
      forall e | e in after.events ensures !e.Mirrored? && e.line < |lines| {}
    }
  }

  /**
   Usage comes from the token stream or from its mirror, never from both; the mirror is not lost when it is
   all there is.
   */
  lemma OneUsageSource(c: Collation, lines: seq<Line>)
    ensures var events := Extract(c, lines);
      && !((exists e :: e in events && e.Usage?) && (exists e :: e in events && e.Mirrored?))
      && (Read(lines).mirrored != [] ==> exists e :: e in events && IsUsage(e))
  {
    ReadKinds(lines);
    var s := Read(lines);
    forall e ensures e in Extract(c, lines) <==> e in Collected(lines) {
      ExtractHolds(c, lines, e);
    }
    if s.tokenCount == 0 && s.mirrored != [] {
      assert s.mirrored[0] in Collected(lines);
      assert s.mirrored[0] in Extract(c, lines) && IsUsage(s.mirrored[0]);
    }
    if s.tokenCount > 0 {
      var e :| e in s.events && e.Usage?;
      assert e in Extract(c, lines) && IsUsage(e);
    }
  }

  // ---------------------------------------------------------------- turns

  /** No turn begins at a position from `i` up to `j`. */
  ghost predicate SameTurn(lines: seq<Line>, i: nat, j: nat)
    requires j <= |lines|
  {
    forall k :: i <= k < j ==> !lines[k].TaskStarted?
  }

  /** Once a turn has a usage event, `reported` holds until the next turn. */
  lemma {:induction false} ReportedInTurn(lines: seq<Line>, i: nat)
    requires i < |lines| && lines[i].Tokens? && SameTurn(lines, i, |lines|)
    ensures Read(lines).reported
    decreases |lines|
  {
    if i < |lines| - 1 {
      ReportedInTurn(lines[..|lines| - 1], i);
    }
  }

  /** The usage event a line gives. */
  function UsageAt(lines: seq<Line>, j: nat): Event
    requires j < |lines| && lines[j].Tokens?
  {
    var s := Read(lines[..j]);
    Usage(j, lines[j].total, lines[j].tokens, FirstTokenLatency(s.reported, s.turnStarted, lines[j].time),
          DecodeWindow(s.lastToken, lines[j].time))
  }

  // ---------------------------------------------------------------- what the result holds

  function StartAt(lines: seq<Line>, i: nat): Event
    requires i < |lines| && lines[i].Start?
  {
    Called(i, lines[i].call, lines[i].name, lines[i].ms)
  }

  /** The event is the one its line gives. */
  predicate ComesFrom(lines: seq<Line>, e: Event) {
    && e.line < |lines|
    && var line := lines[e.line];
       match e
       case Called(i, _, _, _) => line.Start? && e == StartAt(lines, i)
       case Finished(i, _, _, _, _, _) => TerminalAt(lines, i) == Some(e)
       case Alone(i, call, name, success, ms) => line == OtherTool(call, name, success, ms)
       case Usage(i, _, _, _, _) => line.Tokens? && e == UsageAt(lines, i)
       case Mirrored(i, key, tokens) => line == Mirror(key, tokens)
  }

  lemma ComesFromPrefix(before: seq<Line>, line: Line, e: Event)
    requires e.line < |before|
    ensures ComesFrom(before + [line], e) <==> ComesFrom(before, e)
  {
    assert (before + [line])[..e.line] == before[..e.line];
  }

  /** What the last line adds. */
  lemma LastComesFrom(before: seq<Line>, line: Line)
    ensures var s, s', lines := Read(before), Next(Read(before), |before|, line), before + [line];
      && (s'.events != s.events ==>
            |s'.events| == |s.events| + 1 && s'.events[..|s.events|] == s.events
            && s'.events[|s.events|].line == |before| && ComesFrom(lines, s'.events[|s.events|]))
      && (s'.mirrored != s.mirrored ==> s'.mirrored == s.mirrored + [Mirrored(|before|, line.key, line.tokens)] && line.Mirror?)
      && (forall e: Event :: e.line == |before| && ComesFrom(lines, e) ==> e in s'.events + s'.mirrored)
  {
    var lines := before + [line];
    assert lines[..|before|] == before && lines[|before|] == line;
    var s, s' := Read(before), Next(Read(before), |before|, line);
    forall e: Event | e.line == |before| && ComesFrom(lines, e) ensures e in s'.events + s'.mirrored {
      if e.Mirrored? {
        assert s'.mirrored[|s.mirrored|] == e;
      } else {
        assert s'.events[|s.events|] == e;
      }
    }
  }

  /** Reading gives exactly the events of the lines, each at its line. */
  lemma {:induction false} ReadHolds(lines: seq<Line>, e: Event)
    ensures e in Read(lines).events + Read(lines).mirrored <==> ComesFrom(lines, e)
    decreases |lines|
  {
    if lines != [] {
      var before, line := lines[..|lines| - 1], lines[|lines| - 1];
      assert lines == before + [line];
      ReadHolds(before, e);
      LastComesFrom(before, line);
      var s, s' := Read(before), Read(lines);
      assert s'.events == s.events || s'.events == s.events + [s'.events[|s.events|]];
      if e.line < |before| {
        ComesFromPrefix(before, line, e);
      }
      assert e in s'.events + s'.mirrored <==> e in s'.events || e in s'.mirrored;
      assert e in s.events + s.mirrored <==> e in s.events || e in s.mirrored;
    }
  }

  /**
   The result holds exactly what the lines give: every start, every terminal of an open call, every
   other tool event, every usage report, and the mirrored usage only when there is no other.
   */
  lemma ResultIff(c: Collation, lines: seq<Line>, e: Event)
    ensures e in Extract(c, lines) <==> ComesFrom(lines, e) && (e.Mirrored? ==> Read(lines).tokenCount == 0)
  {
    ExtractHolds(c, lines, e);
    ReadHolds(lines, e);
    ReadKinds(lines);
    var s := Read(lines);
    assert e in s.events + s.mirrored <==> e in s.events || e in s.mirrored;
  }

  /** Each once: no two events of the result come from one line. */
  lemma OnePerLine(c: Collation, lines: seq<Line>, e: Event, f: Event)
    requires e in Extract(c, lines) && f in Extract(c, lines) && e.line == f.line
    ensures e == f
  {
    ResultIff(c, lines, e);
    ResultIff(c, lines, f);
  }

  // ---------------------------------------------------------------- terminals of the result

  /**
   Every terminal in the result closes one earlier start of the same call that nothing has closed or
   repeated since, carries its name, and the start is in the result as well.
   */
  lemma TerminalClosesItsStart(c: Collation, lines: seq<Line>, e: Event)
    requires e in Extract(c, lines) && e.Finished?
    ensures e.line < |lines| && lines[e.line] == Output(e.call, e.success, e.duration, e.ms)
    ensures exists i: nat :: OpenAt(lines, e.call, i, e.line) && StartAt(lines, i) in Extract(c, lines)
                             && lines[i].name == e.name
  {
    ResultIff(c, lines, e);
    LineClosesItsStart(lines, e.line);
    var i: nat :| OpenAt(lines, e.call, i, e.line) && lines[i].name == e.name;
    ResultIff(c, lines, StartAt(lines, i));
  }

  /** And every output of an open call has its terminal in the result. */
  lemma OpenCallsAreClosed(c: Collation, lines: seq<Line>, j: nat)
    requires j < |lines| && lines[j].Output? && Open(lines, lines[j].call, j)
    ensures exists e :: e in Extract(c, lines) && e.Finished? && e.line == j
                        && lines[j] == Output(e.call, e.success, e.duration, e.ms)
  {
    LineClosesItsStart(lines, j);
    ResultIff(c, lines, TerminalAt(lines, j).value);
  }

  /** No start is closed by two terminals of the result. */
  lemma StartClosesOnce(c: Collation, lines: seq<Line>, e: Event, f: Event, i: nat)
    requires e in Extract(c, lines) && f in Extract(c, lines) && e.Finished? && f.Finished? && e.call == f.call
    requires e.line < |lines| && f.line < |lines|
    requires OpenAt(lines, e.call, i, e.line) && OpenAt(lines, f.call, i, f.line)
    ensures e == f
  {
    ResultIff(c, lines, e);
    ResultIff(c, lines, f);
    LineClosesItsStart(lines, e.line);
    LineClosesItsStart(lines, f.line);
    OneEnd(lines, e.call, i, e.line, f.line);
  }

  lemma OneEnd(lines: seq<Line>, call: CallId, i: nat, j: nat, k: nat)
    requires j < |lines| && k < |lines| && Ends(lines[j], call) && Ends(lines[k], call)
    requires OpenAt(lines, call, i, j) && OpenAt(lines, call, i, k)
    ensures j == k
  {}

  /** Every occurrence of `a` is before every occurrence of `b`. */
  ghost predicate ComesBefore(events: seq<Event>, a: Event, b: Event) {
    forall p, q :: 0 <= p < |events| && 0 <= q < |events| && events[p] == a && events[q] == b ==> p < q
  }

  lemma OrderDecides(c: Collation, events: seq<Event>, a: Event, b: Event)
    requires InEventOrder(c, events) && !NotAfter(c, b, a) && a != b
    ensures ComesBefore(events, a, b)
  {}

  lemma CallsFirst(c: Collation, lines: seq<Line>, call: Event, terminal: Event)
    requires call.Called? && terminal.Finished? && c.stamp(call) <= c.stamp(terminal)
    ensures ComesBefore(Extract(c, lines), call, terminal)
  {
    SortIsOrdered(c, Collected(lines));
    OrderDecides(c, Extract(c, lines), call, terminal);
  }

  /** A terminal that is not stamped before the start it closes comes after it, whatever else the rollout holds. */
  lemma CallComesBeforeTerminal(c: Collation, lines: seq<Line>, i: nat, terminal: Event)
    requires terminal in Extract(c, lines) && terminal.Finished? && terminal.line < |lines|
    requires OpenAt(lines, terminal.call, i, terminal.line)
    requires c.stamp(StartAt(lines, i)) <= c.stamp(terminal)
    ensures terminal.name == lines[i].name && StartAt(lines, i) in Extract(c, lines)
    ensures ComesBefore(Extract(c, lines), StartAt(lines, i), terminal)
  {
    ResultIff(c, lines, terminal);
    ResultIff(c, lines, StartAt(lines, i));
    TerminalName(lines, i, terminal.line);
    CallsFirst(c, lines, StartAt(lines, i), terminal);
  }

  // ---------------------------------------------------------------- usage of the result, turn by turn

  /** A turn has at most one first-token latency, and only its first report can carry it. */
  lemma OneFirstTokenPerTurn(c: Collation, lines: seq<Line>, e: Event, f: Event)
    requires e in Extract(c, lines) && f in Extract(c, lines) && e.Usage? && f.Usage?
    requires e.line < f.line < |lines| && SameTurn(lines, e.line, f.line)
    ensures f.firstToken.None?
  {
    ResultIff(c, lines, e);
    ResultIff(c, lines, f);
    assert lines[..f.line][e.line] == lines[e.line];
    ReportedInTurn(lines[..f.line], e.line);
  }

  predicate Timed(line: Line) { line.Tokens? && line.time.Some? }

  /** When the turn of position `n` began, as far as the rollout says. */
  ghost predicate TurnBegan(lines: seq<Line>, n: nat, at: Option<int>)
    requires n <= |lines|
  {
    || (SameTurn(lines, 0, n) && at.None?)
    || exists p :: 0 <= p < n && lines[p] == TaskStarted(at) && SameTurn(lines, p + 1, n)
  }

  /** Position `p` is a report of the turn of position `n`. */
  ghost predicate ReportOf(lines: seq<Line>, p: nat, n: nat)
    requires n <= |lines|
  {
    p < n && lines[p].Tokens? && SameTurn(lines, p, n)
  }

  /** The last report of the turn before `n` that has a time. */
  ghost predicate PreviousReport(lines: seq<Line>, p: nat, n: nat)
    requires n <= |lines|
  {
    ReportOf(lines, p, n) && lines[p].time.Some? && forall k :: p < k < n ==> !Timed(lines[k])
  }

  /**
   Only the first report of a turn carries the time from its beginning, when that is known and at most ten
   minutes.
   */
  ghost predicate LatencyIs(lines: seq<Line>, n: nat, latency: Option<int>)
    requires n < |lines| && lines[n].Tokens?
  {
    exists began :: TurnBegan(lines, n, began)
      && if (forall p: nat :: !ReportOf(lines, p, n)) && began.Some? && lines[n].time.Some?
            && began.value <= lines[n].time.value <= began.value + 600000
         then latency.Some? && began.value + latency.value == lines[n].time.value
         else latency.None?
  }

  /** A report carries the time from the turn's previous timed report, when that is at most two minutes. */
  ghost predicate WindowIs(lines: seq<Line>, n: nat, window: Option<int>)
    requires n < |lines| && lines[n].Tokens?
  {
    && (window.Some? ==> exists p: nat :: PreviousReport(lines, p, n))
    && forall p: nat :: PreviousReport(lines, p, n) ==>
         if lines[n].time.Some? && lines[p].time.value <= lines[n].time.value <= lines[p].time.value + 120000
         then window.Some? && lines[p].time.value + window.value == lines[n].time.value
         else window.None?
  }

  /** The reader's turn variables, told by the lines it has read. */
  ghost predicate TurnState(lines: seq<Line>, n: nat, s: Scan)
    requires n <= |lines|
  {
    && TurnBegan(lines, n, s.turnStarted)
    && (s.reported <==> exists p: nat :: ReportOf(lines, p, n))
    && (s.lastToken.Some? ==> exists p: nat :: PreviousReport(lines, p, n) && lines[p].time == s.lastToken)
    && (s.lastToken.None? ==> forall p: nat :: !PreviousReport(lines, p, n))
  }

  lemma ReportsStep(lines: seq<Line>, n: nat, m: nat)
    requires n < |lines| && m == n + 1
    ensures lines[n].TaskStarted? ==> forall p: nat :: !ReportOf(lines, p, m)
    ensures !lines[n].TaskStarted? ==> forall p: nat :: ReportOf(lines, p, m) <==> ReportOf(lines, p, n) || (p == n && lines[n].Tokens?)
    ensures !lines[n].TaskStarted? && !Timed(lines[n]) ==> forall p: nat :: PreviousReport(lines, p, m) <==> PreviousReport(lines, p, n)
    ensures Timed(lines[n]) ==> PreviousReport(lines, n, m)
  {
    forall p: nat
      ensures lines[n].TaskStarted? ==> !ReportOf(lines, p, m)
      ensures !lines[n].TaskStarted? ==> (ReportOf(lines, p, m) <==> ReportOf(lines, p, n) || (p == n && lines[n].Tokens?))
      ensures !lines[n].TaskStarted? && !Timed(lines[n]) ==> (PreviousReport(lines, p, m) <==> PreviousReport(lines, p, n))
    {
      assert p < m && SameTurn(lines, p, m) ==> !lines[n].TaskStarted?;
    }
  }

  lemma TurnStateStep(lines: seq<Line>, n: nat, s: Scan)
    requires n < |lines| && TurnState(lines, n, s)
    ensures TurnState(lines, n + 1, Next(s, n, lines[n]))
  {
    var line, after, m := lines[n], Next(s, n, lines[n]), n + 1;
    ReportsStep(lines, n, m);
    if line.TaskStarted? {
      assert SameTurn(lines, m, m) && lines[n] == TaskStarted(after.turnStarted);
    } else {
      BeganStays(lines, n, s.turnStarted);
      assert after.turnStarted == s.turnStarted;
      if s.reported {
        var p: nat :| ReportOf(lines, p, n);
        assert ReportOf(lines, p, m);
      } else if line.Tokens? {
        assert ReportOf(lines, n, m);
      }
      if !Timed(line) && s.lastToken.Some? {
        var p: nat :| PreviousReport(lines, p, n) && lines[p].time == s.lastToken;
        assert PreviousReport(lines, p, m);
      }
    }
  }

  lemma BeganStays(lines: seq<Line>, n: nat, at: Option<int>)
    requires n < |lines| && !lines[n].TaskStarted? && TurnBegan(lines, n, at)
    ensures TurnBegan(lines, n + 1, at)
  {
    if !(SameTurn(lines, 0, n) && at.None?) {
      var p :| 0 <= p < n && lines[p] == TaskStarted(at) && SameTurn(lines, p + 1, n);
      assert SameTurn(lines, p + 1, n + 1);
    }
  }

  lemma {:induction false} TurnStateAt(lines: seq<Line>, n: nat)
    requires n <= |lines|
    ensures TurnState(lines, n, Read(lines[..n]))
    decreases n
  {
    if n > 0 {
      TurnStateAt(lines, n - 1);
      ReadStep(lines, n - 1);
      TurnStateStep(lines, n - 1, Read(lines[..n - 1]));
    }
  }

  predicate EndsTool(e: Event) { e.Finished? || e.Alone? }

  /** The order of the result: by time; at one time calls, then ends of tools, then usage; and then by id. */
  lemma ResultOrder(c: Collation, lines: seq<Line>, p: nat, q: nat)
    requires p < q < |Extract(c, lines)|
    ensures var a, b := Extract(c, lines)[p], Extract(c, lines)[q];
      || c.stamp(a) < c.stamp(b)
      || (c.stamp(a) == c.stamp(b)
          && (|| (a.Called? && !b.Called?) || (EndsTool(a) && IsUsage(b))
              || (((a.Called? && b.Called?) || (EndsTool(a) && EndsTool(b)) || (IsUsage(a) && IsUsage(b)))
                  && c.id(a) <= c.id(b))))
  {
    SortIsOrdered(c, Collected(lines));
    assert NotAfter(c, Extract(c, lines)[p], Extract(c, lines)[q]);
  }

  /**
   What the usage events of the result say: the figures of their line, and the two times, present exactly
   when due.
   */
  lemma UsageMeans(c: Collation, lines: seq<Line>, e: Event)
    requires e in Extract(c, lines) && e.Usage?
    ensures e.line < |lines| && lines[e.line].Tokens?
    ensures lines[e.line] == Tokens(e.total, e.tokens, lines[e.line].time)
    ensures LatencyIs(lines, e.line, e.firstToken) && WindowIs(lines, e.line, e.decode)
  {
    ResultIff(c, lines, e);
    TurnStateAt(lines, e.line);
    var s := Read(lines[..e.line]);
    assert TurnBegan(lines, e.line, s.turnStarted);
    if s.lastToken.Some? {
      var p: nat :| PreviousReport(lines, p, e.line) && lines[p].time == s.lastToken;
      forall q: nat | PreviousReport(lines, q, e.line) ensures q == p {}
    }
  }

  /** Every start, every other tool event and every report is in the result, as its line says it. */
  lemma LinesAreReported(c: Collation, lines: seq<Line>, i: nat)
    requires i < |lines|
    ensures match lines[i]
            case Start(call, name, ms) => Called(i, call, name, ms) in Extract(c, lines)
            case OtherTool(call, name, success, ms) => Alone(i, call, name, success, ms) in Extract(c, lines)
            case Tokens(total, tokens, _) =>
              exists e :: e in Extract(c, lines) && e.Usage? && e.line == i && e.total == total && e.tokens == tokens
            case Mirror(key, tokens) =>
              (forall k :: 0 <= k < |lines| ==> !lines[k].Tokens?) ==> Mirrored(i, key, tokens) in Extract(c, lines)
            case _ => true
  {
    match lines[i]
    case Start(call, name, ms) => ResultIff(c, lines, Called(i, call, name, ms));
    case OtherTool(call, name, success, ms) => ResultIff(c, lines, Alone(i, call, name, success, ms));
    case Tokens(total, tokens, time) => ResultIff(c, lines, UsageAt(lines, i));
    case Mirror(key, tokens) =>
      ResultIff(c, lines, Mirrored(i, key, tokens));
      NoReports(lines);
    case _ =>
  }

  lemma {:induction false} NoReports(lines: seq<Line>)
    ensures Read(lines).tokenCount == 0 <==> forall k :: 0 <= k < |lines| ==> !lines[k].Tokens?
    decreases |lines|
  {
    if lines != [] {
      var before := lines[..|lines| - 1];
      NoReports(before);
      assert forall k :: 0 <= k < |before| ==> lines[k] == before[k];
    }
  }

  /** The lines from `from` up to `until` are a turn, or the part of one that has been read. */
  ghost predicate IsTurn(lines: seq<Line>, from: nat, until: nat) {
    && from <= until <= |lines|
    && (from == 0 || lines[from - 1].TaskStarted?)
    && SameTurn(lines, from, until)
  }

  /** The reports of the turn come in time order. */
  ghost predicate Timely(lines: seq<Line>, from: nat, until: nat)
    requires from <= until <= |lines|
  {
    forall i, j :: from <= i < j < until ==> InOrder(lines[i], lines[j])
  }

  predicate InOrder(a: Line, b: Line) {
    a.Tokens? && b.Tokens? && a.time.Some? && b.time.Some? ==> a.time.value <= b.time.value
  }

  /** The decode windows of usage events from `from` up to `until`. */
  function DecodeIn(from: nat, until: nat): Event -> int {
    (e: Event) => if e.Usage? && from <= e.line < until && e.decode.Some? then e.decode.value else 0
  }

  /** Gaps of the turn that were too long to count, its first and its last timed report. */
  datatype TurnTimes = TurnTimes(dropped: int, first: Option<int>, last: Option<int>)

  function TimesOf(lines: seq<Line>, from: nat, until: nat): TurnTimes
    requires from <= until <= |lines|
    decreases until
  {
    if from == until then TurnTimes(0, None, None)
    else
      var before, line := TimesOf(lines, from, until - 1), lines[until - 1];
      if !Timed(line) then before
      else if before.last.None? then TurnTimes(0, line.time, line.time)
      else TurnTimes(before.dropped + (if UsageAt(lines, until - 1).decode.Some? then 0 else line.time.value - before.last.value),
                     before.first, line.time)
  }

  lemma ReadStep(lines: seq<Line>, n: nat)
    requires n < |lines|
    ensures Read(lines[..n + 1]) == Next(Read(lines[..n]), n, lines[n])
  {
    assert lines[..n + 1][..n] == lines[..n];
  }

  /** The reader's anchor is the turn's last timed report. */
  lemma {:induction false} TimesFollowRead(lines: seq<Line>, from: nat, until: nat)
    requires IsTurn(lines, from, until)
    ensures Read(lines[..until]).lastToken == TimesOf(lines, from, until).last
    ensures TimesOf(lines, from, until).last.Some? <==> TimesOf(lines, from, until).first.Some?
    ensures TimesOf(lines, from, until).last.Some? ==>
              exists i :: from <= i < until && Timed(lines[i]) && lines[i].time == TimesOf(lines, from, until).last
    decreases until
  {
    if from < until {
      TimesFollowRead(lines, from, until - 1);
      ReadStep(lines, until - 1);
      if Timed(lines[until - 1]) {
        assert lines[until - 1].time == TimesOf(lines, from, until).last;
      }
    } else if from > 0 {
      ReadStep(lines, from - 1);
    }
  }

  lemma {:induction false} NothingYet(lines: seq<Line>, from: nat, until: nat)
    requires from <= |lines|
    ensures Total(Read(lines[..from]).events, DecodeIn(from, until)) == 0
    decreases from
  {
    ReadKinds(lines[..from]);
    AllLight(Read(lines[..from]).events, DecodeIn(from, until));
  }

  lemma {:induction false} AllLight(events: seq<Event>, weight: Event -> int)
    requires forall e :: e in events ==> weight(e) == 0
    ensures Total(events, weight) == 0
    decreases |events|
  {
    if events != [] {
      AllLight(events[..|events| - 1], weight);
    }
  }

  /** What one line adds to the decode windows of a turn. */
  lemma DecodeStep(lines: seq<Line>, n: nat, from: nat, until: nat)
    requires n < |lines|
    ensures Total(Read(lines[..n + 1]).events, DecodeIn(from, until))
            == Total(Read(lines[..n]).events, DecodeIn(from, until))
               + if from <= n < until && lines[n].Tokens? && UsageAt(lines, n).decode.Some? then UsageAt(lines, n).decode.value else 0
  {
    ReadStep(lines, n);
    var s, s' := Read(lines[..n]), Read(lines[..n + 1]);
    if s'.events != s.events {
      assert s'.events == s.events + [s'.events[|s.events|]];
      TotalAppend(s.events, s'.events[|s.events|], DecodeIn(from, until));
    }
  }

  lemma {:induction false} LaterLinesAddNothing(lines: seq<Line>, n: nat, from: nat, until: nat)
    requires until <= n <= |lines|
    ensures Total(Read(lines[..n]).events, DecodeIn(from, until)) == Total(Read(lines[..until]).events, DecodeIn(from, until))
    decreases n
  {
    if until < n {
      LaterLinesAddNothing(lines, n - 1, from, until);
      DecodeStep(lines, n - 1, from, until);
    }
  }

  /** The window of a report is measured from the turn's previous timed report, and never backwards. */
  lemma WindowOfReport(lines: seq<Line>, from: nat, n: nat, until: nat)
    requires IsTurn(lines, from, until) && from <= n < until && Timely(lines, from, until) && lines[n].Tokens?
    ensures var last, time, window := TimesOf(lines, from, n).last, lines[n].time, UsageAt(lines, n).decode;
      && (last.None? || time.None? ==> window.None?)
      && (last.Some? && time.Some? ==> last.value <= time.value)
      && (window.Some? ==> last.Some? && time.Some? && window.value == time.value - last.value)
  {
    TimesFollowRead(lines, from, n);
    var last := TimesOf(lines, from, n).last;
    if last.Some? {
      var i :| from <= i < n && Timed(lines[i]) && lines[i].time == last;
      assert InOrder(lines[i], lines[n]);
    }
  }

  /** Windows and dropped gaps make up the time between the first and the last report. */
  predicate AddsUp(times: TurnTimes, decoded: int) {
    && decoded >= 0 && times.dropped >= 0
    && (times.first.Some? <==> times.last.Some?)
    && (times.first.Some? && times.last.Some? ==> decoded + times.dropped == times.last.value - times.first.value)
    && (times.first.None? ==> decoded == 0 && times.dropped == 0)
  }

  lemma {:induction false} WindowsAddUp(lines: seq<Line>, from: nat, n: nat, until: nat)
    requires IsTurn(lines, from, until) && from <= n <= until && Timely(lines, from, until)
    ensures AddsUp(TimesOf(lines, from, n), Total(Read(lines[..n]).events, DecodeIn(from, until)))
    decreases n
  {
    if n == from {
      NothingYet(lines, from, until);
    } else {
      WindowsAddUp(lines, from, n - 1, until);
      DecodeStep(lines, n - 1, from, until);
      WindowStep(lines, from, n - 1, until, Total(Read(lines[..n - 1]).events, DecodeIn(from, until)));
    }
  }

  lemma WindowStep(lines: seq<Line>, from: nat, n: nat, until: nat, decoded: int)
    requires IsTurn(lines, from, until) && from <= n < until && Timely(lines, from, until)
    requires AddsUp(TimesOf(lines, from, n), decoded)
    ensures AddsUp(TimesOf(lines, from, n + 1),
                   decoded + if lines[n].Tokens? && UsageAt(lines, n).decode.Some? then UsageAt(lines, n).decode.value else 0)
  {
    if lines[n].Tokens? {
      WindowOfReport(lines, from, n, until);
    }
  }

  /**
   With the reports of a turn in time order, the decode windows in the result that belong to the turn
   and the gaps that were too long add up to the time from the turn's first report to its last, so
   the windows alone never exceed it.  Nothing is asked of other turns.
   */
  lemma DecodeFitsElapsed(c: Collation, lines: seq<Line>, from: nat, until: nat)
    requires IsTurn(lines, from, until) && Timely(lines, from, until)
    ensures AddsUp(TimesOf(lines, from, until), Total(Extract(c, lines), DecodeIn(from, until)))
  {
    ResultTotal(c, lines, DecodeIn(from, until));
    WindowsAddUp(lines, from, until, until);
    assert lines[..|lines|] == lines;
    LaterLinesAddNothing(lines, |lines|, from, until);
  }

  // ---------------------------------------------------------------- the extractor's loop

  method ExtractCodexEventsFromRollout(c: Collation, lines: seq<Line>) returns (events: seq<Event>)
    ensures events == Extract(c, lines)
  {
    events := [];
    var pendingToolCalls: map<CallId, string> := map[];
    var mirroredUsageEvents: seq<Event> := [];
    var tokenCountUsageCount: nat := 0;
    var lastTokenEventMs: Option<int> := None;
    var turnStartedMs: Option<int> := None;
    var turnFirstTokenReported := false;
    for i := 0 to |lines|
      invariant Scan(pendingToolCalls, events, mirroredUsageEvents, tokenCountUsageCount, lastTokenEventMs,
                     turnStartedMs, turnFirstTokenReported) == Read(lines[..i])
    {
      assert lines[..i + 1][..i] == lines[..i];
      var line := lines[i];
      if line.Mirror? {
        mirroredUsageEvents := mirroredUsageEvents + [Mirrored(i, line.key, line.tokens)];
      } else if line.Start? {
        pendingToolCalls := pendingToolCalls[line.call := line.name];
        events := events + [Called(i, line.call, line.name, line.ms)];
      } else if line.Output? {
        if line.call !in pendingToolCalls {
          continue;
        }
        events := events + [Finished(i, line.call, pendingToolCalls[line.call], line.success, line.duration, line.ms)];
        pendingToolCalls := pendingToolCalls - {line.call};
      } else if line.OtherTool? {
        events := events + [Alone(i, line.call, line.name, line.success, line.ms)];
      } else if line.TaskStarted? {
        lastTokenEventMs, turnStartedMs, turnFirstTokenReported := None, line.started, false;
      } else if line.Tokens? {
        var decodeDurationMs := DecodeWindow(lastTokenEventMs, line.time);
        if line.time.Some? {
          lastTokenEventMs := line.time;
        }
        var firstTokenLatencyMs := FirstTokenLatency(turnFirstTokenReported, turnStartedMs, line.time);
        turnFirstTokenReported := true;
        events := events + [Usage(i, line.total, line.tokens, firstTokenLatencyMs, decodeDurationMs)];
        tokenCountUsageCount := tokenCountUsageCount + 1;
      }
    }
    assert lines[..|lines|] == lines;
    if tokenCountUsageCount == 0 && |mirroredUsageEvents| > 0 {
      events := events + mirroredUsageEvents;
    } else if tokenCountUsageCount == 0 {
      assert events + [] == events;
    }
    events := SortEvents(c, events);
  }
}
