/**
 Pairing billing lines and cache lines with model calls in a CodeBuddy request log
 (packages/adapters-codebuddy-log/src/codebuddy-log.ts).

 A line is what the original extracts from it; lines it passes over are `Ignored`.  Credits are
 counted in natural units.
 */
module CodebuddyLog {
  import opened Common

  datatype MessageId = MessageId(text: string)
  datatype RequestId = RequestId(text: string)
  datatype SessionId = SessionId(text: string)

  datatype Line =
    | Credit(request: RequestId, credit: nat)
    | Call(message: MessageId, session: SessionId, turn: Option<RequestId>, prompt: nat, completion: nat,
           timestamp: int, rest: int)
    | ModelCall(callSession: SessionId, input: nat, cachedRead: nat, cachedWrite: nat)
    | Ignored

  datatype Request = Request(
    session: SessionId,
    prompt: nat,
    completion: nat,
    timestamp: int,
    rest: int,
    cacheRead: nat,
    cacheCreation: nat,
    credit: Option<nat>)

  /** The request table and the three buffers. */
  datatype Scan = Scan(
    requests: map<MessageId, Request>,
    creditBy: map<RequestId, seq<nat>>,
    awaiting: map<RequestId, seq<MessageId>>,
    awaitingCache: map<SessionId, seq<MessageId>>)

  const EMPTY := Scan(map[], map[], map[], map[])

  function Queue<K, V>(queues: map<K, seq<V>>, k: K): seq<V> {
    if k in queues then queues[k] else []
  }

  // ---------------------------------------------------------------- one line

  function SetCredit(requests: map<MessageId, Request>, message: MessageId, credit: nat): map<MessageId, Request> {
    if message in requests then requests[message := requests[message].(credit := Some(credit))] else requests
  }

  function OnCredit(s: Scan, turn: RequestId, credit: nat): Scan {
    var waiting := Queue(s.awaiting, turn);
    if waiting != [] then
      s.(awaiting := s.awaiting[turn := waiting[1..]], requests := SetCredit(s.requests, waiting[0], credit))
    else s.(creditBy := s.creditBy[turn := Queue(s.creditBy, turn) + [credit]])
  }

  /** A call that is reported again keeps its first timestamp and what was attached to it. */
  function Report(s: Scan, line: Line): Request
    requires line.Call?
  {
    if line.message in s.requests then
      var previous := s.requests[line.message];
      Request(line.session, line.prompt, line.completion, previous.timestamp, line.rest,
              previous.cacheRead, previous.cacheCreation, previous.credit)
    else Request(line.session, line.prompt, line.completion, line.timestamp, line.rest, 0, 0, None)
  }

  function OnCall(s: Scan, line: Line): Scan
    requires line.Call?
  {
    if line.prompt == 0 && line.completion == 0 then s
    else
      var waitingCache := Queue(s.awaitingCache, line.session);
      var reported := s.(
        requests := s.requests[line.message := Report(s, line)],
        awaitingCache := if line.message in waitingCache then s.awaitingCache
                         else s.awaitingCache[line.session := waitingCache + [line.message]]);
      if line.turn.None? then reported
      else
        var turn := line.turn.value;
        var credits := Queue(s.creditBy, turn);
        if credits != [] then
          reported.(creditBy := s.creditBy[turn := credits[1..]],
                    requests := SetCredit(reported.requests, line.message, credits[0]))
        else reported.(awaiting := s.awaiting[turn := Queue(s.awaiting, turn) + [line.message]])
  }

  /** First queued call with this prompt size, or the length of the queue. */
  function FindPrompt(queue: seq<MessageId>, requests: map<MessageId, Request>, input: nat): (i: nat)
    ensures i <= |queue|
    ensures i < |queue| ==> queue[i] in requests && requests[queue[i]].prompt == input
    ensures forall k :: 0 <= k < i ==> !(queue[k] in requests && requests[queue[k]].prompt == input)
    decreases |queue|
  {
    if queue == [] then 0
    else if queue[0] in requests && requests[queue[0]].prompt == input then 0
    else 1 + FindPrompt(queue[1..], requests, input)
  }

  /** The waiting call a cache line is attached to: the first with that prompt, else the first. */
  function CacheIndex(queue: seq<MessageId>, requests: map<MessageId, Request>, input: nat): (i: nat)
    requires queue != []
    ensures i < |queue|
  {
    var found := FindPrompt(queue, requests, input);
    if found == |queue| then 0 else found
  }

  function OnModelCall(s: Scan, line: Line): Scan
    requires line.ModelCall?
  {
    var queue := Queue(s.awaitingCache, line.callSession);
    if queue == [] then s
    else
      var index := CacheIndex(queue, s.requests, line.input);
      var message := queue[index];
      var rest := s.(awaitingCache := s.awaitingCache[line.callSession := queue[..index] + queue[index + 1..]]);
      if message !in s.requests then rest
      else
        var limit := s.requests[message].prompt;
        rest.(requests := s.requests[message := s.requests[message].(
                cacheRead := Min(line.cachedRead, limit), cacheCreation := Min(line.cachedWrite, limit))])
  }

  function Next(s: Scan, line: Line): Scan {
    match line
    case Credit(turn, credit) => OnCredit(s, turn, credit)
    case Call(_, _, _, _, _, _, _) => OnCall(s, line)
    case ModelCall(_, _, _, _) => OnModelCall(s, line)
    case Ignored => s
  }

  function Parse(lines: seq<Line>): Scan
    decreases |lines|
  {
    if lines == [] then EMPTY else Next(Parse(lines[..|lines| - 1]), lines[|lines| - 1])
  }

  // ---------------------------------------------------------------- plain index pairing

  predicate Bills(line: Line, turn: RequestId) { line.Credit? && line.request == turn }

  predicate Accepted(line: Line) { line.Call? && !(line.prompt == 0 && line.completion == 0) }

  predicate Asks(line: Line, turn: RequestId) { Accepted(line) && line.turn == Some(turn) }

  /** The credits of a turn, in order. */
  function Credits(lines: seq<Line>, turn: RequestId): seq<nat>
    decreases |lines|
  {
    if lines == [] then []
    else
      var last := lines[|lines| - 1];
      Credits(lines[..|lines| - 1], turn) + if Bills(last, turn) then [last.credit] else []
  }

  /** The accepted calls of a turn, in order. */
  function Calls(lines: seq<Line>, turn: RequestId): seq<MessageId>
    decreases |lines|
  {
    if lines == [] then []
    else
      var last := lines[|lines| - 1];
      Calls(lines[..|lines| - 1], turn) + if Asks(last, turn) then [last.message] else []
  }

  /** The credit of the last of the first `n` pairs that belongs to the message. */
  function LastPaired(calls: seq<MessageId>, credits: seq<nat>, n: nat, message: MessageId): Option<nat>
    requires n <= |calls| && n <= |credits|
  {
    if n == 0 then None
    else if calls[n - 1] == message then Some(credits[n - 1])
    else LastPaired(calls, credits, n - 1, message)
  }

  /** The k-th credit goes to the k-th call. */
  function PairedCredit(calls: seq<MessageId>, credits: seq<nat>, message: MessageId): Option<nat> {
    LastPaired(calls, credits, Min(|calls|, |credits|), message)
  }

  // ---------------------------------------------------------------- the buffers hold what is not paired yet

  /** Behind the pairs made so far, the calls or the credits that are ahead. */
  ghost predicate Buffered(s: Scan, lines: seq<Line>, turn: RequestId) {
    var calls, credits := Calls(lines, turn), Credits(lines, turn);
    var paired := Min(|calls|, |credits|);
    Queue(s.awaiting, turn) == calls[paired..] && Queue(s.creditBy, turn) == credits[paired..]
  }

  lemma DropAppend<T>(s: seq<T>, x: T, n: nat)
    requires n <= |s|
    ensures (s + [x])[n..] == s[n..] + [x]
  {}

  lemma DropHead<T>(s: seq<T>, n: nat)
    requires n < |s|
    ensures s[n..] != [] && s[n..][0] == s[n] && s[n..][1..] == s[n + 1..]
  {}

  lemma CreditKeepsBuffers(s: Scan, before: seq<Line>, line: Line, turn: RequestId)
    requires line.Credit? && Buffered(s, before, line.request) && Buffered(s, before, turn)
    ensures Buffered(Next(s, line), before + [line], turn)
  {
    var lines := before + [line];
    assert lines[..|lines| - 1] == before;
    assert Calls(lines, turn) == Calls(before, turn);
    if turn == line.request {
      var calls, credits := Calls(before, turn), Credits(before, turn);
      assert Credits(lines, turn) == credits + [line.credit];
      if |calls| > |credits| {
        DropHead(calls, |credits|);
      } else {
        DropAppend(credits, line.credit, |calls|);
      }
    } else {
      assert Credits(lines, turn) == Credits(before, turn);
    }
  }

  lemma CallKeepsBuffers(s: Scan, before: seq<Line>, line: Line, turn: RequestId)
    requires line.Call? && Buffered(s, before, turn)
    requires line.turn.Some? ==> Buffered(s, before, line.turn.value)
    ensures Buffered(Next(s, line), before + [line], turn)
  {
    var lines := before + [line];
    assert lines[..|lines| - 1] == before;
    assert Credits(lines, turn) == Credits(before, turn);
    if Asks(line, turn) {
      var calls, credits := Calls(before, turn), Credits(before, turn);
      assert Calls(lines, turn) == calls + [line.message];
      if |credits| > |calls| {
        DropHead(credits, |calls|);
      } else {
        DropAppend(calls, line.message, |credits|);
      }
    } else {
      assert Calls(lines, turn) == Calls(before, turn);
    }
  }

  lemma OtherKeepsBuffers(s: Scan, before: seq<Line>, line: Line, turn: RequestId)
    requires !line.Credit? && !line.Call? && Buffered(s, before, turn)
    ensures Buffered(Next(s, line), before + [line], turn)
  {
    var lines := before + [line];
    assert lines[..|lines| - 1] == before;
    assert Calls(lines, turn) == Calls(before, turn) && Credits(lines, turn) == Credits(before, turn);
  }

  lemma LastLine(lines: seq<Line>)
    requires lines != []
    ensures lines == lines[..|lines| - 1] + [lines[|lines| - 1]]
  {}

  /** However the two streams interleave, the buffers are what index pairing leaves over. */
  lemma {:induction false} ParseBuffers(lines: seq<Line>, turn: RequestId)
    ensures Buffered(Parse(lines), lines, turn)
    decreases |lines|
  {
    if lines != [] {
      var before, line := lines[..|lines| - 1], lines[|lines| - 1];
      LastLine(lines);
      ParseBuffers(before, turn);
      if line.Credit? {
        ParseBuffers(before, line.request);
        CreditKeepsBuffers(Parse(before), before, line, turn);
      } else if line.Call? {
        if line.turn.Some? { ParseBuffers(before, line.turn.value); }
        CallKeepsBuffers(Parse(before), before, line, turn);
      } else {
        OtherKeepsBuffers(Parse(before), before, line, turn);
      }
    }
  }

  /** At most one side of a turn is ever waiting. */
  lemma OneSideWaits(lines: seq<Line>, turn: RequestId)
    ensures Queue(Parse(lines).awaiting, turn) == [] || Queue(Parse(lines).creditBy, turn) == []
  {
    ParseBuffers(lines, turn);
  }

  // ---------------------------------------------------------------- the credits that come out

  lemma {:induction false} LastPairedPrefix(calls: seq<MessageId>, credits: seq<nat>, calls': seq<MessageId>, credits': seq<nat>,
                                            n: nat, message: MessageId)
    requires n <= |calls| <= |calls'| && n <= |credits| <= |credits'|
    requires calls'[..|calls|] == calls && credits'[..|credits|] == credits
    ensures LastPaired(calls', credits', n, message) == LastPaired(calls, credits, n, message)
    decreases n
  {
    if n > 0 {
      LastPairedPrefix(calls, credits, calls', credits', n - 1, message);
      assert calls'[n - 1] == calls'[..|calls|][n - 1] && credits'[n - 1] == credits'[..|credits|][n - 1];
    }
  }

  /** A new credit pairs with the first waiting call, if any. */
  lemma PairNewCredit(calls: seq<MessageId>, credits: seq<nat>, credit: nat, message: MessageId)
    ensures PairedCredit(calls, credits + [credit], message)
            == if |calls| > |credits| && calls[|credits|] == message then Some(credit)
               else PairedCredit(calls, credits, message)
  {
    LastPairedPrefix(calls, credits, calls, credits + [credit], Min(|calls|, |credits|), message);
  }

  /** A new call takes the first waiting credit, if any. */
  lemma PairNewCall(calls: seq<MessageId>, credits: seq<nat>, call: MessageId, message: MessageId)
    ensures PairedCredit(calls + [call], credits, message)
            == if |credits| > |calls| && call == message then Some(credits[|calls|])
               else PairedCredit(calls, credits, message)
  {
    LastPairedPrefix(calls, credits, calls + [call], credits, Min(|calls|, |credits|), message);
  }

  lemma {:induction false} CallsAreRequests(lines: seq<Line>, turn: RequestId, message: MessageId)
    ensures message in Calls(lines, turn) ==> message in Parse(lines).requests
    decreases |lines|
  {
    if lines != [] {
      CallsAreRequests(lines[..|lines| - 1], turn, message);
    }
  }

  /** The pair a line completes by index: the n-th call of a turn with the n-th credit. */
  function GivenBy(before: seq<Line>, line: Line): Option<(MessageId, nat)> {
    if line.Credit? then
      var calls, credits := Calls(before, line.request), Credits(before, line.request);
      if |calls| > |credits| then Some((calls[|credits|], line.credit)) else None
    else if Accepted(line) && line.turn.Some? then
      var calls, credits := Calls(before, line.turn.value), Credits(before, line.turn.value);
      if |credits| > |calls| then Some((line.message, credits[|calls|])) else None
    else None
  }

  /** The credit of the pair of a message that was completed last. */
  function LastGiven(lines: seq<Line>, message: MessageId): Option<nat>
    decreases |lines|
  {
    if lines == [] then None
    else
      var given := GivenBy(lines[..|lines| - 1], lines[|lines| - 1]);
      if given.Some? && given.value.0 == message then Some(given.value.1)
      else LastGiven(lines[..|lines| - 1], message)
  }

  /** The buffers give a credit to the message that index pairing gives it to. */
  lemma NextGives(before: seq<Line>, line: Line, message: MessageId)
    ensures var s, s', given := Parse(before), Next(Parse(before), line), GivenBy(before, line);
      && (message in s.requests ==> message in s'.requests)
      && (given.Some? ==> given.value.0 in s'.requests)
      && (message in s'.requests ==>
            s'.requests[message].credit
            == if given.Some? && given.value.0 == message then Some(given.value.1)
               else if message in s.requests then s.requests[message].credit else None)
  {
    if line.Credit? {
      ParseBuffers(before, line.request);
      var calls, credits := Calls(before, line.request), Credits(before, line.request);
      if |calls| > |credits| {
        DropHead(calls, |credits|);
        CallsAreRequests(before, line.request, calls[|credits|]);
      }
    } else if Accepted(line) && line.turn.Some? {
      ParseBuffers(before, line.turn.value);
      var calls, credits := Calls(before, line.turn.value), Credits(before, line.turn.value);
      if |credits| > |calls| { DropHead(credits, |calls|); }
    }
  }

  /**
   For every log: per turn, the k-th accepted credit goes to the k-th accepted call, however the two
   streams interleave, and a message keeps the credit of its pair that was completed last.
   */
  lemma {:induction false} CreditsAreGiven(lines: seq<Line>, message: MessageId)
    ensures message in Parse(lines).requests ==> Parse(lines).requests[message].credit == LastGiven(lines, message)
    ensures message !in Parse(lines).requests ==> LastGiven(lines, message).None?
    decreases |lines|
  {
    if lines != [] {
      CreditsAreGiven(lines[..|lines| - 1], message);
      NextGives(lines[..|lines| - 1], lines[|lines| - 1], message);
    }
  }

  // ---------------------------------------------------------------- reading a window of the log

  lemma TurnStep(before: seq<Line>, line: Line, turn: RequestId)
    ensures Calls(before + [line], turn) == Calls(before, turn) + if Asks(line, turn) then [line.message] else []
    ensures Credits(before + [line], turn) == Credits(before, turn) + if Bills(line, turn) then [line.credit] else []
  {
    assert (before + [line])[..|before|] == before;
  }

  lemma GivenStep(before: seq<Line>, line: Line, message: MessageId)
    ensures LastGiven(before + [line], message)
            == if GivenBy(before, line).Some? && GivenBy(before, line).value.0 == message then Some(GivenBy(before, line).value.1)
               else LastGiven(before, message)
  {
    assert (before + [line])[..|before|] == before;
  }

  lemma {:induction false} ConcatPairs(before: seq<Line>, window: seq<Line>, turn: RequestId)
    ensures Calls(before + window, turn) == Calls(before, turn) + Calls(window, turn)
    ensures Credits(before + window, turn) == Credits(before, turn) + Credits(window, turn)
    decreases |window|
  {
    if window == [] {
      assert before + window == before;
    } else {
      var inside, line := window[..|window| - 1], window[|window| - 1];
      assert window == inside + [line];
      assert before + window == (before + inside) + [line];
      ConcatPairs(before, inside, turn);
      TurnStep(before + inside, line, turn);
      TurnStep(inside, line, turn);
    }
  }

  /** A turn that is out of balance before the window is not continued in it by the side that lags behind. */
  predicate Apart(before: seq<Line>, window: seq<Line>, turn: RequestId) {
    && (|Calls(before, turn)| > |Credits(before, turn)| ==> Credits(window, turn) == [])
    && (|Credits(before, turn)| > |Calls(before, turn)| ==> Calls(window, turn) == [])
  }

  /** The window gives a message the credit that the whole log gives it. */
  predicate PairsAlike(before: seq<Line>, window: seq<Line>, message: MessageId) {
    LastGiven(before + window, message)
    == if LastGiven(window, message).Some? then LastGiven(window, message) else LastGiven(before, message)
  }

  lemma GivenInWindow(before: seq<Line>, inside: seq<Line>, line: Line)
    requires forall turn :: Apart(before, inside + [line], turn)
    ensures GivenBy(before + inside, line) == GivenBy(inside, line)
  {
    if line.Credit? || (Accepted(line) && line.turn.Some?) {
      var turn := if line.Credit? then line.request else line.turn.value;
      ConcatPairs(before, inside, turn);
      TurnStep(inside, line, turn);
      assert Apart(before, inside + [line], turn);
    }
  }

  /** Pairing a window alone and pairing it in the log agree when no turn that is ahead before it is caught up in it. */
  lemma {:induction false} WindowPairsAlike(before: seq<Line>, window: seq<Line>, message: MessageId)
    requires forall turn :: Apart(before, window, turn)
    ensures PairsAlike(before, window, message)
    decreases |window|
  {
    if window == [] {
      assert before + window == before;
    } else {
      var inside, line := window[..|window| - 1], window[|window| - 1];
      assert window == inside + [line];
      assert before + window == (before + inside) + [line];
      forall turn ensures Apart(before, inside, turn) {
        assert Apart(before, window, turn);
        TurnStep(inside, line, turn);
      }
      WindowPairsAlike(before, inside, message);
      GivenInWindow(before, inside, line);
      GivenStep(before + inside, line, message);
      GivenStep(inside, line, message);
    }
  }

  /** Every turn has as many calls as credits. */
  ghost predicate Balanced(lines: seq<Line>) {
    forall turn :: |Calls(lines, turn)| == |Credits(lines, turn)|
  }

  /** A bound on the length of the message ids of a log. */
  function Longest(lines: seq<Line>): nat
    decreases |lines|
  {
    if lines == [] then 0
    else
      var n, last := Longest(lines[..|lines| - 1]), lines[|lines| - 1];
      if last.Call? && |last.message.text| > n then |last.message.text| else n
  }

  lemma {:induction false} LongerIsUnknown(lines: seq<Line>, message: MessageId)
    requires |message.text| > Longest(lines)
    ensures message !in Parse(lines).requests
    decreases |lines|
  {
    if lines != [] {
      LongerIsUnknown(lines[..|lines| - 1], message);
    }
  }

  lemma OneLine(line: Line, message: MessageId)
    ensures LastGiven([line], message).None?
  {
    GivenStep([], line, message);
    assert [] + [line] == [line];
  }

  /** Waiting calls: the next credit of the turn, read by itself, is lost. */
  lemma WaitingCallPairs(before: seq<Line>, turn: RequestId, credit: nat)
    requires |Calls(before, turn)| > |Credits(before, turn)|
    requires LastGiven(before, Calls(before, turn)[|Credits(before, turn)|]) != Some(credit)
    ensures !PairsAlike(before, [Credit(turn, credit)], Calls(before, turn)[|Credits(before, turn)|])
  {
    var message := Calls(before, turn)[|Credits(before, turn)|];
    GivenStep(before, Credit(turn, credit), message);
    OneLine(Credit(turn, credit), message);
  }

  /** Waiting credits: a call of a message not seen before, read by itself, gets none. */
  lemma WaitingCreditPairs(before: seq<Line>, turn: RequestId, message: MessageId, session: SessionId)
    requires |Credits(before, turn)| > |Calls(before, turn)| && message !in Parse(before).requests
    ensures !PairsAlike(before, [Call(message, session, Some(turn), 1, 1, 0, 0)], message)
  {
    var call := Call(message, session, Some(turn), 1, 1, 0, 0);
    CreditsAreGiven(before, message);
    GivenStep(before, call, message);
    OneLine(call, message);
  }

  /** Every window behind `before` pairs as the whole log does if and only if every turn is balanced there. */
  lemma BalancedIff(before: seq<Line>)
    ensures Balanced(before) <==> forall window, message :: PairsAlike(before, window, message)
  {
    if Balanced(before) {
      forall window, message ensures PairsAlike(before, window, message) {
        WindowPairsAlike(before, window, message);
      }
    } else {
      var turn :| |Calls(before, turn)| != |Credits(before, turn)|;
      if |Calls(before, turn)| > |Credits(before, turn)| {
        var given := LastGiven(before, Calls(before, turn)[|Credits(before, turn)|]);
        WaitingCallPairs(before, turn, if given == Some(0) then 1 else 0);
      } else {
        var message := MessageId(seq(Longest(before) + 1, _ => 'x'));
        LongerIsUnknown(before, message);
        WaitingCreditPairs(before, turn, message, SessionId(""));
      }
    }
  }

  lemma TwoLines(p: Line, q: Line, turn: RequestId)
    ensures Calls([p, q], turn) == (if Asks(p, turn) then [p.message] else []) + (if Asks(q, turn) then [q.message] else [])
    ensures Credits([p, q], turn) == (if Bills(p, turn) then [p.credit] else []) + (if Bills(q, turn) then [q.credit] else [])
  {
    assert [p, q][..1] == [p] && [p][..0] == [];
    assert Calls([p], turn) == if Asks(p, turn) then [p.message] else [];
    assert Credits([p], turn) == if Bills(p, turn) then [p.credit] else [];
  }

  /** A window that cuts a turn between a call and its credit can give the credit to another message. */
  lemma CutTurnPairsDifferently(a: MessageId, b: MessageId, session: SessionId, turn: RequestId, credit: nat)
    requires a != b
    ensures var first, second := Call(a, session, Some(turn), 1, 1, 0, 0), Call(b, session, Some(turn), 1, 1, 0, 0);
      && LastGiven([first, second] + [Credit(turn, credit)], a) == Some(credit)
      && LastGiven([first, second] + [Credit(turn, credit)], b).None?
      && LastGiven([second] + [Credit(turn, credit)], b) == Some(credit)
  {
    var first, second := Call(a, session, Some(turn), 1, 1, 0, 0), Call(b, session, Some(turn), 1, 1, 0, 0);
    var bill := Credit(turn, credit);
    TwoLines(first, second, turn);
    GivenStep([first, second], bill, a);
    GivenStep([first, second], bill, b);
    GivenStep([second], bill, b);
    TurnStep([], second, turn);
    TurnStep([], first, turn);
    assert [] + [second] == [second] && [] + [first] == [first] && [first] + [second] == [first, second];
    GivenStep([], first, b);
    GivenStep([first], second, b);
  }

  // ---------------------------------------------------------------- interleavings of the two streams

  /** What index pairing within one turn gives a message. */
  function Paid(lines: seq<Line>, turn: RequestId, message: MessageId): Option<nat> {
    PairedCredit(Calls(lines, turn), Credits(lines, turn), message)
  }

  predicate OnTurn(line: Line, turn: RequestId) { Asks(line, turn) || Bills(line, turn) }

  lemma PaidStep(before: seq<Line>, line: Line, turn: RequestId, message: MessageId)
    ensures Paid(before + [line], turn, message)
            == if OnTurn(line, turn) && GivenBy(before, line).Some? && GivenBy(before, line).value.0 == message
               then Some(GivenBy(before, line).value.1) else Paid(before, turn, message)
    ensures GivenBy(before, line).Some? ==> exists t :: OnTurn(line, t)
  {
    TurnStep(before, line, turn);
    var calls, credits := Calls(before, turn), Credits(before, turn);
    if Bills(line, turn) {
      assert calls + [] == calls;
      PairNewCredit(calls, credits, line.credit, message);
    } else if Asks(line, turn) {
      assert credits + [] == credits;
      PairNewCall(calls, credits, line.message, message);
    } else {
      assert calls + [] == calls && credits + [] == credits;
    }
    if GivenBy(before, line).Some? {
      assert OnTurn(line, if line.Credit? then line.request else line.turn.value);
    }
  }

  /** What a message was given last is what one of its turns pays, and it was given something if any turn pays. */
  lemma {:induction false} GivenIsPaid(lines: seq<Line>, message: MessageId)
    ensures LastGiven(lines, message).Some? ==> exists turn :: Paid(lines, turn, message) == LastGiven(lines, message)
    ensures LastGiven(lines, message).None? ==> forall turn :: Paid(lines, turn, message).None?
    decreases |lines|
  {
    if lines != [] {
      var before, line := lines[..|lines| - 1], lines[|lines| - 1];
      LastLine(lines);
      GivenIsPaid(before, message);
      forall turn
        ensures Paid(lines, turn, message)
                == if OnTurn(line, turn) && GivenBy(before, line).Some? && GivenBy(before, line).value.0 == message
                   then Some(GivenBy(before, line).value.1) else Paid(before, turn, message)
        ensures GivenBy(before, line).Some? ==> exists t :: OnTurn(line, t)
      {
        PaidStep(before, line, turn, message);
      }
      if GivenBy(before, line).Some? && GivenBy(before, line).value.0 == message {
        var turn := if line.Credit? then line.request else line.turn.value;
        assert Paid(lines, turn, message) == LastGiven(lines, message);
      } else if LastGiven(before, message).Some? {
        var turn :| Paid(before, turn, message) == LastGiven(before, message);
        assert Paid(lines, turn, message) == LastGiven(lines, message);
      }
    }
  }

  predicate SameTurn(a: seq<Line>, b: seq<Line>, turn: RequestId) {
    Calls(a, turn) == Calls(b, turn) && Credits(a, turn) == Credits(b, turn)
  }

  /** The lines of one turn, or those of all others. */
  function Part(lines: seq<Line>, turn: RequestId, on: bool): seq<Line>
    decreases |lines|
  {
    if lines == [] then []
    else
      var before, last := Part(lines[..|lines| - 1], turn, on), lines[|lines| - 1];
      if OnTurn(last, turn) == on then before + [last] else before
  }

  lemma {:induction false} PartPairs(lines: seq<Line>, turn: RequestId, on: bool, t: RequestId)
    ensures Calls(Part(lines, turn, on), t) == if (t == turn) == on then Calls(lines, t) else []
    ensures Credits(Part(lines, turn, on), t) == if (t == turn) == on then Credits(lines, t) else []
    decreases |lines|
  {
    if lines != [] {
      var before, last := lines[..|lines| - 1], lines[|lines| - 1];
      PartPairs(before, turn, on, t);
      TurnStep(Part(before, turn, on), last, t);
      assert Asks(last, t) || Bills(last, t) ==> (OnTurn(last, turn) <==> t == turn);
    }
  }

  /** The log with all lines of one turn moved behind the others. */
  function TurnLast(lines: seq<Line>, turn: RequestId): seq<Line> {
    Part(lines, turn, false) + Part(lines, turn, true)
  }

  lemma TurnLastPays(lines: seq<Line>, turn: RequestId, message: MessageId)
    requires Paid(lines, turn, message).Some?
    ensures forall t :: SameTurn(lines, TurnLast(lines, turn), t)
    ensures LastGiven(TurnLast(lines, turn), message) == Paid(lines, turn, message)
  {
    var others, own := Part(lines, turn, false), Part(lines, turn, true);
    forall t
      ensures SameTurn(lines, TurnLast(lines, turn), t) && Apart(others, own, t)
      ensures Paid(own, t, message) == if t == turn then Paid(lines, turn, message) else None
    {
      PartPairs(lines, turn, false, t);
      PartPairs(lines, turn, true, t);
      ConcatPairs(others, own, t);
    }
    WindowPairsAlike(others, own, message);
    GivenIsPaid(own, message);
    assert Paid(own, turn, message).Some?;
    var t :| Paid(own, t, message) == LastGiven(own, message);
    assert PairsAlike(others, own, message);
  }

  /**
   A message has the same credit in every interleaving of the calls and credits of the turns if and
   only if no two turns pay it differently.
   */
  lemma InterleavingIff(lines: seq<Line>, message: MessageId)
    ensures (forall t, u :: Paid(lines, t, message).Some? && Paid(lines, u, message).Some? ==>
               Paid(lines, t, message) == Paid(lines, u, message))
            <==> forall other | (forall turn :: SameTurn(lines, other, turn)) ::
                   LastGiven(other, message) == LastGiven(lines, message)
  {
    GivenIsPaid(lines, message);
    if forall t, u :: Paid(lines, t, message).Some? && Paid(lines, u, message).Some? ==>
         Paid(lines, t, message) == Paid(lines, u, message)
    {
      forall other | (forall turn :: SameTurn(lines, other, turn))
        ensures LastGiven(other, message) == LastGiven(lines, message)
      {
        GivenIsPaid(other, message);
        assert forall turn :: SameTurn(lines, other, turn) ==> Paid(other, turn, message) == Paid(lines, turn, message);
      }
    } else {
      var t, u :| Paid(lines, t, message).Some? && Paid(lines, u, message).Some?
                  && Paid(lines, t, message) != Paid(lines, u, message);
      TurnLastPays(lines, t, message);
      TurnLastPays(lines, u, message);
    }
  }

  /** Every message is reported under one turn. */
  ghost predicate OneTurn(lines: seq<Line>, turnOf: MessageId -> Option<RequestId>) {
    forall i :: 0 <= i < |lines| && lines[i].Call? ==> lines[i].turn == turnOf(lines[i].message)
  }

  lemma {:induction false} CallsHaveTheirTurn(lines: seq<Line>, turnOf: MessageId -> Option<RequestId>, turn: RequestId, message: MessageId)
    requires OneTurn(lines, turnOf) && message in Calls(lines, turn)
    ensures turnOf(message) == Some(turn)
    decreases |lines|
  {
    var before, last := lines[..|lines| - 1], lines[|lines| - 1];
    if message in Calls(before, turn) {
      CallsHaveTheirTurn(before, turnOf, turn, message);
    }
  }

  lemma {:induction false} PaidIsCalled(calls: seq<MessageId>, credits: seq<nat>, n: nat, message: MessageId)
    requires n <= |calls| && n <= |credits| && LastPaired(calls, credits, n, message).Some?
    ensures message in calls
    decreases n
  {
    if calls[n - 1] != message { PaidIsCalled(calls, credits, n - 1, message); }
  }

  /** A message reported under one turn only has what its turn pays. */
  lemma CreditsArePaired(lines: seq<Line>, turnOf: MessageId -> Option<RequestId>, message: MessageId)
    requires OneTurn(lines, turnOf)
    ensures message in Parse(lines).requests ==>
              Parse(lines).requests[message].credit
              == if turnOf(message).Some? then Paid(lines, turnOf(message).value, message) else None
    ensures forall turn :: Paid(lines, turn, message).Some? ==> turnOf(message) == Some(turn)
  {
    CreditsAreGiven(lines, message);
    GivenIsPaid(lines, message);
    forall turn | Paid(lines, turn, message).Some? ensures turnOf(message) == Some(turn) {
      var calls, credits := Calls(lines, turn), Credits(lines, turn);
      PaidIsCalled(calls, credits, Min(|calls|, |credits|), message);
      CallsHaveTheirTurn(lines, turnOf, turn, message);
    }
  }

  /** So logs that report each message under one turn show the same credits however their streams interleave. */
  lemma InterleavingDoesNotMatter(a: seq<Line>, b: seq<Line>, turnOf: MessageId -> Option<RequestId>, message: MessageId)
    requires OneTurn(a, turnOf)
    requires forall turn :: SameTurn(a, b, turn)
    requires message in Parse(a).requests && message in Parse(b).requests
    ensures Parse(a).requests[message].credit == Parse(b).requests[message].credit
  {
    CreditsArePaired(a, turnOf, message);
    InterleavingIff(a, message);
    CreditsAreGiven(a, message);
    CreditsAreGiven(b, message);
  }

  /** A message of two turns takes the credit of the turn that is billed last, so the interleaving matters. */
  lemma TwoTurnsDependOnOrder(message: MessageId, session: SessionId, a: RequestId, b: RequestId, x: nat, y: nat)
    requires a != b && x != y
    ensures var p, q := Call(message, session, Some(a), 1, 1, 0, 0), Call(message, session, Some(b), 1, 1, 0, 0);
      && LastGiven([p, q] + [Credit(a, x)] + [Credit(b, y)], message) == Some(y)
      && LastGiven([p, q] + [Credit(b, y)] + [Credit(a, x)], message) == Some(x)
      && forall turn :: SameTurn([p, q] + [Credit(a, x)] + [Credit(b, y)], [p, q] + [Credit(b, y)] + [Credit(a, x)], turn)
  {
    var p, q := Call(message, session, Some(a), 1, 1, 0, 0), Call(message, session, Some(b), 1, 1, 0, 0);
    TwoBills(p, q, Credit(a, x), Credit(b, y));
    TwoBills(p, q, Credit(b, y), Credit(a, x));
    forall turn
      ensures SameTurn([p, q] + [Credit(a, x)] + [Credit(b, y)], [p, q] + [Credit(b, y)] + [Credit(a, x)], turn)
    {
      TwoLines(p, q, turn);
      TurnStep([p, q], Credit(a, x), turn);
      TurnStep([p, q] + [Credit(a, x)], Credit(b, y), turn);
      TurnStep([p, q], Credit(b, y), turn);
      TurnStep([p, q] + [Credit(b, y)], Credit(a, x), turn);
    }
  }

  /** Two calls of different turns, then a credit for each: the later credit stays. */
  lemma TwoBills(first: Line, second: Line, c: Line, d: Line)
    requires Accepted(first) && Accepted(second) && first.turn.Some? && second.turn.Some? && first.turn != second.turn
    requires c.Credit? && d.Credit? && first.message == second.message && c.request != d.request
    requires d.request == first.turn.value || d.request == second.turn.value
    ensures LastGiven([first, second] + [c] + [d], first.message) == Some(d.credit)
  {
    TwoLines(first, second, d.request);
    TurnStep([first, second], c, d.request);
    GivenStep([first, second] + [c], d, first.message);
  }

  // ---------------------------------------------------------------- cache figures

  /** Gross input covers what came from the cache, which later validation demands. */
  ghost predicate CacheFits(s: Scan) {
    forall m :: m in s.requests ==> Fits(s.requests[m])
  }

  predicate Fits(r: Request) { r.cacheRead <= r.prompt && r.cacheCreation <= r.prompt }

  predicate Reports(line: Line, message: MessageId) { Accepted(line) && line.message == message }

  /** Where a message was reported last. */
  function LastReport(lines: seq<Line>, message: MessageId): (at: Option<nat>)
    ensures at.Some? ==> at.value < |lines| && Reports(lines[at.value], message)
    ensures forall k :: 0 <= k < |lines| && Reports(lines[k], message) ==> at.Some? && k <= at.value
    decreases |lines|
  {
    if lines == [] then None
    else if Reports(lines[|lines| - 1], message) then Some(|lines| - 1)
    else LastReport(lines[..|lines| - 1], message)
  }

  /** Where a message was reported first. */
  function FirstReport(lines: seq<Line>, message: MessageId): (at: Option<nat>)
    ensures at.Some? ==> at.value < |lines| && Reports(lines[at.value], message)
    ensures forall k :: 0 <= k < |lines| && Reports(lines[k], message) ==> at.Some? && at.value <= k
    decreases |lines|
  {
    if lines == [] then None
    else
      var before := FirstReport(lines[..|lines| - 1], message);
      if before.Some? then before
      else if Reports(lines[|lines| - 1], message) then Some(|lines| - 1) else None
  }

  /** A record keeps the time of the first report and shows everything else as the last report has it. */
  ghost predicate Reported(lines: seq<Line>, message: MessageId) {
    var s, first, last := Parse(lines), FirstReport(lines, message), LastReport(lines, message);
    && (message in s.requests <==> first.Some? && last.Some?)
    && (message in s.requests && first.Some? && last.Some? ==>
          var r, line := s.requests[message], lines[last.value];
          && r.timestamp == lines[first.value].timestamp
          && r.session == line.session && r.prompt == line.prompt && r.completion == line.completion && r.rest == line.rest)
  }

  lemma {:induction false} RecordIsReported(lines: seq<Line>, message: MessageId)
    ensures Reported(lines, message)
    decreases |lines|
  {
    if lines != [] {
      var before, line := lines[..|lines| - 1], lines[|lines| - 1];
      assert lines == before + [line];
      RecordIsReported(before, message);
      ReportStep(Parse(before), line, message);
    }
  }

  /** What one line does to the reported part of a record. */
  lemma ReportStep(s: Scan, line: Line, message: MessageId)
    ensures var s' := Next(s, line);
      && (message in s'.requests <==> message in s.requests || Reports(line, message))
      && (message in s'.requests ==>
            var r := s'.requests[message];
            if Reports(line, message) then
              && r.timestamp == (if message in s.requests then s.requests[message].timestamp else line.timestamp)
              && r.session == line.session && r.prompt == line.prompt && r.completion == line.completion && r.rest == line.rest
            else
              var was := s.requests[message];
              && r.timestamp == was.timestamp && r.session == was.session && r.prompt == was.prompt
              && r.completion == was.completion && r.rest == was.rest)
  {}

  /** The message a cache line is attached to. */
  function TakenBy(before: seq<Line>, line: Line): Option<MessageId> {
    if !line.ModelCall? then None
    else
      var s := Parse(before);
      var queue := Queue(s.awaitingCache, line.callSession);
      if queue == [] then None else Some(queue[CacheIndex(queue, s.requests, line.input)])
  }

  /** The last cache line attached to a message. */
  function LastCache(lines: seq<Line>, message: MessageId): (at: Option<nat>)
    ensures at.Some? ==> at.value < |lines| && lines[at.value].ModelCall?
    decreases |lines|
  {
    if lines == [] then None
    else if TakenBy(lines[..|lines| - 1], lines[|lines| - 1]) == Some(message) then Some(|lines| - 1)
    else LastCache(lines[..|lines| - 1], message)
  }

  function PromptOf(lines: seq<Line>, message: MessageId): nat {
    var at := LastReport(lines, message);
    if at.Some? then lines[at.value].prompt else 0
  }

  /** What a cache line at position `at` leaves with its message: its figure, clamped to the prompt known then. */
  function ReadFigure(lines: seq<Line>, message: MessageId, at: nat): nat
    requires at < |lines| && lines[at].ModelCall?
  {
    Min(lines[at].cachedRead, PromptOf(lines[..at], message))
  }

  function WriteFigure(lines: seq<Line>, message: MessageId, at: nat): nat
    requires at < |lines| && lines[at].ModelCall?
  {
    Min(lines[at].cachedWrite, PromptOf(lines[..at], message))
  }

  /** A record shows the last report and the last cache line of its message. */
  ghost predicate Recorded(lines: seq<Line>, message: MessageId) {
    var s, cache := Parse(lines), LastCache(lines, message);
    && (message in s.requests <==> LastReport(lines, message).Some?)
    && (message in s.requests ==>
          && s.requests[message].prompt == PromptOf(lines, message)
          && s.requests[message].cacheRead == (if cache.Some? then ReadFigure(lines, message, cache.value) else 0)
          && s.requests[message].cacheCreation == (if cache.Some? then WriteFigure(lines, message, cache.value) else 0))
    && (cache.Some? ==> message in s.requests)
  }

  lemma FiguresStay(before: seq<Line>, line: Line, message: MessageId, at: nat)
    requires at < |before| && before[at].ModelCall?
    ensures ReadFigure(before + [line], message, at) == ReadFigure(before, message, at)
    ensures WriteFigure(before + [line], message, at) == WriteFigure(before, message, at)
  {
    assert (before + [line])[..at] == before[..at];
  }

  lemma LastOfAppend(before: seq<Line>, line: Line, message: MessageId)
    ensures LastReport(before + [line], message)
            == if Reports(line, message) then Some(|before|) else LastReport(before, message)
    ensures LastCache(before + [line], message)
            == if TakenBy(before, line) == Some(message) then Some(|before|) else LastCache(before, message)
    ensures Parse(before + [line]) == Next(Parse(before), line)
  {
    assert (before + [line])[..|before|] == before;
  }

  /** What one line does to the record of one message. */
  lemma NextRecord(before: seq<Line>, line: Line, message: MessageId)
    requires CacheQueues(Parse(before))
    ensures var s, s' := Parse(before), Next(Parse(before), line);
      && (message in s'.requests <==> message in s.requests || Reports(line, message))
      && (TakenBy(before, line) == Some(message) ==> message in s.requests)
      && (message in s'.requests ==>
            var was := if message in s.requests then s.requests[message] else Request(line.session, 0, 0, 0, 0, 0, 0, None);
            var r := s'.requests[message];
            && r.prompt == (if Reports(line, message) then line.prompt else was.prompt)
            && r.cacheRead == (if TakenBy(before, line) == Some(message) then Min(line.cachedRead, was.prompt) else was.cacheRead)
            && r.cacheCreation
               == (if TakenBy(before, line) == Some(message) then Min(line.cachedWrite, was.prompt) else was.cacheCreation))
  {
    var s := Parse(before);
    if line.ModelCall? {
      var queue := Queue(s.awaitingCache, line.callSession);
      assert CacheQueue(s, line.callSession);
      if queue != [] {
        assert queue[CacheIndex(queue, s.requests, line.input)] in queue;
      }
    }
  }

  lemma {:induction false} RecordIsLast(lines: seq<Line>, message: MessageId)
    ensures Recorded(lines, message)
    decreases |lines|
  {
    if lines != [] {
      var before, line := lines[..|lines| - 1], lines[|lines| - 1];
      assert lines == before + [line];
      RecordIsLast(before, message);
      ParseCacheQueues(before);
      LastOfAppend(before, line, message);
      NextRecord(before, line, message);
      assert lines[..|before|] == before;
      if LastCache(before, message).Some? {
        FiguresStay(before, line, message, LastCache(before, message).value);
      }
    }
  }

  /** The last report of a message follows its last cache line and is smaller than a figure left there. */
  predicate Shrunk(lines: seq<Line>, message: MessageId) {
    var report, cache := LastReport(lines, message), LastCache(lines, message);
    && report.Some? && cache.Some? && cache.value < report.value
    && (|| lines[report.value].prompt < ReadFigure(lines, message, cache.value)
        || lines[report.value].prompt < WriteFigure(lines, message, cache.value))
  }

  lemma ReportBefore(lines: seq<Line>, message: MessageId, n: nat)
    requires n <= |lines| && LastReport(lines, message).Some? && LastReport(lines, message).value < n
    ensures LastReport(lines[..n], message) == LastReport(lines, message)
  {
    var at := LastReport(lines, message).value;
    assert lines[..n][at] == lines[at];
    assert forall k :: 0 <= k < n ==> lines[..n][k] == lines[k];
  }

  /**
   The cache figures of a whole log fit their prompts if and only if no message is shrunk after its last
   cache line.
   */
  lemma CacheFitsIff(lines: seq<Line>)
    ensures CacheFits(Parse(lines)) <==> forall m :: !Shrunk(lines, m)
  {
    forall m ensures m in Parse(lines).requests && !Fits(Parse(lines).requests[m]) <==> Shrunk(lines, m) {
      RecordIsLast(lines, m);
      if m in Parse(lines).requests && LastCache(lines, m).Some? {
        if LastReport(lines, m).value < LastCache(lines, m).value {
          ReportBefore(lines, m, LastCache(lines, m).value);
        }
        assert LastReport(lines, m).value != LastCache(lines, m).value;
      }
    }
  }

  /** No accepted report of a message lowers the prompt of an earlier one. */
  ghost predicate PromptsGrow(lines: seq<Line>) {
    forall i, j :: 0 <= i < j < |lines| && Accepted(lines[i]) && Accepted(lines[j]) && lines[i].message == lines[j].message ==>
      lines[i].prompt <= lines[j].prompt
  }

  /** So a log whose repeated reports never lower a prompt keeps every cache figure within its prompt. */
  lemma GrowingPromptsFit(lines: seq<Line>)
    requires PromptsGrow(lines)
    ensures CacheFits(Parse(lines))
  {
    forall m ensures !Shrunk(lines, m) {
      var report, cache := LastReport(lines, m), LastCache(lines, m);
      if report.Some? && cache.Some? && cache.value < report.value {
        var known := LastReport(lines[..cache.value], m);
        if known.Some? {
          assert lines[..cache.value][known.value] == lines[known.value];
        }
      }
    }
    CacheFitsIff(lines);
  }

  /** And it can happen: the cache line arrives, then the call is reported again with a smaller prompt. */
  lemma ShrinkingCallBreaksCache(message: MessageId, session: SessionId, prompt: nat, smaller: nat)
    requires 0 < smaller < prompt
    ensures var lines := [Call(message, session, None, prompt, 1, 0, 0), ModelCall(session, prompt, prompt, 0),
                          Call(message, session, None, smaller, 1, 1, 0)];
      !CacheFits(Parse(lines))
  {
    var first := Call(message, session, None, prompt, 1, 0, 0);
    var cache := ModelCall(session, prompt, prompt, 0);
    var again := Call(message, session, None, smaller, 1, 1, 0);
    var s1 := Next(EMPTY, first);
    var s2 := Next(s1, cache);
    assert Queue(s1.awaitingCache, session) == [message];
    assert FindPrompt([message], s1.requests, prompt) == 0;
    assert s2.requests[message].cacheRead == prompt;
    var s3 := Next(s2, again);
    assert s3.requests[message].cacheRead == prompt && s3.requests[message].prompt == smaller;
    ThreeLines(first, cache, again);
  }

  lemma ThreeLines(a: Line, b: Line, c: Line)
    ensures Parse([a, b, c]) == Next(Next(Next(EMPTY, a), b), c)
  {
    assert [a, b, c][..2] == [a, b] && [a, b][..1] == [a] && [a][..0] == [];
    assert Parse([a]) == Next(EMPTY, a);
    assert Parse([a, b]) == Next(Next(EMPTY, a), b);
  }

  /** A session's queue lists known calls, each once. */
  ghost predicate CacheQueues(s: Scan) {
    forall session :: CacheQueue(s, session)
  }

  ghost predicate CacheQueue(s: Scan, session: SessionId) {
    && NoDup(Queue(s.awaitingCache, session))
    && forall m :: m in Queue(s.awaitingCache, session) ==> m in s.requests
  }

  lemma RemoveAt<T>(s: seq<T>, i: nat)
    requires NoDup(s) && i < |s|
    ensures NoDup(s[..i] + s[i + 1..])
    ensures forall x :: x in s[..i] + s[i + 1..] <==> x in s && x != s[i]
  {
    var t := s[..i] + s[i + 1..];
    forall j, k | 0 <= j < k < |t| ensures t[j] != t[k] {
      var j' := if j < i then j else j + 1;
      var k' := if k < i then k else k + 1;
      assert t[j] == s[j'] && t[k] == s[k'];
    }
    forall x ensures x in t <==> x in s && x != s[i] {
      if x in s && x != s[i] {
        var j :| 0 <= j < |s| && s[j] == x;
        assert t[if j < i then j else j - 1] == x;
      }
    }
  }

  lemma NextCacheQueues(s: Scan, line: Line)
    requires CacheQueues(s)
    ensures CacheQueues(Next(s, line))
  {
    forall session ensures CacheQueue(Next(s, line), session) {
      assert CacheQueue(s, session);
      if line.Call? {
        NoDupAppend(Queue(s.awaitingCache, line.session), line.message);
      } else if line.ModelCall? {
        var queue := Queue(s.awaitingCache, line.callSession);
        assert CacheQueue(s, line.callSession);
        if queue != [] {
          RemoveAt(queue, CacheIndex(queue, s.requests, line.input));
        }
      }
    }
  }

  lemma {:induction false} ParseCacheQueues(lines: seq<Line>)
    ensures CacheQueues(Parse(lines))
    decreases |lines|
  {
    if lines != [] {
      ParseCacheQueues(lines[..|lines| - 1]);
      NextCacheQueues(Parse(lines[..|lines| - 1]), lines[|lines| - 1]);
    }
  }

  /** A cache line uses up one waiting call of its session, and of all waiting calls the first whose prompt it names. */
  lemma CacheLineFindsItsCall(lines: seq<Line>, line: Line)
    requires line.ModelCall? && Queue(Parse(lines).awaitingCache, line.callSession) != []
    ensures var s := Parse(lines);
      var s' := Next(s, line);
      var queue := Queue(s.awaitingCache, line.callSession);
      var i := CacheIndex(queue, s.requests, line.input);
      && Queue(s'.awaitingCache, line.callSession) == queue[..i] + queue[i + 1..]
      && queue[i] !in Queue(s'.awaitingCache, line.callSession)
      && queue[i] in s.requests && queue[i] in s'.requests
      && s'.requests[queue[i]].cacheRead == Min(line.cachedRead, s.requests[queue[i]].prompt)
      && ((exists k :: 0 <= k < |queue| && Named(s, queue[k], line.input)) ==> Named(s, queue[i], line.input))
      && (forall k :: 0 <= k < i ==> !Named(s, queue[k], line.input))
  {
    ParseCacheQueues(lines);
    var s := Parse(lines);
    var queue := Queue(s.awaitingCache, line.callSession);
    var i := CacheIndex(queue, s.requests, line.input);
    assert CacheQueue(s, line.callSession);
    assert queue[i] in queue;
    RemoveAt(queue, i);
  }

  predicate Named(s: Scan, message: MessageId, prompt: nat) {
    message in s.requests && s.requests[message].prompt == prompt
  }

  // ---------------------------------------------------------------- the parser's loop

  /** Timestamp of the first accepted call of a session. */
  function StartedAt(lines: seq<Line>, session: SessionId): Option<int>
    decreases |lines|
  {
    if lines == [] then None
    else
      var before, last := StartedAt(lines[..|lines| - 1], session), lines[|lines| - 1];
      if before.None? && Accepted(last) && last.session == session then Some(last.timestamp) else before
  }

  /** The session header takes the time of the session's first accepted call. */
  lemma {:induction false} StartedAtIsFirst(lines: seq<Line>, session: SessionId)
    ensures match StartedAt(lines, session)
            case None => forall i :: 0 <= i < |lines| && Accepted(lines[i]) ==> lines[i].session != session
            case Some(time) =>
              exists i :: 0 <= i < |lines| && Accepted(lines[i]) && lines[i].session == session && lines[i].timestamp == time
                          && forall k :: 0 <= k < i && Accepted(lines[k]) ==> lines[k].session != session
    decreases |lines|
  {
    if lines != [] {
      var before := lines[..|lines| - 1];
      StartedAtIsFirst(before, session);
      assert forall i :: 0 <= i < |before| ==> lines[i] == before[i];
      if StartedAt(before, session).Some? {
        var i :| 0 <= i < |before| && Accepted(before[i]) && before[i].session == session
                 && before[i].timestamp == StartedAt(before, session).value
                 && forall k :: 0 <= k < i && Accepted(before[k]) ==> before[k].session != session;
        assert Accepted(lines[i]);
      } else if StartedAt(lines, session).Some? {
        assert Accepted(lines[|lines| - 1]);
      }
    }
  }

  /** The line loop over mutable buffers. */
  method ParseCodebuddyLog(lines: seq<Line>) returns (scan: Scan, sessionStartedAt: map<SessionId, int>)
    ensures scan == Parse(lines)
    ensures forall session ::
              StartedAt(lines, session) == if session in sessionStartedAt then Some(sessionStartedAt[session]) else None
  {
    var requests: map<MessageId, Request> := map[];
    var creditBy: map<RequestId, seq<nat>> := map[];
    var awaiting: map<RequestId, seq<MessageId>> := map[];
    var awaitingCache: map<SessionId, seq<MessageId>> := map[];
    sessionStartedAt := map[];
    for i := 0 to |lines|
      invariant Scan(requests, creditBy, awaiting, awaitingCache) == Parse(lines[..i])
      invariant forall session ::
                  StartedAt(lines[..i], session)
                  == if session in sessionStartedAt then Some(sessionStartedAt[session]) else None
    {
      assert lines[..i + 1][..i] == lines[..i];
      var line := lines[i];
      if line.Credit? {
        var waiting := Queue(awaiting, line.request);
        if |waiting| > 0 {
          awaiting := awaiting[line.request := waiting[1..]];
          requests := SetCredit(requests, waiting[0], line.credit);
        } else {
          creditBy := creditBy[line.request := Queue(creditBy, line.request) + [line.credit]];
        }
      } else if line.ModelCall? {
        requests, awaitingCache := ApplyCacheAccounting(line, requests, creditBy, awaiting, awaitingCache);
      } else if line.Call? && !(line.prompt == 0 && line.completion == 0) {
        requests := requests[line.message := Report(Scan(requests, creditBy, awaiting, awaitingCache), line)];
        if line.session !in sessionStartedAt {
          sessionStartedAt := sessionStartedAt[line.session := line.timestamp];
        }
        if line.message !in Queue(awaitingCache, line.session) {
          awaitingCache := awaitingCache[line.session := Queue(awaitingCache, line.session) + [line.message]];
        }
        if line.turn.Some? {
          var credits := Queue(creditBy, line.turn.value);
          if |credits| > 0 {
            creditBy := creditBy[line.turn.value := credits[1..]];
            requests := SetCredit(requests, line.message, credits[0]);
          } else {
            awaiting := awaiting[line.turn.value := Queue(awaiting, line.turn.value) + [line.message]];
          }
        }
      }
    }
    assert lines[..|lines|] == lines;
    scan := Scan(requests, creditBy, awaiting, awaitingCache);
  }

  method ApplyCacheAccounting(line: Line, requests: map<MessageId, Request>, ghost creditBy: map<RequestId, seq<nat>>,
                              ghost awaiting: map<RequestId, seq<MessageId>>, awaitingCache: map<SessionId, seq<MessageId>>)
    returns (requests': map<MessageId, Request>, awaitingCache': map<SessionId, seq<MessageId>>)
    requires line.ModelCall?
    ensures Scan(requests', creditBy, awaiting, awaitingCache')
            == OnModelCall(Scan(requests, creditBy, awaiting, awaitingCache), line)
  {
    requests', awaitingCache' := requests, awaitingCache;
    var queue := Queue(awaitingCache, line.callSession);
    if |queue| == 0 { return; }
    var index := FindPrompt(queue, requests, line.input);
    if index == |queue| { index := 0; }
    var message := queue[index];
    awaitingCache' := awaitingCache[line.callSession := queue[..index] + queue[index + 1..]];
    if message !in requests { return; }
    var limit := requests[message].prompt;
    requests' := requests[message := requests[message].(
        cacheRead := Min(line.cachedRead, limit), cacheCreation := Min(line.cachedWrite, limit))];
  }
}
