/**
 What every interleaving of requests, timers, cancellations and disposals keeps
 (apps/dashboard/src/query-client.ts).
 */
module QueryProperties {
  import opened Common
  import opened QueryModel

  /** The request an entry waits for is its own, current, unsettled, running and timed. */
  predicate FlightOk(c: Client, x: EntryId)
    requires x < |c.entries|
  {
    var e := c.entries[x];
    e.flight.Some? ==>
      && e.flight.value < |c.requests|
      && c.requests[e.flight.value] == Request(x, e.generation, Pending, true, true, false, false)
      && Attached(c, x)
  }

  /** What the entry shows. */
  predicate ShowsOk(c: Client, x: EntryId)
    requires x < |c.entries|
  {
    var e := c.entries[x];
    && (e.data.Some? ==> e.status in {Ready, Stale})
    && (e.status == Stale ==> e.data.Some?)
    && (e.status == Ready || e.data.Some? ==> e.loadedBy.Some?)
    && (e.status == Failed ==> e.error.Some? && e.flight.None?)
    && (e.loadedBy.Some? ==>
          && e.loadedBy.value < |c.requests|
          && c.requests[e.loadedBy.value].entry == x
          && c.requests[e.loadedBy.value].outcome == Resolved(e.data)
          && c.requests[e.loadedBy.value].generation <= e.generation
          && (e.flight.Some? ==> e.loadedBy.value < e.flight.value))
  }

  /**
   A request is unsettled exactly while its entry waits for it; once settled it cannot be current and still
   active.
   */
  predicate RequestOk(c: Client, r: RequestId)
    requires r < |c.requests|
  {
    var q := c.requests[r];
    && q.entry < |c.entries|
    && 0 < q.generation <= c.entries[q.entry].generation
    && (q.outcome.Pending? <==> c.entries[q.entry].flight == Some(r))
    && (q.timer ==> q.outcome.Pending?)
    && (!q.outcome.Pending? && Current(c, r) ==> !q.running)
    && (q.timedOut ==> q.outcome == Rejected(TimedOut))
  }

  ghost predicate KeysOk(c: Client) {
    && (forall key :: key in c.keys ==> c.keys[key] < |c.entries|)
    && (forall k, l :: k in c.keys && l in c.keys && c.keys[k] == c.keys[l] ==> k == l)
  }

  /** Requests of one entry get growing generations. */
  ghost predicate Ordered(c: Client) {
    forall r, q :: 0 <= r < q < |c.requests| && c.requests[r].entry == c.requests[q].entry ==>
      c.requests[r].generation < c.requests[q].generation
  }

  /** A listed entry that says it is loading has a request in flight. */
  predicate LoadingOk(c: Client, x: EntryId)
    requires x < |c.entries|
  {
    c.entries[x].status == Loading && Attached(c, x) ==> c.entries[x].flight.Some?
  }

  ghost predicate Inv(c: Client) {
    Core(c) && forall x :: 0 <= x < |c.entries| ==> LoadingOk(c, x)
  }

  ghost predicate Core(c: Client) {
    && KeysOk(c)
    && Ordered(c)
    && (forall x :: 0 <= x < |c.entries| ==> FlightOk(c, x) && ShowsOk(c, x))
    && (forall r :: 0 <= r < |c.requests| ==> RequestOk(c, r))
  }

  lemma EmptyInv()
    ensures Inv(EMPTY)
  {}

  // ---------------------------------------------------------------- every step keeps the invariant

  lemma WithEntryInv(c: Client, key: string)
    requires Inv(c)
    ensures Inv(WithEntry(c, key)) && key in WithEntry(c, key).keys
  {
    var c' := WithEntry(c, key);
    if key !in c.keys {
      forall x ensures Attached(c', x) <==> Attached(c, x) || x == |c.entries| {
        if Attached(c, x) {
          var k :| k in c.keys && c.keys[k] == x;
          assert c'.keys[k] == x;
        }
        assert c'.keys[key] == |c.entries|;
      }
      forall x | 0 <= x < |c'.entries| ensures FlightOk(c', x) && ShowsOk(c', x) {
        if x < |c.entries| { assert FlightOk(c, x) && ShowsOk(c, x); }
      }
      forall x | 0 <= x < |c'.entries| ensures LoadingOk(c', x) {
        if x < |c.entries| { assert LoadingOk(c, x); }
      }
      forall r | 0 <= r < |c'.requests| ensures RequestOk(c', r) {
        assert RequestOk(c, r);
      }
    }
  }

  lemma BeginInv(c: Client, key: string)
    requires Inv(c) && key in c.keys
    ensures Inv(Begin(c, key))
  {
    var c' := Begin(c, key);
    var x := c.keys[key];
    assert FlightOk(c, x) && ShowsOk(c, x);
    if c.entries[x].flight.None? {
      assert Attached(c, x);
      forall y | 0 <= y < |c'.entries| ensures FlightOk(c', y) && ShowsOk(c', y) {
        assert FlightOk(c, y) && ShowsOk(c, y);
      }
      forall y | 0 <= y < |c'.entries| ensures LoadingOk(c', y) {
        assert LoadingOk(c, y);
      }
      forall r | 0 <= r < |c'.requests| ensures RequestOk(c', r) {
        if r < |c.requests| { assert RequestOk(c, r); }
      }
      forall r, q | 0 <= r < q < |c'.requests| && c'.requests[r].entry == c'.requests[q].entry
        ensures c'.requests[r].generation < c'.requests[q].generation
      {
        assert RequestOk(c, r);
      }
    }
  }

  /** A running current request is the one its entry waits for. */
  lemma CurrentIsInFlight(c: Client, r: RequestId)
    requires Inv(c) && r < |c.requests| && (c.requests[r].running || c.requests[r].timer)
    ensures Known(c, r) && (Current(c, r) <==> c.entries[c.requests[r].entry].flight == Some(r))
    ensures !Current(c, r) ==> !c.requests[r].outcome.Pending?
  {
    assert RequestOk(c, r);
    assert FlightOk(c, c.requests[r].entry);
  }

  /** Changing one entry and one of its requests is checked on these two. */
  lemma OneChange(c: Client, c': Client, x: EntryId, r: RequestId)
    requires Core(c) && x < |c.entries| && r < |c.requests| && c.requests[r].entry == x
    requires c'.keys == c.keys && |c'.entries| == |c.entries| && |c'.requests| == |c.requests|
    requires c'.entries == c.entries[x := c'.entries[x]] && c'.requests == c.requests[r := c'.requests[r]]
    requires c'.requests[r].entry == x && c'.requests[r].generation == c.requests[r].generation
    requires c'.entries[x].generation >= c.entries[x].generation
    requires c'.entries[x].flight == c.entries[x].flight || (c.entries[x].flight == Some(r) && c'.entries[x].flight.None?)
    requires c.requests[r].outcome.Resolved? ==> c'.requests[r].outcome == c.requests[r].outcome
    requires FlightOk(c', x) && ShowsOk(c', x) && RequestOk(c', r)
    ensures Core(c')
    ensures Inv(c) && LoadingOk(c', x) ==> Inv(c')
  {
    forall y | 0 <= y < |c'.entries| && Inv(c) && LoadingOk(c', x) ensures LoadingOk(c', y) {
      assert LoadingOk(c, y);
    }
    forall y | 0 <= y < |c'.entries| ensures FlightOk(c', y) && ShowsOk(c', y) {
      if y != x { assert FlightOk(c, y) && ShowsOk(c, y); }
    }
    forall q | 0 <= q < |c'.requests| ensures RequestOk(c', q) {
      if q != r { assert RequestOk(c, q); }
    }
  }

  lemma ResolveInv(c: Client, r: RequestId, data: Option<int>, now: int)
    requires Inv(c) && r < |c.requests| && c.requests[r].running
    ensures Known(c, r) && Inv(Resolve(c, r, data, now))
  {
    CurrentIsInFlight(c, r);
    assert RequestOk(c, r) && FlightOk(c, c.requests[r].entry) && ShowsOk(c, c.requests[r].entry);
    assert LoadingOk(c, c.requests[r].entry);
    OneChange(c, Resolve(c, r, data, now), c.requests[r].entry, r);
  }

  lemma RejectInv(c: Client, r: RequestId, code: int)
    requires Inv(c) && r < |c.requests| && c.requests[r].running
    ensures Known(c, r) && Inv(Reject(c, r, code))
  {
    CurrentIsInFlight(c, r);
    assert RequestOk(c, r) && FlightOk(c, c.requests[r].entry) && ShowsOk(c, c.requests[r].entry);
    assert LoadingOk(c, c.requests[r].entry);
    OneChange(c, Reject(c, r, code), c.requests[r].entry, r);
  }

  lemma ExpireInv(c: Client, r: RequestId)
    requires Inv(c) && r < |c.requests| && c.requests[r].timer
    ensures Known(c, r) && Inv(Expire(c, r))
  {
    CurrentIsInFlight(c, r);
    assert RequestOk(c, r) && FlightOk(c, c.requests[r].entry) && ShowsOk(c, c.requests[r].entry);
    assert LoadingOk(c, c.requests[r].entry);
    OneChange(c, Expire(c, r), c.requests[r].entry, r);
  }

  lemma CancelInv(c: Client, key: string)
    requires Inv(c)
    ensures Inv(OnCancel(c, key))
  {
    if key in c.keys && c.entries[c.keys[key]].flight.Some? {
      var x := c.keys[key];
      var r := c.entries[x].flight.value;
      assert FlightOk(c, x) && ShowsOk(c, x) && RequestOk(c, r);
      OneChange(c, OnCancel(c, key), x, r);
    }
  }

  /** Changing only what an entry shows leaves the requests alone. */
  lemma InvalidateInv(c: Client, key: string)
    requires Inv(c)
    ensures Inv(OnInvalidate(c, key))
  {
    var c' := OnInvalidate(c, key);
    forall y | 0 <= y < |c'.entries| ensures FlightOk(c', y) && ShowsOk(c', y) && LoadingOk(c', y) {
      assert FlightOk(c, y) && ShowsOk(c, y) && LoadingOk(c, y);
    }
    forall q | 0 <= q < |c'.requests| ensures RequestOk(c', q) {
      assert RequestOk(c, q);
    }
  }

  lemma DisposeOneCore(c: Client, x: EntryId)
    requires Core(c) && x < |c.entries|
    ensures Core(DisposeOne(c, x)) && DisposeOne(c, x).entries[x].flight.None?
  {
    var c' := DisposeOne(c, x);
    assert FlightOk(c, x) && ShowsOk(c, x);
    if Attached(c, x) {
      if c.entries[x].flight.Some? {
        var r := c.entries[x].flight.value;
        assert RequestOk(c, r);
        OneChange(c, c', x, r);
      } else {
        forall y | 0 <= y < |c'.entries| ensures FlightOk(c', y) && ShowsOk(c', y) {
          assert FlightOk(c, y) && ShowsOk(c, y);
        }
        forall q | 0 <= q < |c'.requests| ensures RequestOk(c', q) {
          assert RequestOk(c, q);
        }
      }
    }
  }

  lemma {:induction false} DisposeFirstCore(c: Client, n: nat)
    requires Core(c) && n <= |c.entries|
    ensures Core(DisposeFirst(c, n))
    ensures forall x :: 0 <= x < n ==> DisposeFirst(c, n).entries[x].flight.None?
  {
    if n > 0 {
      DisposeFirstCore(c, n - 1);
      DisposeOneCore(DisposeFirst(c, n - 1), n - 1);
    }
  }

  lemma DisposeInv(c: Client)
    requires Inv(c)
    ensures Inv(OnDispose(c))
    ensures forall r :: 0 <= r < |OnDispose(c).requests| ==> !OnDispose(c).requests[r].outcome.Pending?
  {
    DisposeFirstCore(c, |c.entries|);
    var d := DisposeFirst(c, |c.entries|);
    var c' := OnDispose(c);
    forall x | 0 <= x < |c'.entries| ensures FlightOk(c', x) && ShowsOk(c', x) && LoadingOk(c', x) {
      assert FlightOk(d, x) && ShowsOk(d, x);
    }
    forall r | 0 <= r < |c'.requests| ensures RequestOk(c', r) && !c'.requests[r].outcome.Pending? {
      assert RequestOk(d, r);
    }
  }

  lemma NextInv(c: Client, step: Step)
    requires Inv(c) && Allowed(c, step)
    ensures Inv(Next(c, step))
  {
    match step
    case Fetch(key) =>
      WithEntryInv(c, key);
      BeginInv(WithEntry(c, key), key);
    case LoaderResolves(r, data, now) => ResolveInv(c, r, data, now);
    case LoaderRejects(r, code) => RejectInv(c, r, code);
    case TimerFires(r) => ExpireInv(c, r);
    case Cancel(key) => CancelInv(c, key);
    case Invalidate(key) => InvalidateInv(c, key);
    case Dispose => DisposeInv(c);
  }

  // ---------------------------------------------------------------- runs

  /** A step that is not possible does not happen. */
  function Do(c: Client, step: Step): Client {
    if Allowed(c, step) then Next(c, step) else c
  }

  function Exec(c: Client, steps: seq<Step>): Client
    decreases |steps|
  {
    if steps == [] then c else Do(Exec(c, steps[..|steps| - 1]), steps[|steps| - 1])
  }

  lemma {:induction false} ReachableInv(steps: seq<Step>)
    ensures Inv(Exec(EMPTY, steps))
    decreases |steps|
  {
    if steps == [] {
      EmptyInv();
    } else {
      ReachableInv(steps[..|steps| - 1]);
      var before := Exec(EMPTY, steps[..|steps| - 1]);
      if Allowed(before, steps[|steps| - 1]) {
        NextInv(before, steps[|steps| - 1]);
      }
    }
  }

  // ---------------------------------------------------------------- what the states mean

  /** At most one request per entry, hence per key, is unsettled. */
  lemma OneLiveRequest(c: Client, r: RequestId, q: RequestId)
    requires Inv(c) && r < |c.requests| && q < |c.requests|
    requires c.requests[r].outcome.Pending? && c.requests[q].outcome.Pending?
    requires c.requests[r].entry == c.requests[q].entry
    ensures r == q
  {
    assert RequestOk(c, r) && RequestOk(c, q);
  }

  /** Fetching a key whose request is in flight joins that request. */
  lemma FetchJoins(c: Client, key: string)
    requires Inv(c)
    ensures if key in c.keys && c.entries[c.keys[key]].flight.Some? then OnFetch(c, key) == c
            else |OnFetch(c, key).requests| == |c.requests| + 1
                 && key in OnFetch(c, key).keys
                 && OnFetch(c, key).entries[OnFetch(c, key).keys[key]].flight == Some(|c.requests|)
  {}

  predicate FromRequest(step: Step, r: RequestId) {
    match step
    case LoaderResolves(q, _, _) => q == r
    case LoaderRejects(q, _) => q == r
    case TimerFires(q) => q == r
    case Fetch(_) => false
    case Cancel(_) => false
    case Invalidate(_) => false
    case Dispose => false
  }

  /**
   What a request brings in, be it data, an error or a timeout, reaches an entry only while the entry
   waits for that very request; otherwise no entry changes at all.
   */
  lemma OnlyTheCurrentRequestSpeaks(c: Client, step: Step, r: RequestId)
    requires Inv(c) && Allowed(c, step) && FromRequest(step, r)
    ensures Known(c, r)
    ensures c.entries[c.requests[r].entry].flight != Some(r) ==> Next(c, step).entries == c.entries
    ensures forall y :: 0 <= y < |c.entries| && y != c.requests[r].entry ==> Next(c, step).entries[y] == c.entries[y]
  {
    CurrentIsInFlight(c, r);
  }

  // ---------------------------------------------------------------- promises over whole runs

  /** A settled promise stays as it is. */
  lemma OutcomeIsFinal(c: Client, step: Step, r: RequestId)
    requires Inv(c) && Allowed(c, step) && r < |c.requests| && !c.requests[r].outcome.Pending?
    ensures r < |Next(c, step).requests| && Next(c, step).requests[r].outcome == c.requests[r].outcome
  {
    assert RequestOk(c, r);
    if step == Dispose {
      DisposeKeepsOutcomes(c, |c.entries|, r);
    }
  }

  lemma {:induction false} DisposeKeepsOutcomes(c: Client, n: nat, r: RequestId)
    requires n <= |c.entries| && r < |c.requests| && !c.requests[r].outcome.Pending?
    ensures DisposeFirst(c, n).requests[r].outcome == c.requests[r].outcome
  {
    if n > 0 {
      DisposeKeepsOutcomes(c, n - 1, r);
    }
  }

  /** Whatever happens later, a settled promise keeps its outcome: every fetch settles at most once. */
  lemma {:induction false} OutcomesAreFinal(c: Client, steps: seq<Step>, r: RequestId)
    requires Inv(c) && r < |c.requests| && !c.requests[r].outcome.Pending?
    ensures Inv(Exec(c, steps)) && r < |Exec(c, steps).requests|
    ensures Exec(c, steps).requests[r].outcome == c.requests[r].outcome
    decreases |steps|
  {
    if steps != [] {
      OutcomesAreFinal(c, steps[..|steps| - 1], r);
      var before := Exec(c, steps[..|steps| - 1]);
      if Allowed(before, steps[|steps| - 1]) {
        NextInv(before, steps[|steps| - 1]);
        OutcomeIsFinal(before, steps[|steps| - 1], r);
      }
    }
  }

  /** The steps that end a request: its loader, its timer, a cancel of its key, a dispose. */
  predicate Ends(c: Client, step: Step, r: RequestId)
    requires r < |c.requests|
  {
    || (FromRequest(step, r) && Allowed(c, step))
    || (step.Cancel? && step.key in c.keys && c.keys[step.key] == c.requests[r].entry)
    || step.Dispose?
  }

  /** What an unsettled promise settles as when one of these steps ends it. */
  function Settlement(step: Step): Outcome {
    match step
    case LoaderResolves(_, data, _) => Resolved(data)
    case LoaderRejects(_, code) => Rejected(LoaderError(code))
    case TimerFires(_) => Rejected(TimedOut)
    case Fetch(_) => Pending
    case Cancel(_) => Rejected(Cancelled)
    case Invalidate(_) => Pending
    case Dispose => Rejected(Cancelled)
  }

  lemma {:induction false} DisposeCancels(c: Client, n: nat, r: RequestId)
    requires Core(c) && n <= |c.entries| && r < |c.requests| && c.requests[r].outcome.Pending?
    ensures c.requests[r].entry < |c.entries| && DisposeFirst(c, n).requests[r].entry == c.requests[r].entry
    ensures DisposeFirst(c, n).requests[r].outcome == if c.requests[r].entry < n then Rejected(Cancelled) else Pending
    ensures c.requests[r].entry >= n ==>
              DisposeFirst(c, n).entries[c.requests[r].entry] == c.entries[c.requests[r].entry]
  {
    assert RequestOk(c, r) && FlightOk(c, c.requests[r].entry);
    if n > 0 {
      DisposeCancels(c, n - 1, r);
      DisposeFirstCore(c, n - 1);
      var d := DisposeFirst(c, n - 1);
      assert FlightOk(d, n - 1);
      assert RequestOk(d, r);
      assert c.requests[r].entry == n - 1 ==> Attached(d, n - 1) && d.entries[n - 1].flight == Some(r);
    }
  }

  /** An unsettled promise settles by exactly these steps, each in its own way. */
  lemma SettlesIff(c: Client, step: Step, r: RequestId)
    requires Inv(c) && Allowed(c, step) && r < |c.requests| && c.requests[r].outcome.Pending?
    ensures r < |Next(c, step).requests|
    ensures Next(c, step).requests[r].outcome == if Ends(c, step, r) then Settlement(step) else Pending
  {
    assert RequestOk(c, r) && FlightOk(c, c.requests[r].entry);
    match step
    case LoaderResolves(q, _, _) => assert RequestOk(c, q);
    case LoaderRejects(q, _) => assert RequestOk(c, q);
    case TimerFires(q) => assert RequestOk(c, q);
    case Fetch(_) =>
    case Cancel(key) =>
      if key in c.keys {
        assert FlightOk(c, c.keys[key]);
      }
    case Invalidate(_) =>
    case Dispose => DisposeCancels(c, |c.entries|, r);
  }

  /** Its own timer, loader, a cancel and a dispose are possible as long as a promise is unsettled. */
  lemma UnsettledCanSettle(c: Client, r: RequestId, data: Option<int>, now: int, code: int)
    requires Inv(c) && r < |c.requests| && c.requests[r].outcome.Pending?
    ensures Ends(c, TimerFires(r), r) && Ends(c, LoaderResolves(r, data, now), r) && Ends(c, LoaderRejects(r, code), r)
    ensures exists key :: Ends(c, Cancel(key), r)
  {
    assert RequestOk(c, r) && FlightOk(c, c.requests[r].entry);
    assert Attached(c, c.requests[r].entry);
    var key :| key in c.keys && c.keys[key] == c.requests[r].entry;
    assert Ends(c, Cancel(key), r);
  }

  lemma {:induction false} ExecFrom(c: Client, steps: seq<Step>, more: seq<Step>)
    ensures Exec(c, steps + more) == Exec(Exec(c, steps), more)
    decreases |more|
  {
    if more == [] {
      assert steps + more == steps;
    } else {
      ExecFrom(c, steps, more[..|more| - 1]);
      assert (steps + more)[..|steps + more| - 1] == steps + more[..|more| - 1];
    }
  }

  predicate Passes(c: Client, step: Step, r: RequestId) {
    r < |c.requests| ==> !Ends(c, step, r)
  }

  /** No step of the run ends the request. */
  ghost predicate NeverEnded(c: Client, steps: seq<Step>, r: RequestId) {
    forall i :: 0 <= i < |steps| ==> Passes(Exec(c, steps[..i]), steps[i], r)
  }

  /** Until such a step comes the promise stays open. */
  lemma {:induction false} OpenUntilEnded(c: Client, steps: seq<Step>, r: RequestId)
    requires Inv(c) && r < |c.requests| && c.requests[r].outcome.Pending?
    requires NeverEnded(c, steps, r)
    ensures Inv(Exec(c, steps)) && r < |Exec(c, steps).requests| && Exec(c, steps).requests[r].outcome.Pending?
    decreases |steps|
  {
    if steps != [] {
      var before := steps[..|steps| - 1];
      forall i | 0 <= i < |before| ensures Passes(Exec(c, before[..i]), before[i], r) {
        assert before[..i] == steps[..i];
        assert Passes(Exec(c, steps[..i]), steps[i], r);
      }
      OpenUntilEnded(c, before, r);
      assert Passes(Exec(c, steps[..|steps| - 1]), steps[|steps| - 1], r);
      if Allowed(Exec(c, before), steps[|steps| - 1]) {
        NextInv(Exec(c, before), steps[|steps| - 1]);
        SettlesIff(Exec(c, before), steps[|steps| - 1], r);
      }
    }
  }

  lemma EndingStep(c: Client, steps: seq<Step>, r: RequestId, i: nat)
    requires i < |steps| && Inv(Exec(c, steps[..i])) && r < |Exec(c, steps[..i]).requests|
    requires Exec(c, steps[..i]).requests[r].outcome.Pending? && Ends(Exec(c, steps[..i]), steps[i], r)
    ensures r < |Exec(c, steps).requests| && Exec(c, steps).requests[r].outcome == Settlement(steps[i])
  {
    var before := Exec(c, steps[..i]);
    assert steps[..i + 1][..i] == steps[..i];
    SettlesIff(before, steps[i], r);
    NextInv(before, steps[i]);
    OutcomesAreFinal(Next(before, steps[i]), steps[i + 1..], r);
    assert steps == steps[..i + 1] + steps[i + 1..];
    ExecFrom(c, steps[..i + 1], steps[i + 1..]);
  }

  /**
   A fetch settles exactly once: the first step of a run that ends request `r` decides its outcome,
   and nothing before or after does.
   */
  lemma SettlesExactlyOnce(c: Client, steps: seq<Step>, r: RequestId, i: nat)
    requires Inv(c) && r < |c.requests| && c.requests[r].outcome.Pending? && i < |steps|
    requires NeverEnded(c, steps[..i], r) && !Passes(Exec(c, steps[..i]), steps[i], r)
    ensures r < |Exec(c, steps).requests| && Exec(c, steps).requests[r].outcome == Settlement(steps[i])
  {
    OpenUntilEnded(c, steps[..i], r);
    EndingStep(c, steps, r, i);
  }

  /** Once a request has settled, nothing it still does changes any entry, at any later time. */
  lemma SettledIsSilent(c: Client, steps: seq<Step>, r: RequestId, i: nat)
    requires Inv(c) && r < |c.requests| && !c.requests[r].outcome.Pending?
    requires i < |steps| && FromRequest(steps[i], r)
    ensures Exec(c, steps[..i + 1]).entries == Exec(c, steps[..i]).entries
  {
    OutcomesAreFinal(c, steps[..i], r);
    var before := Exec(c, steps[..i]);
    assert steps[..i + 1][..i] == steps[..i];
    assert RequestOk(before, r);
    if Allowed(before, steps[i]) {
      OnlyTheCurrentRequestSpeaks(before, steps[i], r);
    }
  }

  // ---------------------------------------------------------------- what an entry shows

  /** An entry whose load failed keeps its data as stale, or shows the failure alone. */
  predicate FailsWith(e: Entry, problem: Problem, e': Entry) {
    && e'.status == (if e.data.None? then Failed else Stale) && e'.error == Some(problem) && e'.flight == None
    && e'.data == e.data && e'.updatedAt == e.updatedAt && e'.loadedBy == e.loadedBy
  }

  /** An entry at rest shows stale data or nothing, and no error. */
  predicate Rests(e: Entry, e': Entry) {
    && e'.status == (if e.data.None? then Idle else Stale) && e'.error == None
    && e'.data == e.data && e'.updatedAt == e.updatedAt && e'.loadedBy == e.loadedBy
  }

  /** What each step makes of entry `x`. */
  ghost predicate ShowsAfter(c: Client, step: Step, x: EntryId, e: Entry, e': Entry) {
    match step
    case LoaderResolves(r, data, now) =>
      if e.flight == Some(r) then e' == Entry(Ready, data, None, Some(now), e.generation, None, Some(r)) else e' == e
    case LoaderRejects(r, code) =>
      if e.flight == Some(r) then FailsWith(e, LoaderError(code), e') && e'.generation == e.generation else e' == e
    case TimerFires(r) =>
      if e.flight == Some(r) then FailsWith(e, TimedOut, e') && e'.generation == e.generation + 1 else e' == e
    case Cancel(key) =>
      if key in c.keys && c.keys[key] == x && e.flight.Some?
      then Rests(e, e') && e'.flight == None && e'.generation == e.generation + 1 else e' == e
    case Invalidate(key) =>
      if key in c.keys && c.keys[key] == x
      then Rests(e, e') && e'.flight == e.flight && e'.generation == e.generation else e' == e
    case Fetch(key) =>
      if key in c.keys && c.keys[key] == x && e.flight.None? then
        && e'.flight == Some(|c.requests|) && e'.generation == e.generation + 1 && e'.error == None
        && e'.status == (if e.data.None? then Loading else e.status)
        && e'.data == e.data && e'.updatedAt == e.updatedAt && e'.loadedBy == e.loadedBy
      else e' == e
    case Dispose =>
      if Attached(c, x) then e' == e.(generation := e.generation + 1, flight := None) else e' == e
  }

  /** Every step, told by the request the entry waits for and by what it shows. */
  lemma StepShows(c: Client, step: Step, x: EntryId)
    requires Inv(c) && Allowed(c, step) && x < |c.entries|
    ensures x < |Next(c, step).entries| && ShowsAfter(c, step, x, c.entries[x], Next(c, step).entries[x])
  {
    assert FlightOk(c, x);
    match step
    case LoaderResolves(r, _, _) => CurrentIsInFlight(c, r);
    case LoaderRejects(r, _) => CurrentIsInFlight(c, r);
    case TimerFires(r) => CurrentIsInFlight(c, r);
    case Cancel(_) =>
    case Invalidate(_) =>
    case Fetch(key) => if key in c.keys { assert c.keys[key] < |c.entries|; }
    case Dispose => DisposedEntry(c, |c.entries|, x);
  }

  predicate SameFlags(q: Request, q': Request) {
    q'.running == q.running && q'.timer == q.timer && q'.timedOut == q.timedOut && q'.aborted == q.aborted
  }

  /** The loader of an abandoned request is told so and its timer no longer runs. */
  predicate Abandoned(q: Request, q': Request) {
    q'.running == q.running && !q'.timer && q'.timedOut == q.timedOut && q'.aborted
  }

  /** What each step does to the loader, the timer and the abort signal of request `r`. */
  ghost predicate FlagsAfter(c: Client, step: Step, r: RequestId, q: Request, q': Request) {
    match step
    case LoaderResolves(x, _, _) =>
      if x == r then !q'.running && !q'.timer && q'.timedOut == q.timedOut && q'.aborted == q.aborted else SameFlags(q, q')
    case LoaderRejects(x, _) =>
      if x == r then !q'.running && !q'.timer && q'.timedOut == q.timedOut && q'.aborted == q.aborted else SameFlags(q, q')
    case TimerFires(x) =>
      if x == r then q'.running == q.running && !q'.timer && q'.timedOut && q'.aborted else SameFlags(q, q')
    case Cancel(key) => if key in c.keys && c.keys[key] == q.entry && q.outcome.Pending? then Abandoned(q, q') else SameFlags(q, q')
    case Dispose => if q.outcome.Pending? then Abandoned(q, q') else SameFlags(q, q')
    case Invalidate(_) => q' == q
    case Fetch(_) => q' == q
  }

  lemma StepFlags(c: Client, step: Step, r: RequestId)
    requires Inv(c) && Allowed(c, step) && r < |c.requests|
    ensures r < |Next(c, step).requests| && FlagsAfter(c, step, r, c.requests[r], Next(c, step).requests[r])
  {
    assert RequestOk(c, r) && FlightOk(c, c.requests[r].entry);
    match step
    case LoaderResolves(x, _, _) => CurrentIsInFlight(c, x);
    case LoaderRejects(x, _) => CurrentIsInFlight(c, x);
    case TimerFires(x) =>
      CurrentIsInFlight(c, x);
      assert RequestOk(c, x);
    case Cancel(key) =>
      if key in c.keys {
        assert FlightOk(c, c.keys[key]);
      }
    case Invalidate(_) =>
    case Fetch(key) => if key in c.keys { assert c.keys[key] < |c.entries|; }
    case Dispose => DisposedFlags(c, |c.entries|, r);
  }

  lemma {:induction false} DisposedFlags(c: Client, n: nat, r: RequestId)
    requires Inv(c) && n <= |c.entries| && r < |c.requests|
    ensures var q, q' := c.requests[r], DisposeFirst(c, n).requests[r];
      if q.outcome.Pending? && q.entry < n then Abandoned(q, q') else SameFlags(q, q')
    decreases n
  {
    if n > 0 {
      DisposedFlags(c, n - 1, r);
      assert RequestOk(c, r) && FlightOk(c, n - 1) && FlightOk(c, c.requests[r].entry);
      DisposedEntry(c, n - 1, n - 1);
    }
  }

  lemma {:induction false} DisposedEntry(c: Client, n: nat, x: EntryId)
    requires n <= |c.entries| && x < |c.entries|
    ensures DisposeFirst(c, n).entries[x]
            == if x < n && Attached(c, x) then c.entries[x].(generation := c.entries[x].generation + 1, flight := None)
               else c.entries[x]
    decreases n
  {
    if n > 0 {
      DisposedEntry(c, n - 1, x);
    }
  }

  // ---------------------------------------------------------------- data

  /** The entry's shown result never goes back to an earlier request's. */
  predicate Advances(before: Entry, after: Entry) {
    && (before.loadedBy.Some? ==> after.loadedBy.Some? && before.loadedBy.value <= after.loadedBy.value)
    && (before.loadedBy == after.loadedBy ==> before.data == after.data)
  }

  lemma StepAdvances(c: Client, step: Step, x: EntryId)
    requires Inv(c) && Allowed(c, step) && x < |c.entries|
    ensures x < |Next(c, step).entries| && Advances(c.entries[x], Next(c, step).entries[x])
  {
    assert ShowsOk(c, x) && FlightOk(c, x);
    if step.LoaderResolves? {
      CurrentIsInFlight(c, step.request);
    } else if step == Dispose {
      DisposeKeepsData(c, |c.entries|, x);
    }
  }

  lemma {:induction false} DisposeKeepsData(c: Client, n: nat, x: EntryId)
    requires n <= |c.entries| && x < |c.entries|
    ensures DisposeFirst(c, n).entries[x].data == c.entries[x].data
    ensures DisposeFirst(c, n).entries[x].loadedBy == c.entries[x].loadedBy
  {
    if n > 0 {
      DisposeKeepsData(c, n - 1, x);
    }
  }

  /** Over any run what an entry shows is replaced only by the result of a later request. */
  lemma {:induction false} DataOnlyMovesForward(c: Client, steps: seq<Step>, x: EntryId)
    requires Inv(c) && x < |c.entries|
    ensures Inv(Exec(c, steps)) && x < |Exec(c, steps).entries|
    ensures Advances(c.entries[x], Exec(c, steps).entries[x])
    decreases |steps|
  {
    if steps != [] {
      DataOnlyMovesForward(c, steps[..|steps| - 1], x);
      var before := Exec(c, steps[..|steps| - 1]);
      if Allowed(before, steps[|steps| - 1]) {
        NextInv(before, steps[|steps| - 1]);
        StepAdvances(before, steps[|steps| - 1], x);
      }
    }
  }

  /** Data disappears exactly when the request the entry waits for resolves with null. */
  lemma DataDisappearsIff(c: Client, step: Step, x: EntryId)
    requires Inv(c) && Allowed(c, step) && x < |c.entries| && c.entries[x].data.Some?
    ensures x < |Next(c, step).entries|
    ensures Next(c, step).entries[x].data.None?
            <==> step.LoaderResolves? && step.data.None? && c.entries[x].flight == Some(step.request)
    ensures Next(c, step).entries[x].data.None? ==>
              c.entries[x].loadedBy.Some? && c.entries[x].loadedBy.value < step.request
  {
    assert ShowsOk(c, x) && FlightOk(c, x);
    if step.LoaderResolves? {
      CurrentIsInFlight(c, step.request);
    } else if step == Dispose {
      DisposeKeepsData(c, |c.entries|, x);
    }
  }

  /** Such a run: data loaded, asked for again, and answered with null. */
  lemma NullTakesDataAway(data: int)
    ensures var loaded := [Fetch("k"), LoaderResolves(0, Some(data), 1)];
      && |Exec(EMPTY, loaded).entries| == 1 && Exec(EMPTY, loaded).entries[0].data == Some(data)
      && var after := Exec(EMPTY, loaded + [Fetch("k"), LoaderResolves(1, None, 2)]);
         |after.entries| == 1 && after.entries[0].data.None? && after.entries[0].status == Ready
  {
    var s0 := Do(EMPTY, Fetch("k"));
    var s1 := Do(s0, LoaderResolves(0, Some(data), 1));
    var s2 := Do(s1, Fetch("k"));
    var loaded := [Fetch("k"), LoaderResolves(0, Some(data), 1)];
    assert Exec(EMPTY, []) == EMPTY;
    assert [Fetch("k")][..0] == [];
    assert Exec(EMPTY, [Fetch("k")]) == s0;
    assert loaded[..1] == [Fetch("k")];
    assert Exec(EMPTY, loaded) == s1;
    assert (loaded + [Fetch("k")])[..2] == loaded;
    assert Exec(EMPTY, loaded + [Fetch("k")]) == s2;
    assert (loaded + [Fetch("k"), LoaderResolves(1, None, 2)])[..3] == loaded + [Fetch("k")];
    assert s2.entries[0].flight == Some(1);
  }

  /**
   In every reachable state: one live request per key, what is shown is what the last loading request
   resolved with, ready without data means it resolved with null, loading means in flight.
   */
  lemma ReachableSafety(steps: seq<Step>, key: string)
    ensures var c := Exec(EMPTY, steps);
      key in c.keys ==>
        && c.keys[key] < |c.entries|
        && var e := c.entries[c.keys[key]];
           && (e.data.Some? ==> e.status in {Ready, Stale})
           && (e.status == Stale ==> e.data.Some?)
           && (e.status == Loading ==> e.flight.Some? && e.data.None?)
           && (e.loadedBy.Some? ==> e.loadedBy.value < |c.requests|
                                    && c.requests[e.loadedBy.value].outcome == Resolved(e.data))
           && (e.loadedBy.None? ==> e.data.None? && e.status != Ready)
           && (e.status == Ready ==>
                 (e.data.None? <==> c.requests[e.loadedBy.value].outcome == Resolved(None)))
           && forall r :: 0 <= r < |c.requests| && c.requests[r].entry == c.keys[key] && c.requests[r].outcome.Pending? ==>
                e.flight == Some(r)
  {
    ReachableInv(steps);
    var c := Exec(EMPTY, steps);
    if key in c.keys {
      var x := c.keys[key];
      assert Attached(c, x);
      assert FlightOk(c, x) && ShowsOk(c, x) && LoadingOk(c, x);
      forall r | 0 <= r < |c.requests| && c.requests[r].entry == x && c.requests[r].outcome.Pending?
        ensures c.entries[x].flight == Some(r)
      {
        assert RequestOk(c, r);
      }
    }
  }
}
