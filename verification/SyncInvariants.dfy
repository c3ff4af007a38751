/**
 What every step of the scheduler keeps: the five structures (adapter states, runs, queue, active
 set, persisted rows) always describe the same situation.
 */
module SyncInvariants {
  import opened Common
  import opened SyncModel

  // ---------------------------------------------------------------- the invariant

  ghost predicate StatusOk(s: AdapterState) {
    && (s.status == Errored ==> s.lastSuccessfulAt.None?)
    && (s.status == Ready || s.status == Stale ==> s.lastSuccessfulAt.Some?)
  }

  /**
   A run is filed under its id and belongs to a known adapter; it waits in the queue iff it is
   queued and sits in the active set iff it is syncing; its adapter points at it while it has not
   ended; the persisted row equals it; its snapshot is idle and has the adapter's success record.
   */
  ghost predicate RunOk(c: Coordinator, r: RunId)
    requires r in c.runs
  {
    var run := c.runs[r].run;
    && run.runId == r
    && run.adapterId in c.states
    && (run.Terminal() <==> run.completedAt.Some?)
    && (run.status == RunQueued <==> r in c.queue)
    && (run.status == RunSyncing <==> r in c.active)
    && (run.status == RunQueued ==> c.states[run.adapterId].pendingRunId == Some(r))
    && (run.status == RunSyncing ==> c.states[run.adapterId].activeRunId == Some(r))
    && r in c.store && c.store[r] == run && r !in c.persisted
    && (!run.Terminal() ==>
          var snap := c.runs[r].restore;
          && StatusOk(snap) && !Busy(snap)
          && snap.lastSuccessfulAt == c.states[run.adapterId].lastSuccessfulAt
          && snap.consecutiveFailures == c.states[run.adapterId].consecutiveFailures)
  }

  /** An adapter's run pointers name a run of its own in the matching list, and at most one is set. */
  ghost predicate AdapterOk(c: Coordinator, id: AdapterId)
    requires id in c.states
  {
    var s := c.states[id];
    && id in c.enabled
    && !(s.activeRunId.Some? && s.pendingRunId.Some?)
    && (s.activeRunId.Some? ==>
          var r := s.activeRunId.value; r in c.active && r in c.runs && c.runs[r].run.adapterId == id)
    && (s.pendingRunId.Some? ==>
          var r := s.pendingRunId.value; r in c.queue && r in c.runs && c.runs[r].run.adapterId == id)
    && (Busy(s) ==> Works(c, id))
    && StatusOk(s)
  }

  /** An adapter with a run under way cannot be switched off. */
  ghost predicate Works(c: Coordinator, id: AdapterId)
    requires id in c.states
  {
    id in c.enabled && c.enabled[id] && c.states[id].status != Disabled
  }

  ghost predicate PersistedOk(c: Coordinator, r: RunId)
    requires r in c.persisted
  {
    r in c.store && c.store[r] == c.persisted[r] && r !in c.runs && c.persisted[r].Terminal()
  }

  /** Queue and active set have no repeats and hold only known runs. */
  ghost predicate Lists(c: Coordinator) {
    && NoDup(c.queue) && NoDup(c.active)
    && (forall r :: r in c.queue ==> r in c.runs && c.runs[r].run.status == RunQueued)
    && (forall r :: r in c.active ==> r in c.runs && c.runs[r].run.status == RunSyncing)
  }

  ghost predicate Bounds(c: Coordinator) {
    && 1 <= c.concurrency <= 2
    && |c.active| <= c.concurrency
    && (c.shuttingDown ==> c.queue == [] && c.active == [])
    && (!c.shuttingDown ==> forall r :: r in c.inFlight <==> r in c.active)
  }

  ghost predicate AllRuns(c: Coordinator) { forall r :: r in c.runs ==> RunOk(c, r) }

  ghost predicate AllAdapters(c: Coordinator) { forall id :: id in c.states ==> AdapterOk(c, id) }

  ghost predicate AllPersisted(c: Coordinator) { forall r :: r in c.persisted ==> PersistedOk(c, r) }

  ghost predicate SameIds(c: Coordinator) { forall id :: id in c.enabled <==> id in c.states }

  /** No idle slot while somebody waits. */
  ghost predicate WorkConserving(c: Coordinator) {
    !c.shuttingDown && c.queue != [] ==> |c.active| == c.concurrency
  }

  ghost predicate InvLoose(c: Coordinator) {
    && Lists(c) && Bounds(c) && AllRuns(c) && AllAdapters(c) && AllPersisted(c)
    && SameIds(c)
  }

  ghost predicate Inv(c: Coordinator) {
    InvLoose(c) && WorkConserving(c)
  }

  // ---------------------------------------------------------------- sequences as ordered sets

  lemma {:induction false} WithoutKeeps<T>(s: seq<T>, x: T)
    requires NoDup(s)
    ensures NoDup(Without(s, x))
    ensures forall y :: y in Without(s, x) <==> y in s && y != x
    ensures |Without(s, x)| == if x in s then |s| - 1 else |s|
    ensures x !in s ==> Without(s, x) == s
  {
    if s != [] {
      TailKeeps(s);
      WithoutKeeps(s[1..], x);
    }
  }

  lemma TailKeeps<T>(s: seq<T>)
    requires NoDup(s) && s != []
    ensures NoDup(s[1..]) && s[0] !in s[1..]
    ensures forall y :: y in s <==> y == s[0] || y in s[1..]
  {
    assert s == [s[0]] + s[1..];
  }

  // ---------------------------------------------------------------- steps that move no run

  ghost predicate SameWork(s: AdapterState, t: AdapterState) {
    && t.activeRunId == s.activeRunId && t.pendingRunId == s.pendingRunId
    && (Busy(s) ==> t.lastSuccessfulAt == s.lastSuccessfulAt && t.consecutiveFailures == s.consecutiveFailures)
  }

  /** Adapters may appear idle; known ones keep their work, and the busy ones their success record. */
  ghost predicate QuietStates(before: map<AdapterId, AdapterState>, after: map<AdapterId, AdapterState>) {
    && (forall id :: id in before ==> id in after)
    && (forall id :: id in after ==>
          && StatusOk(after[id])
          && (id !in before ==> !Busy(after[id]))
          && (id in before ==> SameWork(before[id], after[id])))
  }

  /** Only adapter settings and states, the timer flag and the history differ. */
  ghost predicate Quiet(c: Coordinator, p: Coordinator) {
    && p == c.(enabled := p.enabled, states := p.states, periodic := p.periodic, history := p.history)
    && SameIds(p)
    && QuietStates(c.states, p.states)
    && (forall id :: id in c.states && Busy(c.states[id]) && Works(c, id) ==> id in p.states && Works(p, id))
  }

  ghost predicate StatesOk(c: Coordinator) {
    SameIds(c) && forall id :: id in c.states ==> StatusOk(c.states[id])
  }

  lemma InvStatesOk(c: Coordinator)
    requires Inv(c)
    ensures StatesOk(c)
  {
    forall id | id in c.states ensures StatusOk(c.states[id]) { assert AdapterOk(c, id); }
  }

  lemma QuietInv(c: Coordinator, p: Coordinator)
    requires Inv(c) && Quiet(c, p)
    ensures Inv(p)
  {
    forall r | r in p.runs ensures RunOk(p, r) {
      assert RunOk(c, r);
    }
    forall id | id in p.states ensures AdapterOk(p, id) {
      if id in c.states { assert AdapterOk(c, id); }
    }
    forall r | r in p.persisted ensures PersistedOk(p, r) {
      assert PersistedOk(c, r);
    }
  }

  lemma RefreshQuiet(c: Coordinator, now: int)
    requires StatesOk(c)
    ensures Quiet(c, Refresh(c, now))
  {}

  lemma RegisterQuiet(c: Coordinator, id: AdapterId, on: bool)
    requires StatesOk(c)
    ensures Quiet(c, Register(c, id, on).0)
  {
    var p := Register(c, id, on).0;
    if p != c {
      assert SameIds(p);
      assert QuietStates(c.states, p.states);
    }
  }

  lemma SetEnabledQuiet(c: Coordinator, id: AdapterId, on: bool, now: int)
    requires StatesOk(c)
    ensures Quiet(c, SetEnabled(c, id, on, now).0)
  {
    var p := SetEnabled(c, id, on, now).0;
    if p != c {
      assert SameIds(p);
      assert QuietStates(c.states, p.states);
    }
  }

  lemma ScheduleQuiet(c: Coordinator, targets: Option<set<AdapterId>>, at: Option<int>)
    requires StatesOk(c)
    ensures Quiet(c, Schedule(c, targets, at))
  {
    assert SameIds(Schedule(c, targets, at));
    assert QuietStates(c.states, Schedule(c, targets, at).states);
  }

  lemma StartPeriodicQuiet(c: Coordinator, targets: Option<set<AdapterId>>, interval: int, now: int)
    requires StatesOk(c)
    ensures Quiet(c, StartPeriodic(c, targets, interval, now).0)
  {
    ScheduleQuiet(c, targets, Some(now + interval));
    assert QuietStates(c.states, c.states);
  }

  lemma StopPeriodicQuiet(c: Coordinator)
    requires StatesOk(c)
    ensures Quiet(c, StopPeriodic(c))
  {}

  lemma MarkBackgroundQuiet(c: Coordinator, id: AdapterId, now: int)
    requires StatesOk(c)
    ensures Quiet(c, MarkBackgroundSuccess(c, id, now))
  {
    var p := MarkBackgroundSuccess(c, id, now);
    if p != c {
      assert SameIds(p);
      assert QuietStates(c.states, p.states);
    }
  }

  lemma SignalInv(c: Coordinator, p: Coordinator)
    requires InvLoose(c)
    requires p == c.(runs := p.runs) && (forall r :: r in p.runs <==> r in c.runs)
    requires forall r :: r in c.runs ==> p.runs[r].run == c.runs[r].run && p.runs[r].restore == c.runs[r].restore
    ensures InvLoose(p)
  {
    forall q | q in p.runs ensures RunOk(p, q) { assert RunOk(c, q); }
    forall id | id in p.states ensures AdapterOk(p, id) { assert AdapterOk(c, id); }
    forall q | q in p.persisted ensures PersistedOk(p, q) { assert PersistedOk(c, q); }
  }

  lemma TimeoutInv(c: Coordinator, r: RunId)
    requires Inv(c)
    ensures Inv(Timeout(c, r))
  {
    if r in c.inFlight && r in c.runs {
      SignalInv(c, c.(runs := c.runs[r := c.runs[r].(signalled := true)]));
    }
  }

  lemma PruneInv(c: Coordinator, now: int)
    requires Inv(c)
    ensures Inv(Prune(c, now))
  {
    var p := Prune(c, now);
    forall r | r in c.runs ensures RunOk(c, r) {}
    forall r | r in c.runs && !c.runs[r].run.Terminal() ensures r in p.runs {}
    forall r | r in p.runs ensures RunOk(p, r) {
      assert RunOk(c, r);
    }
    forall id | id in p.states ensures AdapterOk(p, id) { assert AdapterOk(c, id); }
    forall r | r in p.persisted ensures PersistedOk(p, r) {
      assert PersistedOk(c, r);
    }
  }

  // ---------------------------------------------------------------- accepting and starting a run

  /** Everything is in order except run `x`: queued, its adapter idle or waiting for it, in no list. */
  ghost predicate Near(c: Coordinator, x: RunId) {
    && !c.shuttingDown && Lists(c) && Bounds(c) && AllPersisted(c) && SameIds(c)
    && x in c.runs && x !in c.queue && x !in c.active
    && c.runs[x].run.status == RunQueued && c.runs[x].run.adapterId in c.states
    && var id := c.runs[x].run.adapterId;
    && c.states[id].activeRunId.None?
    && (c.states[id].pendingRunId.None? || c.states[id].pendingRunId == Some(x))
    && StatusOk(c.states[id]) && Works(c, id)
    && c.runs[x].run.runId == x && c.runs[x].run.completedAt.None?
    && x in c.store && c.store[x] == c.runs[x].run && x !in c.persisted
    && StatusOk(c.runs[x].restore) && !Busy(c.runs[x].restore)
    && c.runs[x].restore.lastSuccessfulAt == c.states[id].lastSuccessfulAt
    && c.runs[x].restore.consecutiveFailures == c.states[id].consecutiveFailures
    && (forall r :: r in c.runs && r != x ==> RunOk(c, r))
    && (forall d :: d in c.states && d != id ==> AdapterOk(c, d))
  }

  lemma StartRunIs(c: Coordinator, x: RunId, now: int)
    requires x in c.runs && c.runs[x].run.status == RunQueued && !c.shuttingDown && x !in c.active
    requires c.runs[x].run.adapterId in c.states && c.runs[x].run.runId == x
    ensures var run := c.runs[x].run.(status := RunSyncing, startedAt := Some(now));
            var s := c.states[run.adapterId].(status := Syncing, activeRunId := Some(x),
                                              pendingRunId := None, lastStartedAt := Some(now));
            StartRun(c, x, now) == c.(runs := c.runs[x := c.runs[x].(run := run)], store := c.store[x := run],
                                      states := c.states[run.adapterId := s], active := c.active + [x],
                                      inFlight := c.inFlight + {x}, history := c.history + [Started(x)])
  {}

  lemma StartNear(c: Coordinator, x: RunId, now: int)
    requires Near(c, x) && |c.active| < c.concurrency
    ensures InvLoose(StartRun(c, x, now))
    ensures StartRun(c, x, now).queue == c.queue
    ensures StartRun(c, x, now).active == c.active + [x]
    ensures !StartRun(c, x, now).shuttingDown && StartRun(c, x, now).concurrency == c.concurrency
  {
    StartRunIs(c, x, now);
    var p := StartRun(c, x, now);
    var id := c.runs[x].run.adapterId;
    forall r | r in p.runs ensures RunOk(p, r) {
      if r != x {
        assert RunOk(c, r);
        if c.runs[r].run.adapterId == id { assert c.runs[r].run.Terminal(); }
      }
    }
    forall d | d in p.states ensures AdapterOk(p, d) {
      if d != id { assert AdapterOk(c, d); }
    }
    forall r | r in p.persisted ensures PersistedOk(p, r) { assert PersistedOk(c, r); }
    assert Lists(p);
  }

  lemma EnqueueNear(c: Coordinator, x: RunId)
    requires Near(c, x) && |c.active| == c.concurrency
    ensures Inv(Enqueue(c, c.runs[x].run.adapterId, x))
  {
    var id := c.runs[x].run.adapterId;
    var p := Enqueue(c, id, x);
    forall r | r in p.runs ensures RunOk(p, r) {
      if r != x {
        assert RunOk(c, r);
        if c.runs[r].run.adapterId == id { assert c.runs[r].run.Terminal(); }
      }
    }
    forall d | d in p.states ensures AdapterOk(p, d) {
      if d != id { assert AdapterOk(c, d); }
    }
    forall r | r in p.persisted ensures PersistedOk(p, r) { assert PersistedOk(c, r); }
  }

  lemma AdmitNear(c: Coordinator, id: AdapterId, x: RunId, now: int)
    requires Inv(c) && !c.shuttingDown && id in c.states && !Busy(c.states[id]) && Works(c, id)
    requires x !in c.runs && x !in c.persisted
    ensures Near(Admit(c, id, x, now), x)
    ensures Admit(c, id, x, now).queue == c.queue && Admit(c, id, x, now).active == c.active
    ensures Admit(c, id, x, now).concurrency == c.concurrency
    ensures Admit(c, id, x, now).runs[x].run.adapterId == id
  {
    var p := Admit(c, id, x, now);
    assert p.runs[x] == InternalRun(NewRun(x, id, now), false, c.states[id]);
    assert AdapterOk(c, id);
    forall r | r in p.runs && r != x ensures RunOk(p, r) { assert RunOk(c, r); }
    forall d | d in p.states && d != id ensures AdapterOk(p, d) { assert AdapterOk(c, d); }
    forall r | r in p.persisted ensures PersistedOk(p, r) { assert PersistedOk(c, r); }
  }

  lemma DispatchInv(c: Coordinator, id: AdapterId, x: RunId, now: int)
    requires Inv(c) && !c.shuttingDown && id in c.states && !Busy(c.states[id]) && Works(c, id)
    requires x !in c.runs && x !in c.persisted
    ensures var (p, d) := Dispatch(c, id, x, now);
      && Inv(p) && !p.shuttingDown && d.runId == x
      && (d.DStarted? ==> c.queue == [] && p.queue == []
                          && p.history == c.history + [Accepted(x)] + [Started(x)])
      && (d.DQueued? ==> p.queue == c.queue + [x] && p.history == c.history + [Accepted(x)])
      && !d.DCoalesced?
  {
    AdmitNear(c, id, x, now);
    var a := Admit(c, id, x, now);
    if |a.active| < a.concurrency {
      StartNear(a, x, now);
      StartRunIs(a, x, now);
    } else {
      EnqueueNear(a, x);
    }
  }

  /** The freshness pass before an accept, which every accept that is let in performs. */
  lemma RefreshInv(c: Coordinator, now: int)
    requires Inv(c)
    ensures Inv(Refresh(c, now))
  {
    InvStatesOk(c);
    RefreshQuiet(c, now);
    QuietInv(c, Refresh(c, now));
  }

  lemma AcceptFreshInv(c: Coordinator, id: AdapterId, proposed: Option<RunId>, now: int)
    requires Inv(c) && !c.shuttingDown && id in c.enabled && id in c.states
    ensures Inv(AcceptFresh(c, id, proposed, now).0)
  {
    if Works(c, id) && !Busy(c.states[id]) && proposed.Some? && proposed.value !in c.runs && proposed.value !in c.persisted {
      DispatchInv(c, id, proposed.value, now);
    }
  }

  lemma AcceptInv(c: Coordinator, id: AdapterId, proposed: Option<RunId>, now: int)
    requires Inv(c)
    ensures Inv(Accept(c, id, proposed, now).0)
  {
    RefreshInv(c, now);
    if !c.shuttingDown && id in c.enabled && id in c.states {
      AcceptFreshInv(Refresh(c, now), id, proposed, now);
    }
  }

  // ---------------------------------------------------------------- settling and draining

  lemma {:induction false} DrainInv(c: Coordinator, now: int)
    requires InvLoose(c)
    ensures Inv(Drain(c, now))
    decreases |c.queue|
  {
    if !c.shuttingDown && |c.active| < c.concurrency && |c.queue| > 0 {
      var x := c.queue[0];
      var p := c.(queue := c.queue[1..]);
      TailKeeps(c.queue);
      PopNear(c);
      StartNear(p, x, now);
      DrainInv(StartRun(p, x, now), now);
    }
  }

  lemma PopNear(c: Coordinator)
    requires InvLoose(c) && !c.shuttingDown && |c.queue| > 0
    ensures Near(c.(queue := c.queue[1..]), c.queue[0])
  {
    var x := c.queue[0];
    var p := c.(queue := c.queue[1..]);
    TailKeeps(c.queue);
    assert RunOk(c, x);
    var id := c.runs[x].run.adapterId;
    assert AdapterOk(c, id);
    forall r | r in p.runs && r != x ensures RunOk(p, r) { assert RunOk(c, r); }
    forall d | d in p.states && d != id ensures AdapterOk(p, d) { assert AdapterOk(c, d); }
    forall r | r in p.persisted ensures PersistedOk(p, r) { assert PersistedOk(c, r); }
  }

  /** An active run ends: terminal record, idle adapter, slot released. */
  lemma FinishLoose(c: Coordinator, x: RunId, run: Run, s: AdapterState, p: Coordinator)
    requires InvLoose(c) && !c.shuttingDown && x in c.active
    requires run.runId == x && run.adapterId == c.runs[x].run.adapterId
    requires run.Terminal() && run.completedAt.Some?
    requires !Busy(s) && StatusOk(s)
    requires p == c.(runs := c.runs[x := c.runs[x].(run := run)], store := c.store[x := run],
                     states := c.states[run.adapterId := s],
                     active := Without(c.active, x), inFlight := c.inFlight - {x}, history := p.history)
    ensures InvLoose(p)
  {
    WithoutKeeps(c.active, x);
    assert RunOk(c, x);
    var id := run.adapterId;
    assert AdapterOk(c, id);
    forall r | r in p.runs ensures RunOk(p, r) {
      assert RunOk(c, r);
    }
    forall d | d in p.states ensures AdapterOk(p, d) { assert AdapterOk(c, d); }
    forall r | r in p.persisted ensures PersistedOk(p, r) { assert PersistedOk(c, r); }
    assert Lists(p);
  }

  /** Before shutdown every settlement ends its run, as a success or as a failure. */
  lemma CompleteCases(c: Coordinator, r: RunId, outcome: Outcome, now: int) returns (ok: bool, error: SyncError)
    requires InvLoose(c) && !c.shuttingDown && r in c.active
    ensures ok ==> outcome.Resolved? && Complete(c, r, outcome, now) == CompleteSuccess(c, r, outcome.result, now)
    ensures !ok ==> Complete(c, r, outcome, now) == CompleteFailure(c, r, error, now)
    ensures ok <==> !c.runs[r].signalled && outcome.Resolved? && ValidResult(outcome.result)
  {
    assert RunOk(c, r);
    if c.runs[r].signalled {
      ok, error := false, TIMEOUT_ERROR;
    } else if outcome.Rejected? {
      ok, error := false, outcome.error;
    } else {
      ok, error := ValidResult(outcome.result), INVALID_RESULT_ERROR;
    }
  }

  lemma CompleteIs(c: Coordinator, r: RunId, outcome: Outcome, now: int) returns (run: Run, s: AdapterState)
    requires InvLoose(c) && !c.shuttingDown && r in c.active
    ensures r in c.runs && run.runId == r && run.adapterId == c.runs[r].run.adapterId
    ensures run.Terminal() && run.completedAt.Some?
    ensures !Busy(s) && StatusOk(s)
    ensures var done := Complete(c, r, outcome, now);
            done == c.(runs := c.runs[r := c.runs[r].(run := run)], store := c.store[r := run],
                       states := c.states[run.adapterId := s], history := done.history)
  {
    assert RunOk(c, r);
    var ok, error := CompleteCases(c, r, outcome, now);
    var done := Complete(c, r, outcome, now);
    run := done.runs[r].run;
    s := done.states[run.adapterId];
  }

  lemma SettledLoose(c: Coordinator, r: RunId, outcome: Outcome, now: int)
    requires InvLoose(c) && !c.shuttingDown && r in c.active
    ensures var done := Complete(c, r, outcome, now);
            InvLoose(done.(active := Without(done.active, r), inFlight := done.inFlight - {r}))
  {
    var run, s := CompleteIs(c, r, outcome, now);
    var done := Complete(c, r, outcome, now);
    FinishLoose(c, r, run, s, done.(active := Without(done.active, r), inFlight := done.inFlight - {r}));
  }

  lemma SettleInv(c: Coordinator, r: RunId, outcome: Outcome, now: int)
    requires Inv(c)
    ensures Inv(Settle(c, r, outcome, now))
  {
    if r in c.inFlight {
      var done := Complete(c, r, outcome, now);
      var left := done.(active := Without(done.active, r), inFlight := done.inFlight - {r});
      if c.shuttingDown {
        forall q | q in left.runs ensures RunOk(left, q) { assert RunOk(c, q); }
        forall d | d in left.states ensures AdapterOk(left, d) { assert AdapterOk(c, d); }
        forall q | q in left.persisted ensures PersistedOk(left, q) { assert PersistedOk(c, q); }
      } else {
        SettledLoose(c, r, outcome, now);
        DrainInv(left, now);
      }
    }
  }

  // ---------------------------------------------------------------- shutting down

  /** Runs that have not ended, each of a different known adapter. */
  ghost predicate Abortable(c: Coordinator, ids: seq<RunId>) {
    && NoDup(ids)
    && (forall r :: r in ids ==> r in c.runs && !c.runs[r].run.Terminal()
                                 && c.runs[r].run.runId == r && c.runs[r].run.adapterId in c.states)
    && (forall r, q :: r in ids && q in ids && r != q ==> c.runs[r].run.adapterId != c.runs[q].run.adapterId)
  }

  function Aborted(i: InternalRun, now: int): InternalRun {
    InternalRun(i.run.(status := RunAborted, completedAt := Some(now), error := None), true, i.restore)
  }

  ghost predicate AbortedRuns(c: Coordinator, ids: seq<RunId>, now: int, p: Coordinator) {
    && (forall r :: r in p.runs <==> r in c.runs)
    && (forall r :: r in c.runs ==> p.runs[r] == if r in ids then Aborted(c.runs[r], now) else c.runs[r])
  }

  ghost predicate AbortedRows(c: Coordinator, ids: seq<RunId>, now: int, p: Coordinator)
    requires forall r :: r in ids ==> r in c.runs
  {
    && (forall r :: r in p.store <==> r in c.store || r in ids)
    && (forall r :: r in p.store ==> p.store[r] == if r in ids then Aborted(c.runs[r], now).run else c.store[r])
  }

  ghost predicate RestoredStates(c: Coordinator, ids: seq<RunId>, p: Coordinator)
    requires forall r :: r in ids ==> r in c.runs
  {
    && (forall d :: d in p.states <==> d in c.states)
    && (forall r :: r in ids ==>
          c.runs[r].run.adapterId in p.states && p.states[c.runs[r].run.adapterId] == c.runs[r].restore)
    && (forall d :: d in c.states && d in p.states && p.states[d] != c.states[d] ==>
          exists r :: r in ids && c.runs[r].run.adapterId == d)
  }

  ghost predicate AbortEffect(c: Coordinator, ids: seq<RunId>, now: int, p: Coordinator)
    requires Abortable(c, ids)
  {
    && p == c.(runs := p.runs, states := p.states, store := p.store)
    && AbortedRuns(c, ids, now, p) && AbortedRows(c, ids, now, p) && RestoredStates(c, ids, p)
  }

  lemma AbortOne(c: Coordinator, x: RunId, now: int)
    requires Abortable(c, [x])
    ensures AbortRun(c, x, now)
            == c.(runs := c.runs[x := Aborted(c.runs[x], now)],
                  states := c.states[c.runs[x].run.adapterId := c.runs[x].restore],
                  store := c.store[x := Aborted(c.runs[x], now).run])
  {
    assert x in [x];
  }

  lemma AbortableHead(c: Coordinator, ids: seq<RunId>, now: int)
    requires Abortable(c, ids) && ids != []
    ensures Abortable(c, [ids[0]]) && Abortable(AbortRun(c, ids[0], now), ids[1..])
  {
    TailKeeps(ids);
    assert Abortable(c, [ids[0]]);
    AbortOne(c, ids[0], now);
  }

  lemma {:induction false} AbortAllEffect(c: Coordinator, ids: seq<RunId>, now: int)
    requires Abortable(c, ids)
    ensures AbortEffect(c, ids, now, AbortAll(c, ids, now))
    decreases |ids|
  {
    if ids != [] {
      var x, rest := ids[0], ids[1..];
      var c1 := AbortRun(c, x, now);
      TailKeeps(ids);
      AbortableHead(c, ids, now);
      AbortOne(c, x, now);
      AbortAllEffect(c1, rest, now);
      var p := AbortAll(c1, rest, now);
      assert AbortedRuns(c, ids, now, p);
      assert AbortedRows(c, ids, now, p);
      RestoredCompose(c, ids, c1, p);
    }
  }

  lemma RestoredCompose(c: Coordinator, ids: seq<RunId>, c1: Coordinator, p: Coordinator)
    requires Abortable(c, ids) && ids != []
    requires c1.states == c.states[c.runs[ids[0]].run.adapterId := c.runs[ids[0]].restore]
    requires forall r :: r in ids[1..] ==> r in c1.runs && c1.runs[r] == c.runs[r]
    requires RestoredStates(c1, ids[1..], p)
    ensures RestoredStates(c, ids, p)
  {
    TailKeeps(ids);
    var x := ids[0];
    var d := c.runs[x].run.adapterId;
    forall r | r in ids[1..] ensures c1.runs[r].run.adapterId != d {
      assert r in ids && r != x;
    }
    assert p.states[d] == c.runs[x].restore;
    forall e | e in c.states && e in p.states && p.states[e] != c.states[e]
      ensures exists r :: r in ids && c.runs[r].run.adapterId == e
    {
      if e != d {
        var r :| r in ids[1..] && c1.runs[r].run.adapterId == e;
        assert r in ids;
      } else {
        assert x in ids;
      }
    }
  }

  lemma AcceptedAbortable(c: Coordinator)
    requires Inv(c)
    ensures Abortable(c, c.queue + c.active)
  {
    var ids := c.queue + c.active;
    forall r | r in ids ensures r in c.runs && RunOk(c, r) && !c.runs[r].run.Terminal() {}
    assert NoDup(ids) by {
      forall i, j | 0 <= i < j < |ids| ensures ids[i] != ids[j] {
        if i < |c.queue| <= j {
          assert ids[i] in c.queue && ids[j] in c.active;
        }
      }
    }
    forall r, q | r in ids && q in ids && r != q ensures c.runs[r].run.adapterId != c.runs[q].run.adapterId {
      assert RunOk(c, r) && RunOk(c, q);
      assert AdapterOk(c, c.runs[r].run.adapterId);
    }
  }

  lemma ShutdownEffect(c: Coordinator, now: int)
    requires Inv(c) && !c.shuttingDown
    ensures Abortable(StopPeriodic(c), c.queue + c.active)
    ensures Inv(StopPeriodic(c)) && Closing(StopPeriodic(c), Shutdown(c, now), now)
  {
    InvStatesOk(c);
    StopPeriodicQuiet(c);
    QuietInv(c, StopPeriodic(c));
    AcceptedAbortable(StopPeriodic(c));
    var open := StopPeriodic(c.(shuttingDown := true)).(queue := []);
    assert open == StopPeriodic(c).(shuttingDown := true, queue := []);
    AbortAllEffect(open, c.queue + c.active, now);
  }

  lemma ShutdownInv(c: Coordinator, now: int)
    requires Inv(c)
    ensures Inv(Shutdown(c, now))
  {
    if !c.shuttingDown {
      ShutdownEffect(c, now);
      ClosedInv(StopPeriodic(c), Shutdown(c, now), now);
    }
  }

  ghost predicate Closing(open: Coordinator, p: Coordinator, now: int) {
    && Inv(open) && !open.shuttingDown && Abortable(open, open.queue + open.active)
    && p == open.(shuttingDown := true, queue := [], active := [],
                  runs := p.runs, states := p.states, store := p.store)
    && AbortedRuns(open, open.queue + open.active, now, p)
    && AbortedRows(open, open.queue + open.active, now, p)
    && RestoredStates(open, open.queue + open.active, p)
  }

  lemma ClosedRuns(open: Coordinator, p: Coordinator, now: int)
    requires Closing(open, p, now)
    ensures AllRuns(p) && AllPersisted(p)
  {
    forall r | r in p.runs ensures RunOk(p, r) { assert RunOk(open, r); }
    forall r | r in p.persisted ensures PersistedOk(p, r) { assert PersistedOk(open, r); }
  }

  lemma ClosedAdapters(open: Coordinator, p: Coordinator, now: int)
    requires Closing(open, p, now)
    ensures AllAdapters(p)
  {
    var ids := open.queue + open.active;
    forall d | d in p.states ensures AdapterOk(p, d) {
      assert AdapterOk(open, d);
      if Busy(open.states[d]) {
        var s := open.states[d];
        var r := if s.activeRunId.Some? then s.activeRunId.value else s.pendingRunId.value;
        assert r in ids && RunOk(open, r);
      } else if p.states[d] != open.states[d] {
        var r :| r in ids && open.runs[r].run.adapterId == d;
        assert RunOk(open, r);
      }
    }
  }

  lemma ClosedInv(open: Coordinator, p: Coordinator, now: int)
    requires Closing(open, p, now)
    ensures Inv(p)
  {
    ClosedRuns(open, p, now);
    ClosedAdapters(open, p, now);
  }

  // ---------------------------------------------------------------- every step, every run

  predicate QuietStep(step: Step) {
    step.SRegister? || step.SSetEnabled? || step.SMarkBackground? || step.SStartPeriodic?
    || step.STick? || step.SStopPeriodic?
  }

  lemma QuietNext(c: Coordinator, step: Step)
    requires StatesOk(c) && QuietStep(step)
    ensures Quiet(c, Next(c, step))
  {
    match step {
      case SRegister(id, on) => RegisterQuiet(c, id, on);
      case SSetEnabled(id, on, now) => SetEnabledQuiet(c, id, on, now);
      case SMarkBackground(id, now) => MarkBackgroundQuiet(c, id, now);
      case SStartPeriodic(targets, interval, now) => StartPeriodicQuiet(c, targets, interval, now);
      case STick(targets, at) =>
        assert QuietStates(c.states, c.states);
        ScheduleQuiet(c, targets, Some(at));
      case SStopPeriodic => StopPeriodicQuiet(c);
    }
  }

  lemma NextInv(c: Coordinator, step: Step)
    requires Inv(c)
    ensures Inv(Next(c, step))
  {
    if QuietStep(step) {
      InvStatesOk(c);
      QuietNext(c, step);
      QuietInv(c, Next(c, step));
    } else {
      match step {
        case STrigger(id, proposed, now) => AcceptInv(c, id, proposed, now);
        case STimeout(r) => TimeoutInv(c, r);
        case SSettle(r, outcome, now) => SettleInv(c, r, outcome, now);
        case SGetStatus(now) => StatusInv(c, now);
        case SPrune(now) => PruneInv(c, now);
        case SShutdown(now) => ShutdownInv(c, now);
      }
    }
  }

  lemma StatusInv(c: Coordinator, now: int)
    requires Inv(c)
    ensures Inv(Prune(Refresh(c, now), now))
  {
    RefreshInv(c, now);
    PruneInv(Refresh(c, now), now);
  }

  lemma InitInv(store: map<RunId, Run>, concurrency: int, freshnessMs: int, retentionMs: int, now: int)
    requires 1 <= concurrency <= 2
    ensures Inv(Init(store, concurrency, freshnessMs, retentionMs, now))
  {}

  /** The invariant holds in every state any sequence of calls, timers and settlements can reach. */
  lemma {:induction false} ReachableInv(c: Coordinator, steps: seq<Step>)
    requires Inv(c)
    ensures Inv(Exec(c, steps))
    decreases |steps|
  {
    if steps != [] {
      NextInv(c, steps[0]);
      ReachableInv(Next(c, steps[0]), steps[1..]);
    }
  }
}
