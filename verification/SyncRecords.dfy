/**
 What the scheduler writes down: the record of a run, its stored row and the state of its adapter
 after each kind of step, spelled out field by field.
 */
module SyncRecords {
  import opened Common
  import opened SyncModel
  import opened SyncInvariants
  import opened SyncTheorems
  import opened SyncLifecycle

  // ---------------------------------------------------------------- the five kinds of record

  predicate Count(n: int) { 0 <= n <= 9007199254740991 }

  predicate Counted(r: SyncResult) { Count(r.discovered) && Count(r.committed) && Count(r.projected) && Count(r.watermark) }

  /** Which fields a record has filled in, by its status. */
  predicate Shaped(run: Run) {
    match run.status
    case RunQueued => run.startedAt.None? && run.completedAt.None? && run.result.None? && run.error.None?
    case RunSyncing => run.startedAt.Some? && run.completedAt.None? && run.result.None? && run.error.None?
    case RunSucceeded =>
      && run.startedAt.Some? && run.completedAt.Some? && run.error.None?
      && run.result.Some? && Counted(run.result.value)
    case RunFailed => run.startedAt.Some? && run.completedAt.Some? && run.result.None? && run.error.Some?
    case RunAborted => run.completedAt.Some? && run.result.None? && run.error.None?
  }

  ghost predicate AllShaped(c: Coordinator) { forall r :: r in c.runs ==> Shaped(c.runs[r].run) }

  // ---------------------------------------------------------------- how a promise settles

  /** What a settlement amounts to: the result, or the error to report. */
  predicate Verdict(signalled: bool, outcome: Outcome, verdict: Result<SyncResult, SyncError>) {
    if signalled then verdict == Err(SyncError("SYNC_TIMEOUT", "Sync exceeded 3 minutes and was aborted"))
    else
      match outcome
      case Rejected(error) => verdict == Err(error)
      case Resolved(result) =>
        if Counted(result) then verdict == Ok(result)
        else verdict == Err(SyncError("INVALID_SYNC_RESULT", "count must be a non-negative safe integer"))
  }

  /** The record of a run that was under way and ended with the verdict. */
  predicate Ended(before: Run, verdict: Result<SyncResult, SyncError>, now: int, after: Run) {
    && after.runId == before.runId && after.adapterId == before.adapterId
    && after.acceptedAt == before.acceptedAt && after.startedAt == before.startedAt
    && after.completedAt == Some(now)
    && match verdict
       case Ok(result) => after.status == RunSucceeded && after.result == Some(result) && after.error == None
       case Err(error) => after.status == RunFailed && after.result == None && after.error == Some(error)
  }

  /** And the state of its adapter. */
  predicate Reported(before: AdapterState, verdict: Result<SyncResult, SyncError>, now: int, after: AdapterState) {
    && after.activeRunId == None && after.pendingRunId == None
    && after.lastStartedAt == before.lastStartedAt && after.nextScheduledAt == before.nextScheduledAt
    && after.lastCompletedAt == Some(now)
    && match verdict
       case Ok(_) =>
         && after.status == Ready && after.lastSuccessfulAt == Some(now)
         && after.lastError == None && after.consecutiveFailures == 0
       case Err(error) =>
         && after.status == (if before.lastSuccessfulAt.None? then Errored else Stale)
         && after.lastSuccessfulAt == before.lastSuccessfulAt
         && after.lastError == Some(error) && after.consecutiveFailures == before.consecutiveFailures + 1
  }

  ghost predicate NotConcerned(c: Coordinator, r: RunId, id: AdapterId) {
    && r in c.runs && r in c.store && id in c.states && r !in c.queue
    && forall q :: q in c.queue && q in c.runs ==> c.runs[q].run.runId == q && c.runs[q].run.adapterId != id
  }

  lemma StartLeaves(c: Coordinator, now: int, r: RunId, id: AdapterId)
    requires NotConcerned(c, r, id) && |c.queue| > 0
    ensures var p := StartRun(c.(queue := c.queue[1..]), c.queue[0], now);
      && NotConcerned(p, r, id) && p.queue == c.queue[1..]
      && p.runs[r] == c.runs[r] && p.store[r] == c.store[r] && p.states[id] == c.states[id]
  {
    var q := c.queue[0];
    assert c.queue == [q] + c.queue[1..];
    var p := StartRun(c.(queue := c.queue[1..]), q, now);
    forall x | x in p.runs
      ensures x in c.runs && p.runs[x].run.runId == c.runs[x].run.runId
              && p.runs[x].run.adapterId == c.runs[x].run.adapterId
    {}
  }

  /** Draining leaves alone what is not in the queue. */
  lemma {:induction false} DrainLeaves(c: Coordinator, now: int, r: RunId, id: AdapterId)
    requires NotConcerned(c, r, id)
    ensures var p := Drain(c, now);
      r in p.runs && r in p.store && id in p.states
      && p.runs[r] == c.runs[r] && p.store[r] == c.store[r] && p.states[id] == c.states[id]
    decreases |c.queue|
  {
    if !(c.shuttingDown || |c.active| >= c.concurrency || |c.queue| == 0) {
      var p := StartRun(c.(queue := c.queue[1..]), c.queue[0], now);
      StartLeaves(c, now, r, id);
      DrainLeaves(p, now, r, id);
    }
  }

  ghost predicate Recorded(c: Coordinator, r: RunId, verdict: Result<SyncResult, SyncError>, now: int, p: Coordinator)
    requires r in c.runs
  {
    var id := c.runs[r].run.adapterId;
    && r in p.runs && Ended(c.runs[r].run, verdict, now, p.runs[r].run)
    && r in p.store && p.store[r] == p.runs[r].run
    && id in c.states && id in p.states && Reported(c.states[id], verdict, now, p.states[id])
  }

  lemma SuccessRecord(c: Coordinator, r: RunId, result: SyncResult, now: int)
    requires r in c.runs && RunOk(c, r) && Shaped(c.runs[r].run) && c.runs[r].run.status == RunSyncing
    ensures Recorded(c, r, Ok(result), now, CompleteSuccess(c, r, result, now))
  {}

  lemma FailureRecord(c: Coordinator, r: RunId, error: SyncError, now: int)
    requires r in c.runs && RunOk(c, r) && Shaped(c.runs[r].run) && c.runs[r].run.status == RunSyncing
    ensures Recorded(c, r, Err(error), now, CompleteFailure(c, r, error, now))
  {}

  lemma CompletedRecord(c: Coordinator, r: RunId, outcome: Outcome, now: int) returns (verdict: Result<SyncResult, SyncError>)
    requires InvLoose(c) && AllShaped(c) && !c.shuttingDown && r in c.active
    ensures r in c.runs && Verdict(c.runs[r].signalled, outcome, verdict)
    ensures Recorded(c, r, verdict, now, Complete(c, r, outcome, now))
  {
    assert RunOk(c, r) && Shaped(c.runs[r].run);
    if c.runs[r].signalled {
      verdict := Err(TIMEOUT_ERROR);
      assert Complete(c, r, outcome, now) == CompleteFailure(c, r, TIMEOUT_ERROR, now);
      FailureRecord(c, r, TIMEOUT_ERROR, now);
    } else if outcome.Resolved? && Counted(outcome.result) {
      verdict := Ok(outcome.result);
      assert Complete(c, r, outcome, now) == CompleteSuccess(c, r, outcome.result, now);
      SuccessRecord(c, r, outcome.result, now);
    } else {
      var error := if outcome.Rejected? then outcome.error else INVALID_RESULT_ERROR;
      verdict := Err(error);
      assert Complete(c, r, outcome, now) == CompleteFailure(c, r, error, now);
      FailureRecord(c, r, error, now);
    }
  }

  /**
   When the promise of a run settles, its record and its stored row say how, and its adapter reports
   the same: a success with its result exactly when the run was not timed out and the promise
   resolved with a valid result, and otherwise a failure with the error that names the cause.
   */
  lemma SettleRecords(c: Coordinator, r: RunId, outcome: Outcome, now: int)
    returns (verdict: Result<SyncResult, SyncError>)
    requires Inv(c) && AllShaped(c) && !c.shuttingDown && r in c.inFlight
    ensures r in c.runs && Verdict(c.runs[r].signalled, outcome, verdict)
    ensures Recorded(c, r, verdict, now, Settle(c, r, outcome, now))
  {
    verdict := CompletedRecord(c, r, outcome, now);
    var id := c.runs[r].run.adapterId;
    var run, s := CompleteIs(c, r, outcome, now);
    var done := Complete(c, r, outcome, now);
    var left := done.(active := Without(done.active, r), inFlight := done.inFlight - {r});
    assert RunOk(c, r) && AdapterOk(c, id);
    forall q | q in left.queue && q in left.runs
      ensures left.runs[q].run.runId == q && left.runs[q].run.adapterId != id
    {
      assert RunOk(c, q);
    }
    DrainLeaves(left, now, r, id);
  }

  // ---------------------------------------------------------------- how a run starts

  /** Run `x`, which waited or was new, is under way: record, stored row, slot, promise and adapter say so. */
  ghost predicate UnderWayNow(c: Coordinator, x: RunId, run: Run, s: AdapterState, now: int) {
    && x in c.runs && x in c.store && c.store[x] == c.runs[x].run && x in c.active && x in c.inFlight
    && c.runs[x].run == Run(x, run.adapterId, RunSyncing, run.acceptedAt, Some(now), None, None, None)
    && run.adapterId in c.states
    && c.states[run.adapterId] == s.(status := Syncing, activeRunId := Some(x), pendingRunId := None, lastStartedAt := Some(now))
  }

  /** A settlement starts the run at the head of the queue, as of now. */
  lemma SettleStartsHead(c: Coordinator, r: RunId, outcome: Outcome, now: int)
    requires Inv(c) && AllShaped(c) && !c.shuttingDown && r in c.inFlight && c.queue != []
    ensures c.queue[0] in c.runs && c.runs[c.queue[0]].run.adapterId in c.states
    ensures var x := c.queue[0];
      UnderWayNow(Settle(c, r, outcome, now), x, c.runs[x].run, c.states[c.runs[x].run.adapterId], now)
  {
    var x := c.queue[0];
    var done := Complete(c, r, outcome, now);
    var left := done.(active := Without(done.active, r), inFlight := done.inFlight - {r});
    SettledLoose(c, r, outcome, now);
    var run, s := CompleteIs(c, r, outcome, now);
    WithoutKeeps(c.active, r);
    assert RunOk(c, x) && RunOk(c, r) && Shaped(c.runs[x].run);
    assert AdapterOk(c, c.runs[x].run.adapterId);
    var q := PopStart(left, now);
    assert |q.active| == q.concurrency;
    assert Drain(q, now) == q;
    PopNear(left);
    StartRunIs(left.(queue := left.queue[1..]), x, now);
  }

  /** The state of a waiting run: in the store, last in the queue, its adapter waiting for it. */
  ghost predicate WaitingNow(c: Coordinator, x: RunId, id: AdapterId, s: AdapterState, now: int) {
    && x in c.runs && x in c.store && c.store[x] == c.runs[x].run
    && c.queue != [] && c.queue[|c.queue| - 1] == x
    && c.runs[x].run == Run(x, id, RunQueued, now, None, None, None, None)
    && id in c.states && c.states[id] == s.(status := Waiting, pendingRunId := Some(x))
  }

  /** Some run of the adapter has been accepted and has not ended. */
  ghost predicate Unfinished(c: Coordinator, id: AdapterId, r: RunId) {
    r in c.runs && c.runs[r].run.adapterId == id && !c.runs[r].run.Terminal()
  }

  /** The answer to a trigger, in the order in which the reasons are looked at. */
  ghost predicate Answers(c: Coordinator, id: AdapterId, proposed: Option<RunId>, res: Result<Disposition, Refusal>) {
    if c.shuttingDown then res == Err(ShuttingDown)
    else if id !in c.states then res == Err(AdapterNotFound)
    else if id !in c.enabled || !c.enabled[id] || c.states[id].status == Disabled then res == Err(AdapterDisabled)
    else if exists r :: Unfinished(c, id, r) then res.Ok? && res.value.DCoalesced? && Unfinished(c, id, res.value.runId)
    else if proposed.None? then res == Err(InvalidId)
    else if proposed.value in c.runs || proposed.value in c.persisted then res == Err(RunIdCollision)
    else res == Ok(if |c.active| < c.concurrency then DStarted(proposed.value) else DQueued(proposed.value))
  }

  lemma AcceptAnswers(c: Coordinator, id: AdapterId, proposed: Option<RunId>, now: int)
    requires Inv(c)
    ensures Answers(c, id, proposed, Accept(c, id, proposed, now).1)
  {
    if !c.shuttingDown && id in c.states {
      assert AdapterOk(c, id);
      if exists r :: Unfinished(c, id, r) {
        var r :| Unfinished(c, id, r);
        UnfinishedIsBusy(c, id, r);
        TriggerCoalesces(c, id, proposed, now, r);
      } else {
        IdleIsNotBusy(c, id);
      }
    }
  }

  lemma UnfinishedIsBusy(c: Coordinator, id: AdapterId, r: RunId)
    requires Inv(c) && Unfinished(c, id, r)
    ensures id in c.states && Busy(c.states[id]) && Works(c, id)
  {
    assert RunOk(c, r) && AdapterOk(c, id);
  }

  lemma IdleIsNotBusy(c: Coordinator, id: AdapterId)
    requires Inv(c) && id in c.states && !exists r :: Unfinished(c, id, r)
    ensures !Busy(c.states[id])
  {
    assert AdapterOk(c, id);
    if c.states[id].activeRunId.Some? {
      assert Unfinished(c, id, c.states[id].activeRunId.value);
    }
    if c.states[id].pendingRunId.Some? {
      assert Unfinished(c, id, c.states[id].pendingRunId.value);
    }
  }

  /** An adapter as it is after a freshness check: ready becomes stale once the last success is too old. */
  predicate Checked(s: AdapterState, now: int, freshnessMs: int, t: AdapterState) {
    if s.status == Ready && s.lastSuccessfulAt.Some? && s.lastSuccessfulAt.value + freshnessMs <= now
    then t == s.(status := Stale) else t == s
  }

  lemma RefreshChecks(c: Coordinator, now: int)
    ensures Refresh(c, now) == c.(states := Refresh(c, now).states)
    ensures forall id :: id in c.states <==> id in Refresh(c, now).states
    ensures forall id :: id in c.states ==> Checked(c.states[id], now, c.freshnessMs, Refresh(c, now).states[id])
  {}

  lemma DispatchRecords(f: Coordinator, id: AdapterId, x: RunId, now: int)
    requires Inv(f) && !f.shuttingDown && id in f.states && !Busy(f.states[id]) && Works(f, id)
    requires x !in f.runs && x !in f.persisted
    ensures var p := Dispatch(f, id, x, now).0;
      && x in p.runs && p.runs[x].restore == f.states[id] && !p.runs[x].signalled
      && (if |f.active| < f.concurrency
          then UnderWayNow(p, x, NewRun(x, id, now), f.states[id], now) else WaitingNow(p, x, id, f.states[id], now))
  {
    DispatchEffect(f, id, x, now);
    AdmitNear(f, id, x, now);
    var a := Admit(f, id, x, now);
    if |a.active| < a.concurrency {
      StartRunIs(a, x, now);
    }
  }

  /** What accepting a new run writes down, and that it touches no other adapter beyond the freshness check. */
  lemma AcceptRecords(c: Coordinator, id: AdapterId, x: RunId, now: int) returns (s: AdapterState)
    requires Inv(c) && NewlyAccepted(c, id, x, now, Accept(c, id, Some(x), now).0)
    ensures id in c.states && Checked(c.states[id], now, c.freshnessMs, s)
    ensures var p := Accept(c, id, Some(x), now).0;
      && x in p.runs && p.runs[x].restore == s && !p.runs[x].signalled
      && (if |c.active| < c.concurrency
          then UnderWayNow(p, x, NewRun(x, id, now), s, now) else WaitingNow(p, x, id, s, now))
      && (forall d :: d in c.states && d != id ==>
            d in p.states && Checked(c.states[d], now, c.freshnessMs, p.states[d]))
  {
    var f := Refresh(c, now);
    s := f.states[id];
    RefreshInv(c, now);
    RefreshChecks(c, now);
    DispatchRecords(f, id, x, now);
    DispatchEffect(f, id, x, now);
  }

  // ---------------------------------------------------------------- every record, every run

  /** Starting is the only thing draining does to a run. */
  lemma {:induction false} DrainStarts(c: Coordinator, now: int, r: RunId)
    requires r in c.runs
    ensures r in Drain(c, now).runs
    ensures var run := Drain(c, now).runs[r].run;
      run == c.runs[r].run
      || (c.runs[r].run.status == RunQueued && run == c.runs[r].run.(status := RunSyncing, startedAt := Some(now)))
    decreases |c.queue|
  {
    if !(c.shuttingDown || |c.active| >= c.concurrency || |c.queue| == 0) {
      var p := StartRun(c.(queue := c.queue[1..]), c.queue[0], now);
      assert r in p.runs;
      DrainStarts(p, now, r);
    }
  }

  lemma SettleShaped(c: Coordinator, r: RunId, outcome: Outcome, now: int)
    requires Inv(c) && AllShaped(c)
    ensures AllShaped(Settle(c, r, outcome, now))
  {
    if r in c.inFlight && !c.shuttingDown {
      var verdict := CompletedRecord(c, r, outcome, now);
      var run, s := CompleteIs(c, r, outcome, now);
      var done := Complete(c, r, outcome, now);
      var left := done.(active := Without(done.active, r), inFlight := done.inFlight - {r});
      var p := Settle(c, r, outcome, now);
      assert Shaped(c.runs[r].run) && RunOk(c, r);
      forall x | x in p.runs ensures Shaped(p.runs[x].run) {
        if x in left.runs {
          DrainStarts(left, now, x);
          assert x != r ==> Shaped(c.runs[x].run);
        } else {
          DrainRuns(left, now, x);
        }
      }
    } else if r in c.inFlight {
      LateSettlementChangesNothing(c, r, outcome, now);
    }
  }

  lemma {:induction false} DrainRuns(c: Coordinator, now: int, r: RunId)
    ensures r in Drain(c, now).runs ==> r in c.runs
    decreases |c.queue|
  {
    if !(c.shuttingDown || |c.active| >= c.concurrency || |c.queue| == 0) {
      DrainRuns(StartRun(c.(queue := c.queue[1..]), c.queue[0], now), now, r);
    }
  }

  lemma AcceptFreshAdds(c: Coordinator, id: AdapterId, proposed: Option<RunId>, now: int, r: RunId)
    requires id in c.enabled && id in c.states && r !in c.runs && r in AcceptFresh(c, id, proposed, now).0.runs
    ensures proposed == Some(r)
    ensures AcceptFresh(c, id, proposed, now).1.Ok? && !AcceptFresh(c, id, proposed, now).1.value.DCoalesced?
  {}

  lemma AcceptAdds(c: Coordinator, id: AdapterId, proposed: Option<RunId>, now: int, r: RunId)
    requires r !in c.runs && r in Accept(c, id, proposed, now).0.runs
    ensures proposed == Some(r) && NewlyAccepted(c, id, r, now, Accept(c, id, proposed, now).0)
  {
    if !c.shuttingDown && id in c.enabled && id in c.states {
      AcceptFreshAdds(Refresh(c, now), id, proposed, now, r);
    }
  }

  lemma AcceptShaped(c: Coordinator, id: AdapterId, proposed: Option<RunId>, now: int)
    requires Inv(c) && AllShaped(c)
    ensures AllShaped(Accept(c, id, proposed, now).0)
  {
    forall r | r in Accept(c, id, proposed, now).0.runs ensures Shaped(Accept(c, id, proposed, now).0.runs[r].run) {
      if r in c.runs {
        AcceptKeeps(c, id, proposed, now, r);
        assert Shaped(c.runs[r].run);
      } else {
        AcceptAdds(c, id, proposed, now, r);
        NewShaped(c, id, r, now);
      }
    }
  }

  lemma NewShaped(c: Coordinator, id: AdapterId, x: RunId, now: int)
    requires Inv(c) && NewlyAccepted(c, id, x, now, Accept(c, id, Some(x), now).0)
    ensures x in Accept(c, id, Some(x), now).0.runs && Shaped(Accept(c, id, Some(x), now).0.runs[x].run)
  {
    var s := AcceptRecords(c, id, x, now);
  }

  lemma ShutdownShaped(c: Coordinator, now: int)
    requires Inv(c) && AllShaped(c)
    ensures AllShaped(Shutdown(c, now))
  {
    if !c.shuttingDown {
      ShutdownEffect(c, now);
      forall r | r in Shutdown(c, now).runs ensures Shaped(Shutdown(c, now).runs[r].run) {
        assert Shaped(c.runs[r].run) && RunOk(c, r);
      }
    }
  }

  lemma NextShaped(c: Coordinator, step: Step)
    requires Inv(c) && AllShaped(c)
    ensures AllShaped(Next(c, step))
  {
    if step.STrigger? {
      AcceptShaped(c, step.id, step.proposed, step.now);
    } else if step.SSettle? {
      SettleShaped(c, step.r, step.outcome, step.now);
    } else if step.SShutdown? {
      ShutdownShaped(c, step.now);
    } else {
      QuietShaped(c, step);
    }
  }

  lemma QuietShaped(c: Coordinator, step: Step)
    requires AllShaped(c) && !step.STrigger? && !step.SSettle? && !step.SShutdown?
    ensures AllShaped(Next(c, step))
  {
    forall r | r in Next(c, step).runs ensures r in c.runs && Next(c, step).runs[r].run == c.runs[r].run {}
  }

  /** In every reachable state each record has exactly the fields its status calls for. */
  lemma {:induction false} ReachableShaped(c: Coordinator, steps: seq<Step>)
    requires Inv(c) && AllShaped(c)
    ensures Inv(Exec(c, steps)) && AllShaped(Exec(c, steps))
    decreases |steps|
  {
    if steps != [] {
      NextInv(c, steps[0]);
      NextShaped(c, steps[0]);
      ReachableShaped(Next(c, steps[0]), steps[1..]);
    }
  }

  lemma FreshShaped(store: map<RunId, Run>, concurrency: int, freshnessMs: int, retentionMs: int, now: int, steps: seq<Step>)
    requires 1 <= concurrency <= 2
    ensures AllShaped(Exec(Init(store, concurrency, freshnessMs, retentionMs, now), steps))
  {
    InitInv(store, concurrency, freshnessMs, retentionMs, now);
    ReachableShaped(Init(store, concurrency, freshnessMs, retentionMs, now), steps);
  }

  // ---------------------------------------------------------------- what a status report shows

  /** A run that ended is kept for the retention time. */
  predicate Kept(run: Run, now: int, retentionMs: int) {
    run.completedAt.None? || now < run.completedAt.value + retentionMs
  }

  /** A report shows ready only for successes that are fresh, changes nothing else, and forgets old runs everywhere. */
  lemma StatusReport(c: Coordinator, now: int)
    requires Inv(c)
    ensures var p := Next(c, SGetStatus(now));
      && (forall id :: id in p.states <==> id in c.states)
      && (forall id :: id in c.states ==> Checked(c.states[id], now, c.freshnessMs, p.states[id]))
      && (forall id :: id in p.states && p.states[id].status == Ready ==>
            p.states[id].lastSuccessfulAt.Some? && now < p.states[id].lastSuccessfulAt.value + c.freshnessMs)
      && (forall r :: r in p.runs <==> r in c.runs && Kept(c.runs[r].run, now, c.retentionMs))
      && (forall r :: r in p.runs ==> p.runs[r] == c.runs[r])
      && (forall r :: r in p.persisted <==> r in c.persisted && Kept(c.persisted[r], now, c.retentionMs))
      && (forall r :: r in p.persisted ==> p.persisted[r] == c.persisted[r])
      && (forall r :: r in p.store <==> r in c.store
                                        && (r in c.runs || r in c.persisted ==> Kept(c.store[r], now, c.retentionMs)))
      && (forall r :: r in p.store ==> p.store[r] == c.store[r])
  {
    RefreshChecks(c, now);
    forall id | id in c.states ensures StatusOk(c.states[id]) { assert AdapterOk(c, id); }
    forall r | r in c.runs ensures c.store[r] == c.runs[r].run { assert RunOk(c, r); }
    forall r | r in c.persisted ensures c.store[r] == c.persisted[r] { assert PersistedOk(c, r); }
  }

  // ---------------------------------------------------------------- settings

  /** A row read back from the store: a run that was under way when the process died was aborted by that. */
  predicate Recovered(row: Run, now: int, run: Run) {
    if row.status == RunQueued || row.status == RunSyncing
    then run == row.(status := RunAborted, completedAt := Some(now), error := None) else run == row
  }

  /** A new scheduler knows the stored runs that are young enough and nothing else. */
  lemma InitMeans(store: map<RunId, Run>, concurrency: int, freshnessMs: int, retentionMs: int, now: int)
    ensures var c := Init(store, concurrency, freshnessMs, retentionMs, now);
      && c.concurrency == concurrency && c.freshnessMs == freshnessMs && c.retentionMs == retentionMs
      && c.states == map[] && c.enabled == map[] && c.runs == map[] && c.queue == [] && c.active == [] && c.inFlight == {}
      && !c.periodic && !c.shuttingDown && c.history == []
      && (forall r :: r in c.persisted
                      <==> r in store && (store[r].completedAt.None? || now - retentionMs <= store[r].completedAt.value))
      && (forall r :: r in c.persisted ==> Recovered(store[r], now, c.persisted[r]))
      && (forall r :: r in c.store <==> r in store)
      && (forall r :: r in c.store ==> c.store[r] == if r in c.persisted then c.persisted[r] else store[r])
  {}

  /** What trigger `i` of a batch is answered, given those before it. */
  function AnswerOf(c: Coordinator, ids: seq<AdapterId>, proposed: seq<Option<RunId>>, now: int, i: nat)
    : Result<Disposition, Refusal>
    requires |ids| == |proposed| && i < |ids|
  {
    Accept(Exec(c, Triggers(ids, proposed, now)[..i]), ids[i], proposed[i], now).1
  }

  lemma AnswerOfTail(c: Coordinator, ids: seq<AdapterId>, proposed: seq<Option<RunId>>, now: int, i: nat)
    requires |ids| == |proposed| && 0 < i < |ids|
    ensures AnswerOf(c, ids, proposed, now, i)
            == AnswerOf(Accept(c, ids[0], proposed[0], now).0, ids[1..], proposed[1..], now, i - 1)
  {
    var all := Triggers(ids, proposed, now);
    assert all[..i][0] == all[0] && all[..i][1..] == Triggers(ids[1..], proposed[1..], now)[..i - 1];
  }

  /** The answers are those of the triggers in order, or the refusal of the first that was refused. */
  ghost predicate Answered(c: Coordinator, ids: seq<AdapterId>, proposed: seq<Option<RunId>>, now: int,
                           res: Result<seq<Disposition>, Refusal>)
    requires |ids| == |proposed|
  {
    match res
    case Ok(answers) => |answers| == |ids| && forall i :: 0 <= i < |ids| ==> AnswerOf(c, ids, proposed, now, i) == Ok(answers[i])
    case Err(refusal) =>
      exists k :: 0 <= k < |ids| && AnswerOf(c, ids, proposed, now, k) == Err(refusal)
                  && forall i :: 0 <= i < k ==> AnswerOf(c, ids, proposed, now, i).Ok?
  }

  lemma AnsweredCons(c: Coordinator, c1: Coordinator, ids: seq<AdapterId>, proposed: seq<Option<RunId>>, now: int,
                     first: Disposition, rest: Result<seq<Disposition>, Refusal>)
    requires |ids| == |proposed| > 0 && Accept(c, ids[0], proposed[0], now) == (c1, Ok(first))
    requires Answered(c1, ids[1..], proposed[1..], now, rest)
    ensures Answered(c, ids, proposed, now, if rest.Err? then rest else Ok([first] + rest.value))
  {
    assert Exec(c, Triggers(ids, proposed, now)[..0]) == c;
    assert AnswerOf(c, ids, proposed, now, 0) == Ok(first);
    forall i | 0 < i < |ids|
      ensures AnswerOf(c, ids, proposed, now, i) == AnswerOf(c1, ids[1..], proposed[1..], now, i - 1)
    {
      AnswerOfTail(c, ids, proposed, now, i);
    }
    if rest.Err? {
      var k :| 0 <= k < |ids[1..]| && AnswerOf(c1, ids[1..], proposed[1..], now, k) == Err(rest.error)
               && forall i :: 0 <= i < k ==> AnswerOf(c1, ids[1..], proposed[1..], now, i).Ok?;
      assert AnswerOf(c, ids, proposed, now, k + 1) == Err(rest.error);
      forall i | 0 < i < k + 1 ensures AnswerOf(c, ids, proposed, now, i).Ok? {
        assert AnswerOf(c1, ids[1..], proposed[1..], now, i - 1).Ok?;
      }
    }
  }

  lemma {:induction false} AllAnswers(c: Coordinator, ids: seq<AdapterId>, proposed: seq<Option<RunId>>, now: int)
    requires |ids| == |proposed|
    ensures Answered(c, ids, proposed, now, AcceptAll(c, ids, proposed, now).1)
    decreases |ids|
  {
    if ids != [] {
      var (c1, first) := Accept(c, ids[0], proposed[0], now);
      if first.Ok? {
        AllAnswers(c1, ids[1..], proposed[1..], now);
        AnsweredCons(c, c1, ids, proposed, now, first.value, AcceptAll(c1, ids[1..], proposed[1..], now).1);
      } else {
        assert Exec(c, Triggers(ids, proposed, now)[..0]) == c;
        assert AnswerOf(c, ids, proposed, now, 0) == first;
      }
    }
  }

  /** Two slots unless fewer are asked for, and never none. */
  lemma ConcurrencyMeans(value: Option<int>, n: int)
    ensures NormalizeConcurrency(value) == Ok(n)
            <==> (value.None? && n == 2) || (value.Some? && 1 <= value.value && n == Min(value.value, 2))
    ensures NormalizeConcurrency(value).Err? ==> NormalizeConcurrency(value) == Err(InvalidConcurrency)
  {}

  /** A known adapter changes nothing; a new one starts without any history. */
  lemma RegisterRecords(c: Coordinator, id: AdapterId, on: bool)
    ensures var (p, res) := Register(c, id, on);
      if id in c.enabled then p == c && res == Err(AlreadyRegistered)
      else
        var s := AdapterState(if on then Idle else Disabled, None, None, None, None, None, None, None, 0);
        p == c.(enabled := c.enabled[id := on], states := c.states[id := s]) && res == Ok(s)
  {}

  /** Switching an adapter on shows what its last success is worth; only an adapter without work can be switched off. */
  lemma SetEnabledRecords(c: Coordinator, id: AdapterId, on: bool, now: int)
    requires Inv(c)
    ensures var (p, res) := SetEnabled(c, id, on, now);
      if id !in c.states then p == c && res == Err(AdapterNotFound)
      else if !on && exists r :: Unfinished(c, id, r) then p == c && res == Err(AdapterBusy)
      else
        && res.Ok? && p == c.(enabled := c.enabled[id := on], states := c.states[id := res.value])
        && res.value == c.states[id].(status := res.value.status)
        && (res.value.status == Disabled <==> !on)
        && (on ==> var t := c.states[id].lastSuccessfulAt;
              && (res.value.status == Idle <==> t.None?)
              && (res.value.status == Ready <==> t.Some? && now < t.value + c.freshnessMs)
              && (res.value.status == Stale <==> t.Some? && t.value + c.freshnessMs <= now))
  {
    if id in c.states {
      assert AdapterOk(c, id);
      if exists r :: Unfinished(c, id, r) {
        var r :| Unfinished(c, id, r);
        UnfinishedIsBusy(c, id, r);
      } else {
        IdleIsNotBusy(c, id);
      }
    }
  }

  /** A success reported from outside counts for an adapter that is switched on and has no run of its own. */
  lemma BackgroundRecords(c: Coordinator, id: AdapterId, now: int)
    requires Inv(c)
    ensures var p := MarkBackgroundSuccess(c, id, now);
      if id in c.states && c.states[id].status != Disabled && c.states[id].status != Syncing
         && !exists r :: Unfinished(c, id, r)
      then
        var s := c.states[id];
        p == c.(states := c.states[id := AdapterState(Ready, None, None, s.lastStartedAt, Some(now), Some(now),
                                                      s.nextScheduledAt, None, 0)],
                history := c.history + [Succeeded(id)])
      else p == c
  {
    if id in c.states {
      assert AdapterOk(c, id);
      if exists r :: Unfinished(c, id, r) {
        var r :| Unfinished(c, id, r);
        UnfinishedIsBusy(c, id, r);
      } else {
        IdleIsNotBusy(c, id);
      }
    }
  }

  /** The announced next tick is all a schedule changes. */
  ghost predicate Announced(c: Coordinator, p: Coordinator, targets: Option<set<AdapterId>>, at: int) {
    && (forall id :: id in p.states <==> id in c.states)
    && (forall id :: id in c.states ==>
          p.states[id] == if c.states[id].status != Disabled && (targets.Some? ==> id in targets.value)
                          then c.states[id].(nextScheduledAt := Some(at)) else c.states[id])
  }

  /** Starting the timer announces its first tick. */
  lemma StartPeriodicRecords(c: Coordinator, targets: Option<set<AdapterId>>, interval: int, now: int)
    ensures Next(c, SStartPeriodic(targets, interval, now)) == StartPeriodic(c, targets, interval, now).0
    ensures var (p, res) := StartPeriodic(c, targets, interval, now);
      if c.shuttingDown then p == c && res == Err(ShuttingDown)
      else if c.periodic || interval <= 0 then p == c && res == Ok(false)
      else if targets.Some? && exists id :: id in targets.value && id !in c.states then p == c && res == Err(AdapterNotFound)
      else
        res == Ok(true) && p == c.(states := p.states, periodic := true) && Announced(c, p, targets, now + interval)
  {}

  /** Each tick announces the next, and stopping withdraws what was announced. */
  lemma TickRecords(c: Coordinator, targets: Option<set<AdapterId>>, at: int)
    ensures var p := Next(c, STick(targets, at));
      if c.shuttingDown then p == c else p == c.(states := p.states) && Announced(c, p, targets, at)
    ensures var p := StopPeriodic(c);
      if !c.periodic then p == c
      else
        && p == c.(states := p.states, periodic := false)
        && (forall id :: id in p.states <==> id in c.states)
        && (forall id :: id in c.states ==> p.states[id] == c.states[id].(nextScheduledAt := None))
  {}

  /** A timeout raises the signal of a run whose promise is pending and leaves everything else alone. */
  lemma TimeoutRecords(c: Coordinator, r: RunId)
    requires Inv(c)
    ensures if r in c.inFlight && r in c.runs
            then Timeout(c, r) == c.(runs := c.runs[r := InternalRun(c.runs[r].run, true, c.runs[r].restore)])
            else Timeout(c, r) == c
  {}
}
