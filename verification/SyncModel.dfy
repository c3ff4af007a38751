/**
 The sync scheduler of apps/core/src/sync-coordinator.ts as a state machine on values.

 A `Coordinator` value is the whole state of one scheduler object together with the rows its
 persistence holds, the adapter promises that have not settled yet (`inFlight`) and a history of
 what happened.  Every public call, timer and promise continuation is one step; the class in
 SyncCoordinator.dfy performs the same steps on fields.  Times are integer milliseconds and each
 step reads the clock once.
 */
module SyncModel {
  import opened Common

  /** Identifiers are only ever compared for equality. */
  datatype AdapterId = AdapterId(text: string)
  datatype RunId = RunId(text: string)

  datatype AdapterStatus = Idle | Waiting | Syncing | Ready | Stale | Errored | Disabled
  datatype RunStatus = RunQueued | RunSyncing | RunSucceeded | RunFailed | RunAborted

  datatype SyncError = SyncError(code: string, summary: string)

  datatype SyncResult = SyncResult(discovered: int, committed: int, projected: int, watermark: int)

  datatype AdapterState = AdapterState(
    status: AdapterStatus,
    activeRunId: Option<RunId>,
    pendingRunId: Option<RunId>,
    lastStartedAt: Option<int>,
    lastCompletedAt: Option<int>,
    lastSuccessfulAt: Option<int>,
    nextScheduledAt: Option<int>,
    lastError: Option<SyncError>,
    consecutiveFailures: nat)

  datatype Run = Run(
    runId: RunId,
    adapterId: AdapterId,
    status: RunStatus,
    acceptedAt: int,
    startedAt: Option<int>,
    completedAt: Option<int>,
    result: Option<SyncResult>,
    error: Option<SyncError>)
  {
    predicate Terminal() { status.RunSucceeded? || status.RunFailed? || status.RunAborted? }
  }

  /** A run in memory: its record, whether its abort signal fired, and the adapter state to restore. */
  datatype InternalRun = InternalRun(run: Run, signalled: bool, restore: AdapterState)

  /** What an observer of the scheduler can record. */
  datatype Event =
    | Accepted(runId: RunId)
    | Started(runId: RunId)
    | Succeeded(adapterId: AdapterId)
    | Failed(adapterId: AdapterId)

  datatype Coordinator = Coordinator(
    enabled: map<AdapterId, bool>,
    states: map<AdapterId, AdapterState>,
    runs: map<RunId, InternalRun>,
    queue: seq<RunId>,
    active: seq<RunId>,
    inFlight: set<RunId>,
    persisted: map<RunId, Run>,
    store: map<RunId, Run>,
    concurrency: int,
    freshnessMs: int,
    retentionMs: int,
    periodic: bool,
    shuttingDown: bool,
    history: seq<Event>)

  datatype Refusal =
    | ShuttingDown | AdapterNotFound | AdapterDisabled | AdapterBusy | AlreadyRegistered
    | InvalidId | RunIdCollision | InvalidConcurrency

  datatype Disposition = DStarted(runId: RunId) | DQueued(runId: RunId) | DCoalesced(runId: RunId)

  /** How the promise returned by an adapter settles. */
  datatype Outcome = Resolved(result: SyncResult) | Rejected(error: SyncError)

  const TIMEOUT_ERROR := SyncError("SYNC_TIMEOUT", "Sync exceeded 3 minutes and was aborted")
  const INVALID_RESULT_ERROR := SyncError("INVALID_SYNC_RESULT", "count must be a non-negative safe integer")
  const MAX_SAFE_INTEGER := 9007199254740991

  // ---------------------------------------------------------------- small helpers

  function NormalizeConcurrency(value: Option<int>): Result<int, Refusal> {
    match value
    case None => Ok(2)
    case Some(v) => if v < 1 then Err(InvalidConcurrency) else Ok(if v < 2 then v else 2)
  }

  predicate SafeCount(n: int) { 0 <= n <= MAX_SAFE_INTEGER }

  predicate ValidResult(r: SyncResult) {
    SafeCount(r.discovered) && SafeCount(r.committed) && SafeCount(r.projected) && SafeCount(r.watermark)
  }

  predicate Busy(s: AdapterState) { s.activeRunId.Some? || s.pendingRunId.Some? }

  predicate Fresh(successAt: int, now: int, freshnessMs: int) { now - successAt < freshnessMs }

  function RefreshOne(s: AdapterState, now: int, freshnessMs: int): AdapterState {
    if s.status.Ready? && s.lastSuccessfulAt.Some? && !Fresh(s.lastSuccessfulAt.value, now, freshnessMs)
    then s.(status := Stale) else s
  }

  function Refresh(c: Coordinator, now: int): Coordinator {
    c.(states := map id | id in c.states :: RefreshOne(c.states[id], now, c.freshnessMs))
  }

  predicate Expired(r: Run, now: int, retentionMs: int) {
    r.completedAt.Some? && now - r.completedAt.value >= retentionMs
  }

  function Prune(c: Coordinator, now: int): Coordinator {
    c.(runs := map r | r in c.runs && !Expired(c.runs[r].run, now, c.retentionMs) :: c.runs[r],
       persisted := map r | r in c.persisted && !Expired(c.persisted[r], now, c.retentionMs) :: c.persisted[r],
       store := map r | r in c.store
                        && !(r in c.runs && Expired(c.runs[r].run, now, c.retentionMs))
                        && !(r in c.persisted && Expired(c.persisted[r], now, c.retentionMs)) :: c.store[r])
  }

  /** Deleting from an insertion-ordered set. */
  function Without<T(==)>(s: seq<T>, x: T): seq<T> {
    if s == [] then []
    else if s[0] == x then Without(s[1..], x)
    else [s[0]] + Without(s[1..], x)
  }

  function With<T(==)>(s: seq<T>, x: T): seq<T> {
    if x in s then s else s + [x]
  }

  // ---------------------------------------------------------------- registration and settings

  const FRESH_STATE := AdapterState(Idle, None, None, None, None, None, None, None, 0)

  function Register(c: Coordinator, id: AdapterId, on: bool): (Coordinator, Result<AdapterState, Refusal>) {
    if id in c.enabled then (c, Err(AlreadyRegistered))
    else
      var s := FRESH_STATE.(status := if on then Idle else Disabled);
      (c.(enabled := c.enabled[id := on], states := c.states[id := s]), Ok(s))
  }

  function EnabledStatus(s: AdapterState, on: bool, now: int, freshnessMs: int): AdapterStatus {
    if !on then Disabled
    else if s.lastSuccessfulAt.None? then Idle
    else if Fresh(s.lastSuccessfulAt.value, now, freshnessMs) then Ready
    else Stale
  }

  function SetEnabled(c: Coordinator, id: AdapterId, on: bool, now: int)
    : (Coordinator, Result<AdapterState, Refusal>)
  {
    if id !in c.enabled || id !in c.states then (c, Err(AdapterNotFound))
    else if !on && Busy(c.states[id]) then (c, Err(AdapterBusy))
    else
      var s := c.states[id].(status := EnabledStatus(c.states[id], on, now, c.freshnessMs));
      (c.(enabled := c.enabled[id := on], states := c.states[id := s]), Ok(s))
  }

  function Schedule(c: Coordinator, targets: Option<set<AdapterId>>, at: Option<int>): Coordinator {
    c.(states := map id | id in c.states ::
      if c.states[id].status != Disabled && (targets.None? || id in targets.value)
      then c.states[id].(nextScheduledAt := at) else c.states[id])
  }

  function StartPeriodic(c: Coordinator, targets: Option<set<AdapterId>>, interval: int, now: int)
    : (Coordinator, Result<bool, Refusal>)
  {
    if c.shuttingDown then (c, Err(ShuttingDown))
    else if c.periodic || interval <= 0 then (c, Ok(false))
    else if targets.Some? && !(targets.value <= c.states.Keys) then (c, Err(AdapterNotFound))
    else (Schedule(c, targets, Some(now + interval)).(periodic := true), Ok(true))
  }

  function StopPeriodic(c: Coordinator): Coordinator {
    if !c.periodic then c
    else c.(periodic := false,
            states := map id | id in c.states :: c.states[id].(nextScheduledAt := None))
  }

  function MarkBackgroundSuccess(c: Coordinator, id: AdapterId, now: int): Coordinator {
    if id !in c.states then c
    else
      var s := c.states[id];
      if Busy(s) || s.status == Syncing || s.status == Disabled then c
      else c.(states := c.states[id := s.(status := Ready, lastCompletedAt := Some(now),
                                          lastSuccessfulAt := Some(now), lastError := None,
                                          consecutiveFailures := 0)],
              history := c.history + [Succeeded(id)])
  }

  // ---------------------------------------------------------------- accepting, starting, settling

  function PersistRun(c: Coordinator, run: Run): Coordinator {
    var saved := c.(store := c.store[run.runId := run]);
    if run.runId in c.runs then saved
    else saved.(persisted := saved.persisted[run.runId := run])
  }

  function SetRun(c: Coordinator, r: RunId, run: Run): Coordinator
    requires r in c.runs
  {
    PersistRun(c.(runs := c.runs[r := c.runs[r].(run := run)]), run)
  }

  /** The adapter turns busy with run `r`, which takes a slot and whose promise is now pending. */
  function Occupy(c: Coordinator, id: AdapterId, r: RunId, now: int): Coordinator
    requires id in c.states
  {
    c.(states := c.states[id := c.states[id].(status := Syncing, activeRunId := Some(r),
                                              pendingRunId := None, lastStartedAt := Some(now))],
       active := With(c.active, r),
       inFlight := c.inFlight + {r},
       history := c.history + [Started(r)])
  }

  function StartRun(c: Coordinator, r: RunId, now: int): Coordinator {
    if r !in c.runs || c.runs[r].run.status != RunQueued || c.shuttingDown
       || c.runs[r].run.adapterId !in c.states then c
    else
      var run := c.runs[r].run.(status := RunSyncing, startedAt := Some(now));
      SetRun(Occupy(c, run.adapterId, r, now), r, run)
  }

  function NewRun(r: RunId, id: AdapterId, now: int): Run {
    Run(r, id, RunQueued, now, None, None, None, None)
  }

  /** The new run is recorded and persisted; starting or queueing it comes next. */
  function Admit(c: Coordinator, id: AdapterId, r: RunId, now: int): Coordinator
    requires id in c.states
  {
    PersistRun(c.(runs := c.runs[r := InternalRun(NewRun(r, id, now), false, c.states[id])],
                  history := c.history + [Accepted(r)]),
               NewRun(r, id, now))
  }

  function Enqueue(c: Coordinator, id: AdapterId, r: RunId): Coordinator
    requires id in c.states
  {
    c.(queue := c.queue + [r],
       states := c.states[id := c.states[id].(pendingRunId := Some(r), status := Waiting)])
  }

  /** A new run starts at once when a slot is free and joins the queue otherwise. */
  function Dispatch(c: Coordinator, id: AdapterId, r: RunId, now: int): (Coordinator, Disposition)
    requires id in c.states
  {
    var a := Admit(c, id, r, now);
    if |a.active| < a.concurrency then (StartRun(a, r, now), DStarted(r)) else (Enqueue(a, id, r), DQueued(r))
  }

  /** `proposed` is what the run id factory returns, None standing for a blank id. */
  function Accept(c: Coordinator, id: AdapterId, proposed: Option<RunId>, now: int)
    : (Coordinator, Result<Disposition, Refusal>)
  {
    if c.shuttingDown then (c, Err(ShuttingDown))
    else if id !in c.enabled || id !in c.states then (c, Err(AdapterNotFound))
    else AcceptFresh(Refresh(c, now), id, proposed, now)
  }

  /** The part of accepting that follows the freshness pass. */
  function AcceptFresh(c: Coordinator, id: AdapterId, proposed: Option<RunId>, now: int)
    : (Coordinator, Result<Disposition, Refusal>)
    requires id in c.enabled && id in c.states
  {
    var s := c.states[id];
    if !c.enabled[id] || s.status == Disabled then (c, Err(AdapterDisabled))
    else if s.activeRunId.Some? then (c, Ok(DCoalesced(s.activeRunId.value)))
    else if s.pendingRunId.Some? then (c, Ok(DCoalesced(s.pendingRunId.value)))
    else if proposed.None? then (c, Err(InvalidId))
    else if proposed.value in c.runs || proposed.value in c.persisted then (c, Err(RunIdCollision))
    else
      var (p, d) := Dispatch(c, id, proposed.value, now);
      (p, Ok(d))
  }

  function CompleteSuccess(c: Coordinator, r: RunId, result: SyncResult, now: int): Coordinator {
    if r !in c.runs || c.runs[r].run.status != RunSyncing || c.runs[r].run.adapterId !in c.states then c
    else
      var run := c.runs[r].run;
      var c1 := SetRun(c, r, run.(status := RunSucceeded, completedAt := Some(now),
                                  result := Some(result), error := None));
      var s := c1.states[run.adapterId];
      c1.(states := c1.states[run.adapterId := s.(status := Ready, activeRunId := None, pendingRunId := None,
                                                  lastCompletedAt := Some(now), lastSuccessfulAt := Some(now),
                                                  lastError := None, consecutiveFailures := 0)],
          history := c1.history + [Succeeded(run.adapterId)])
  }

  function CompleteFailure(c: Coordinator, r: RunId, error: SyncError, now: int): Coordinator {
    if r !in c.runs || c.runs[r].run.status != RunSyncing || c.runs[r].run.adapterId !in c.states then c
    else
      var run := c.runs[r].run;
      var c1 := SetRun(c, r, run.(status := RunFailed, completedAt := Some(now), error := Some(error)));
      var s := c1.states[run.adapterId];
      c1.(states := c1.states[run.adapterId :=
                      s.(status := if c.runs[r].restore.lastSuccessfulAt.None? then Errored else Stale,
                         activeRunId := None, pendingRunId := None, lastCompletedAt := Some(now),
                         lastError := Some(error), consecutiveFailures := s.consecutiveFailures + 1)],
          history := c1.history + [Failed(run.adapterId)])
  }

  /** What the continuation of `adapter.sync` does to the run before the scheduler drains. */
  function Complete(c: Coordinator, r: RunId, outcome: Outcome, now: int): Coordinator {
    if r !in c.runs then c
    else
      var i := c.runs[r];
      if c.shuttingDown || i.signalled || i.run.status == RunAborted then
        if i.signalled && !c.shuttingDown && i.run.status == RunSyncing
        then CompleteFailure(c, r, TIMEOUT_ERROR, now) else c
      else
        match outcome
        case Resolved(result) =>
          if ValidResult(result) then CompleteSuccess(c, r, result, now)
          else CompleteFailure(c, r, INVALID_RESULT_ERROR, now)
        case Rejected(error) => CompleteFailure(c, r, error, now)
  }

  function Drain(c: Coordinator, now: int): Coordinator
    decreases |c.queue|
  {
    if c.shuttingDown || |c.active| >= c.concurrency || |c.queue| == 0 then c
    else Drain(StartRun(c.(queue := c.queue[1..]), c.queue[0], now), now)
  }

  /** A promise settles at most once: settling something that is not in flight is not a step. */
  function Settle(c: Coordinator, r: RunId, outcome: Outcome, now: int): Coordinator {
    if r !in c.inFlight then c
    else
      var done := Complete(c, r, outcome, now);
      var left := done.(active := Without(done.active, r), inFlight := done.inFlight - {r});
      if left.shuttingDown then left else Drain(left, now)
  }

  function Timeout(c: Coordinator, r: RunId): Coordinator {
    if r in c.inFlight && r in c.runs then c.(runs := c.runs[r := c.runs[r].(signalled := true)]) else c
  }

  function AbortRun(c: Coordinator, r: RunId, now: int): Coordinator {
    if r !in c.runs then c
    else
      var c1 := if c.runs[r].run.Terminal() || c.runs[r].run.adapterId !in c.states then c
                else
                  var c2 := SetRun(c, r, c.runs[r].run.(status := RunAborted, completedAt := Some(now), error := None));
                  c2.(states := c2.states[c.runs[r].run.adapterId := c.runs[r].restore]);
      c1.(runs := c1.runs[r := c1.runs[r].(signalled := true)])
  }

  function AbortAll(c: Coordinator, ids: seq<RunId>, now: int): Coordinator
    decreases |ids|
  {
    if ids == [] then c else AbortAll(AbortRun(c, ids[0], now), ids[1..], now)
  }

  function Shutdown(c: Coordinator, now: int): Coordinator {
    if c.shuttingDown then c
    else
      var open := StopPeriodic(c.(shuttingDown := true));
      AbortAll(open.(queue := []), c.queue + c.active, now).(active := [])
  }

  // ---------------------------------------------------------------- start of life

  /** Rows kept by the store on load; runs interrupted by a crash come back as aborted. */
  function LoadRow(row: Run, now: int): Run {
    if row.status == RunQueued || row.status == RunSyncing
    then row.(status := RunAborted, completedAt := Some(now), error := None) else row
  }

  predicate Loaded(row: Run, now: int, retentionMs: int) {
    row.completedAt.None? || row.completedAt.value >= now - retentionMs
  }

  function Init(store: map<RunId, Run>, concurrency: int, freshnessMs: int, retentionMs: int, now: int): Coordinator {
    var rows := map r | r in store && Loaded(store[r], now, retentionMs) :: LoadRow(store[r], now);
    Coordinator(map[], map[], map[], [], [], {}, rows, store + rows,
                concurrency, freshnessMs, retentionMs, false, false, [])
  }

  // ---------------------------------------------------------------- runs of the machine

  datatype Step =
    | SRegister(id: AdapterId, on: bool)
    | SSetEnabled(id: AdapterId, on: bool, now: int)
    | STrigger(id: AdapterId, proposed: Option<RunId>, now: int)
    | STimeout(r: RunId)
    | SSettle(r: RunId, outcome: Outcome, now: int)
    | SMarkBackground(id: AdapterId, now: int)
    | SGetStatus(now: int)
    | SPrune(now: int)
    | SStartPeriodic(targets: Option<set<AdapterId>>, interval: int, now: int)
    | STick(targets: Option<set<AdapterId>>, at: int)
    | SStopPeriodic
    | SShutdown(now: int)

  function Next(c: Coordinator, step: Step): Coordinator {
    match step
    case SRegister(id, on) => Register(c, id, on).0
    case SSetEnabled(id, on, now) => SetEnabled(c, id, on, now).0
    case STrigger(id, proposed, now) => Accept(c, id, proposed, now).0
    case STimeout(r) => Timeout(c, r)
    case SSettle(r, outcome, now) => Settle(c, r, outcome, now)
    case SMarkBackground(id, now) => MarkBackgroundSuccess(c, id, now)
    case SGetStatus(now) => Prune(Refresh(c, now), now)
    case SPrune(now) => Prune(c, now)
    case SStartPeriodic(targets, interval, now) => StartPeriodic(c, targets, interval, now).0
    case STick(targets, at) => if c.shuttingDown then c else Schedule(c, targets, Some(at))
    case SStopPeriodic => StopPeriodic(c)
    case SShutdown(now) => Shutdown(c, now)
  }

  function Exec(c: Coordinator, steps: seq<Step>): Coordinator
    decreases |steps|
  {
    if steps == [] then c else Exec(Next(c, steps[0]), steps[1..])
  }

  /** The adapters a scheduler is made with are registered one after the other. */
  function Registrations(adapters: seq<(AdapterId, bool)>): seq<Step> {
    seq(|adapters|, i requires 0 <= i < |adapters| => SRegister(adapters[i].0, adapters[i].1))
  }

  /** manualSync, startInitialSync: refused after shutdown and without a request id, whatever is asked for. */
  function AcceptBatch(c: Coordinator, requestId: Option<string>, ids: seq<AdapterId>, proposed: seq<Option<RunId>>,
                       now: int)
    : (Coordinator, Result<seq<Disposition>, Refusal>)
    requires |ids| == |proposed|
  {
    if c.shuttingDown then (c, Err(ShuttingDown))
    else if requestId.None? then (c, Err(InvalidId))
    else AcceptAll(c, ids, proposed, now)
  }

  /** One accept per adapter, in order, stopping at the first refusal. */
  function AcceptAll(c: Coordinator, ids: seq<AdapterId>, proposed: seq<Option<RunId>>, now: int)
    : (Coordinator, Result<seq<Disposition>, Refusal>)
    requires |ids| == |proposed|
    decreases |ids|
  {
    if ids == [] then (c, Ok([]))
    else
      var (c1, first) := Accept(c, ids[0], proposed[0], now);
      if first.Err? then (c1, Err(first.error))
      else
        var (c2, rest) := AcceptAll(c1, ids[1..], proposed[1..], now);
        (c2, if rest.Err? then rest else Ok([first.value] + rest.value))
  }
}
