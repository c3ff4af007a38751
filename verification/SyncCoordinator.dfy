/**
 The scheduler object itself: fields updated in place by every method.  Each method is proved to
 take the object's abstract state through the corresponding step of SyncModel, so everything
 proved about that machine holds of the object.
 */
module SyncCoordinators {
  import opened Common
  import opened SyncModel
  import opened SyncInvariants

  class SyncCoordinator {
    var enabled: map<AdapterId, bool>
    var states: map<AdapterId, AdapterState>
    var runs: map<RunId, InternalRun>
    var queuedRunIds: seq<RunId>
    var activeRunIds: seq<RunId>
    var inFlight: set<RunId>          // promises returned by adapters that have not settled
    var persistedRuns: map<RunId, Run>
    var store: map<RunId, Run>        // the rows of the persistence
    var concurrency: int
    var freshnessMs: int
    var runRetentionMs: int
    var periodic: bool
    var shuttingDown: bool
    ghost var history: seq<Event>

    ghost function Abs(): Coordinator
      reads this
    {
      Coordinator(enabled, states, runs, queuedRunIds, activeRunIds, inFlight, persistedRuns, store,
                  concurrency, freshnessMs, runRetentionMs, periodic, shuttingDown, history)
    }

    ghost predicate Valid()
      reads this
    {
      Inv(Abs())
    }

    constructor (rows: map<RunId, Run>, slots: int, freshness: int, retention: int, now: int)
      requires 1 <= slots <= 2
      ensures Valid() && Abs() == Init(rows, slots, freshness, retention, now)
    {
      var loaded := map r | r in rows && Loaded(rows[r], now, retention) :: LoadRow(rows[r], now);
      enabled, states, runs := map[], map[], map[];
      queuedRunIds, activeRunIds, inFlight := [], [], {};
      persistedRuns, store := loaded, rows + loaded;
      concurrency := slots;
      freshnessMs, runRetentionMs := freshness, retention;
      periodic, shuttingDown, history := false, false, [];
      new;
      InitInv(rows, slots, freshness, retention, now);
    }

    /**
     A scheduler made with its adapters; a bad concurrency or an adapter named twice refuses the
     whole object.
     */
    static method Create(rows: map<RunId, Run>, maxConcurrency: Option<int>, freshness: int, retention: int,
                         adapters: seq<(AdapterId, bool)>, now: int)
      returns (res: Result<SyncCoordinator, Refusal>)
      ensures res.Ok? <==> NormalizeConcurrency(maxConcurrency).Ok? && NoDup(Names(adapters))
      ensures res.Err? ==>
                res.error == if NormalizeConcurrency(maxConcurrency).Err? then InvalidConcurrency else AlreadyRegistered
      ensures res.Ok? ==>
                && fresh(res.value) && res.value.Valid()
                && res.value.Abs() == Exec(Init(rows, NormalizeConcurrency(maxConcurrency).value, freshness,
                                                retention, now), Registrations(adapters))
    {
      var slots := NormalizeConcurrency(maxConcurrency);
      if slots.Err? { return Err(slots.error); }
      var c := new SyncCoordinator(rows, slots.value, freshness, retention, now);
      ghost var start := c.Abs();
      for i := 0 to |adapters|
        invariant fresh(c) && c.Abs() == Exec(start, Registrations(adapters[..i]))
        invariant NoDup(Names(adapters[..i]))
        invariant forall id :: id in c.enabled <==> id in Names(adapters[..i])
      {
        RegistrationsStep(adapters, i);
        ExecStep(start, Registrations(adapters[..i]), SRegister(adapters[i].0, adapters[i].1));
        var state := c.Register(adapters[i].0, adapters[i].1);
        NoDupAppend(Names(adapters[..i]), adapters[i].0);
        if state.Err? {
          if NoDup(Names(adapters)) { NoDupPrefix(Names(adapters), i + 1); }
          return Err(state.error);
        }
      }
      assert adapters[..|adapters|] == adapters;
      ReachableInv(start, Registrations(adapters));
      res := Ok(c);
    }

    static function Names(adapters: seq<(AdapterId, bool)>): seq<AdapterId> {
      seq(|adapters|, i requires 0 <= i < |adapters| => adapters[i].0)
    }

    static lemma NoDupPrefix(s: seq<AdapterId>, n: nat)
      requires NoDup(s) && n <= |s|
      ensures NoDup(s[..n])
    {}

    static lemma RegistrationsStep(adapters: seq<(AdapterId, bool)>, i: nat)
      requires i < |adapters|
      ensures Names(adapters[..i + 1]) == Names(adapters[..i]) + [adapters[i].0]
      ensures Names(adapters)[..i + 1] == Names(adapters[..i + 1])
      ensures Registrations(adapters[..i + 1])
              == Registrations(adapters[..i]) + [SRegister(adapters[i].0, adapters[i].1)]
    {}

    static lemma {:induction false} ExecStep(c: Coordinator, steps: seq<Step>, step: Step)
      ensures Exec(c, steps + [step]) == Next(Exec(c, steps), step)
      decreases |steps|
    {
      if steps != [] {
        ExecStep(Next(c, steps[0]), steps[1..], step);
        assert (steps + [step])[1..] == steps[1..] + [step];
      } else {
        assert (steps + [step])[1..] == [];
      }
    }

    method Register(id: AdapterId, on: bool) returns (res: Result<AdapterState, Refusal>)
      modifies this
      ensures (Abs(), res) == SyncModel.Register(old(Abs()), id, on)
    {
      if id in enabled { return Err(AlreadyRegistered); }
      var s := FRESH_STATE.(status := if on then Idle else Disabled);
      enabled := enabled[id := on];
      states := states[id := s];
      res := Ok(s);
    }

    method SetEnabled(id: AdapterId, on: bool, now: int) returns (res: Result<AdapterState, Refusal>)
      modifies this
      ensures (Abs(), res) == SyncModel.SetEnabled(old(Abs()), id, on, now)
    {
      if id !in enabled || id !in states { return Err(AdapterNotFound); }
      var s := states[id];
      if !on && Busy(s) { return Err(AdapterBusy); }
      enabled := enabled[id := on];
      s := s.(status := EnabledStatus(s, on, now, freshnessMs));
      states := states[id := s];
      res := Ok(s);
    }

    /** `ready` states whose last success is too old become `stale`, one adapter after the other. */
    method RefreshFreshness(now: int)
      modifies this`states
      ensures Abs() == Refresh(old(Abs()), now)
    {
      var todo := states.Keys;
      ghost var was := states;
      while todo != {}
        invariant todo <= was.Keys && states.Keys == was.Keys
        invariant forall id :: id in was ==>
                    states[id] == if id in todo then was[id] else RefreshOne(was[id], now, freshnessMs)
        decreases todo
      {
        var id :| id in todo;
        if states[id].status.Ready? && states[id].lastSuccessfulAt.Some?
           && !Fresh(states[id].lastSuccessfulAt.value, now, freshnessMs) {
          states := states[id := states[id].(status := Stale)];
        }
        todo := todo - {id};
      }
      assert states == Refresh(old(Abs()), now).states;
    }

    /** Both run tables and the store lose the runs whose retention has passed. */
    method PruneRuns(now: int)
      requires Valid()
      modifies this
      ensures Abs() == Prune(old(Abs()), now)
    {
      ghost var was := Abs();
      PruneInMemory(now);
      PrunePersisted(now);
      PrunedIs(was, runs, persistedRuns, store, now);
    }

    static lemma PrunedIs(c: Coordinator, runs: map<RunId, InternalRun>, persisted: map<RunId, Run>,
                          store: map<RunId, Run>, now: int)
      requires forall r :: r in runs <==> r in c.runs && !Expired(c.runs[r].run, now, c.retentionMs)
      requires forall r :: r in runs ==> runs[r] == c.runs[r]
      requires forall r :: r in persisted <==> r in c.persisted && !Expired(c.persisted[r], now, c.retentionMs)
      requires forall r :: r in persisted ==> persisted[r] == c.persisted[r]
      requires forall r :: r in store <==>
                 && r in c.store
                 && !(r in c.runs && Expired(c.runs[r].run, now, c.retentionMs))
                 && !(r in c.persisted && Expired(c.persisted[r], now, c.retentionMs))
      requires forall r :: r in store ==> store[r] == c.store[r]
      ensures c.(runs := runs, persisted := persisted, store := store) == Prune(c, now)
    {
      assert runs == Prune(c, now).runs;
      assert persisted == Prune(c, now).persisted;
      assert store == Prune(c, now).store;
    }

    method PruneInMemory(now: int)
      modifies this`runs, this`store
      ensures forall r :: r in runs <==> r in old(runs) && !Expired(old(runs)[r].run, now, runRetentionMs)
      ensures forall r :: r in runs ==> runs[r] == old(runs)[r]
      ensures forall r :: r in store <==>
                r in old(store) && !(r in old(runs) && Expired(old(runs)[r].run, now, runRetentionMs))
      ensures forall r :: r in store ==> store[r] == old(store)[r]
    {
      var todo := runs.Keys;
      while todo != {}
        invariant todo <= old(runs).Keys
        invariant forall r :: r in runs <==>
                    r in old(runs) && (r in todo || !Expired(old(runs)[r].run, now, runRetentionMs))
        invariant forall r :: r in runs ==> runs[r] == old(runs)[r]
        invariant forall r :: r in store <==>
                    r in old(store)
                    && !(r in old(runs) && r !in todo && Expired(old(runs)[r].run, now, runRetentionMs))
        invariant forall r :: r in store ==> store[r] == old(store)[r]
        decreases todo
      {
        var r :| r in todo;
        if Expired(runs[r].run, now, runRetentionMs) {
          runs := runs - {r};
          store := store - {r};
        }
        todo := todo - {r};
      }
    }

    method PrunePersisted(now: int)
      modifies this`persistedRuns, this`store
      ensures forall r :: r in persistedRuns <==>
                r in old(persistedRuns) && !Expired(old(persistedRuns)[r], now, runRetentionMs)
      ensures forall r :: r in persistedRuns ==> persistedRuns[r] == old(persistedRuns)[r]
      ensures forall r :: r in store <==>
                r in old(store) && !(r in old(persistedRuns) && Expired(old(persistedRuns)[r], now, runRetentionMs))
      ensures forall r :: r in store ==> store[r] == old(store)[r]
    {
      var todo := persistedRuns.Keys;
      while todo != {}
        invariant todo <= old(persistedRuns).Keys
        invariant forall r :: r in persistedRuns <==>
                    r in old(persistedRuns) && (r in todo || !Expired(old(persistedRuns)[r], now, runRetentionMs))
        invariant forall r :: r in persistedRuns ==> persistedRuns[r] == old(persistedRuns)[r]
        invariant forall r :: r in store <==>
                    r in old(store)
                    && !(r in old(persistedRuns) && r !in todo && Expired(old(persistedRuns)[r], now, runRetentionMs))
        invariant forall r :: r in store ==> store[r] == old(store)[r]
        decreases todo
      {
        var r :| r in todo;
        if Expired(persistedRuns[r], now, runRetentionMs) {
          persistedRuns := persistedRuns - {r};
          store := store - {r};
        }
        todo := todo - {r};
      }
    }

    method GetStatus(now: int) returns (snapshot: map<AdapterId, AdapterState>)
      requires Valid()
      modifies this
      ensures Abs() == Next(old(Abs()), SGetStatus(now)) && Valid()
      ensures snapshot == states
    {
      ghost var was := Abs();
      NextInv(was, SGetStatus(now));
      RefreshInv(was, now);
      RefreshFreshness(now);
      PruneRuns(now);
      snapshot := states;
    }

    method MarkBackgroundSuccess(id: AdapterId, now: int)
      modifies this
      ensures Abs() == SyncModel.MarkBackgroundSuccess(old(Abs()), id, now)
    {
      if id in states {
        var s := states[id];
        if !Busy(s) && s.status != Syncing && s.status != Disabled {
          states := states[id := s.(status := Ready, lastCompletedAt := Some(now), lastSuccessfulAt := Some(now),
                                    lastError := None, consecutiveFailures := 0)];
          history := history + [Succeeded(id)];
        }
      }
    }

    method PersistRun(run: Run)
      modifies this`store, this`persistedRuns
      ensures Abs() == SyncModel.PersistRun(old(Abs()), run)
    {
      store := store[run.runId := run];
      if run.runId !in runs {
        persistedRuns := persistedRuns[run.runId := run];
      }
    }

    method SetRun(r: RunId, run: Run)
      requires r in runs
      modifies this`runs, this`store, this`persistedRuns
      ensures Abs() == SyncModel.SetRun(old(Abs()), r, run)
    {
      runs := runs[r := runs[r].(run := run)];
      PersistRun(run);
    }

    method Occupy(id: AdapterId, r: RunId, now: int)
      requires id in states
      modifies this`states, this`activeRunIds, this`inFlight, this`history
      ensures Abs() == SyncModel.Occupy(old(Abs()), id, r, now)
    {
      states := states[id := states[id].(status := Syncing, activeRunId := Some(r), pendingRunId := None,
                                         lastStartedAt := Some(now))];
      activeRunIds := With(activeRunIds, r);
      inFlight := inFlight + {r};   // execute() will be waiting for the adapter
      history := history + [Started(r)];
    }

    method StartRun(r: RunId, now: int)
      modifies this
      ensures Abs() == SyncModel.StartRun(old(Abs()), r, now)
    {
      if r in runs && runs[r].run.status == RunQueued && !shuttingDown && runs[r].run.adapterId in states {
        var run := runs[r].run.(status := RunSyncing, startedAt := Some(now));
        Occupy(run.adapterId, r, now);
        SetRun(r, run);
      }
    }

    /** Coalesce with the run under way, or create one and start or queue it. */
    method Accept(id: AdapterId, proposed: Option<RunId>, now: int) returns (res: Result<Disposition, Refusal>)
      modifies this
      ensures (Abs(), res) == SyncModel.Accept(old(Abs()), id, proposed, now)
    {
      if shuttingDown { return Err(ShuttingDown); }
      if id !in enabled || id !in states { return Err(AdapterNotFound); }
      RefreshFreshness(now);
      res := AcceptFresh(id, proposed, now);
    }

    method AcceptFresh(id: AdapterId, proposed: Option<RunId>, now: int) returns (res: Result<Disposition, Refusal>)
      requires id in enabled && id in states
      modifies this
      ensures (Abs(), res) == SyncModel.AcceptFresh(old(Abs()), id, proposed, now)
    {
      var s := states[id];
      if !enabled[id] || s.status == Disabled { return Err(AdapterDisabled); }
      if s.activeRunId.Some? { return Ok(DCoalesced(s.activeRunId.value)); }
      if s.pendingRunId.Some? { return Ok(DCoalesced(s.pendingRunId.value)); }
      if proposed.None? { return Err(InvalidId); }
      var r := proposed.value;
      if r in runs || r in persistedRuns { return Err(RunIdCollision); }
      var d := Dispatch(id, r, now);
      res := Ok(d);
    }

    method Dispatch(id: AdapterId, r: RunId, now: int) returns (d: Disposition)
      requires id in states
      modifies this
      ensures (Abs(), d) == SyncModel.Dispatch(old(Abs()), id, r, now)
    {
      var run := NewRun(r, id, now);
      runs := runs[r := InternalRun(run, false, states[id])];
      history := history + [Accepted(r)];
      PersistRun(run);
      assert Abs() == Admit(old(Abs()), id, r, now);
      if |activeRunIds| < concurrency {
        StartRun(r, now);
        return DStarted(r);
      }
      queuedRunIds := queuedRunIds + [r];
      states := states[id := states[id].(pendingRunId := Some(r), status := Waiting)];
      d := DQueued(r);
    }

    /** manualSync, triggerAll, startInitialSync: a closed scheduler refuses also the empty batch. */
    method AcceptAdapters(requestId: Option<string>, ids: seq<AdapterId>, proposed: seq<Option<RunId>>, now: int)
      returns (res: Result<seq<Disposition>, Refusal>)
      requires |ids| == |proposed|
      modifies this
      ensures (Abs(), res) == AcceptBatch(old(Abs()), requestId, ids, proposed, now)
    {
      if shuttingDown { return Err(ShuttingDown); }
      if requestId.None? { return Err(InvalidId); }
      res := AcceptEach(ids, proposed, now);
    }

    /** Accept adapter after adapter, stopping at a refusal. */
    method AcceptEach(ids: seq<AdapterId>, proposed: seq<Option<RunId>>, now: int)
      returns (res: Result<seq<Disposition>, Refusal>)
      requires |ids| == |proposed|
      modifies this
      ensures (Abs(), res) == AcceptAll(old(Abs()), ids, proposed, now)
      decreases |ids|
    {
      if |ids| == 0 { return Ok([]); }
      var first := Accept(ids[0], proposed[0], now);
      if first.Err? { return Err(first.error); }
      var rest := AcceptEach(ids[1..], proposed[1..], now);
      res := if rest.Err? then rest else Ok([first.value] + rest.value);
    }

    method CompleteSuccess(r: RunId, result: SyncResult, now: int)
      modifies this
      ensures Abs() == SyncModel.CompleteSuccess(old(Abs()), r, result, now)
    {
      if r in runs && runs[r].run.status == RunSyncing && runs[r].run.adapterId in states {
        var run := runs[r].run.(status := RunSucceeded, completedAt := Some(now), result := Some(result), error := None);
        SetRun(r, run);
        var s := states[run.adapterId];
        states := states[run.adapterId := s.(status := Ready, activeRunId := None, pendingRunId := None,
                                             lastCompletedAt := Some(now), lastSuccessfulAt := Some(now),
                                             lastError := None, consecutiveFailures := 0)];
        history := history + [Succeeded(run.adapterId)];
      }
    }

    method CompleteFailure(r: RunId, error: SyncError, now: int)
      modifies this
      ensures Abs() == SyncModel.CompleteFailure(old(Abs()), r, error, now)
    {
      if r in runs && runs[r].run.status == RunSyncing && runs[r].run.adapterId in states {
        var run := runs[r].run.(status := RunFailed, completedAt := Some(now), error := Some(error));
        SetRun(r, run);
        var s := states[run.adapterId];
        states := states[run.adapterId :=
          s.(status := if runs[r].restore.lastSuccessfulAt.None? then Errored else Stale,
             activeRunId := None, pendingRunId := None, lastCompletedAt := Some(now),
             lastError := Some(error), consecutiveFailures := s.consecutiveFailures + 1)];
        history := history + [Failed(run.adapterId)];
      }
    }

    /** Start queued runs while slots are free. */
    method DrainQueue(now: int)
      modifies this
      ensures Abs() == Drain(old(Abs()), now)
    {
      while !shuttingDown && |activeRunIds| < concurrency && |queuedRunIds| > 0
        invariant Drain(Abs(), now) == Drain(old(Abs()), now)
        decreases |queuedRunIds|
      {
        var r := queuedRunIds[0];
        queuedRunIds := queuedRunIds[1..];
        StartRun(r, now);
      }
    }

    /** The rest of execute() once the promise of run `r` settles: complete, release the slot, drain. */
    method Settle(r: RunId, outcome: Outcome, now: int)
      modifies this
      ensures Abs() == SyncModel.Settle(old(Abs()), r, outcome, now)
    {
      if r !in inFlight { return; }
      if r in runs {
        var signalled, status := runs[r].signalled, runs[r].run.status;
        if shuttingDown || signalled || status == RunAborted {
          if signalled && !shuttingDown && status == RunSyncing {
            CompleteFailure(r, TIMEOUT_ERROR, now);
          }
        } else {
          match outcome {
            case Resolved(result) =>
              if ValidResult(result) {
                CompleteSuccess(r, result, now);
              } else {
                CompleteFailure(r, INVALID_RESULT_ERROR, now);
              }
            case Rejected(error) => CompleteFailure(r, error, now);
          }
        }
      }
      assert Abs() == Complete(old(Abs()), r, outcome, now);
      activeRunIds := Without(activeRunIds, r);
      inFlight := inFlight - {r};
      if !shuttingDown {
        DrainQueue(now);
      }
    }

    method Timeout(r: RunId)
      modifies this`runs
      ensures Abs() == SyncModel.Timeout(old(Abs()), r)
    {
      if r in inFlight && r in runs {
        runs := runs[r := runs[r].(signalled := true)];
      }
    }

    method StopPeriodicSync()
      modifies this`states, this`periodic
      ensures Abs() == StopPeriodic(old(Abs()))
    {
      if !periodic { return; }
      periodic := false;
      var todo := states.Keys;
      while todo != {}
        invariant todo <= old(states).Keys && states.Keys == old(states).Keys
        invariant !periodic
        invariant forall id :: id in states ==>
                    states[id] == if id in todo then old(states)[id] else old(states)[id].(nextScheduledAt := None)
        decreases todo
      {
        var id :| id in todo;
        states := states[id := states[id].(nextScheduledAt := None)];
        todo := todo - {id};
      }
      assert states == StopPeriodic(old(Abs())).states;
    }

    /** Announce the next tick on every adapter it will trigger. */
    method ScheduleNext(targets: Option<set<AdapterId>>, at: int)
      modifies this`states
      ensures Abs() == Schedule(old(Abs()), targets, Some(at))
    {
      var todo := states.Keys;
      while todo != {}
        invariant todo <= old(states).Keys && states.Keys == old(states).Keys
        invariant forall id :: id in states ==>
                    states[id] == if id in todo then old(states)[id]
                                  else Schedule(old(Abs()), targets, Some(at)).states[id]
        decreases todo
      {
        var id :| id in todo;
        if states[id].status != Disabled && (targets.None? || id in targets.value) {
          states := states[id := states[id].(nextScheduledAt := Some(at))];
        }
        todo := todo - {id};
      }
      assert states == Schedule(old(Abs()), targets, Some(at)).states;
    }

    method StartPeriodicSync(targets: Option<set<AdapterId>>, interval: int, now: int)
      returns (res: Result<bool, Refusal>)
      modifies this
      ensures (Abs(), res) == StartPeriodic(old(Abs()), targets, interval, now)
    {
      if shuttingDown { return Err(ShuttingDown); }
      if periodic || interval <= 0 { return Ok(false); }
      if targets.Some? && !(targets.value <= states.Keys) { return Err(AdapterNotFound); }
      ScheduleNext(targets, now + interval);
      periodic := true;
      res := Ok(true);
    }

    method AbortRun(r: RunId, now: int)
      modifies this
      ensures Abs() == SyncModel.AbortRun(old(Abs()), r, now)
    {
      if r in runs {
        if !runs[r].run.Terminal() && runs[r].run.adapterId in states {
          var run := runs[r].run.(status := RunAborted, completedAt := Some(now), error := None);
          SetRun(r, run);
          states := states[run.adapterId := runs[r].restore];
        }
        runs := runs[r := runs[r].(signalled := true)];
      }
    }

    method AbortAccepted(ids: seq<RunId>, now: int)
      modifies this
      ensures Abs() == AbortAll(old(Abs()), ids, now)
    {
      var i := 0;
      while i < |ids|
        invariant 0 <= i <= |ids|
        invariant AbortAll(Abs(), ids[i..], now) == AbortAll(old(Abs()), ids, now)
      {
        ghost var rest := ids[i..];
        assert rest[0] == ids[i] && rest[1..] == ids[i + 1..];
        AbortRun(ids[i], now);
        i := i + 1;
      }
    }

    method Shutdown(now: int)
      modifies this
      ensures Abs() == SyncModel.Shutdown(old(Abs()), now)
    {
      if shuttingDown { return; }
      shuttingDown := true;
      StopPeriodicSync();
      var accepted := queuedRunIds + activeRunIds;
      queuedRunIds := [];
      AbortAccepted(accepted, now);
      activeRunIds := [];
    }

    /**
     Whatever the environment does next, a call, a timer or a settling promise, the object takes that
     step of the machine and stays valid.
     */
    method Perform(step: Step)
      requires Valid()
      modifies this
      ensures Valid() && Abs() == Next(old(Abs()), step)
    {
      NextInv(Abs(), step);
      match step {
        case SRegister(id, on) => var _ := Register(id, on);
        case SSetEnabled(id, on, now) => var _ := SetEnabled(id, on, now);
        case STrigger(id, proposed, now) => var _ := Accept(id, proposed, now);
        case STimeout(r) => Timeout(r);
        case SSettle(r, outcome, now) => Settle(r, outcome, now);
        case SMarkBackground(id, now) => MarkBackgroundSuccess(id, now);
        case SGetStatus(now) => var _ := GetStatus(now);
        case SPrune(now) => PruneRuns(now);
        case SStartPeriodic(targets, interval, now) => var _ := StartPeriodicSync(targets, interval, now);
        case STick(targets, at) => if !shuttingDown { ScheduleNext(targets, at); }
        case SStopPeriodic => StopPeriodicSync();
        case SShutdown(now) => Shutdown(now);
      }
    }
  }
}
