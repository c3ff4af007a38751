/** How single runs live and end, and what the scheduler's counters mean. */
module SyncLifecycle {
  import opened Common
  import opened SyncModel
  import opened SyncInvariants
  import opened SyncTheorems

  // ---------------------------------------------------------------- what no step changes in a run

  /** Owner, acceptance and snapshot of a run never change, and an ended run does not change at all. */
  ghost predicate KeptRun(c: Coordinator, p: Coordinator, r: RunId)
    requires r in c.runs && r in p.runs
  {
    && p.runs[r].restore == c.runs[r].restore
    && p.runs[r].run.adapterId == c.runs[r].run.adapterId
    && p.runs[r].run.acceptedAt == c.runs[r].run.acceptedAt
    && (c.runs[r].run.Terminal() ==> p.runs[r].run == c.runs[r].run)
  }

  lemma {:induction false} DrainKeeps(c: Coordinator, now: int, r: RunId)
    requires r in c.runs
    ensures r in Drain(c, now).runs && KeptRun(c, Drain(c, now), r)
    decreases |c.queue|
  {
    if !(c.shuttingDown || |c.active| >= c.concurrency || |c.queue| == 0) {
      var q := StartRun(c.(queue := c.queue[1..]), c.queue[0], now);
      assert r in q.runs && KeptRun(c, q, r);
      DrainKeeps(q, now, r);
    }
  }

  lemma SettleKeeps(c: Coordinator, x: RunId, outcome: Outcome, now: int, r: RunId)
    requires Inv(c) && r in c.runs
    ensures r in Settle(c, x, outcome, now).runs && KeptRun(c, Settle(c, x, outcome, now), r)
  {
    if x in c.inFlight && !c.shuttingDown {
      var run, s := CompleteIs(c, x, outcome, now);
      assert RunOk(c, x);
      var done := Complete(c, x, outcome, now);
      assert done.runs[r].run.acceptedAt == c.runs[r].run.acceptedAt;
      var left := done.(active := Without(done.active, x), inFlight := done.inFlight - {x});
      DrainKeeps(left, now, r);
    }
  }

  /** Dispatching a new run records it with its adapter's state and leaves all other runs and adapters alone. */
  lemma DispatchEffect(c: Coordinator, id: AdapterId, x: RunId, now: int)
    requires id in c.states && x !in c.runs
    ensures var p := Dispatch(c, id, x, now).0;
      && (forall r :: r in c.runs ==> r in p.runs && p.runs[r] == c.runs[r])
      && x in p.runs && p.runs[x].restore == c.states[id] && p.runs[x].run.adapterId == id
      && (forall d :: d in p.states <==> d in c.states)
      && (forall d :: d in c.states && d != id ==> p.states[d] == c.states[d])
      && p.states[id].consecutiveFailures == c.states[id].consecutiveFailures
      && p.states[id].lastSuccessfulAt == c.states[id].lastSuccessfulAt
  {}

  lemma AcceptKeeps(c: Coordinator, id: AdapterId, proposed: Option<RunId>, now: int, r: RunId)
    requires r in c.runs
    ensures r in Accept(c, id, proposed, now).0.runs && Accept(c, id, proposed, now).0.runs[r] == c.runs[r]
  {
    if !c.shuttingDown && id in c.enabled && id in c.states {
      AcceptFreshKeeps(Refresh(c, now), id, proposed, now, r);
    }
  }

  lemma AcceptFreshKeeps(c: Coordinator, id: AdapterId, proposed: Option<RunId>, now: int, r: RunId)
    requires r in c.runs && id in c.enabled && id in c.states
    ensures r in AcceptFresh(c, id, proposed, now).0.runs && AcceptFresh(c, id, proposed, now).0.runs[r] == c.runs[r]
  {
    if proposed.Some? && proposed.value !in c.runs {
      DispatchEffect(c, id, proposed.value, now);
    }
  }

  lemma ShutdownKeeps(c: Coordinator, now: int, r: RunId)
    requires Inv(c) && r in c.runs
    ensures r in Shutdown(c, now).runs && KeptRun(c, Shutdown(c, now), r)
  {
    if !c.shuttingDown {
      ShutdownEffect(c, now);
      assert RunOk(c, r);
    }
  }

  lemma OtherKeeps(c: Coordinator, step: Step, r: RunId)
    requires !step.STrigger? && !step.SShutdown? && !step.SSettle?
    requires r in c.runs && r in Next(c, step).runs
    ensures KeptRun(c, Next(c, step), r)
  {}

  /** One step, any step: a run still in memory afterwards is the same run, and frozen once ended. */
  lemma NextKeeps(c: Coordinator, step: Step, r: RunId)
    requires Inv(c) && r in c.runs && r in Next(c, step).runs
    ensures KeptRun(c, Next(c, step), r)
  {
    if step.STrigger? {
      AcceptKeeps(c, step.id, step.proposed, step.now, r);
    } else if step.SSettle? {
      SettleKeeps(c, step.r, step.outcome, step.now, r);
    } else if step.SShutdown? {
      ShutdownKeeps(c, step.now, r);
    } else {
      OtherKeeps(c, step, r);
    }
  }

  // ---------------------------------------------------------------- coalescing

  /** While an adapter has a run that has not ended, a trigger answers with that run and creates nothing. */
  lemma TriggerCoalesces(c: Coordinator, id: AdapterId, proposed: Option<RunId>, now: int, r: RunId)
    requires Inv(c) && r in c.runs && !c.runs[r].run.Terminal() && c.runs[r].run.adapterId == id
    ensures var (p, res) := Accept(c, id, proposed, now);
      && res == Ok(DCoalesced(r))
      && p == Refresh(c, now)
  {
    assert RunOk(c, r) && AdapterOk(c, id);
  }

  // ---------------------------------------------------------------- shutdown

  /**
   Shutting down ends every run: those under way become aborted, in memory and in the store, and
   their adapters get back the state they had at acceptance; everything else only loses its timer.
   */
  ghost predicate EverythingEnded(c: Coordinator, p: Coordinator, now: int) {
    && p.shuttingDown && p.queue == [] && p.active == []
    && (forall r :: r in c.runs ==>
          r in p.runs && p.runs[r].run.Terminal() && r in p.store && p.store[r] == p.runs[r].run)
    && (forall r :: r in c.runs && r in p.runs && !c.runs[r].run.Terminal() ==>
          && p.runs[r].run == c.runs[r].run.(status := RunAborted, completedAt := Some(now), error := None)
          && p.runs[r].signalled
          && c.runs[r].run.adapterId in p.states && p.states[c.runs[r].run.adapterId] == c.runs[r].restore)
    && (forall d :: d in c.states && !Busy(c.states[d]) ==>
          d in p.states && p.states[d] == if c.periodic then c.states[d].(nextScheduledAt := None) else c.states[d])
  }

  lemma ShutdownEndsRun(c: Coordinator, now: int, r: RunId)
    requires Inv(c) && !c.shuttingDown && r in c.runs
    ensures var p := Shutdown(c, now);
      && r in p.runs && p.runs[r].run.Terminal() && r in p.store && p.store[r] == p.runs[r].run
      && (!c.runs[r].run.Terminal() ==>
            && p.runs[r].run == c.runs[r].run.(status := RunAborted, completedAt := Some(now), error := None)
            && p.runs[r].signalled
            && c.runs[r].run.adapterId in p.states && p.states[c.runs[r].run.adapterId] == c.runs[r].restore)
  {
    ShutdownEffect(c, now);
    ShutdownInv(c, now);
    assert RunOk(c, r) && RunOk(Shutdown(c, now), r);
    assert !c.runs[r].run.Terminal() ==> r in c.queue + c.active;
    assert StopPeriodic(c).runs == c.runs;
  }

  lemma ShutdownEndsEverything(c: Coordinator, now: int)
    requires Inv(c) && !c.shuttingDown
    ensures EverythingEnded(c, Shutdown(c, now), now)
  {
    forall r | r in c.runs
      ensures var p := Shutdown(c, now);
        && r in p.runs && p.runs[r].run.Terminal() && r in p.store && p.store[r] == p.runs[r].run
        && (!c.runs[r].run.Terminal() ==>
              && p.runs[r].run == c.runs[r].run.(status := RunAborted, completedAt := Some(now), error := None)
              && p.runs[r].signalled
              && c.runs[r].run.adapterId in p.states && p.states[c.runs[r].run.adapterId] == c.runs[r].restore)
    {
      ShutdownEndsRun(c, now, r);
    }
    IdleUntouched(c, now);
    ShutdownEffect(c, now);
  }

  lemma IdleUntouched(c: Coordinator, now: int)
    requires Inv(c) && !c.shuttingDown
    ensures forall d :: d in c.states && !Busy(c.states[d]) ==>
              d in Shutdown(c, now).states && d in StopPeriodic(c).states
              && Shutdown(c, now).states[d] == StopPeriodic(c).states[d]
  {
    ShutdownEffect(c, now);
    var p := Shutdown(c, now);
    forall d | d in c.states && !Busy(c.states[d])
      ensures d in p.states && d in StopPeriodic(c).states && p.states[d] == StopPeriodic(c).states[d]
    {
      forall r | r in c.queue + c.active ensures c.runs[r].run.adapterId != d {
        assert RunOk(c, r);
      }
    }
  }

  /** After shutdown a promise that settles late changes nothing anyone can see. */
  lemma LateSettlementChangesNothing(c: Coordinator, r: RunId, outcome: Outcome, now: int)
    requires Inv(c) && c.shuttingDown
    ensures Settle(c, r, outcome, now) == c.(inFlight := c.inFlight - {r})
  {
    if r in c.inFlight {
      if r in c.runs { assert RunOk(c, r); }
      assert Without(c.active, r) == c.active;
    } else {
      assert c.inFlight - {r} == c.inFlight;
    }
  }

  /** Shut down, with the run history of `c` and no other runs than those of `c`, all ended. */
  ghost predicate StillClosed(c: Coordinator, p: Coordinator) {
    && p.shuttingDown
    && StartOrder(p.history) == StartOrder(c.history) && AcceptOrder(p.history) == AcceptOrder(c.history)
    && (forall r :: r in p.runs ==> r in c.runs && p.runs[r].run == c.runs[r].run && p.runs[r].run.Terminal())
  }

  lemma ClosedStep(c: Coordinator, step: Step)
    requires Inv(c) && c.shuttingDown
    ensures StillClosed(c, Next(c, step))
  {
    var p := Next(c, step);
    ClosedHistory(c, step);
    forall r | r in p.runs ensures r in c.runs && p.runs[r].run == c.runs[r].run && p.runs[r].run.Terminal() {
      ClosedRun(c, step, r);
    }
  }

  lemma ClosedRun(c: Coordinator, step: Step, r: RunId)
    requires Inv(c) && c.shuttingDown && r in c.runs && r in Next(c, step).runs
    ensures Next(c, step).runs[r].run == c.runs[r].run && c.runs[r].run.Terminal()
  {
    assert RunOk(c, r);
    NextKeeps(c, step, r);
  }

  lemma ClosedHistory(c: Coordinator, step: Step)
    requires Inv(c) && c.shuttingDown
    ensures var p := Next(c, step);
      && p.shuttingDown && (forall r :: r in p.runs ==> r in c.runs)
      && StartOrder(p.history) == StartOrder(c.history) && AcceptOrder(p.history) == AcceptOrder(c.history)
  {
    if step.SSettle? {
      LateSettlementChangesNothing(c, step.r, step.outcome, step.now);
    } else if !step.STrigger? && !step.SShutdown? {
      OtherShape(c, step);
      if step.SMarkBackground? { Appended(c.history, Succeeded(step.id)); }
    }
  }

  /** After shutdown no sequence of steps accepts, starts or revives anything. */
  lemma {:induction false} ClosedForGood(c: Coordinator, steps: seq<Step>)
    requires Inv(c) && c.shuttingDown
    ensures StillClosed(c, Exec(c, steps))
    decreases |steps|
  {
    if steps == [] {
      forall r | r in c.runs ensures c.runs[r].run.Terminal() { assert RunOk(c, r); }
    } else {
      NextInv(c, steps[0]);
      ClosedStep(c, steps[0]);
      ClosedForGood(Next(c, steps[0]), steps[1..]);
    }
  }

  /** Run `x` is in memory and has not ended, now and after each of the steps. */
  ghost predicate UnderWay(c: Coordinator, steps: seq<Step>, x: RunId)
    decreases |steps|
  {
    && x in c.runs && !c.runs[x].run.Terminal()
    && (steps != [] ==> UnderWay(Next(c, steps[0]), steps[1..], x))
  }

  lemma {:induction false} SnapshotSurvives(c: Coordinator, steps: seq<Step>, x: RunId)
    requires Inv(c) && UnderWay(c, steps, x)
    ensures var p := Exec(c, steps);
      && Inv(p) && x in p.runs && !p.runs[x].run.Terminal()
      && p.runs[x].restore == c.runs[x].restore && p.runs[x].run.adapterId == c.runs[x].run.adapterId
    decreases |steps|
  {
    if steps != [] {
      NextInv(c, steps[0]);
      NextKeeps(c, steps[0], x);
      SnapshotSurvives(Next(c, steps[0]), steps[1..], x);
    }
  }

  /**
   Whatever happened since a run was accepted, a shutdown that interrupts it puts its adapter back
   into the state it had when the run was accepted (after that moment's freshness check).
   */
  lemma InterruptedAdapterIsRestored(c: Coordinator, id: AdapterId, x: RunId, at: int, p: Coordinator,
                                     steps: seq<Step>, q: Coordinator, now: int)
    requires Inv(c) && NewlyAccepted(c, id, x, at, p)
    requires UnderWay(p, steps, x) && q == Exec(p, steps) && !q.shuttingDown
    ensures id in c.states && id in Shutdown(q, now).states
    ensures Shutdown(q, now).states[id] == RefreshOne(c.states[id], at, c.freshnessMs)
  {
    AcceptInv(c, id, Some(x), at);
    AcceptedSnapshot(c, id, x, at, p);
    SnapshotSurvives(p, steps, x);
    ShutdownEndsEverything(q, now);
  }

  /** Triggering adapter `id` at `at` created run `x` and led from `c` to `p`. */
  ghost predicate NewlyAccepted(c: Coordinator, id: AdapterId, x: RunId, at: int, p: Coordinator) {
    var (c1, res) := Accept(c, id, Some(x), at);
    c1 == p && res.Ok? && !res.value.DCoalesced?
  }

  lemma AcceptedSnapshot(c: Coordinator, id: AdapterId, x: RunId, at: int, p: Coordinator)
    requires NewlyAccepted(c, id, x, at, p)
    ensures x in p.runs && p.runs[x].run.adapterId == id
    ensures id in c.states && p.runs[x].restore == RefreshOne(c.states[id], at, c.freshnessMs)
  {
    DispatchEffect(Refresh(c, at), id, x, at);
  }

  // ---------------------------------------------------------------- what the counters mean

  function FailuresSince(h: seq<Event>, id: AdapterId): nat {
    if h == [] then 0
    else
      var e := h[|h| - 1];
      if e == Succeeded(id) then 0
      else if e == Failed(id) then FailuresSince(h[..|h| - 1], id) + 1
      else FailuresSince(h[..|h| - 1], id)
  }

  predicate EverSucceeded(h: seq<Event>, id: AdapterId) { Succeeded(id) in h }

  lemma CountAppended(h: seq<Event>, e: Event, id: AdapterId)
    ensures FailuresSince(h + [e], id)
            == if e == Succeeded(id) then 0 else if e == Failed(id) then FailuresSince(h, id) + 1 else FailuresSince(h, id)
    ensures EverSucceeded(h + [e], id) <==> e == Succeeded(id) || EverSucceeded(h, id)
  {
    assert (h + [e])[..|h|] == h;
  }

  ghost predicate CountsRight(c: Coordinator, id: AdapterId)
    requires id in c.states
  {
    && c.states[id].consecutiveFailures == FailuresSince(c.history, id)
    && (c.states[id].lastSuccessfulAt.Some? <==> EverSucceeded(c.history, id))
  }

  /** Counters agree with the history, and the history mentions known adapters only. */
  ghost predicate Counters(c: Coordinator) {
    && (forall id :: id in c.states ==> CountsRight(c, id))
    && (forall id :: id !in c.states ==> FailuresSince(c.history, id) == 0 && !EverSucceeded(c.history, id))
  }

  /** A stretch that logs nothing countable and leaves every adapter's success record alone. */
  ghost predicate NeutralFor(c: Coordinator, p: Coordinator, id: AdapterId) {
    && (id in c.states <==> id in p.states)
    && (id in c.states ==> p.states[id].consecutiveFailures == c.states[id].consecutiveFailures
                           && p.states[id].lastSuccessfulAt == c.states[id].lastSuccessfulAt)
    && FailuresSince(p.history, id) == FailuresSince(c.history, id)
    && (EverSucceeded(p.history, id) <==> EverSucceeded(c.history, id))
  }

  ghost predicate Neutral(c: Coordinator, p: Coordinator) { forall id :: NeutralFor(c, p, id) }

  lemma NeutralCounters(c: Coordinator, p: Coordinator)
    requires Counters(c) && Neutral(c, p)
    ensures Counters(p)
  {
    forall id | id in p.states ensures CountsRight(p, id) {
      assert NeutralFor(c, p, id) && CountsRight(c, id);
    }
    forall id | id !in p.states
      ensures FailuresSince(p.history, id) == 0 && !EverSucceeded(p.history, id)
    {
      assert NeutralFor(c, p, id);
    }
  }

  lemma OccupyNeutral(c: Coordinator, owner: AdapterId, r: RunId, now: int, id: AdapterId)
    requires owner in c.states
    ensures NeutralFor(c, Occupy(c, owner, r, now), id)
  {
    CountAppended(c.history, Started(r), id);
  }

  lemma StartNeutral(c: Coordinator, r: RunId, now: int, id: AdapterId)
    ensures NeutralFor(c, StartRun(c, r, now), id)
  {
    if r in c.runs && c.runs[r].run.adapterId in c.states {
      OccupyNeutral(c, c.runs[r].run.adapterId, r, now, id);
    }
  }

  lemma {:induction false} DrainNeutral(c: Coordinator, now: int, id: AdapterId)
    ensures NeutralFor(c, Drain(c, now), id)
    decreases |c.queue|
  {
    if !(c.shuttingDown || |c.active| >= c.concurrency || |c.queue| == 0) {
      var p := c.(queue := c.queue[1..]);
      StartNeutral(p, c.queue[0], now, id);
      DrainNeutral(StartRun(p, c.queue[0], now), now, id);
    }
  }

  lemma AcceptStates(c: Coordinator, id: AdapterId, proposed: Option<RunId>, now: int, d: AdapterId)
    ensures var p := Accept(c, id, proposed, now).0;
      && (d in p.states <==> d in c.states)
      && (d in c.states ==> p.states[d].consecutiveFailures == c.states[d].consecutiveFailures
                            && p.states[d].lastSuccessfulAt == c.states[d].lastSuccessfulAt)
  {
    if !c.shuttingDown && id in c.enabled && id in c.states {
      AcceptFreshStates(Refresh(c, now), id, proposed, now, d);
    }
  }

  lemma AcceptFreshStates(c: Coordinator, id: AdapterId, proposed: Option<RunId>, now: int, d: AdapterId)
    requires id in c.enabled && id in c.states
    ensures var p := AcceptFresh(c, id, proposed, now).0;
      && (d in p.states <==> d in c.states)
      && (d in c.states ==> p.states[d].consecutiveFailures == c.states[d].consecutiveFailures
                            && p.states[d].lastSuccessfulAt == c.states[d].lastSuccessfulAt)
  {
    if proposed.Some? && proposed.value !in c.runs {
      DispatchEffect(c, id, proposed.value, now);
    }
  }

  lemma AcceptNeutral(c: Coordinator, id: AdapterId, proposed: Option<RunId>, now: int)
    requires Inv(c)
    ensures Neutral(c, Accept(c, id, proposed, now).0)
  {
    AcceptShape(c, id, proposed, now);
    var p := Accept(c, id, proposed, now).0;
    forall d ensures NeutralFor(c, p, d) {
      AcceptStates(c, id, proposed, now, d);
      if proposed.Some? {
        CountAppended(c.history, Accepted(proposed.value), d);
        CountAppended(c.history + [Accepted(proposed.value)], Started(proposed.value), d);
      }
    }
  }

  /** What the end of a run does to its adapter and to the history. */
  lemma CompleteRecords(c: Coordinator, r: RunId, outcome: Outcome, now: int) returns (e: Event)
    requires InvLoose(c) && !c.shuttingDown && r in c.active
    ensures var p, id := Complete(c, r, outcome, now), c.runs[r].run.adapterId;
      && id in c.states && id in p.states && (e == Succeeded(id) || e == Failed(id))
      && p.history == c.history + [e] && p.states == c.states[id := p.states[id]]
      && (e.Succeeded? ==> p.states[id].status == Ready && p.states[id].lastSuccessfulAt.Some?
                           && p.states[id].consecutiveFailures == 0)
      && (e.Failed? ==>
            && p.states[id].status == (if c.runs[r].restore.lastSuccessfulAt.None? then Errored else Stale)
            && c.runs[r].restore.lastSuccessfulAt == c.states[id].lastSuccessfulAt
            && p.states[id].lastSuccessfulAt == c.states[id].lastSuccessfulAt
            && p.states[id].consecutiveFailures == c.states[id].consecutiveFailures + 1)
  {
    assert RunOk(c, r);
    var ok, error := CompleteCases(c, r, outcome, now);
    e := if ok then Succeeded(c.runs[r].run.adapterId) else Failed(c.runs[r].run.adapterId);
  }

  /** The end of a run counts for its adapter: zero failures after a success, one more after a failure. */
  lemma CompleteCounters(c: Coordinator, r: RunId, outcome: Outcome, now: int)
    requires InvLoose(c) && Counters(c) && !c.shuttingDown && r in c.active
    ensures Counters(Complete(c, r, outcome, now))
  {
    var e := CompleteRecords(c, r, outcome, now);
    var p := Complete(c, r, outcome, now);
    forall d | d in p.states ensures CountsRight(p, d) {
      CountAppended(c.history, e, d);
      assert CountsRight(c, d);
    }
    forall d | d !in p.states ensures FailuresSince(p.history, d) == 0 && !EverSucceeded(p.history, d) {
      CountAppended(c.history, e, d);
    }
  }

  lemma SettleCounters(c: Coordinator, r: RunId, outcome: Outcome, now: int)
    requires Inv(c) && Counters(c)
    ensures Counters(Settle(c, r, outcome, now))
  {
    if r in c.inFlight {
      if c.shuttingDown {
        LateSettlementChangesNothing(c, r, outcome, now);
        assert forall d :: NeutralFor(c, Settle(c, r, outcome, now), d);
        NeutralCounters(c, Settle(c, r, outcome, now));
      } else {
        CompleteCounters(c, r, outcome, now);
        var done := Complete(c, r, outcome, now);
        var left := done.(active := Without(done.active, r), inFlight := done.inFlight - {r});
        forall d ensures NeutralFor(done, Drain(left, now), d) {
          DrainNeutral(left, now, d);
          assert NeutralFor(done, left, d);
        }
        NeutralCounters(done, Drain(left, now));
      }
    }
  }

  lemma ShutdownNeutral(c: Coordinator, now: int)
    requires Inv(c)
    ensures Neutral(c, Shutdown(c, now))
  {
    if !c.shuttingDown {
      var p := Shutdown(c, now);
      var open := StopPeriodic(c);
      ShutdownEffect(c, now);
      forall d ensures NeutralFor(c, p, d) {
        if d in c.states && p.states[d] != open.states[d] {
          var r :| r in c.queue + c.active && c.runs[r].run.adapterId == d;
          assert RunOk(c, r);
        }
      }
    } else {
      assert forall d :: NeutralFor(c, c, d);
    }
  }

  lemma BackgroundCounters(c: Coordinator, id: AdapterId, now: int)
    requires Counters(c)
    ensures Counters(MarkBackgroundSuccess(c, id, now))
  {
    var p := MarkBackgroundSuccess(c, id, now);
    if p != c {
      forall d | d in p.states ensures CountsRight(p, d) {
        assert CountsRight(c, d);
        CountAppended(c.history, Succeeded(id), d);
      }
      forall d | d !in p.states ensures FailuresSince(p.history, d) == 0 && !EverSucceeded(p.history, d) {
        CountAppended(c.history, Succeeded(id), d);
      }
    }
  }

  lemma RegisterCounters(c: Coordinator, id: AdapterId, on: bool)
    requires Counters(c) && SameIds(c)
    ensures Counters(Register(c, id, on).0)
  {
    var p := Register(c, id, on).0;
    forall d | d in p.states ensures CountsRight(p, d) {
      if d in c.states { assert CountsRight(c, d); }
    }
  }

  lemma OtherNeutral(c: Coordinator, step: Step)
    requires !step.STrigger? && !step.SShutdown? && !step.SSettle? && !step.SMarkBackground? && !step.SRegister?
    ensures Neutral(c, Next(c, step))
  {
    var p := Next(c, step);
    assert p.history == c.history;
    forall d ensures NeutralFor(c, p, d) {}
  }

  lemma NextCounters(c: Coordinator, step: Step)
    requires Inv(c) && Counters(c)
    ensures Counters(Next(c, step))
  {
    if step.STrigger? {
      AcceptNeutral(c, step.id, step.proposed, step.now);
      NeutralCounters(c, Next(c, step));
    } else if step.SSettle? {
      SettleCounters(c, step.r, step.outcome, step.now);
    } else if step.SShutdown? {
      ShutdownNeutral(c, step.now);
      NeutralCounters(c, Next(c, step));
    } else if step.SMarkBackground? {
      BackgroundCounters(c, step.id, step.now);
    } else if step.SRegister? {
      RegisterCounters(c, step.id, step.on);
    } else {
      OtherNeutral(c, step);
      NeutralCounters(c, Next(c, step));
    }
  }

  lemma {:induction false} ExecCounters(c: Coordinator, steps: seq<Step>)
    requires Inv(c) && Counters(c)
    ensures Inv(Exec(c, steps)) && Counters(Exec(c, steps))
    decreases |steps|
  {
    if steps != [] {
      NextInv(c, steps[0]);
      NextCounters(c, steps[0]);
      ExecCounters(Next(c, steps[0]), steps[1..]);
    }
  }

  /**
   Over any run of a fresh scheduler an adapter's `consecutiveFailures` is the number of failures
   since its last success, `error` means it never succeeded and `ready` or `stale` that it did.
   */
  lemma CountersMeanWhatTheySay(store: map<RunId, Run>, concurrency: int, freshnessMs: int, retentionMs: int,
                                now: int, steps: seq<Step>, id: AdapterId)
    requires 1 <= concurrency <= 2
    requires id in Exec(Init(store, concurrency, freshnessMs, retentionMs, now), steps).states
    ensures var c := Exec(Init(store, concurrency, freshnessMs, retentionMs, now), steps);
      && c.states[id].consecutiveFailures == FailuresSince(c.history, id)
      && (c.states[id].status == Errored ==> !EverSucceeded(c.history, id))
      && (c.states[id].status == Ready || c.states[id].status == Stale ==> EverSucceeded(c.history, id))
  {
    InitInv(store, concurrency, freshnessMs, retentionMs, now);
    ExecCounters(Init(store, concurrency, freshnessMs, retentionMs, now), steps);
    var c := Exec(Init(store, concurrency, freshnessMs, retentionMs, now), steps);
    assert AdapterOk(c, id) && CountsRight(c, id);
  }

  // ---------------------------------------------------------------- crash and restart

  /**
   A process that dies anywhere and starts again from the stored rows finds every run it had
   accepted: those that were under way as aborted at the restart, the others as they ended.
   */
  lemma RestartRecoversRuns(c: Coordinator, concurrency: int, freshnessMs: int, retentionMs: int, now: int)
    requires Inv(c) && 1 <= concurrency <= 2
    ensures forall r :: r in c.runs && c.runs[r].run.Terminal() ==> c.runs[r].run.completedAt.Some?
    ensures var p := Init(c.store, concurrency, freshnessMs, retentionMs, now);
      && Inv(p)
      && (forall r :: r in p.persisted ==> p.persisted[r].Terminal() && p.store[r] == p.persisted[r])
      && (forall r :: r in c.runs && !c.runs[r].run.Terminal() ==>
            r in p.persisted
            && p.persisted[r] == c.runs[r].run.(status := RunAborted, completedAt := Some(now), error := None))
      && (forall r :: r in c.runs && c.runs[r].run.Terminal() && now - retentionMs <= c.runs[r].run.completedAt.value ==>
            r in p.persisted && p.persisted[r] == c.runs[r].run)
  {
    InitInv(c.store, concurrency, freshnessMs, retentionMs, now);
    forall r | r in c.runs ensures RunOk(c, r) {}
  }

  // ---------------------------------------------------------------- a batch is its triggers

  function Triggers(ids: seq<AdapterId>, proposed: seq<Option<RunId>>, now: int): seq<Step>
    requires |ids| == |proposed|
  {
    seq(|ids|, i requires 0 <= i < |ids| => STrigger(ids[i], proposed[i], now))
  }

  /** Accepting one by one is the run of single triggers up to and including the first refused one. */
  lemma {:induction false} AcceptsAreTriggers(c: Coordinator, ids: seq<AdapterId>, proposed: seq<Option<RunId>>, now: int)
    returns (k: nat)
    requires |ids| == |proposed|
    ensures k <= |ids| && AcceptAll(c, ids, proposed, now).0 == Exec(c, Triggers(ids, proposed, now)[..k])
    ensures AcceptAll(c, ids, proposed, now).1.Ok? ==> k == |ids| && |AcceptAll(c, ids, proposed, now).1.value| == k
    decreases |ids|
  {
    k := 0;
    if ids != [] {
      var (c1, first) := Accept(c, ids[0], proposed[0], now);
      var all := Triggers(ids, proposed, now);
      if first.Err? {
        k := 1;
        assert all[..1][0] == all[0] && all[..1][1..] == [];
        assert Exec(c, all[..1]) == Exec(c1, []);
      } else {
        var m := AcceptsAreTriggers(c1, ids[1..], proposed[1..], now);
        k := m + 1;
        assert all[..k][0] == all[0];
        assert all[..k][1..] == Triggers(ids[1..], proposed[1..], now)[..m];
      }
    }
  }

  /**
   A batch either does nothing, because the scheduler is closed or the request has no id, or is the
   run of single triggers up to and including the first refused one.
   */
  lemma BatchIsTriggers(c: Coordinator, requestId: Option<string>, ids: seq<AdapterId>,
                        proposed: seq<Option<RunId>>, now: int)
    returns (k: nat)
    requires |ids| == |proposed|
    ensures var (p, res) := AcceptBatch(c, requestId, ids, proposed, now);
      && k <= |ids| && p == Exec(c, Triggers(ids, proposed, now)[..k])
      && (c.shuttingDown ==> k == 0 && p == c && res == Err(ShuttingDown))
      && (!c.shuttingDown && requestId.None? ==> k == 0 && p == c && res == Err(InvalidId))
      && (!c.shuttingDown && requestId.Some? ==> res == AcceptAll(c, ids, proposed, now).1)
      && (res.Ok? ==> k == |ids| && |res.value| == k)
  {
    k := 0;
    if !c.shuttingDown && requestId.Some? {
      k := AcceptsAreTriggers(c, ids, proposed, now);
    }
  }
}
