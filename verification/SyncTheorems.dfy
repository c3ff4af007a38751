/** What the scheduler promises over whole runs, drawn from its invariant and its history. */
module SyncTheorems {
  import opened Common
  import opened SyncModel
  import opened SyncInvariants

  // ---------------------------------------------------------------- one run per adapter, bounded activity

  /**
   In every state reachable from a fresh scheduler: at most `concurrency` (never more than two) runs
   are active; every run that has not ended is either waiting, once, or active, once; an adapter has
   at most one such run and its two pointers name exactly it; until shutdown nobody waits while a
   slot is free.
   */
  lemma ReachableSafety(store: map<RunId, Run>, concurrency: int, freshnessMs: int, retentionMs: int, now: int,
                        steps: seq<Step>)
    requires 1 <= concurrency <= 2
    ensures var c := Exec(Init(store, concurrency, freshnessMs, retentionMs, now), steps);
      && |c.active| <= c.concurrency <= 2
      && NoDup(c.queue) && NoDup(c.active)
      && (forall r :: r in c.runs ==> (!c.runs[r].run.Terminal() <==> r in c.queue || r in c.active))
      && (forall r :: r in c.runs ==> !(r in c.queue && r in c.active))
      && (forall r :: r in c.queue || r in c.active ==> r in c.runs)
      && (forall r, q :: (r in c.runs && q in c.runs && !c.runs[r].run.Terminal() && !c.runs[q].run.Terminal()
                          && c.runs[r].run.adapterId == c.runs[q].run.adapterId) ==> r == q)
      && (forall r, id :: id in c.states ==>
            (c.states[id].activeRunId == Some(r) <==> r in c.runs && r in c.active && c.runs[r].run.adapterId == id))
      && (forall r, id :: id in c.states ==>
            (c.states[id].pendingRunId == Some(r) <==> r in c.runs && r in c.queue && c.runs[r].run.adapterId == id))
      && (!c.shuttingDown && c.queue != [] ==> |c.active| == c.concurrency)
  {
    var c := Exec(Init(store, concurrency, freshnessMs, retentionMs, now), steps);
    InitInv(store, concurrency, freshnessMs, retentionMs, now);
    ReachableInv(Init(store, concurrency, freshnessMs, retentionMs, now), steps);
    forall r | r in c.runs ensures RunOk(c, r) {}
    forall id | id in c.states ensures AdapterOk(c, id) {}
    forall r, q | r in c.runs && q in c.runs && !c.runs[r].run.Terminal() && !c.runs[q].run.Terminal()
                  && c.runs[r].run.adapterId == c.runs[q].run.adapterId
      ensures r == q
    {
      assert RunOk(c, r) && RunOk(c, q) && AdapterOk(c, c.runs[r].run.adapterId);
    }
  }

  // ---------------------------------------------------------------- first come, first started

  function AcceptOrder(h: seq<Event>): seq<RunId> {
    if h == [] then []
    else
      var before := AcceptOrder(h[..|h| - 1]);
      if h[|h| - 1].Accepted? then before + [h[|h| - 1].runId] else before
  }

  function StartOrder(h: seq<Event>): seq<RunId> {
    if h == [] then []
    else
      var before := StartOrder(h[..|h| - 1]);
      if h[|h| - 1].Started? then before + [h[|h| - 1].runId] else before
  }

  lemma Appended(h: seq<Event>, e: Event)
    ensures AcceptOrder(h + [e]) == if e.Accepted? then AcceptOrder(h) + [e.runId] else AcceptOrder(h)
    ensures StartOrder(h + [e]) == if e.Started? then StartOrder(h) + [e.runId] else StartOrder(h)
  {
    assert (h + [e])[..|h|] == h;
  }

  /** What has been accepted is what has started, in that order, followed by the queue (lost on shutdown). */
  ghost predicate Fifo(c: Coordinator) {
    if c.shuttingDown then StartOrder(c.history) <= AcceptOrder(c.history)
    else AcceptOrder(c.history) == StartOrder(c.history) + c.queue
  }

  /** A step that neither accepts, settles nor shuts down leaves queue and run history alone. */
  lemma OtherShape(c: Coordinator, step: Step)
    requires !step.STrigger? && !step.SShutdown? && !(step.SSettle? && step.r in c.inFlight)
    ensures var p := Next(c, step);
      && p.queue == c.queue && p.shuttingDown == c.shuttingDown
      && (p.history == c.history || (step.SMarkBackground? && p.history == c.history + [Succeeded(step.id)]))
  {
    match step {
      case SMarkBackground(id, now) =>
      case SRegister(_, _) =>
      case SSetEnabled(_, _, _) =>
      case SSettle(_, _, _) =>
      case STimeout(_) =>
      case SGetStatus(_) =>
      case SPrune(_) =>
      case SStartPeriodic(_, _, _) =>
      case STick(_, _) =>
      case SStopPeriodic =>
    }
  }

  /** Accepting starts at once only when nobody waits; otherwise the new run goes to the end. */
  ghost predicate AcceptMoves(c: Coordinator, p: Coordinator, proposed: Option<RunId>, res: Result<Disposition, Refusal>) {
    && p.shuttingDown == c.shuttingDown
    && (if res.Err? || res.value.DCoalesced? then p.queue == c.queue && p.history == c.history
        else
          && proposed == Some(res.value.runId) && !c.shuttingDown
          && (res.value.DStarted? ==>
                && c.queue == [] && p.queue == []
                && p.history == c.history + [Accepted(res.value.runId)] + [Started(res.value.runId)])
          && (res.value.DQueued? ==>
                && p.queue == c.queue + [res.value.runId]
                && p.history == c.history + [Accepted(res.value.runId)]))
  }

  lemma AcceptFreshShape(c: Coordinator, id: AdapterId, proposed: Option<RunId>, now: int)
    requires Inv(c) && !c.shuttingDown && id in c.enabled && id in c.states
    ensures var (p, res) := AcceptFresh(c, id, proposed, now); AcceptMoves(c, p, proposed, res)
  {
    if Works(c, id) && !Busy(c.states[id]) && proposed.Some? && proposed.value !in c.runs && proposed.value !in c.persisted {
      DispatchInv(c, id, proposed.value, now);
    }
  }

  lemma AcceptShape(c: Coordinator, id: AdapterId, proposed: Option<RunId>, now: int)
    requires Inv(c)
    ensures var (p, res) := Accept(c, id, proposed, now); AcceptMoves(c, p, proposed, res)
  {
    RefreshInv(c, now);
    if !c.shuttingDown && id in c.enabled && id in c.states {
      AcceptFreshShape(Refresh(c, now), id, proposed, now);
    }
  }

  /** Popping the head of the queue and starting it. */
  lemma PopStart(c: Coordinator, now: int) returns (q: Coordinator)
    requires InvLoose(c) && !c.shuttingDown && |c.active| < c.concurrency && c.queue != []
    ensures InvLoose(q) && q == StartRun(c.(queue := c.queue[1..]), c.queue[0], now)
    ensures Drain(c, now) == Drain(q, now)
    ensures q.queue == c.queue[1..] && |q.active| == |c.active| + 1 && q.concurrency == c.concurrency
    ensures !q.shuttingDown && q.history == c.history + [Started(c.queue[0])]
  {
    var x := c.queue[0];
    var p := c.(queue := c.queue[1..]);
    PopNear(c);
    StartNear(p, x, now);
    StartRunIs(p, x, now);
    q := StartRun(p, x, now);
  }

  lemma MoveHead<T>(a: seq<T>, q: seq<T>)
    requires q != []
    ensures a + q == (a + [q[0]]) + q[1..]
  {
    assert q == [q[0]] + q[1..];
  }

  lemma {:induction false} DrainFifo(c: Coordinator, now: int)
    requires InvLoose(c) && Fifo(c)
    ensures Fifo(Drain(c, now))
    decreases |c.queue|
  {
    if !c.shuttingDown && |c.active| < c.concurrency && |c.queue| > 0 {
      var q := PopStart(c, now);
      Appended(c.history, Started(c.queue[0]));
      MoveHead(StartOrder(c.history), c.queue);
      DrainFifo(q, now);
    }
  }

  lemma AcceptFifo(c: Coordinator, id: AdapterId, proposed: Option<RunId>, now: int)
    requires Inv(c) && Fifo(c)
    ensures Fifo(Accept(c, id, proposed, now).0)
  {
    AcceptShape(c, id, proposed, now);
    var (p, res) := Accept(c, id, proposed, now);
    MovesFifo(c, p, proposed, res);
  }

  lemma MovesFifo(c: Coordinator, p: Coordinator, proposed: Option<RunId>, res: Result<Disposition, Refusal>)
    requires Fifo(c) && AcceptMoves(c, p, proposed, res)
    ensures Fifo(p)
  {
    if res.Ok? && !res.value.DCoalesced? {
      var x := proposed.value;
      Appended(c.history, Accepted(x));
      Appended(c.history + [Accepted(x)], Started(x));
    }
  }

  /** A settlement logs the end of its run, and nothing that concerns the order of runs. */
  lemma CompleteHistory(c: Coordinator, r: RunId, outcome: Outcome, now: int) returns (e: Event)
    requires InvLoose(c) && !c.shuttingDown && r in c.active
    ensures r in c.runs && (e == Succeeded(c.runs[r].run.adapterId) || e == Failed(c.runs[r].run.adapterId))
    ensures var done := Complete(c, r, outcome, now);
            && done.history == c.history + [e]
            && done.queue == c.queue && done.shuttingDown == c.shuttingDown
  {
    assert RunOk(c, r);
    var ok, error := CompleteCases(c, r, outcome, now);
    e := if ok then Succeeded(c.runs[r].run.adapterId) else Failed(c.runs[r].run.adapterId);
  }

  lemma SettleFifo(c: Coordinator, r: RunId, outcome: Outcome, now: int)
    requires Inv(c) && Fifo(c)
    ensures Fifo(Settle(c, r, outcome, now))
  {
    if r in c.inFlight && !c.shuttingDown {
      var done := Complete(c, r, outcome, now);
      var left := done.(active := Without(done.active, r), inFlight := done.inFlight - {r});
      SettledLoose(c, r, outcome, now);
      var e := CompleteHistory(c, r, outcome, now);
      Appended(c.history, e);
      DrainFifo(left, now);
    }
  }

  lemma NextFifo(c: Coordinator, step: Step)
    requires Inv(c) && Fifo(c)
    ensures Fifo(Next(c, step))
  {
    if step.STrigger? {
      AcceptFifo(c, step.id, step.proposed, step.now);
    } else if step.SSettle? {
      SettleFifo(c, step.r, step.outcome, step.now);
    } else if step.SShutdown? {
      if !c.shuttingDown { ShutdownEffect(c, step.now); }
    } else {
      OtherShape(c, step);
      if step.SMarkBackground? { Appended(c.history, Succeeded(step.id)); }
    }
  }

  /** Runs start in exactly the order in which they were accepted. */
  lemma {:induction false} StartsInAcceptanceOrder(c: Coordinator, steps: seq<Step>)
    requires Inv(c) && Fifo(c)
    ensures Fifo(Exec(c, steps))
    decreases |steps|
  {
    if steps != [] {
      NextInv(c, steps[0]);
      NextFifo(c, steps[0]);
      StartsInAcceptanceOrder(Next(c, steps[0]), steps[1..]);
    }
  }

  // ---------------------------------------------------------------- bounded waiting

  /** How many promises of active runs settle along the way. */
  function Settlements(c: Coordinator, steps: seq<Step>): nat
    decreases |steps|
  {
    if steps == [] then 0
    else (if steps[0].SSettle? && steps[0].r in c.inFlight then 1 else 0)
         + Settlements(Next(c, steps[0]), steps[1..])
  }

  ghost predicate NoShutdown(steps: seq<Step>) {
    forall i :: 0 <= i < |steps| ==> !steps[i].SShutdown?
  }

  /** From a fresh scheduler on: what was started, followed by what waits, is what was accepted, in that order. */
  lemma FreshRunsStartInOrder(store: map<RunId, Run>, concurrency: int, freshnessMs: int, retentionMs: int, now: int,
                              steps: seq<Step>)
    requires 1 <= concurrency <= 2
    ensures var c := Exec(Init(store, concurrency, freshnessMs, retentionMs, now), steps);
      if c.shuttingDown then StartOrder(c.history) <= AcceptOrder(c.history)
      else AcceptOrder(c.history) == StartOrder(c.history) + c.queue
  {
    InitInv(store, concurrency, freshnessMs, retentionMs, now);
    StartsInAcceptanceOrder(Init(store, concurrency, freshnessMs, retentionMs, now), steps);
  }

  /** One settlement moves the queue up by exactly one and starts its head. */
  lemma SettleAdvances(c: Coordinator, r: RunId, outcome: Outcome, now: int)
    requires Inv(c) && !c.shuttingDown && r in c.inFlight && c.queue != []
    ensures Settle(c, r, outcome, now).queue == c.queue[1..] && !Settle(c, r, outcome, now).shuttingDown
    ensures StartOrder(Settle(c, r, outcome, now).history) == StartOrder(c.history) + [c.queue[0]]
  {
    var done := Complete(c, r, outcome, now);
    var left := done.(active := Without(done.active, r), inFlight := done.inFlight - {r});
    SettledLoose(c, r, outcome, now);
    var e := CompleteHistory(c, r, outcome, now);
    Appended(c.history, e);
    var run, s := CompleteIs(c, r, outcome, now);
    WithoutKeeps(c.active, r);
    var q := PopStart(left, now);
    Appended(left.history, Started(left.queue[0]));
    assert |q.active| == q.concurrency;
    assert Drain(q, now) == q;
  }

  /** A step other than a settlement or a shutdown never takes anything out of the queue. */
  lemma StepKeepsQueue(c: Coordinator, step: Step)
    requires Inv(c) && !c.shuttingDown && !step.SShutdown? && c.queue != []
    requires !(step.SSettle? && step.r in c.inFlight)
    ensures c.queue <= Next(c, step).queue && !Next(c, step).shuttingDown
    ensures StartOrder(Next(c, step).history) == StartOrder(c.history)
  {
    if step.STrigger? {
      AcceptShape(c, step.id, step.proposed, step.now);
      if step.proposed.Some? { Appended(c.history, Accepted(step.proposed.value)); }
    } else {
      OtherShape(c, step);
      if step.SMarkBackground? { Appended(c.history, Succeeded(step.id)); }
    }
  }

  lemma {:induction false} StartsOnlyGrow(c: Coordinator, steps: seq<Step>)
    requires Inv(c)
    ensures c.history <= Exec(c, steps).history
    ensures StartOrder(c.history) <= StartOrder(Exec(c, steps).history)
    decreases |steps|
  {
    if steps != [] {
      NextInv(c, steps[0]);
      HistoryGrows(c, steps[0]);
      PrefixOrder(c.history, Next(c, steps[0]).history);
      StartsOnlyGrow(Next(c, steps[0]), steps[1..]);
    }
  }

  lemma {:induction false} PrefixOrder(h: seq<Event>, k: seq<Event>)
    requires h <= k
    ensures StartOrder(h) <= StartOrder(k)
    decreases |k|
  {
    if |h| < |k| {
      PrefixOrder(h, k[..|k| - 1]);
    } else {
      assert h == k;
    }
  }

  lemma {:induction false} DrainHistory(c: Coordinator, now: int)
    ensures c.history <= Drain(c, now).history
    decreases |c.queue|
  {
    if !(c.shuttingDown || |c.active| >= c.concurrency || |c.queue| == 0) {
      DrainHistory(StartRun(c.(queue := c.queue[1..]), c.queue[0], now), now);
    }
  }

  lemma HistoryGrows(c: Coordinator, step: Step)
    requires Inv(c)
    ensures c.history <= Next(c, step).history
  {
    if step.SSettle? && step.r in c.inFlight {
      if !c.shuttingDown {
        var done := Complete(c, step.r, step.outcome, step.now);
        var e := CompleteHistory(c, step.r, step.outcome, step.now);
        DrainHistory(done.(active := Without(done.active, step.r), inFlight := done.inFlight - {step.r}), step.now);
      }
    } else if step.SShutdown? {
      if !c.shuttingDown { ShutdownEffect(c, step.now); }
    } else if step.STrigger? {
      AcceptShape(c, step.id, step.proposed, step.now);
    } else {
      OtherShape(c, step);
    }
  }

  /**
   A run with `j` runs ahead of it in the queue has started by the time `j + 1` promises of active
   runs have settled, whatever else happens in between short of a shutdown.
   */
  lemma {:induction false} StartsWithinSettlements(c: Coordinator, steps: seq<Step>, j: nat)
    requires Inv(c) && !c.shuttingDown && j < |c.queue|
    requires NoShutdown(steps) && Settlements(c, steps) >= j + 1
    ensures StartOrder(c.history) + c.queue[..j + 1] <= StartOrder(Exec(c, steps).history)
    decreases |steps|
  {
    var step, rest := steps[0], steps[1..];
    var p := Next(c, step);
    NextInv(c, step);
    assert NoShutdown(rest) && !step.SShutdown?;
    if step.SSettle? && step.r in c.inFlight {
      SettleAdvances(c, step.r, step.outcome, step.now);
      PrefixSplit(StartOrder(c.history), c.queue, j);
      if j == 0 {
        StartsOnlyGrow(p, rest);
      } else {
        StartsWithinSettlements(p, rest, j - 1);
      }
    } else {
      StepKeepsQueue(c, step);
      StartsWithinSettlements(p, rest, j);
      assert p.queue[..j + 1] == c.queue[..j + 1];
    }
  }

  lemma PrefixSplit<T>(a: seq<T>, q: seq<T>, j: nat)
    requires j < |q|
    ensures a + q[..j + 1] == (a + [q[0]]) + q[1..][..j]
  {
    assert q[..j + 1] == [q[0]] + q[1..][..j];
  }
}
