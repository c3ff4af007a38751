/**
 The projection as it runs: tables updated in place, one event after the other
 (apps/core/src/domain-projection.ts).  Every method leaves the tables as `UsageProjection` says.
 */
module UsageProjectors {
  import opened Common
  import opened UsageProjection

  datatype Outcome = Outcome(projected: bool, idempotent: bool, conflict: bool)

  class UsageProjector {
    var events: map<EventId, EventRow>
    var usage: map<EventId, UsageRow>
    var count: nat
    var conflicts: nat

    ghost function Abs(): Tables
      reads this
    {
      Tables(events, usage, count, conflicts)
    }

    constructor ()
      ensures Abs() == EMPTY
    {
      events, usage, count, conflicts := map[], map[], 0, 0;
    }

    /** Timing evidence may arrive after the transcript; known timings are never overwritten. */
    method ReconcileWorkbuddyTiming(incoming: Event) returns (done: bool)
      requires incoming.body.UsageBody? && Inv(Abs())
      modifies `events, `usage
      ensures done <==> incoming.id in old(events) && old(events[incoming.id]).payload.body.UsageBody?
                        && old(events[incoming.id]).payload.vendor == incoming.vendor
                        && MergeTiming(old(events[incoming.id]).payload.body.usage, incoming.body.usage, incoming.adapter).Some?
      ensures !done ==> Abs() == old(Abs())
      ensures done ==> Abs() == Enrich(old(Abs()), incoming.id, Timing,
                MergeTiming(old(events[incoming.id]).payload.body.usage, incoming.body.usage, incoming.adapter).value)
    {
      var u := incoming.body.usage;
      if !(incoming.adapter.WorkbuddyJsonl? && u.source.WorkbuddyUsage?) || incoming.id !in events { return false; }
      assert EventOk(Abs(), incoming.id);
      var stored := events[incoming.id].payload;
      if !stored.body.UsageBody? { return false; }
      var s := stored.body.usage;
      if FingerprintOf(stored.(body := UsageBody(WithoutTiming(s))))
         != FingerprintOf(incoming.(body := UsageBody(WithoutTiming(u)))) {
        return false;
      }
      if Disagree(s.firstToken, u.firstToken) || Disagree(s.decode, u.decode) { return false; }
      var merged := stored.(body := UsageBody(s.(firstToken := Merge(s.firstToken, u.firstToken),
                                                decode := Merge(s.decode, u.decode))));
      var fingerprint := FingerprintOf(merged);
      if fingerprint != events[incoming.id].fingerprint {
        events := events[incoming.id := EventRow(merged, fingerprint)];
        if incoming.id in usage {
          usage := usage[incoming.id := usage[incoming.id].(
                    firstToken := Nullable(merged.body.usage.firstToken),
                    decode := Nullable(merged.body.usage.decode),
                    fingerprint := fingerprint)];
        }
      }
      done := true;
    }

    /** A billing line can come after its request. */
    method ReconcileUsageCredit(incoming: Event) returns (done: bool)
      requires incoming.body.UsageBody? && Inv(Abs())
      modifies `events, `usage
      ensures done <==> incoming.id in old(events) && old(events[incoming.id]).payload.body.UsageBody?
                        && old(events[incoming.id]).payload.vendor == incoming.vendor
                        && MergeCredit(old(events[incoming.id]).payload.body.usage, incoming.body.usage).Some?
      ensures !done ==> Abs() == old(Abs())
      ensures done ==> Abs() == Enrich(old(Abs()), incoming.id, Credit,
                MergeCredit(old(events[incoming.id]).payload.body.usage, incoming.body.usage).value)
    {
      var u := incoming.body.usage;
      if !u.credit.Value? || incoming.id !in events { return false; }
      assert EventOk(Abs(), incoming.id);
      var stored := events[incoming.id].payload;
      if !stored.body.UsageBody? || stored.body.usage.credit.Value? { return false; }
      var s := stored.body.usage;
      if FingerprintOf(stored.(body := UsageBody(WithoutCredit(s))))
         != FingerprintOf(incoming.(body := UsageBody(WithoutCredit(u)))) {
        return false;
      }
      var merged := stored.(body := UsageBody(s.(credit := u.credit)));
      var fingerprint := FingerprintOf(merged);
      if fingerprint != events[incoming.id].fingerprint {
        events := events[incoming.id := EventRow(merged, fingerprint)];
        if incoming.id in usage {
          usage := usage[incoming.id := usage[incoming.id].(
                    credit := Nullable(merged.body.usage.credit), fingerprint := fingerprint)];
        }
      }
      done := true;
    }

    /** The cache split is logged one line after the usage record. */
    method ReconcileUsageCache(incoming: Event) returns (done: bool)
      requires incoming.body.UsageBody? && Inv(Abs())
      modifies `events, `usage
      ensures done <==> incoming.id in old(events) && old(events[incoming.id]).payload.body.UsageBody?
                        && old(events[incoming.id]).payload.vendor == incoming.vendor
                        && MergeCache(old(events[incoming.id]).payload.body.usage, incoming.body.usage).Some?
      ensures !done ==> Abs() == old(Abs())
      ensures done ==> Abs() == Enrich(old(Abs()), incoming.id, Cache,
                MergeCache(old(events[incoming.id]).payload.body.usage, incoming.body.usage).value)
    {
      var u := incoming.body.usage;
      if u.cacheRead == 0 || incoming.id !in events { return false; }
      assert EventOk(Abs(), incoming.id);
      var stored := events[incoming.id].payload;
      if !stored.body.UsageBody? || stored.body.usage.cacheRead > 0 { return false; }
      var s := stored.body.usage;
      if FingerprintOf(stored.(body := UsageBody(WithoutCache(s))))
         != FingerprintOf(incoming.(body := UsageBody(WithoutCache(u)))) {
        return false;
      }
      var merged := stored.(body := UsageBody(s.(cacheRead := u.cacheRead, cacheCreation := u.cacheCreation)));
      var fingerprint := FingerprintOf(merged);
      var displayed := DisplayedInput(merged.body.usage);
      if displayed.None? { return false; }
      events := events[incoming.id := EventRow(merged, fingerprint)];
      if incoming.id in usage {
        usage := usage[incoming.id := usage[incoming.id].(
                  cacheRead := merged.body.usage.cacheRead, cacheCreation := merged.body.usage.cacheCreation,
                  displayedInput := displayed.value, fingerprint := fingerprint)];
      }
      done := true;
    }

    method HealUsageModelId(e: Event)
      requires e.body.UsageBody?
      modifies `usage
      ensures Abs() == HealModel(old(Abs()), e)
    {
      if e.body.usage.model.Value? && e.body.usage.model.value != "" {
        if e.id in usage && usage[e.id].model.None? {
          usage := usage[e.id := usage[e.id].(model := Some(e.body.usage.model.value))];
        }
      }
    }

    /** An event without consistent token counts gets no usage row; a row that is there stays. */
    method InsertUsage(e: Event)
      requires e.body.UsageBody?
      modifies `usage
      ensures Abs() == ProjectUsage(old(Abs()), e)
    {
      var displayed := DisplayedInput(e.body.usage);
      if displayed.Some? && e.id !in usage {
        usage := usage[e.id := RowOf(e.body.usage, displayed.value, FingerprintOf(e))];
      }
    }

    /** One event against the tables. */
    method Project(e: Event) returns (outcome: Outcome)
      requires Inv(Abs())
      modifies this
      ensures Abs() == ProjectOne(old(Abs()), e) && Inv(Abs())
      ensures outcome.projected <==> e.id !in old(events)
      ensures outcome.conflict <==> Conflicts(old(Abs()), e) && Reconciled(old(Abs()), e).None?
      ensures outcome.idempotent <==> !outcome.projected && !outcome.conflict
    {
      StepInv(Abs(), e);
      var fingerprint := FingerprintOf(e);
      var conflict := e.id in events && events[e.id].fingerprint != fingerprint;
      if conflict {
        assert EventOk(Abs(), e.id);
      }
      if conflict && e.body.UsageBody? && e.vendor.Workbuddy? {
        var done := ReconcileWorkbuddyTiming(e);
        if !done { done := ReconcileUsageCredit(e); }
        if !done { done := ReconcileUsageCache(e); }
        if done { return Outcome(false, true, false); }
      }
      var fresh' := e.id !in events;
      if fresh' {
        events, count := events[e.id := EventRow(e, fingerprint)], count + 1;
      }
      if conflict {
        if e.body.UsageBody? { HealUsageModelId(e); }
        conflicts := conflicts + 1;
        return Outcome(false, false, true);
      }
      if e.body.UsageBody? { InsertUsage(e); }
      outcome := Outcome(fresh', !fresh', false);
    }

    /** A batch, in order; the outcomes account for every counted row and every conflict. */
    method ProjectNormalizedEvents(batch: seq<Event>) returns (outcomes: seq<Outcome>)
      requires Inv(Abs())
      modifies this
      ensures Abs() == ProjectAll(old(Abs()), batch) && Inv(Abs())
      ensures |outcomes| == |batch|
      ensures count == old(count) + Projected(outcomes) && conflicts == old(conflicts) + Conflicted(outcomes)
    {
      outcomes := [];
      for i := 0 to |batch|
        invariant Abs() == ProjectAll(old(Abs()), batch[..i]) && Inv(Abs())
        invariant |outcomes| == i
        invariant count == old(count) + Projected(outcomes) && conflicts == old(conflicts) + Conflicted(outcomes)
      {
        ProjectAllStep(old(Abs()), batch, i);
        StepTallies(Abs(), batch[i]);
        var outcome := Project(batch[i]);
        TallyAppend(outcomes, outcome);
        outcomes := outcomes + [outcome];
      }
      assert batch[..|batch|] == batch;
    }
  }

  function Projected(outcomes: seq<Outcome>): nat {
    if outcomes == [] then 0
    else Projected(outcomes[..|outcomes| - 1]) + if outcomes[|outcomes| - 1].projected then 1 else 0
  }

  function Conflicted(outcomes: seq<Outcome>): nat {
    if outcomes == [] then 0
    else Conflicted(outcomes[..|outcomes| - 1]) + if outcomes[|outcomes| - 1].conflict then 1 else 0
  }

  lemma TallyAppend(outcomes: seq<Outcome>, o: Outcome)
    ensures Projected(outcomes + [o]) == Projected(outcomes) + if o.projected then 1 else 0
    ensures Conflicted(outcomes + [o]) == Conflicted(outcomes) + if o.conflict then 1 else 0
  {
    assert (outcomes + [o])[..|outcomes|] == outcomes;
  }

  lemma ProjectAllStep(t: Tables, batch: seq<Event>, i: nat)
    requires i < |batch|
    ensures ProjectAll(t, batch[..i + 1]) == ProjectOne(ProjectAll(t, batch[..i]), batch[i])
  {
    assert batch[..i + 1][..i] == batch[..i];
  }

  lemma StepTallies(t: Tables, e: Event)
    ensures ProjectOne(t, e).count == t.count + if e.id in t.events then 0 else 1
    ensures ProjectOne(t, e).conflicts
            == t.conflicts + if Conflicts(t, e) && Reconciled(t, e).None? then 1 else 0
  {}
}
