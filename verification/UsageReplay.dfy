/**
 Projecting a log again (apps/core/src/domain-projection.ts): replays converge, and one pass is enough
 exactly when no event of the log is a part ahead of what the first pass stored for its id.
 */
module UsageReplay {
  import opened Common
  import opened UsageProjection

  // ---------------------------------------------------------------- reading the same log again

  /** The log is projected `n` times over. */
  function Passes(t: Tables, events: seq<Event>, n: nat): Tables {
    if n == 0 then t else ProjectAll(Passes(t, events, n - 1), events)
  }

  lemma {:induction false} PassesInv(t: Tables, events: seq<Event>, n: nat)
    requires Inv(t)
    ensures Inv(Passes(t, events, n))
    ensures forall id :: id in t.events ==> id in Passes(t, events, n).events
  {
    if n > 0 {
      PassesInv(t, events, n - 1);
      RunInv(Passes(t, events, n - 1), events);
      forall id | id in t.events ensures id in Passes(t, events, n).events {
        RunEnriches(Passes(t, events, n - 1), events, id);
      }
    }
  }

  lemma StepDetermined(t: Tables, t': Tables, e: Event, id: EventId)
    requires id in t.events && id in t'.events && t.events[id] == t'.events[id]
    ensures id in ProjectOne(t, e).events && id in ProjectOne(t', e).events
    ensures ProjectOne(t, e).events[id] == ProjectOne(t', e).events[id]
  {}

  /** What happens to a row depends on the row and the events only. */
  lemma {:induction false} RowIsDetermined(t: Tables, t': Tables, events: seq<Event>, id: EventId)
    requires id in t.events && id in t'.events && t.events[id] == t'.events[id]
    ensures id in ProjectAll(t, events).events && id in ProjectAll(t', events).events
    ensures ProjectAll(t, events).events[id] == ProjectAll(t', events).events[id]
    ensures Changes(t, events, id) == Changes(t', events, id)
    decreases |events|
  {
    if events != [] {
      var before, e := events[..|events| - 1], events[|events| - 1];
      RowIsDetermined(t, t', before, id);
      StepDetermined(ProjectAll(t, before), ProjectAll(t', before), e, id);
    }
  }

  lemma {:induction false} NoChangesSameRow(t: Tables, events: seq<Event>, id: EventId)
    requires Inv(t) && id in t.events && Changes(t, events, id) == 0
    ensures id in ProjectAll(t, events).events && ProjectAll(t, events).events[id] == t.events[id]
    decreases |events|
  {
    if events != [] {
      NoChangesSameRow(t, events[..|events| - 1], id);
    }
  }

  /** A pass that changes a row uses room; one that does not is followed by passes that do not either. */
  lemma OnePass(t: Tables, events: seq<Event>, id: EventId)
    requires Inv(t) && id in t.events && t.events[id].payload.body.UsageBody?
    ensures var t' := ProjectAll(t, events);
      && id in t'.events && t'.events[id].payload.body.UsageBody?
      && (if Changes(t, events, id) == 0 then Changes(t', events, id) == 0
          else Room(t'.events[id].payload.body.usage) < Room(t.events[id].payload.body.usage))
  {
    ChangesFitRoom(t, events, id);
    if Changes(t, events, id) == 0 {
      NoChangesSameRow(t, events, id);
      RowIsDetermined(t, ProjectAll(t, events), events, id);
    }
  }

  /** After `n` passes a row has settled or has used up `n` of its room. */
  lemma {:induction false} PassesUseRoom(t: Tables, events: seq<Event>, id: EventId, n: nat)
    requires Inv(t) && id in t.events && t.events[id].payload.body.UsageBody?
    ensures Inv(Passes(t, events, n)) && id in Passes(t, events, n).events
    ensures Passes(t, events, n).events[id].payload.body.UsageBody?
    ensures || Changes(Passes(t, events, n), events, id) == 0
            || Room(Passes(t, events, n).events[id].payload.body.usage) + n <= Room(t.events[id].payload.body.usage)
  {
    if n > 0 {
      PassesUseRoom(t, events, id, n - 1);
      var before := Passes(t, events, n - 1);
      OnePass(before, events, id);
      RunInv(before, events);
    }
  }

  /**
   Replays converge: once every id of a log is stored, five more passes over the log reach the
   stored events that every further pass leaves alone.
   */
  lemma ReplayConverges(t: Tables, events: seq<Event>, id: EventId)
    requires Inv(t) && id in t.events
    ensures id in Passes(t, events, 5).events && id in Passes(t, events, 6).events
    ensures Passes(t, events, 6).events[id] == Passes(t, events, 5).events[id]
  {
    var settled := Passes(t, events, 5);
    PassesInv(t, events, 5);
    assert EventOk(t, id);
    if t.events[id].payload.body.UsageBody? {
      PassesUseRoom(t, events, id, 5);
    } else {
      PassesEnrich(t, events, id, 5);
    }
    ChangesFitRoom(settled, events, id);
    NoChangesSameRow(settled, events, id);
  }

  lemma {:induction false} PassesEnrich(t: Tables, events: seq<Event>, id: EventId, n: nat)
    requires Inv(t) && id in t.events
    ensures Inv(Passes(t, events, n)) && id in Passes(t, events, n).events
    ensures Enriches(t.events[id].payload, Passes(t, events, n).events[id].payload)
  {
    if n > 0 {
      PassesEnrich(t, events, id, n - 1);
      var before := Passes(t, events, n - 1);
      var after := ProjectAll(before, events);
      RunInv(before, events);
      RunEnriches(before, events, id);
      EnrichesTransitive(t.events[id].payload, before.events[id].payload, after.events[id].payload);
    }
  }

  // ---------------------------------------------------------------- when one pass is enough

  /** Projected against this stored event, `e` would change it. */
  predicate Advances(stored: Event, e: Event) {
    && e.id == stored.id && WorkbuddyUsageEvent(e) && stored.vendor == e.vendor && stored.body.UsageBody?
    && stored.body.usage != e.body.usage
    && var r := Reconcile(stored.body.usage, e.body.usage, e.adapter);
       r.Some? && r.value.1 != stored.body.usage
  }

  /** A timing the stored usage lacks, or a timing member it has to be given as null. */
  predicate AddsTiming(stored: Usage, incoming: Usage) {
    || (incoming.firstToken.Value? && !stored.firstToken.Value?)
    || (incoming.decode.Value? && !stored.decode.Value?)
    || (stored != incoming && !TimingsPresent(stored))
  }

  /** An event changes a stored one exactly when it is one part ahead of it and the same in the other two. */
  lemma AdvancesIff(stored: Event, e: Event)
    requires e.id == stored.id && WorkbuddyUsageEvent(e) && WorkbuddyUsageEvent(stored)
    ensures var s, u := stored.body.usage, e.body.usage;
      Advances(stored, e) <==>
      && Core(s) == Core(u)
      && (|| (&& s.credit == u.credit && SameCache(s, u) && e.adapter.WorkbuddyJsonl? && u.source.WorkbuddyUsage?
              && (s.firstToken.Value? && u.firstToken.Value? ==> s.firstToken == u.firstToken)
              && (s.decode.Value? && u.decode.Value? ==> s.decode == u.decode) && AddsTiming(s, u))
          || (SameTiming(s, u) && SameCache(s, u) && !s.credit.Value? && u.credit.Value?)
          || (&& SameTiming(s, u) && s.credit == u.credit && s.cacheRead == 0 && u.cacheRead > 0
              && (u.semantics.Gross? ==> u.cacheRead <= u.input)))
  {}

  lemma StepChangesIff(t: Tables, e: Event, id: EventId)
    requires Inv(t) && id in t.events
    ensures id in ProjectOne(t, e).events
    ensures ProjectOne(t, e).events[id] != t.events[id] <==> e.id == id && Advances(t.events[id].payload, e)
  {
    assert EventOk(t, id);
  }

  /** Nothing in a list of events changes a stored event. */
  ghost predicate Spent(stored: Event, events: seq<Event>) {
    forall i :: 0 <= i < |events| ==> !Advances(stored, events[i])
  }

  lemma {:induction false} NoChangesIff(t: Tables, events: seq<Event>, id: EventId)
    requires Inv(t) && id in t.events
    ensures Changes(t, events, id) == 0 <==> Spent(t.events[id].payload, events)
    decreases |events|
  {
    if events != [] {
      var before, e := events[..|events| - 1], events[|events| - 1];
      NoChangesIff(t, before, id);
      assert Spent(t.events[id].payload, events)
             <==> Spent(t.events[id].payload, before) && !Advances(t.events[id].payload, e);
      if Changes(t, before, id) == 0 {
        RunInv(t, before);
        NoChangesSameRow(t, before, id);
        StepChangesIff(ProjectAll(t, before), e, id);
        assert EventOk(t, id);
      }
    }
  }

  /** A pass over some events leaves a stored event alone if and only if none of them is a part ahead of it. */
  lemma PassIdleIff(t: Tables, events: seq<Event>, id: EventId)
    requires Inv(t) && id in t.events
    ensures id in ProjectAll(t, events).events
    ensures ProjectAll(t, events).events[id] == t.events[id] <==> Spent(t.events[id].payload, events)
  {
    NoChangesIff(t, events, id);
    ChangesFitRoom(t, events, id);
    RunEnriches(t, events, id);
    if Changes(t, events, id) == 0 {
      NoChangesSameRow(t, events, id);
    }
  }

  /**
   One pass over a log is idempotent, the second changing no stored event, if and only if no event of
   the log is a part ahead of what the first pass stored for its id.
   */
  lemma OnePassIff(events: seq<Event>)
    ensures var once := ProjectAll(EMPTY, events);
      && (forall i :: 0 <= i < |events| ==> events[i].id in once.events)
      && (ProjectAll(once, events).events == once.events
          <==> forall i :: 0 <= i < |events| ==> !Advances(once.events[events[i].id].payload, events[i]))
  {
    var once := ProjectAll(EMPTY, events);
    var twice := ProjectAll(once, events);
    EmptyInv();
    RunInv(EMPTY, events);
    RunReflects(events);
    forall i | 0 <= i < |events| ensures events[i].id in once.events { OccursFirst(events, i); }
    forall id ensures id in twice.events <==> id in once.events { PassIds(once, events, id); }
    forall id | id in once.events
      ensures twice.events[id] == once.events[id] <==> Spent(once.events[id].payload, events)
    {
      PassIdleIff(once, events, id);
    }
    forall id | id in once.events ensures once.events[id].payload.id == id { assert EventOk(once, id); }
    assert twice.events == once.events <==> forall id :: id in once.events ==> Spent(once.events[id].payload, events);
    if forall i :: 0 <= i < |events| ==> !Advances(once.events[events[i].id].payload, events[i]) {
      forall id | id in once.events ensures Spent(once.events[id].payload, events) {
        forall i | 0 <= i < |events| ensures !Advances(once.events[id].payload, events[i]) {
          if events[i].id != id { assert events[i].id != once.events[id].payload.id; }
        }
      }
    }
  }

  lemma {:induction false} PassIds(t: Tables, events: seq<Event>, id: EventId)
    requires forall i :: 0 <= i < |events| ==> events[i].id in t.events
    ensures id in ProjectAll(t, events).events <==> id in t.events
    decreases |events|
  {
    if events != [] {
      PassIds(t, events[..|events| - 1], id);
      PassIds(t, events[..|events| - 1], events[|events| - 1].id);
      StepIsLocal(ProjectAll(t, events[..|events| - 1]), events[|events| - 1]);
    }
  }

  // ---------------------------------------------------------------- logs for which one pass is enough

  /** At most one of timing, credit and cache split differs. */
  predicate OnePart(a: Usage, b: Usage) {
    && Core(a) == Core(b)
    && (|| (a.credit == b.credit && SameCache(a, b))
        || (SameTiming(a, b) && SameCache(a, b))
        || (SameTiming(a, b) && a.credit == b.credit))
  }

  /** Every WorkBuddy report of the id that agrees with the first one otherwise differs from it in one part at most. */
  ghost predicate OnePartEach(events: seq<Event>, id: EventId, first: Event) {
    forall i :: 0 <= i < |events| && events[i].id == id && WorkbuddyUsageEvent(events[i])
                && WorkbuddyUsageEvent(first) && Core(events[i].body.usage) == Core(first.body.usage) ==>
      OnePart(first.body.usage, events[i].body.usage)
  }

  /** Nothing that `a` knows is news to `b`. */
  predicate Below(a: Usage, b: Usage) {
    Grows(a, b) && (SameTiming(a, b) || TimingsPresent(b))
  }

  /** What one acceptance does among reports that differ from the first in one part each. */
  lemma OnePartStep(first: Usage, stored: Event, e: Event, seen: Event)
    requires WorkbuddyUsageEvent(stored) && WorkbuddyUsageEvent(e) && WorkbuddyUsageEvent(seen)
    requires e.id == stored.id && e.vendor == stored.vendor
    requires OnePart(first, stored.body.usage) && Below(first, stored.body.usage) && OnePart(first, e.body.usage)
    requires Core(seen.body.usage) == Core(first) ==> OnePart(first, seen.body.usage)
    requires Advances(stored, e) && !Advances(stored, seen)
    ensures var merged := Reconcile(stored.body.usage, e.body.usage, e.adapter).value.1;
      && OnePart(first, merged) && Below(first, merged)
      && !Advances(stored.(body := UsageBody(merged)), seen)
  {
    var after := stored.(body := UsageBody(Reconcile(stored.body.usage, e.body.usage, e.adapter).value.1));
    if seen.id == stored.id && Core(seen.body.usage) == Core(first) {
      AdvancesIff(stored, e);
      AdvancesIff(stored, seen);
      AdvancesIff(after, seen);
      var s, u, m, z := stored.body.usage, e.body.usage, after.body.usage, seen.body.usage;
      if s.credit == u.credit && SameCache(s, u) {
        assert TimingsPresent(m) && !SameTiming(m, s) && !SameTiming(m, first);
      } else {
        assert m == u;
      }
      assert !(m.credit == z.credit && SameCache(m, z) && AddsTiming(m, z))
             || Disagree(m.firstToken, z.firstToken) || Disagree(m.decode, z.decode)
             || !z.source.WorkbuddyUsage? || !seen.adapter.WorkbuddyJsonl?;
    }
  }

  /** The accepted event itself has nothing more to give. */
  lemma AcceptedIsSpent(stored: Event, e: Event)
    requires Advances(stored, e)
    ensures var merged := Reconcile(stored.body.usage, e.body.usage, e.adapter).value.1;
      !Advances(stored.(body := UsageBody(merged)), e)
  {}

  lemma StepRow(t: Tables, e: Event, id: EventId)
    requires Inv(t) && id in t.events
    ensures id in ProjectOne(t, e).events
    ensures ProjectOne(t, e).events[id].payload
            == if e.id == id && Advances(t.events[id].payload, e)
               then t.events[id].payload.(body := UsageBody(
                      Reconcile(t.events[id].payload.body.usage, e.body.usage, e.adapter).value.1))
               else t.events[id].payload
  {
    assert EventOk(t, id);
  }

  lemma {:induction false} OnePartRun(events: seq<Event>, id: EventId, first: Event)
    requires First(events, id) == Some(first) && OnePartEach(events, id, first)
    ensures id in ProjectAll(EMPTY, events).events
    ensures var row := ProjectAll(EMPTY, events).events[id].payload;
      && row.id == id && row.vendor == first.vendor && (row.body.UsageBody? <==> first.body.UsageBody?)
      && (WorkbuddyUsageEvent(first) ==>
            OnePart(first.body.usage, row.body.usage) && Below(first.body.usage, row.body.usage))
      && Spent(row, events)
    decreases |events|
  {
    var before, e := events[..|events| - 1], events[|events| - 1];
    var t := ProjectAll(EMPTY, before);
    RunReflects(before);
    assert before + [e] == events;
    FirstAppend(before, e, id);
    if First(before, id).None? {
      FirstSpent(before, id, e);
    } else {
      assert OnePartEach(before, id, first) by {
        forall i | 0 <= i < |before| ensures before[i] == events[i] {}
      }
      OnePartRun(before, id, first);
      var row := t.events[id].payload;
      StepRow(t, e, id);
      assert events[|events| - 1] == e;
      if e.id == id && Advances(row, e) {
        AcceptedIsSpent(row, e);
        var after := ProjectAll(EMPTY, events).events[id].payload;
        MergedGrows(row.body.usage, e.body.usage, e.adapter);
        AdvancesCore(row, e);
        forall i | 0 <= i < |before| ensures !Advances(after, before[i]) {
          assert before[i] == events[i];
          if before[i].id == id && WorkbuddyUsageEvent(before[i]) {
            OnePartStep(first.body.usage, row, e, before[i]);
          }
        }
        OnePartStep(first.body.usage, row, e, row);
      }
    }
  }

  lemma AdvancesCore(stored: Event, e: Event)
    requires Advances(stored, e)
    ensures WorkbuddyUsageEvent(stored) && Core(stored.body.usage) == Core(e.body.usage)
  {}

  /** The first event of an id is stored as it is, and the events before it do not touch it. */
  lemma FirstSpent(before: seq<Event>, id: EventId, e: Event)
    requires First(before, id).None? && e.id == id
    ensures id in ProjectAll(EMPTY, before + [e]).events
    ensures ProjectAll(EMPTY, before + [e]).events[id].payload == e
    ensures Spent(e, before + [e])
  {
    RunReflects(before);
    assert (before + [e])[..|before|] == before;
    StepPayload(ProjectAll(EMPTY, before), e);
    forall i | 0 <= i < |before + [e]| ensures !Advances(e, (before + [e])[i]) {
      if i < |before| { OccursFirst(before, i); }
    }
  }

  /** The last event of the log that carries the id. */
  function LastOf(events: seq<Event>, id: EventId): Option<Event>
    decreases |events|
  {
    if events == [] then None
    else if events[|events| - 1].id == id then Some(events[|events| - 1])
    else LastOf(events[..|events| - 1], id)
  }

  /** The same usage again, or one part more. */
  predicate Follows(previous: Event, e: Event) {
    && WorkbuddyUsageEvent(previous) && WorkbuddyUsageEvent(e) && previous.id == e.id
    && (|| e.body.usage == previous.body.usage
        || (&& Reconcile(previous.body.usage, e.body.usage, e.adapter).Some?
            && Reconcile(previous.body.usage, e.body.usage, e.adapter).value.1 == e.body.usage))
  }

  /** Each report of the id follows the one before it. */
  predicate Chain(events: seq<Event>, id: EventId)
    decreases |events|
  {
    events != [] ==>
      var before, e := events[..|events| - 1], events[|events| - 1];
      && Chain(before, id)
      && (e.id == id && LastOf(before, id).Some? ==> Follows(LastOf(before, id).value, e))
  }

  lemma BelowIsSpent(stored: Event, e: Event)
    requires stored.body.UsageBody? && e.body.UsageBody? && Below(e.body.usage, stored.body.usage)
    ensures !Advances(stored, e)
  {}

  lemma BelowFollows(a: Usage, previous: Event, e: Event)
    requires Follows(previous, e) && Below(a, previous.body.usage)
    ensures Below(a, e.body.usage)
  {
    if e.body.usage != previous.body.usage {
      MergedGrows(previous.body.usage, e.body.usage, e.adapter);
      GrowsTransitive(a, previous.body.usage, e.body.usage);
    }
  }

  /** Projecting the next of a chain leaves its usage in the row. */
  lemma FollowsIs(row: Event, previous: Event, e: Event)
    requires Follows(previous, e) && WorkbuddyUsageEvent(row) && row.id == e.id && row.body == previous.body
    ensures (if Advances(row, e) then UsageBody(Reconcile(row.body.usage, e.body.usage, e.adapter).value.1) else row.body) == e.body
  {}

  lemma {:induction false} ChainRun(events: seq<Event>, id: EventId)
    requires Chain(events, id) && First(events, id).Some? && WorkbuddyUsageEvent(First(events, id).value)
    ensures id in ProjectAll(EMPTY, events).events && LastOf(events, id).Some?
    ensures WorkbuddyUsageEvent(LastOf(events, id).value) && LastOf(events, id).value.id == id
    ensures var row, last := ProjectAll(EMPTY, events).events[id].payload, LastOf(events, id).value;
      && WorkbuddyUsageEvent(row) && row.id == id && row.vendor == last.vendor && row.body == last.body
      && forall i :: 0 <= i < |events| && events[i].id == id ==>
           events[i].body.UsageBody? && Below(events[i].body.usage, row.body.usage)
    decreases |events|
  {
    var before, e := events[..|events| - 1], events[|events| - 1];
    var t := ProjectAll(EMPTY, before);
    RunReflects(before);
    assert before + [e] == events;
    FirstAppend(before, e, id);
    if First(before, id).None? {
      FirstSpent(before, id, e);
      forall i | 0 <= i < |before| ensures events[i].id != id {
        assert events[i] == before[i];
        OccursFirst(before, i);
      }
    } else {
      ChainRun(before, id);
      StepRow(t, e, id);
      if e.id == id { FollowsIs(t.events[id].payload, LastOf(before, id).value, e); }
      forall i | 0 <= i < |before| && events[i].id == id
        ensures events[i].body.UsageBody? && Below(events[i].body.usage, LastOf(events, id).value.body.usage)
      {
        assert events[i] == before[i];
        if e.id == id { BelowFollows(before[i].body.usage, LastOf(before, id).value, e); }
      }
    }
  }

  /**
   Logs for which one pass is idempotent: for every id, one part at most per report, or each report
   following the last.
   */
  lemma OnePassIsEnough(events: seq<Event>)
    requires forall id :: First(events, id).Some? ==>
               OnePartEach(events, id, First(events, id).value)
               || (Chain(events, id) && WorkbuddyUsageEvent(First(events, id).value))
    ensures var once := ProjectAll(EMPTY, events);
      ProjectAll(once, events).events == once.events
  {
    var once := ProjectAll(EMPTY, events);
    OnePassIff(events);
    forall i | 0 <= i < |events| ensures !Advances(once.events[events[i].id].payload, events[i]) {
      var id := events[i].id;
      OccursFirst(events, i);
      if OnePartEach(events, id, First(events, id).value) {
        OnePartRun(events, id, First(events, id).value);
      } else {
        ChainRun(events, id);
        BelowIsSpent(once.events[id].payload, events[i]);
      }
    }
  }
}
