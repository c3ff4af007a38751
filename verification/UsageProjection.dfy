/**
 The canonical projection of one event into the event and usage tables
 (apps/core/src/domain-projection.ts): the first writer of an event id wins, and a stored WorkBuddy
 usage row may later be enriched with timings, a credit or a cache split.

 A fingerprint is the part of an event it is computed from; SHA-256 collisions are not modelled.
 Tables are finite maps, and an event id is the primary key of both.
 */
module UsageProjection {
  import opened Common

  datatype EventId = EventId(text: string)

  /** A JSON member: not there, null, or a value. */
  datatype Field<T> = Missing | Null | Value(value: T)

  function Nullable<T>(f: Field<T>): Option<T> {
    if f.Value? then Some(f.value) else None
  }

  function Known<T>(f: Field<T>): nat {
    if f.Value? then 1 else 0
  }

  datatype Semantics = Delta | Gross
  datatype Vendor = Workbuddy | OtherVendor(name: string)
  datatype Adapter = WorkbuddyJsonl | OtherAdapter(name: string)
  datatype UsageSource = WorkbuddyUsage | OtherUsageSource(name: string)

  /** `rest` stands for the members no branch looks at (message, provider, timestamp, and so on). */
  datatype Usage = Usage(
    semantics: Semantics,
    input: nat,
    output: nat,
    cacheCreation: nat,
    cacheRead: nat,
    source: UsageSource,
    model: Field<string>,
    credit: Field<nat>,
    firstToken: Field<nat>,
    decode: Field<nat>,
    rest: int)

  datatype Body = UsageBody(usage: Usage) | OtherBody(rest: int)

  datatype Event = Event(id: EventId, vendor: Vendor, adapter: Adapter, body: Body)

  /** The adapter is not part of the fingerprint. */
  datatype Fingerprint = Fingerprint(id: EventId, vendor: Vendor, body: Body)

  function FingerprintOf(e: Event): Fingerprint { Fingerprint(e.id, e.vendor, e.body) }

  datatype EventRow = EventRow(payload: Event, fingerprint: Fingerprint)

  datatype UsageRow = UsageRow(
    semantics: Semantics,
    rawInput: nat,
    displayedInput: nat,
    output: nat,
    cacheCreation: nat,
    cacheRead: nat,
    source: UsageSource,
    model: Option<string>,
    credit: Option<nat>,
    firstToken: Option<nat>,
    decode: Option<nat>,
    rest: int,
    fingerprint: Fingerprint)

  /** `count` is the counter the insert trigger keeps; `conflicts` counts identity conflicts. */
  datatype Tables = Tables(
    events: map<EventId, EventRow>,
    usage: map<EventId, UsageRow>,
    count: nat,
    conflicts: nat)

  const EMPTY := Tables(map[], map[], 0, 0)

  // ---------------------------------------------------------------- the pieces

  /** None where the original throws: a gross prompt smaller than its cached part. */
  function DisplayedInput(u: Usage): Option<nat> {
    if u.semantics.Delta? then Some(u.input)
    else if u.cacheRead > u.input then None
    else Some(u.input - u.cacheRead)
  }

  function RowOf(u: Usage, displayed: nat, f: Fingerprint): UsageRow {
    UsageRow(u.semantics, u.input, displayed, u.output, u.cacheCreation, u.cacheRead, u.source, Nullable(u.model),
             Nullable(u.credit), Nullable(u.firstToken), Nullable(u.decode), u.rest, f)
  }

  function WithoutTiming(u: Usage): Usage { u.(firstToken := Null, decode := Null) }
  function WithoutCredit(u: Usage): Usage { u.(credit := Missing) }
  function WithoutCache(u: Usage): Usage { u.(cacheRead := 0, cacheCreation := 0) }

  predicate Disagree(stored: Field<nat>, incoming: Field<nat>) {
    stored.Value? && incoming.Value? && stored != incoming
  }

  /** `stored ?? incoming ?? null` */
  function Merge(stored: Field<nat>, incoming: Field<nat>): Field<nat> {
    if stored.Value? then stored else if incoming.Value? then incoming else Null
  }

  /** What a reconciliation is about; each writes its own columns of the usage row. */
  datatype Part = Timing | Credit | Cache

  /** What an incoming usage makes of the stored one; None when this reconciliation does not apply. */
  function MergeTiming(stored: Usage, incoming: Usage, adapter: Adapter): Option<Usage> {
    if !(adapter.WorkbuddyJsonl? && incoming.source.WorkbuddyUsage?) then None
    else if WithoutTiming(stored) != WithoutTiming(incoming) then None
    else if Disagree(stored.firstToken, incoming.firstToken) || Disagree(stored.decode, incoming.decode) then None
    else Some(stored.(firstToken := Merge(stored.firstToken, incoming.firstToken),
                      decode := Merge(stored.decode, incoming.decode)))
  }

  function MergeCredit(stored: Usage, incoming: Usage): Option<Usage> {
    if !incoming.credit.Value? || stored.credit.Value? then None
    else if WithoutCredit(stored) != WithoutCredit(incoming) then None
    else Some(stored.(credit := incoming.credit))
  }

  function MergeCache(stored: Usage, incoming: Usage): Option<Usage> {
    if incoming.cacheRead == 0 || stored.cacheRead > 0 then None
    else if WithoutCache(stored) != WithoutCache(incoming) then None
    else
      var merged := stored.(cacheRead := incoming.cacheRead, cacheCreation := incoming.cacheCreation);
      if DisplayedInput(merged).None? then None else Some(merged)
  }

  /** The three reconciliations in the order they are tried. */
  function Reconcile(stored: Usage, incoming: Usage, adapter: Adapter): Option<(Part, Usage)> {
    var timing := MergeTiming(stored, incoming, adapter);
    var credit := MergeCredit(stored, incoming);
    var cache := MergeCache(stored, incoming);
    if timing.Some? then Some((Timing, timing.value))
    else if credit.Some? then Some((Credit, credit.value))
    else if cache.Some? then Some((Cache, cache.value))
    else None
  }

  /** The columns an enrichment writes in the usage row. */
  function Patch(row: UsageRow, part: Part, u: Usage, f: Fingerprint): UsageRow {
    match part
    case Timing => row.(firstToken := Nullable(u.firstToken), decode := Nullable(u.decode), fingerprint := f)
    case Credit => row.(credit := Nullable(u.credit), fingerprint := f)
    case Cache =>
      row.(cacheRead := u.cacheRead, cacheCreation := u.cacheCreation,
           displayedInput := if DisplayedInput(u).Some? then DisplayedInput(u).value else row.displayedInput,
           fingerprint := f)
  }

  /** Store the merged payload; the original writes nothing when the fingerprint did not move. */
  function Enrich(t: Tables, id: EventId, part: Part, u: Usage): Tables
    requires id in t.events
  {
    var payload := t.events[id].payload.(body := UsageBody(u));
    var f := FingerprintOf(payload);
    if f == t.events[id].fingerprint then t
    else t.(events := t.events[id := EventRow(payload, f)],
            usage := if id in t.usage then t.usage[id := Patch(t.usage[id], part, u, f)] else t.usage)
  }

  /** A conflicting usage event may still name the model a stored row lacks. */
  function HealModel(t: Tables, e: Event): Tables {
    if e.body.UsageBody? && e.body.usage.model.Value? && e.body.usage.model.value != "" && e.id in t.usage
       && t.usage[e.id].model.None?
    then t.(usage := t.usage[e.id := t.usage[e.id].(model := Some(e.body.usage.model.value))])
    else t
  }

  /** Insert the usage row unless there is one. */
  function ProjectUsage(t: Tables, e: Event): Tables {
    if !e.body.UsageBody? then t
    else
      var displayed := DisplayedInput(e.body.usage);
      if displayed.None? || e.id in t.usage then t
      else t.(usage := t.usage[e.id := RowOf(e.body.usage, displayed.value, FingerprintOf(e))])
  }

  predicate Conflicts(t: Tables, e: Event) {
    e.id in t.events && t.events[e.id].fingerprint != FingerprintOf(e)
  }

  /** What a conflicting WorkBuddy usage event is reconciled to, if anything. */
  function Reconciled(t: Tables, e: Event): Option<(Part, Usage)> {
    if !(Conflicts(t, e) && e.vendor.Workbuddy? && e.body.UsageBody?) then None
    else
      var stored := t.events[e.id].payload;
      if !stored.body.UsageBody? || stored.vendor != e.vendor || stored.id != e.id then None
      else Reconcile(stored.body.usage, e.body.usage, e.adapter)
  }

  /** Insert-if-absent, counted by the trigger. */
  function InsertEvent(t: Tables, e: Event): Tables {
    if e.id in t.events then t
    else t.(events := t.events[e.id := EventRow(e, FingerprintOf(e))], count := t.count + 1)
  }

  function ProjectOne(t: Tables, e: Event): Tables {
    var reconciled := Reconciled(t, e);
    if reconciled.Some? then Enrich(t, e.id, reconciled.value.0, reconciled.value.1)
    else if Conflicts(t, e) then
      var healed := HealModel(t, e);
      healed.(conflicts := healed.conflicts + 1)
    else ProjectUsage(InsertEvent(t, e), e)
  }

  function ProjectAll(t: Tables, events: seq<Event>): Tables
    decreases |events|
  {
    if events == [] then t
    else ProjectOne(ProjectAll(t, events[..|events| - 1]), events[|events| - 1])
  }

  // ---------------------------------------------------------------- what every state satisfies

  /** A usage row shows what the stored payload says; only the model may have been healed. */
  predicate RowAgrees(row: UsageRow, u: Usage, f: Fingerprint) {
    && row.semantics == u.semantics && row.source == u.source && row.rest == u.rest && row.fingerprint == f
    && row.rawInput == u.input && row.output == u.output
    && row.cacheRead == u.cacheRead && row.cacheCreation == u.cacheCreation
    && row.displayedInput == (if u.semantics.Gross? then u.input - u.cacheRead else u.input)
    && row.credit == (if u.credit.Value? then Some(u.credit.value) else None)
    && row.firstToken == (if u.firstToken.Value? then Some(u.firstToken.value) else None)
    && row.decode == (if u.decode.Value? then Some(u.decode.value) else None)
    && (u.model.Value? ==> row.model == Some(u.model.value))
  }

  predicate EventOk(t: Tables, id: EventId)
    requires id in t.events
  {
    && t.events[id].payload.id == id
    && t.events[id].fingerprint == FingerprintOf(t.events[id].payload)
    && (id in t.usage <==>
          t.events[id].payload.body.UsageBody? && DisplayedInput(t.events[id].payload.body.usage).Some?)
    && (id in t.usage ==>
          RowAgrees(t.usage[id], t.events[id].payload.body.usage, t.events[id].fingerprint))
  }

  ghost predicate Inv(t: Tables) {
    && t.count == |t.events|
    && (forall id :: id in t.usage ==> id in t.events)
    && (forall id :: id in t.events ==> EventOk(t, id))
  }

  lemma EmptyInv()
    ensures Inv(EMPTY)
  {}

  /** Tokens are conserved on gross rows: what is shown and what came from the cache add up to the prompt. */
  lemma GrossRowsConserveTokens(t: Tables, id: EventId)
    requires Inv(t) && id in t.usage
    ensures t.usage[id].semantics.Gross? ==>
              t.usage[id].displayedInput + t.usage[id].cacheRead == t.usage[id].rawInput
    ensures t.usage[id].semantics.Delta? ==> t.usage[id].displayedInput == t.usage[id].rawInput
  {
    assert EventOk(t, id);
  }

  /** Steps touch one id; everything about the others is as before. */
  ghost predicate OnlyAt(t: Tables, t': Tables, id: EventId) {
    forall other :: other != id ==>
      && (other in t.events <==> other in t'.events)
      && (other in t.usage <==> other in t'.usage)
      && (other in t.events ==> t'.events[other] == t.events[other])
      && (other in t.usage ==> t'.usage[other] == t.usage[other])
  }

  lemma StepIsLocal(t: Tables, e: Event)
    ensures OnlyAt(t, ProjectOne(t, e), e.id)
    ensures e.id in ProjectOne(t, e).events
    ensures forall id :: id in t.usage ==> id in ProjectOne(t, e).usage
  {}

  lemma LocalInv(t: Tables, t': Tables, id: EventId)
    requires Inv(t) && OnlyAt(t, t', id) && id in t'.events && EventOk(t', id)
    requires t'.count == |t'.events|
    ensures Inv(t')
  {
    forall other | other in t'.events ensures EventOk(t', other) {
      if other != id {
        assert EventOk(t, other);
      }
    }
  }

  lemma StepCounts(t: Tables, e: Event)
    requires t.count == |t.events|
    ensures ProjectOne(t, e).count == |ProjectOne(t, e).events|
  {
    if e.id in t.events {
      assert ProjectOne(t, e).events.Keys == t.events.Keys;
    }
  }

  lemma PatchAgrees(row: UsageRow, stored: Usage, incoming: Usage, adapter: Adapter, f: Fingerprint, f': Fingerprint)
    requires RowAgrees(row, stored, f) && Reconcile(stored, incoming, adapter).Some?
    ensures var (part, merged) := Reconcile(stored, incoming, adapter).value;
            RowAgrees(Patch(row, part, merged, f'), merged, f')
  {}

  lemma MergedDisplays(stored: Usage, incoming: Usage, adapter: Adapter)
    requires Reconcile(stored, incoming, adapter).Some?
    ensures var merged := Reconcile(stored, incoming, adapter).value.1;
      DisplayedInput(stored).Some? ==> DisplayedInput(merged).Some?
    ensures stored.cacheRead > 0 || DisplayedInput(stored).Some?
    ensures var merged := Reconcile(stored, incoming, adapter).value.1;
      DisplayedInput(merged).Some? ==> DisplayedInput(stored).Some?
  {}

  lemma EnrichEventOk(t: Tables, e: Event)
    requires Inv(t) && Reconciled(t, e).Some?
    ensures EventOk(ProjectOne(t, e), e.id)
  {
    assert EventOk(t, e.id);
    var stored := t.events[e.id].payload.body.usage;
    MergedDisplays(stored, e.body.usage, e.adapter);
    if e.id in t.usage {
      var f := FingerprintOf(ProjectOne(t, e).events[e.id].payload);
      PatchAgrees(t.usage[e.id], stored, e.body.usage, e.adapter, t.events[e.id].fingerprint, f);
    }
  }

  lemma StepEventOk(t: Tables, e: Event)
    requires Inv(t)
    ensures EventOk(ProjectOne(t, e), e.id)
  {
    if Reconciled(t, e).Some? {
      EnrichEventOk(t, e);
    } else if e.id in t.events {
      assert EventOk(t, e.id);
    }
  }

  lemma StepInv(t: Tables, e: Event)
    requires Inv(t)
    ensures Inv(ProjectOne(t, e))
  {
    StepIsLocal(t, e);
    StepCounts(t, e);
    StepEventOk(t, e);
    LocalInv(t, ProjectOne(t, e), e.id);
  }

  // ---------------------------------------------------------------- enrichment only adds

  /** The part of a usage that no reconciliation may touch. */
  function Core(u: Usage): Usage { WithoutTiming(WithoutCredit(WithoutCache(u))) }

  predicate FieldGrows(before: Field<nat>, after: Field<nat>) {
    before.Value? ==> after == before
  }

  /** Known timings and credit stay, a positive cache split stays, everything else is identical. */
  predicate Grows(before: Usage, after: Usage) {
    && Core(before) == Core(after)
    && FieldGrows(before.credit, after.credit)
    && FieldGrows(before.firstToken, after.firstToken)
    && FieldGrows(before.decode, after.decode)
    && (before.cacheRead > 0 ==>
          after.cacheRead == before.cacheRead && after.cacheCreation == before.cacheCreation)
  }

  /** A stored event against a later state of it; only WorkBuddy usage ever moves. */
  predicate Enriches(before: Event, after: Event) {
    || after == before
    || (&& before.vendor.Workbuddy? && before.body.UsageBody? && after.body.UsageBody?
        && after == before.(body := after.body)
        && Grows(before.body.usage, after.body.usage))
  }

  /** How often a stored usage can still change. */
  function Room(u: Usage): nat {
    (1 - Known(u.firstToken)) + (1 - Known(u.decode)) + (1 - Known(u.credit))
    + (if u.cacheRead == 0 then 1 else 0)
    + (if u.firstToken.Missing? || u.decode.Missing? then 1 else 0)
  }

  lemma MergedGrows(stored: Usage, incoming: Usage, adapter: Adapter)
    requires Reconcile(stored, incoming, adapter).Some?
    ensures var merged := Reconcile(stored, incoming, adapter).value.1;
            Grows(stored, merged) && (merged != stored ==> Room(merged) < Room(stored))
  {}

  lemma GrowsTransitive(a: Usage, b: Usage, c: Usage)
    requires Grows(a, b) && Grows(b, c)
    ensures Grows(a, c)
  {}

  lemma EnrichesTransitive(a: Event, b: Event, c: Event)
    requires Enriches(a, b) && Enriches(b, c)
    ensures Enriches(a, c)
  {
    if a != b && b != c {
      GrowsTransitive(a.body.usage, b.body.usage, c.body.usage);
    }
  }

  /** No step removes a row; the stored event is the old one or an enrichment of it. */
  lemma StepEnriches(t: Tables, e: Event, id: EventId)
    requires Inv(t) && id in t.events
    ensures id in ProjectOne(t, e).events
    ensures Enriches(t.events[id].payload, ProjectOne(t, e).events[id].payload)
    ensures ProjectOne(t, e).events[id] != t.events[id] ==>
              && t.events[id].payload.body.UsageBody? && ProjectOne(t, e).events[id].payload.body.UsageBody?
              && Room(ProjectOne(t, e).events[id].payload.body.usage) < Room(t.events[id].payload.body.usage)
  {
    assert EventOk(t, id);
    if id == e.id && Reconciled(t, e).Some? {
      MergedGrows(t.events[id].payload.body.usage, e.body.usage, e.adapter);
    }
  }

  // ---------------------------------------------------------------- over whole runs

  lemma {:induction false} RunInv(t: Tables, events: seq<Event>)
    requires Inv(t)
    ensures Inv(ProjectAll(t, events))
    decreases |events|
  {
    if events != [] {
      RunInv(t, events[..|events| - 1]);
      StepInv(ProjectAll(t, events[..|events| - 1]), events[|events| - 1]);
    }
  }

  lemma {:induction false} RunEnriches(t: Tables, events: seq<Event>, id: EventId)
    requires Inv(t) && id in t.events
    ensures id in ProjectAll(t, events).events
    ensures Enriches(t.events[id].payload, ProjectAll(t, events).events[id].payload)
    decreases |events|
  {
    if events != [] {
      var before := events[..|events| - 1];
      RunInv(t, before);
      RunEnriches(t, before, id);
      StepEnriches(ProjectAll(t, before), events[|events| - 1], id);
      EnrichesTransitive(t.events[id].payload, ProjectAll(t, before).events[id].payload,
                         ProjectAll(t, events).events[id].payload);
    }
  }

  /** How many of the events changed the stored row of `id`. */
  function Changes(t: Tables, events: seq<Event>, id: EventId): nat
    decreases |events|
  {
    if events == [] then 0
    else
      var before := ProjectAll(t, events[..|events| - 1]);
      var after := ProjectAll(t, events);
      Changes(t, events[..|events| - 1], id)
      + (if id in before.events && before.events[id] != after.events[id] then 1 else 0)
  }

  /** A stored row changes at most as often as it has room, whatever is observed or replayed. */
  lemma {:induction false} ChangesFitRoom(t: Tables, events: seq<Event>, id: EventId)
    requires Inv(t) && id in t.events
    ensures id in ProjectAll(t, events).events
    ensures var after := ProjectAll(t, events).events[id].payload;
      if t.events[id].payload.body.UsageBody? then
        after.body.UsageBody?
        && Changes(t, events, id) + Room(after.body.usage) <= Room(t.events[id].payload.body.usage)
      else Changes(t, events, id) == 0
    decreases |events|
  {
    if events != [] {
      var before := events[..|events| - 1];
      RunInv(t, before);
      ChangesFitRoom(t, before, id);
      RunEnriches(t, before, id);
      StepEnriches(ProjectAll(t, before), events[|events| - 1], id);
    }
  }

  /** The timings are present, if only as null; every event normalised from the legacy schema is like this. */
  predicate TimingsPresent(u: Usage) { !u.firstToken.Missing? && !u.decode.Missing? }

  /** At most four strict changes per row over any run (five when a timing member was missing). */
  lemma AtMostFourChanges(t: Tables, events: seq<Event>, id: EventId)
    requires Inv(t) && id in t.events
    ensures Changes(t, events, id) <= 5
    ensures t.events[id].payload.body.UsageBody? && TimingsPresent(t.events[id].payload.body.usage) ==>
              Changes(t, events, id) <= 4
    ensures !(t.events[id].payload.body.UsageBody? && t.events[id].payload.vendor.Workbuddy?) ==>
              Changes(t, events, id) == 0
  {
    ChangesFitRoom(t, events, id);
    if !t.events[id].payload.vendor.Workbuddy? {
      NoChangeOutsideWorkbuddy(t, events, id);
    }
  }

  lemma {:induction false} NoChangeOutsideWorkbuddy(t: Tables, events: seq<Event>, id: EventId)
    requires Inv(t) && id in t.events && !t.events[id].payload.vendor.Workbuddy?
    ensures Changes(t, events, id) == 0
    ensures id in ProjectAll(t, events).events && ProjectAll(t, events).events[id] == t.events[id]
    decreases |events|
  {
    if events != [] {
      var before, e := events[..|events| - 1], events[|events| - 1];
      NoChangeOutsideWorkbuddy(t, before, id);
      assert Reconciled(ProjectAll(t, before), e).None? || e.id != id;
    }
  }

  // ---------------------------------------------------------------- the table against the log

  /** The first event of the log that carries the id. */
  function First(events: seq<Event>, id: EventId): Option<Event>
    decreases |events|
  {
    if events == [] then None
    else
      var before := First(events[..|events| - 1], id);
      var last := events[|events| - 1];
      if before.Some? then before else if last.id == id then Some(last) else None
  }

  /** The table holds the ids of the log, each with its first event, at most enriched. */
  ghost predicate Reflects(t: Tables, events: seq<Event>) {
    && Inv(t)
    && (forall id :: id in t.events <==> First(events, id).Some?)
    && (forall id :: id in t.events ==> Enriches(First(events, id).value, t.events[id].payload))
  }

  lemma EmptyReflects()
    ensures Reflects(EMPTY, [])
  {}

  lemma FirstAppend(events: seq<Event>, e: Event, id: EventId)
    ensures First(events + [e], id)
            == if First(events, id).Some? then First(events, id) else if e.id == id then Some(e) else None
  {
    assert (events + [e])[..|events|] == events;
  }

  lemma StepPayload(t: Tables, e: Event)
    requires e.id !in t.events
    ensures ProjectOne(t, e).events[e.id].payload == e
  {}

  /** Projecting an event keeps the table the image of a log that has seen the event. */
  lemma StepReflects(t: Tables, events: seq<Event>, e: Event)
    requires Reflects(t, events)
    ensures Reflects(ProjectOne(t, e), events + [e])
    ensures First(events, e.id).Some? ==> Reflects(ProjectOne(t, e), events)
  {
    var t' := ProjectOne(t, e);
    StepInv(t, e);
    StepIsLocal(t, e);
    forall id
      ensures id in t'.events <==> First(events + [e], id).Some?
      ensures id in t'.events ==> Enriches(First(events + [e], id).value, t'.events[id].payload)
      ensures First(events, id).Some? ==> First(events + [e], id) == First(events, id)
      ensures First(events, e.id).Some? ==> (First(events + [e], id).Some? <==> First(events, id).Some?)
    {
      FirstAppend(events, e, id);
      if id in t.events {
        StepEnriches(t, e, id);
        EnrichesTransitive(First(events, id).value, t.events[id].payload, t'.events[id].payload);
      } else if id == e.id {
        StepPayload(t, e);
      }
    }
  }

  /** From empty tables, any log: ids are those observed, each row is the first event with its id, enriched. */
  lemma {:induction false} RunReflects(events: seq<Event>)
    ensures Reflects(ProjectAll(EMPTY, events), events)
    decreases |events|
  {
    if events != [] {
      var before := events[..|events| - 1];
      RunReflects(before);
      StepReflects(ProjectAll(EMPTY, before), before, events[|events| - 1]);
      assert before + [events[|events| - 1]] == events;
    }
  }

  predicate WorkbuddyUsageEvent(e: Event) { e.vendor.Workbuddy? && e.body.UsageBody? }

  /** One pass of insert-if-absent. */
  function InsertAll(events: seq<Event>): map<EventId, EventRow>
    decreases |events|
  {
    if events == [] then map[]
    else
      var before := InsertAll(events[..|events| - 1]);
      var e := events[|events| - 1];
      if e.id in before then before else before[e.id := EventRow(e, FingerprintOf(e))]
  }

  lemma {:induction false} InsertAllIsFirst(events: seq<Event>, id: EventId)
    ensures id in InsertAll(events) <==> First(events, id).Some?
    ensures id in InsertAll(events) ==>
              InsertAll(events)[id] == EventRow(First(events, id).value, FingerprintOf(First(events, id).value))
    decreases |events|
  {
    if events != [] {
      InsertAllIsFirst(events[..|events| - 1], id);
    }
  }

  lemma {:induction false} FirstIsIn(events: seq<Event>, id: EventId)
    requires First(events, id).Some?
    ensures First(events, id).value in events && First(events, id).value.id == id
    decreases |events|
  {
    if First(events[..|events| - 1], id).Some? {
      FirstIsIn(events[..|events| - 1], id);
    }
  }

  lemma {:induction false} OccursFirst(events: seq<Event>, i: nat)
    requires i < |events|
    ensures First(events, events[i].id).Some?
    decreases |events|
  {
    if i < |events| - 1 {
      OccursFirst(events[..|events| - 1], i);
    }
  }

  /** Outside the reconcile path a reflected table is exactly insert-if-absent. */
  lemma ReflectsIsInsertAll(t: Tables, events: seq<Event>)
    requires Reflects(t, events) && forall e :: e in events ==> !WorkbuddyUsageEvent(e)
    ensures t.events == InsertAll(events) && t.count == |InsertAll(events)|
  {
    var table := InsertAll(events);
    forall id
      ensures id in t.events <==> id in table
      ensures id in t.events ==> t.events[id] == table[id]
    {
      InsertAllIsFirst(events, id);
      if id in t.events {
        FirstIsIn(events, id);
        assert EventOk(t, id);
      }
    }
    assert t.events == table;
  }

  // ---------------------------------------------------------------- the model column

  predicate NamesModel(e: Event, id: EventId) {
    e.id == id && e.body.UsageBody? && e.body.usage.model.Value? && e.body.usage.model.value != ""
  }

  /** A stored row without a model takes it from the next usage event of its id that names one, and keeps it. */
  lemma StepModel(t: Tables, e: Event, id: EventId)
    requires Inv(t) && id in t.usage
    ensures id in ProjectOne(t, e).usage
    ensures ProjectOne(t, e).usage[id].model
            == if t.usage[id].model.None? && NamesModel(e, id) then Some(e.body.usage.model.value) else t.usage[id].model
  {
    StepIsLocal(t, e);
    if e.id == id {
      OwnModel(t, e);
    }
  }

  lemma OwnModel(t: Tables, e: Event)
    requires Inv(t) && e.id in t.usage
    ensures e.id in ProjectOne(t, e).usage
    ensures ProjectOne(t, e).usage[e.id].model
            == if t.usage[e.id].model.None? && NamesModel(e, e.id) then Some(e.body.usage.model.value) else t.usage[e.id].model
  {
    assert EventOk(t, e.id);
    if Reconciled(t, e).Some? {
      ReconcileIff(t.events[e.id].payload.body.usage, e.body.usage, e.adapter);
    }
  }

  /** The model named first for an id: by its first event, or else by the first event with a name that is not empty. */
  function FirstModel(events: seq<Event>, id: EventId): Option<string>
    decreases |events|
  {
    if events == [] then None
    else
      var before, last := FirstModel(events[..|events| - 1], id), events[|events| - 1];
      if before.Some? then before
      else if NamesModel(last, id) then Some(last.body.usage.model.value)
      else if last.id == id && First(events[..|events| - 1], id).None? && last.body.UsageBody? && last.body.usage.model == Value("")
      then Some("")
      else None
  }

  lemma NewRowModel(t: Tables, e: Event)
    requires Inv(t) && e.id !in t.events
    ensures e.id in ProjectOne(t, e).usage ==>
              && e.body.UsageBody?
              && ProjectOne(t, e).usage[e.id].model
                 == if e.body.usage.model.Value? then Some(e.body.usage.model.value) else None
  {}

  lemma NoLateRows(t: Tables, e: Event, id: EventId)
    requires Inv(t) && id in t.events && id !in t.usage
    ensures id !in ProjectOne(t, e).usage
  {
    StepInv(t, e);
    StepIsLocal(t, e);
    assert EventOk(t, id) && EventOk(ProjectOne(t, e), id);
    if e.id == id && Reconciled(t, e).Some? {
      MergedDisplays(t.events[id].payload.body.usage, e.body.usage, e.adapter);
    }
  }

  /** Over any log, the model column of a usage row is the model named first. */
  lemma {:induction false} RunModel(events: seq<Event>, id: EventId)
    ensures id in ProjectAll(EMPTY, events).usage ==> ProjectAll(EMPTY, events).usage[id].model == FirstModel(events, id)
    decreases |events|
  {
    if events != [] {
      var before, e := events[..|events| - 1], events[|events| - 1];
      var t := ProjectAll(EMPTY, before);
      RunModel(before, id);
      RunReflects(before);
      StepIsLocal(t, e);
      if id in t.usage {
        StepModel(t, e, id);
      } else if id in t.events {
        NoLateRows(t, e, id);
      } else if e.id == id {
        NewRowModel(t, e);
        NoModelYet(before, id);
      }
    }
  }

  lemma {:induction false} NoModelYet(events: seq<Event>, id: EventId)
    requires First(events, id).None?
    ensures FirstModel(events, id).None?
    decreases |events|
  {
    if events != [] {
      NoModelYet(events[..|events| - 1], id);
    }
  }

  // ---------------------------------------------------------------- where enriched values come from

  /** Some observed event with this id carries the value. */
  ghost predicate Observed(events: seq<Event>, id: EventId, has: Usage -> bool) {
    exists i :: 0 <= i < |events| && events[i].id == id && events[i].body.UsageBody? && has(events[i].body.usage)
  }

  predicate SplitIs(u: Usage, read: nat, creation: nat) { u.cacheRead == read && u.cacheCreation == creation }

  ghost predicate Sourced(events: seq<Event>, id: EventId, u: Usage) {
    && (u.credit.Value? ==> Observed(events, id, (o: Usage) => o.credit == u.credit))
    && (u.firstToken.Value? ==> Observed(events, id, (o: Usage) => o.firstToken == u.firstToken))
    && (u.decode.Value? ==> Observed(events, id, (o: Usage) => o.decode == u.decode))
    && Observed(events, id, (o: Usage) => SplitIs(o, u.cacheRead, u.cacheCreation))
  }

  lemma ObservedLater(events: seq<Event>, e: Event, id: EventId, has: Usage -> bool)
    ensures Observed(events, id, has) ==> Observed(events + [e], id, has)
    ensures e.id == id && e.body.UsageBody? && has(e.body.usage) ==> Observed(events + [e], id, has)
  {
    if Observed(events, id, has) {
      var i :| 0 <= i < |events| && events[i].id == id && events[i].body.UsageBody? && has(events[i].body.usage);
      assert (events + [e])[i] == events[i];
    }
    assert (events + [e])[|events|] == e;
  }

  lemma SourcedLater(events: seq<Event>, e: Event, id: EventId, u: Usage)
    requires Sourced(events, id, u)
    ensures Sourced(events + [e], id, u)
  {
    ObservedLater(events, e, id, (o: Usage) => o.credit == u.credit);
    ObservedLater(events, e, id, (o: Usage) => o.firstToken == u.firstToken);
    ObservedLater(events, e, id, (o: Usage) => o.decode == u.decode);
    ObservedLater(events, e, id, (o: Usage) => SplitIs(o, u.cacheRead, u.cacheCreation));
  }

  lemma SourcedSelf(events: seq<Event>, e: Event)
    requires e.body.UsageBody?
    ensures Sourced(events + [e], e.id, e.body.usage)
  {
    var u := e.body.usage;
    ObservedLater(events, e, e.id, (o: Usage) => o.credit == u.credit);
    ObservedLater(events, e, e.id, (o: Usage) => o.firstToken == u.firstToken);
    ObservedLater(events, e, e.id, (o: Usage) => o.decode == u.decode);
    ObservedLater(events, e, e.id, (o: Usage) => SplitIs(o, u.cacheRead, u.cacheCreation));
  }

  /** Every part of a merged usage is the stored one's or the incoming one's. */
  lemma SourcedMerge(events: seq<Event>, id: EventId, stored: Usage, incoming: Usage, adapter: Adapter)
    requires Sourced(events, id, stored) && Sourced(events, id, incoming)
    requires Reconcile(stored, incoming, adapter).Some?
    ensures Sourced(events, id, Reconcile(stored, incoming, adapter).value.1)
  {
    var u := Reconcile(stored, incoming, adapter).value.1;
    if u.credit.Value? {
      SameObserved(events, id, (o: Usage) => o.credit == stored.credit, (o: Usage) => o.credit == u.credit);
      SameObserved(events, id, (o: Usage) => o.credit == incoming.credit, (o: Usage) => o.credit == u.credit);
    }
    if u.firstToken.Value? {
      SameObserved(events, id, (o: Usage) => o.firstToken == stored.firstToken, (o: Usage) => o.firstToken == u.firstToken);
      SameObserved(events, id, (o: Usage) => o.firstToken == incoming.firstToken, (o: Usage) => o.firstToken == u.firstToken);
    }
    if u.decode.Value? {
      SameObserved(events, id, (o: Usage) => o.decode == stored.decode, (o: Usage) => o.decode == u.decode);
      SameObserved(events, id, (o: Usage) => o.decode == incoming.decode, (o: Usage) => o.decode == u.decode);
    }
    SameObserved(events, id, (o: Usage) => SplitIs(o, stored.cacheRead, stored.cacheCreation), (o: Usage) => SplitIs(o, u.cacheRead, u.cacheCreation));
    SameObserved(events, id, (o: Usage) => SplitIs(o, incoming.cacheRead, incoming.cacheCreation), (o: Usage) => SplitIs(o, u.cacheRead, u.cacheCreation));
  }

  lemma SameObserved(events: seq<Event>, id: EventId, has: Usage -> bool, has': Usage -> bool)
    ensures Observed(events, id, has) && (forall o :: has(o) == has'(o)) ==> Observed(events, id, has')
  {}

  /** The stored usage of an id, if any, has been observed. */
  ghost predicate RowSourced(t: Tables, events: seq<Event>, id: EventId) {
    id in t.events && t.events[id].payload.body.UsageBody? ==> Sourced(events, id, t.events[id].payload.body.usage)
  }

  lemma StepSourced(t: Tables, events: seq<Event>, e: Event, id: EventId)
    requires Inv(t) && RowSourced(t, events, id)
    ensures RowSourced(ProjectOne(t, e), events + [e], id)
  {
    if e.id == id && e.body.UsageBody? {
      SourcedSelf(events, e);
    }
    if id in t.events && t.events[id].payload.body.UsageBody? {
      SourcedLater(events, e, id, t.events[id].payload.body.usage);
      if e.id == id && Reconciled(t, e).Some? {
        SourcedMerge(events + [e], id, t.events[id].payload.body.usage, e.body.usage, e.adapter);
      }
    }
  }

  /** Enrichment invents nothing: credit, timings and cache split of a stored row were all observed for its id. */
  lemma {:induction false} RunSourced(events: seq<Event>, id: EventId)
    ensures RowSourced(ProjectAll(EMPTY, events), events, id)
    decreases |events|
  {
    if events != [] {
      var before, e := events[..|events| - 1], events[|events| - 1];
      assert before + [e] == events;
      RunSourced(before, id);
      RunReflects(before);
      StepSourced(ProjectAll(EMPTY, before), before, e, id);
    }
  }

  // ---------------------------------------------------------------- what is reconciled, exactly

  predicate SameTiming(a: Usage, b: Usage) { a.firstToken == b.firstToken && a.decode == b.decode }
  predicate SameCache(a: Usage, b: Usage) { a.cacheRead == b.cacheRead && a.cacheCreation == b.cacheCreation }

  /** Reconciliation handles one part at a time: the other two parts must already be the same. */
  lemma ReconcileIff(stored: Usage, incoming: Usage, adapter: Adapter)
    ensures Reconcile(stored, incoming, adapter).Some? <==>
      && Core(stored) == Core(incoming)
      && (|| (&& stored.credit == incoming.credit && SameCache(stored, incoming)
              && adapter.WorkbuddyJsonl? && incoming.source.WorkbuddyUsage?
              && (stored.firstToken.Value? && incoming.firstToken.Value? ==> stored.firstToken == incoming.firstToken)
              && (stored.decode.Value? && incoming.decode.Value? ==> stored.decode == incoming.decode))
          || (&& SameTiming(stored, incoming) && SameCache(stored, incoming)
              && !stored.credit.Value? && incoming.credit.Value?)
          || (&& SameTiming(stored, incoming) && stored.credit == incoming.credit
              && stored.cacheRead == 0 && incoming.cacheRead > 0
              && (incoming.semantics.Gross? ==> incoming.cacheRead <= incoming.input)))
  {}

  /** A bare row never takes a credit and a cache split from the same event. */
  lemma BareRowRejectsBoth(stored: Usage, incoming: Usage, adapter: Adapter)
    requires !stored.credit.Value? && stored.cacheRead == 0
    requires incoming.credit.Value? && incoming.cacheRead > 0
    ensures Reconcile(stored, incoming, adapter).None?
  {}

  /**
   A rejected event can be accepted when it comes again: between a bare row and the same row with
   credit and cache split, an event that carries the credit alone makes room for the cache split.
   */
  lemma RejectedThenAccepted(t: Tables, bare: Event, credit: nat, read: nat, creation: nat)
    requires WorkbuddyUsageEvent(bare) && !bare.body.usage.credit.Value? && bare.body.usage.cacheRead == 0
    requires 0 < read <= bare.body.usage.input
    requires Inv(t) && bare.id !in t.events
    ensures var billed := bare.(body := UsageBody(bare.body.usage.(credit := Value(credit))));
      var full := bare.(body := UsageBody(billed.body.usage.(cacheRead := read, cacheCreation := creation)));
      var once := ProjectAll(t, [bare, full, billed]);
      && once.events[bare.id].payload == billed && once.conflicts == t.conflicts + 1
      && ProjectOne(once, full).events[bare.id].payload == full
  {
    var billed := bare.(body := UsageBody(bare.body.usage.(credit := Value(credit))));
    var full := bare.(body := UsageBody(billed.body.usage.(cacheRead := read, cacheCreation := creation)));
    var t1 := ProjectOne(t, bare);
    var t2 := ProjectOne(t1, full);
    var t3 := ProjectOne(t2, billed);
    ThreeEvents(t, bare, full, billed);
    BareRowRejectsBoth(bare.body.usage, full.body.usage, bare.adapter);
    assert t2.events[bare.id].payload == bare && t2.conflicts == t.conflicts + 1;
    assert Reconcile(bare.body.usage, billed.body.usage, bare.adapter) == Some((Credit, billed.body.usage));
    assert t3.events[bare.id].payload == billed;
    assert Reconcile(billed.body.usage, full.body.usage, bare.adapter) == Some((Cache, full.body.usage));
  }

  lemma ThreeEvents(t: Tables, a: Event, b: Event, c: Event)
    ensures ProjectAll(t, [a, b, c]) == ProjectOne(ProjectOne(ProjectOne(t, a), b), c)
  {
    assert [a, b, c][..2] == [a, b] && [a, b][..1] == [a] && [a][..0] == [];
    assert ProjectAll(t, [a]) == ProjectOne(t, a);
    assert ProjectAll(t, [a, b]) == ProjectOne(ProjectOne(t, a), b);
  }
}
