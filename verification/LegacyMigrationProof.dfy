/**
 The check accepts what the backfill produces exactly for well-formed legacy databases
 (apps/core/src/domain-backfill.ts, domain-reconciliation.ts).
 */
module LegacyMigrationProof {
  import opened Common
  import opened Grouping
  import opened LegacyMigration

  /** Would the row end up in the additive part of the usage table? */
  predicate CountsAsAdditive(row: Row, codexMarked: bool) {
    var d := Dispose(row, row.id, codexMarked);
    d.Accepted? && !d.usage.snapshot
  }

  /**
   What a caller can check beforehand: ids are distinct (after the fallback for rows without one), a
   usage row without id is tolerated only beside one that is literally named "usage", and usage that
   counts has both an id and an adapter.
   */
  predicate WellFormed(db: LegacyDb, codexMarked: bool) {
    var rows := db(TokenUsageEvents);
    && DistinctIds(AllEntries(db))
    && (forall i :: 0 <= i < |rows| ==> rows[i].id != "" || exists j :: 0 <= j < |rows| && rows[j].id == "usage")
    && (forall i :: 0 <= i < |rows| && CountsAsAdditive(rows[i], codexMarked) ==>
          rows[i].id != "" && rows[i].adapter != "")
  }

  predicate DistinctIds(entries: seq<Entry>) {
    forall i, j :: 0 <= i < j < |entries| ==> IdOf(entries[i]) != IdOf(entries[j])
  }

  lemma DistinctAppend(entries: seq<Entry>, e: Entry)
    ensures DistinctIds(entries + [e]) <==>
              DistinctIds(entries) && forall i :: 0 <= i < |entries| ==> IdOf(entries[i]) != IdOf(e)
  {
    var all := entries + [e];
    if DistinctIds(all) {
      forall i, j | 0 <= i < j < |entries| ensures IdOf(entries[i]) != IdOf(entries[j]) {
        assert IdOf(all[i]) != IdOf(all[j]);
      }
      forall i | 0 <= i < |entries| ensures IdOf(entries[i]) != IdOf(e) {
        assert IdOf(all[i]) != IdOf(all[|entries|]);
      }
    }
  }

  /** With distinct ids, an id names one entry. */
  lemma SameIdSameEntry(entries: seq<Entry>, a: Entry, b: Entry)
    requires DistinctIds(entries) && a in entries && b in entries && IdOf(a) == IdOf(b)
    ensures a == b
  {
    var i :| 0 <= i < |entries| && entries[i] == a;
    var j :| 0 <= j < |entries| && entries[j] == b;
    assert i == j;
  }

  // ---------------------------------------------------------------- entries are the rows

  lemma EntriesAreRows(table: Table, rows: seq<Row>, e: Entry)
    ensures e in EntriesOf(table, rows) <==> e.table == table && e.row in rows
  {
    if e.table == table && e.row in rows {
      var i :| 0 <= i < |rows| && rows[i] == e.row;
      assert EntriesOf(table, rows)[i] == e;
    }
  }

  lemma {:induction false} EventEntriesAreRows(db: LegacyDb, n: nat, e: Entry)
    requires n <= |EVENT_TABLES|
    ensures e in EventEntries(db, n) <==> (exists t :: 0 <= t < n && EVENT_TABLES[t] == e.table) && e.row in db(e.table)
  {
    if n > 0 {
      EventEntriesAreRows(db, n - 1, e);
      EntriesAreRows(EVENT_TABLES[n - 1], db(EVENT_TABLES[n - 1]), e);
    }
  }

  /** Every row of every table is an entry, and every entry is one. */
  lemma AllEntriesAreRows(db: LegacyDb, e: Entry)
    ensures e in AllEntries(db) <==> e.row in db(e.table)
  {
    EntriesAreRows(Sessions, db(Sessions), e);
    EventEntriesAreRows(db, |EVENT_TABLES|, e);
    match e.table
    case Sessions =>
    case ToolEvents => assert EVENT_TABLES[0] == e.table;
    case PromptEvents => assert EVENT_TABLES[1] == e.table;
    case AssistantResponses => assert EVENT_TABLES[2] == e.table;
    case TokenUsageEvents => assert EVENT_TABLES[3] == e.table;
    case CodeEdits => assert EVENT_TABLES[4] == e.table;
  }

  // ---------------------------------------------------------------- events

  lemma FingerprintAppend(events: seq<EventRow>, r: EventRow, id: LegacyId)
    ensures FingerprintAt(events + [r], id)
            == if FingerprintAt(events, id).Some? then FingerprintAt(events, id)
               else if r.id == id then Some(r.fingerprint) else None
  {
    assert (events + [r])[..|events|] == events;
  }

  ghost predicate Named(entries: seq<Entry>, id: LegacyId) {
    exists i :: 0 <= i < |entries| && IdOf(entries[i]) == id
  }

  lemma NamedAppend(entries: seq<Entry>, e: Entry, id: LegacyId)
    ensures Named(entries + [e], id) <==> Named(entries, id) || IdOf(e) == id
  {
    assert IdOf((entries + [e])[|entries|]) == IdOf(e);
    if Named(entries, id) {
      var i :| 0 <= i < |entries| && IdOf(entries[i]) == id;
      assert IdOf((entries + [e])[i]) == id;
    }
  }

  lemma LastEntry(entries: seq<Entry>)
    requires entries != []
    ensures entries == entries[..|entries| - 1] + [entries[|entries| - 1]]
  {}

  /** What one row does to the event table. */
  lemma OneEvent(digest: Digest, c: Canonical, e: Entry, id: LegacyId)
    ensures var c' := BackfillOne(digest, c, e);
      && (FingerprintAt(c'.events, id).Some? <==> FingerprintAt(c.events, id).Some? || IdOf(e) == id)
      && |c'.events| == |c.events| + if FingerprintAt(c.events, IdOf(e)).Some? then 0 else 1
  {
    FingerprintAppend(c.events, EventRow(IdOf(e), digest(IdOf(e), e.row)), id);
  }

  /** An id is stored exactly when some entry has it. */
  lemma {:induction false} BackfillIds(digest: Digest, c: Canonical, entries: seq<Entry>, id: LegacyId)
    requires c.events == []
    ensures FingerprintAt(BackfillAll(digest, c, entries).events, id).Some? <==> Named(entries, id)
    decreases |entries|
  {
    if entries != [] {
      var before, e := entries[..|entries| - 1], entries[|entries| - 1];
      BackfillIds(digest, c, before, id);
      LastEntry(entries);
      NamedAppend(before, e, id);
      OneEvent(digest, BackfillAll(digest, c, before), e, id);
    }
  }

  /** There is one event per row exactly when ids are distinct. */
  lemma {:induction false} BackfillEvents(digest: Digest, c: Canonical, entries: seq<Entry>)
    requires c.events == []
    ensures |BackfillAll(digest, c, entries).events| <= |entries|
    ensures |BackfillAll(digest, c, entries).events| == |entries| <==> DistinctIds(entries)
    decreases |entries|
  {
    if entries != [] {
      var before, e := entries[..|entries| - 1], entries[|entries| - 1];
      BackfillEvents(digest, c, before);
      LastEntry(entries);
      DistinctAppend(before, e);
      BackfillIds(digest, c, before, IdOf(e));
      OneEvent(digest, BackfillAll(digest, c, before), e, IdOf(e));
    }
  }

  // ---------------------------------------------------------------- identity conflicts

  /** Every observation is of a stored event, with its fingerprint or with a recorded conflict. */
  predicate ObservationsOk(c: Canonical) {
    forall i :: 0 <= i < |c.observations| ==>
      var o := c.observations[i];
      FingerprintAt(c.events, o.id).Some?
      && (FingerprintAt(c.events, o.id).value == o.fingerprint || o.id in c.conflicts)
  }

  lemma InsertKeepsObservations(c: Canonical, id: LegacyId, adapter: string, fingerprint: int)
    requires ObservationsOk(c)
    ensures ObservationsOk(InsertEvent(c, id, adapter, fingerprint))
  {
    var c' := InsertEvent(c, id, adapter, fingerprint);
    forall i | 0 <= i < |c'.observations|
      ensures FingerprintAt(c'.events, c'.observations[i].id).Some?
      ensures FingerprintAt(c'.events, c'.observations[i].id).value == c'.observations[i].fingerprint
              || c'.observations[i].id in c'.conflicts
    {
      FingerprintAppend(c.events, EventRow(id, fingerprint), c'.observations[i].id);
    }
  }

  lemma {:induction false} BackfillObservations(digest: Digest, c: Canonical, entries: seq<Entry>)
    requires ObservationsOk(c)
    ensures ObservationsOk(BackfillAll(digest, c, entries))
    decreases |entries|
  {
    if entries != [] {
      var middle := BackfillAll(digest, c, entries[..|entries| - 1]);
      var e := entries[|entries| - 1];
      BackfillObservations(digest, c, entries[..|entries| - 1]);
      InsertKeepsObservations(middle, IdOf(e), AdapterOf(e.table, e.row), digest(IdOf(e), e.row));
    }
  }

  /** The adapter a row says it was seen through, or the one its table defaults to. */
  function SeenThrough(e: Entry): string {
    if e.row.adapter != "" then e.row.adapter
    else
      match e.table
      case PromptEvents => "claude-transcript"
      case AssistantResponses => "claude-transcript"
      case TokenUsageEvents => "claude-transcript"
      case Sessions => "claude-hook"
      case ToolEvents => "claude-hook"
      case CodeEdits => "claude-hook"
  }

  /** What the first row of an id, or of an id and an adapter, was fingerprinted as. */
  function FirstPrint(digest: Digest, entries: seq<Entry>, id: LegacyId, adapter: Option<string>): Option<int>
    decreases |entries|
  {
    if entries == [] then None
    else
      var before, e := FirstPrint(digest, entries[..|entries| - 1], id, adapter), entries[|entries| - 1];
      if before.Some? then before
      else if IdOf(e) == id && (adapter.Some? ==> SeenThrough(e) == adapter.value) then Some(digest(id, e.row))
      else None
  }

  ghost predicate Differs(digest: Digest, entries: seq<Entry>, id: LegacyId) {
    exists e :: e in entries && IdOf(e) == id && Some(digest(id, e.row)) != FirstPrint(digest, entries, id, None)
  }

  function PrintOf(observations: seq<Observation>, id: LegacyId, adapter: string): Option<int>
    decreases |observations|
  {
    if observations == [] then None
    else
      var before, o := PrintOf(observations[..|observations| - 1], id, adapter), observations[|observations| - 1];
      if before.Some? then before else if o.id == id && o.adapter == adapter then Some(o.fingerprint) else None
  }

  ghost predicate EachOnce(c: Canonical) {
    && (forall i, j :: 0 <= i < j < |c.events| ==> c.events[i].id != c.events[j].id)
    && (forall i, j :: 0 <= i < j < |c.observations| && c.observations[i].id == c.observations[j].id ==>
          c.observations[i].adapter != c.observations[j].adapter)
  }

  lemma PrintAppend(observations: seq<Observation>, o: Observation, id: LegacyId, adapter: string)
    ensures PrintOf(observations + [o], id, adapter)
            == if PrintOf(observations, id, adapter).Some? then PrintOf(observations, id, adapter)
               else if o.id == id && o.adapter == adapter then Some(o.fingerprint) else None
  {
    assert (observations + [o])[..|observations|] == observations;
  }

  lemma {:induction false} PrintIsObserved(observations: seq<Observation>, id: LegacyId, adapter: string)
    ensures PrintOf(observations, id, adapter).Some? <==> Observes(observations, id, adapter)
    decreases |observations|
  {
    if observations != [] {
      var before := observations[..|observations| - 1];
      PrintIsObserved(before, id, adapter);
      assert forall i :: 0 <= i < |before| ==> observations[i] == before[i];
    }
  }

  lemma {:induction false} StoredOnce(events: seq<EventRow>, id: LegacyId)
    ensures FingerprintAt(events, id).None? ==> forall i :: 0 <= i < |events| ==> events[i].id != id
    decreases |events|
  {
    if events != [] {
      StoredOnce(events[..|events| - 1], id);
    }
  }

  lemma InsertOnce(c: Canonical, id: LegacyId, adapter: string, fingerprint: int)
    requires EachOnce(c)
    ensures EachOnce(InsertEvent(c, id, adapter, fingerprint))
  {
    StoredOnce(c.events, id);
    var c' := InsertEvent(c, id, adapter, fingerprint);
    forall i, j | 0 <= i < j < |c'.observations| && c'.observations[i].id == c'.observations[j].id
      ensures c'.observations[i].adapter != c'.observations[j].adapter
    {
      if j == |c.observations| { assert c.observations[i] == c'.observations[i]; }
    }
  }

  lemma DiffersAppend(digest: Digest, entries: seq<Entry>, e: Entry, id: LegacyId)
    ensures FirstPrint(digest, entries + [e], id, None)
            == if FirstPrint(digest, entries, id, None).Some? then FirstPrint(digest, entries, id, None)
               else if IdOf(e) == id then Some(digest(id, e.row)) else None
    ensures Differs(digest, entries + [e], id)
            <==> Differs(digest, entries, id)
                 || (IdOf(e) == id && FirstPrint(digest, entries, id, None).Some?
                     && FirstPrint(digest, entries, id, None) != Some(digest(id, e.row)))
  {
    assert (entries + [e])[..|entries|] == entries;
    NoPrint(digest, entries, id);
    forall x ensures x in entries + [e] <==> x in entries || x == e {}
    if Differs(digest, entries + [e], id) {
      var x :| x in entries + [e] && IdOf(x) == id && Some(digest(id, x.row)) != FirstPrint(digest, entries + [e], id, None);
    }
    if Differs(digest, entries, id) {
      var x :| x in entries && IdOf(x) == id && Some(digest(id, x.row)) != FirstPrint(digest, entries, id, None);
      assert x in entries + [e];
    }
  }

  lemma {:induction false} NoPrint(digest: Digest, entries: seq<Entry>, id: LegacyId)
    ensures FirstPrint(digest, entries, id, None).None? <==> forall e :: e in entries ==> IdOf(e) != id
    decreases |entries|
  {
    if entries != [] {
      NoPrint(digest, entries[..|entries| - 1], id);
      LastEntry(entries);
    }
  }

  /**
   The identity tables after the backfill, told by the legacy rows: an event per id with the fingerprint
   of its first row, an observation per id and adapter, and a conflict exactly for the ids that have a
   row with another fingerprint than the first.
   */
  lemma {:induction false} IdentityMeans(digest: Digest, codexMarked: bool, entries: seq<Entry>, id: LegacyId, adapter: string)
    ensures var c := BackfillAll(digest, Fresh(codexMarked), entries);
      && EachOnce(c)
      && FingerprintAt(c.events, id) == FirstPrint(digest, entries, id, None)
      && PrintOf(c.observations, id, adapter) == FirstPrint(digest, entries, id, Some(adapter))
      && (id in c.conflicts <==> Differs(digest, entries, id))
    decreases |entries|
  {
    if entries != [] {
      var before, e := entries[..|entries| - 1], entries[|entries| - 1];
      IdentityMeans(digest, codexMarked, before, id, adapter);
      LastEntry(entries);
      IdentityStep(digest, BackfillAll(digest, Fresh(codexMarked), before), e, id, adapter);
      DiffersAppend(digest, before, e, id);
    }
  }

  lemma IdentityStep(digest: Digest, c: Canonical, e: Entry, id: LegacyId, adapter: string)
    requires EachOnce(c)
    ensures var c', mine := BackfillOne(digest, c, e), digest(IdOf(e), e.row);
      && EachOnce(c')
      && FingerprintAt(c'.events, id)
         == (if FingerprintAt(c.events, id).Some? then FingerprintAt(c.events, id)
             else if IdOf(e) == id then Some(mine) else None)
      && PrintOf(c'.observations, id, adapter)
         == (if PrintOf(c.observations, id, adapter).Some? then PrintOf(c.observations, id, adapter)
             else if IdOf(e) == id && SeenThrough(e) == adapter then Some(mine) else None)
      && (id in c'.conflicts <==> id in c.conflicts || (IdOf(e) == id && FingerprintAt(c.events, id).Some?
                                                        && FingerprintAt(c.events, id) != Some(mine)))
  {
    var seen, mine := AdapterOf(e.table, e.row), digest(IdOf(e), e.row);
    InsertOnce(c, IdOf(e), seen, mine);
    FingerprintAppend(c.events, EventRow(IdOf(e), mine), id);
    PrintAppend(c.observations, Observation(IdOf(e), seen, mine), id, adapter);
    PrintIsObserved(c.observations, IdOf(e), seen);
    assert seen == SeenThrough(e);
  }

  lemma ObservationsReconcile(c: Canonical)
    requires ObservationsOk(c)
    ensures ConflictsRecorded(c.observations, c.conflicts)
  {}

  // ---------------------------------------------------------------- tool calls

  function KeyOf(e: Entry): ToolKey {
    ToolKey(InstanceOf(Vendor(e.row)), StringValue(e.row.session, "legacy-session"), IdOf(e).native)
  }

  function ToolCount(entries: seq<Entry>): nat
    decreases |entries|
  {
    if entries == [] then 0
    else ToolCount(entries[..|entries| - 1]) + if entries[|entries| - 1].table.ToolEvents? then 1 else 0
  }

  /** The key a tool row is filed under. */
  predicate FiledUnder(e: Entry, key: ToolKey) {
    && e.table.ToolEvents? && key.native == IdOf(e).native
    && Text(e.row.session, "legacy-session", key.session) && key.instance == DefaultInstance(e.row.vendor)
  }

  lemma FiledIs(e: Entry, key: ToolKey)
    requires e.table.ToolEvents?
    ensures FiledUnder(e, key) <==> key == KeyOf(e)
  {}

  lemma ToolStep(digest: Digest, c: Canonical, e: Entry, key: ToolKey)
    requires NoDup(c.tools)
    ensures NoDup(BackfillOne(digest, c, e).tools)
    ensures key in BackfillOne(digest, c, e).tools <==> key in c.tools || FiledUnder(e, key)
  {
    if e.table.ToolEvents? {
      FiledIs(e, key);
      NoDupAppend(c.tools, KeyOf(e));
    }
  }

  /** The tool calls are those of the tool rows, each once. */
  lemma {:induction false} ToolsMean(digest: Digest, codexMarked: bool, entries: seq<Entry>, key: ToolKey)
    ensures var c := BackfillAll(digest, Fresh(codexMarked), entries);
      NoDup(c.tools) && (key in c.tools <==> exists e :: e in entries && FiledUnder(e, key))
    decreases |entries|
  {
    if entries != [] {
      var before, e := entries[..|entries| - 1], entries[|entries| - 1];
      ToolsMean(digest, codexMarked, before, key);
      LastEntry(entries);
      ToolStep(digest, BackfillAll(digest, Fresh(codexMarked), before), e, key);
      forall x ensures x in entries <==> x in before || x == e {}
    }
  }

  /** The source instance of a row; without a vendor it is taken for Claude's. */
  function DefaultInstance(vendor: string): string {
    (if vendor == "" || vendor == "claude-code" then "claude" else vendor) + ":default"
  }

  /** With distinct ids there is one tool call per tool row. */
  lemma {:induction false} BackfillTools(digest: Digest, c: Canonical, entries: seq<Entry>)
    requires c.tools == [] && DistinctIds(entries)
    ensures var c' := BackfillAll(digest, c, entries);
      && |c'.tools| == ToolCount(entries)
      && (forall key :: key in c'.tools ==> exists i :: 0 <= i < |entries| && entries[i].table.ToolEvents? && KeyOf(entries[i]) == key)
    decreases |entries|
  {
    if entries != [] {
      var before, e := entries[..|entries| - 1], entries[|entries| - 1];
      assert entries == before + [e];
      DistinctAppend(before, e);
      BackfillTools(digest, c, before);
      var middle := BackfillAll(digest, c, before);
      if e.table.ToolEvents? {
        forall i | 0 <= i < |before| && before[i].table.ToolEvents? ensures KeyOf(before[i]) != KeyOf(e) {
          assert IdOf(before[i]) != IdOf(e);
        }
      }
      forall key | key in BackfillAll(digest, c, entries).tools
        ensures exists i :: 0 <= i < |entries| && entries[i].table.ToolEvents? && KeyOf(entries[i]) == key
      {
        if key in middle.tools {
          var i :| 0 <= i < |before| && before[i].table.ToolEvents? && KeyOf(before[i]) == key;
          assert entries[i] == before[i];
        } else {
          assert entries[|entries| - 1] == e;
        }
      }
    }
  }

  lemma {:induction false} ToolCountConcat(a: seq<Entry>, b: seq<Entry>)
    ensures ToolCount(a + b) == ToolCount(a) + ToolCount(b)
    decreases |b|
  {
    if b == [] {
      assert a + b == a;
    } else {
      ToolCountConcat(a, b[..|b| - 1]);
      assert (a + b)[..|a + b| - 1] == a + b[..|b| - 1];
    }
  }

  lemma {:induction false} ToolCountOf(table: Table, rows: seq<Row>)
    ensures ToolCount(EntriesOf(table, rows)) == if table.ToolEvents? then |rows| else 0
    decreases |rows|
  {
    if rows != [] {
      ToolCountOf(table, rows[..|rows| - 1]);
      assert EntriesOf(table, rows)[..|rows| - 1] == EntriesOf(table, rows[..|rows| - 1]);
    }
  }

  lemma {:induction false} EventToolCount(db: LegacyDb, n: nat)
    requires n <= |EVENT_TABLES|
    ensures ToolCount(EventEntries(db, n)) == if n == 0 then 0 else |db(ToolEvents)|
  {
    if n > 0 {
      EventToolCount(db, n - 1);
      ToolCountConcat(EventEntries(db, n - 1), EntriesOf(EVENT_TABLES[n - 1], db(EVENT_TABLES[n - 1])));
      ToolCountOf(EVENT_TABLES[n - 1], db(EVENT_TABLES[n - 1]));
    }
  }

  lemma AllToolCount(db: LegacyDb)
    ensures ToolCount(AllEntries(db)) == |db(ToolEvents)|
  {
    ToolCountConcat(EntriesOf(Sessions, db(Sessions)), EventEntries(db, |EVENT_TABLES|));
    ToolCountOf(Sessions, db(Sessions));
    EventToolCount(db, |EVENT_TABLES|);
  }

  // ---------------------------------------------------------------- usage rows fall in one bucket

  predicate IsUsage(e: Entry, native: string) {
    e.table.TokenUsageEvents? && IdOf(e).native == native
  }

  ghost predicate Somewhere(entries: seq<Entry>, native: string, codexMarked: bool, d: Disposition -> bool) {
    exists e :: e in entries && IsUsage(e, native) && d(Dispose(e.row, native, codexMarked))
  }

  lemma SomewhereAppend(entries: seq<Entry>, e: Entry, native: string, codexMarked: bool, d: Disposition -> bool)
    ensures Somewhere(entries + [e], native, codexMarked, d) <==>
              Somewhere(entries, native, codexMarked, d)
              || (IsUsage(e, native) && d(Dispose(e.row, native, codexMarked)))
  {
    assert e in entries + [e];
    if Somewhere(entries, native, codexMarked, d) {
      var x :| x in entries && IsUsage(x, native) && d(Dispose(x.row, native, codexMarked));
      assert x in entries + [e];
    }
  }

  function IsPending(): Disposition -> bool { (d: Disposition) => d.Pending? }
  function IsInvalid(): Disposition -> bool { (d: Disposition) => d.Invalid? }
  function IsAccepted(): Disposition -> bool { (d: Disposition) => d.Accepted? }

  lemma HasUsageAppend(usage: seq<UsageRow>, u: UsageRow, native: string)
    ensures HasUsage(usage + [u], native) <==> HasUsage(usage, native) || u.native == native
  {
    assert (usage + [u])[|usage|] == u;
    if HasUsage(usage, native) {
      var i :| 0 <= i < |usage| && usage[i].native == native;
      assert (usage + [u])[i] == usage[i];
    }
  }

  ghost predicate Buckets(c: Canonical, codexMarked: bool, entries: seq<Entry>, native: string) {
    && c.codexMarked == codexMarked
    && (native in c.pending <==> Somewhere(entries, native, codexMarked, IsPending()))
    && (native in c.invalid <==> Somewhere(entries, native, codexMarked, IsInvalid()))
    && (HasUsage(c.usage, native) <==> Somewhere(entries, native, codexMarked, IsAccepted()))
  }

  /** What one row does to the three buckets. */
  lemma OneUsage(digest: Digest, c: Canonical, e: Entry, native: string)
    ensures var c' := BackfillOne(digest, c, e);
      var d := Dispose(e.row, native, c.codexMarked);
      && c'.codexMarked == c.codexMarked
      && (native in c'.pending <==> native in c.pending || (IsUsage(e, native) && d.Pending?))
      && (native in c'.invalid <==> native in c.invalid || (IsUsage(e, native) && d.Invalid?))
      && (HasUsage(c'.usage, native) <==> HasUsage(c.usage, native) || (IsUsage(e, native) && d.Accepted?))
  {
    var d := Dispose(e.row, IdOf(e).native, c.codexMarked);
    if e.table.TokenUsageEvents? && d.Accepted? {
      HasUsageAppend(c.usage, d.usage, native);
    }
  }

  lemma {:induction false} BackfillUsage(digest: Digest, codexMarked: bool, entries: seq<Entry>, native: string)
    ensures Buckets(BackfillAll(digest, Fresh(codexMarked), entries), codexMarked, entries, native)
    decreases |entries|
  {
    if entries != [] {
      var before, e := entries[..|entries| - 1], entries[|entries| - 1];
      LastEntry(entries);
      BackfillUsage(digest, codexMarked, before, native);
      SomewhereAppend(before, e, native, codexMarked, IsPending());
      SomewhereAppend(before, e, native, codexMarked, IsInvalid());
      SomewhereAppend(before, e, native, codexMarked, IsAccepted());
      OneUsage(digest, BackfillAll(digest, Fresh(codexMarked), before), e, native);
    }
  }

  /** With distinct ids, an id is in exactly one bucket when a usage row has it and in none otherwise. */
  lemma BucketsOf(digest: Digest, codexMarked: bool, entries: seq<Entry>, native: string)
    requires DistinctIds(entries)
    ensures var c := BackfillAll(digest, Fresh(codexMarked), entries);
      CountIf(HasUsage(c.usage, native), native in c.pending, native in c.invalid)
      == if exists e :: e in entries && IsUsage(e, native) then 1 else 0
  {
    BackfillUsage(digest, codexMarked, entries, native);
    if exists e :: e in entries && IsUsage(e, native) {
      var e :| e in entries && IsUsage(e, native);
      var d := Dispose(e.row, native, codexMarked);
      forall x | x in entries && IsUsage(x, native) ensures x == e {
        SameIdSameEntry(entries, x, e);
      }
      assert d.Pending? || d.Invalid? || d.Accepted?;
      assert Somewhere(entries, native, codexMarked, IsPending()) <==> d.Pending?;
      assert Somewhere(entries, native, codexMarked, IsInvalid()) <==> d.Invalid?;
      assert Somewhere(entries, native, codexMarked, IsAccepted()) <==> d.Accepted?;
    }
  }

  // ---------------------------------------------------------------- the independent fold

  /** Every stored usage row is what its legacy row was accepted as. */
  ghost predicate FromRow(entries: seq<Entry>, codexMarked: bool, u: UsageRow) {
    exists e :: e in entries && AcceptedAs(e, codexMarked, u)
  }

  predicate AcceptedAs(e: Entry, codexMarked: bool, u: UsageRow) {
    IsUsage(e, u.native) && Dispose(e.row, u.native, codexMarked) == Accepted(u)
  }

  lemma FromRowAppend(entries: seq<Entry>, e: Entry, codexMarked: bool, u: UsageRow)
    requires FromRow(entries, codexMarked, u) || AcceptedAs(e, codexMarked, u)
    ensures FromRow(entries + [e], codexMarked, u)
  {
    if FromRow(entries, codexMarked, u) {
      var x :| x in entries && AcceptedAs(x, codexMarked, u);
      assert x in entries + [e];
    } else {
      assert e in entries + [e];
    }
  }

  lemma OneStored(digest: Digest, c: Canonical, e: Entry, u: UsageRow)
    requires u in BackfillOne(digest, c, e).usage
    ensures u in c.usage || AcceptedAs(e, c.codexMarked, u)
  {
    var d := Dispose(e.row, IdOf(e).native, c.codexMarked);
    if d.Accepted? {
      DisposedNative(e.row, IdOf(e).native, c.codexMarked);
    }
  }

  lemma DisposedNative(row: Row, native: string, codexMarked: bool)
    requires Dispose(row, native, codexMarked).Accepted?
    ensures Dispose(row, native, codexMarked).usage.native == native
  {}

  lemma {:induction false} MarkerStays(digest: Digest, c: Canonical, entries: seq<Entry>)
    ensures BackfillAll(digest, c, entries).codexMarked == c.codexMarked
    decreases |entries|
  {
    if entries != [] {
      MarkerStays(digest, c, entries[..|entries| - 1]);
    }
  }

  lemma {:induction false} StoredUsage(digest: Digest, codexMarked: bool, entries: seq<Entry>, u: UsageRow)
    requires u in BackfillAll(digest, Fresh(codexMarked), entries).usage
    ensures FromRow(entries, codexMarked, u)
    decreases |entries|
  {
    if entries != [] {
      var before, e := entries[..|entries| - 1], entries[|entries| - 1];
      var c := BackfillAll(digest, Fresh(codexMarked), before);
      LastEntry(entries);
      MarkerStays(digest, Fresh(codexMarked), before);
      OneStored(digest, c, e, u);
      if u in c.usage {
        StoredUsage(digest, codexMarked, before, u);
      }
      FromRowAppend(before, e, codexMarked, u);
    }
  }

  // ---------------------------------------------------------------- what becomes of a usage row

  /** The pairs of usage source and adapter whose tokens can be interpreted. */
  const REGISTERED: set<(string, string)> := {
    ("claude-transcript", "claude-transcript"), ("kimicode-usage", "kimicode-wire"), ("dsh-usage", "dsh-jsonl"),
    ("cursor-generation", "cursor-ide"), ("cursor-composer-context", "cursor-ide"),
    ("opencode-message", "opencode-db"), ("opencode-message", "zcode-db"), ("opencode-message", "mimo-db"),
    ("opencode-step-finish", "opencode-db"), ("opencode-step-finish", "zcode-db"), ("opencode-step-finish", "mimo-db"),
    ("codex-rollout", "codex-rollout"), ("codex-logs", "codex-logs"), ("workbuddy-usage", "workbuddy-jsonl"),
    ("codebuddy-log", "codebuddy-cli-log")}

  /** The sources whose input counts what came from the cache. */
  const GROSS: set<string> := {
    "opencode-message", "opencode-step-finish", "codex-rollout", "codex-logs", "workbuddy-usage", "codebuddy-log"}

  /** The registry as pairs, with the meaning of each source's input; only the composer context is no increment. */
  lemma RegistryMeans(source: string, adapter: string)
    ensures (source, adapter) in REGISTERED <==> Mapped(source).Some? && adapter in Mapped(source).value.adapters
    ensures Mapped(source).Some? ==> (Mapped(source).value.semantics.Gross? <==> source in GROSS)
    ensures Mapped(source).Some? ==> (Mapped(source).value.snapshot <==> source == "cursor-composer-context")
  {}

  /** The registry knows the source and lists the adapter the row was seen through. */
  predicate Listed(row: Row) {
    && Mapped(row.usageSource).Some?
    && (if row.adapter != "" then row.adapter else "claude-transcript") in Mapped(row.usageSource).value.adapters
  }

  /** A legacy cell read as a count: safe non-negative integers as they are, everything else as zero. */
  function Counted(cell: int): int {
    if 0 <= cell <= 9007199254740991 then cell else 0
  }

  predicate Text(cell: string, fallback: string, text: string) {
    text == if cell != "" then cell else fallback
  }

  /** Codex rows written before the conversion count their input without what came from the cache. */
  predicate Unconverted(row: Row, codexMarked: bool) { row.vendor == "codex" && !codexMarked }

  /** The columns a stored usage row takes over from its legacy row. */
  predicate Carries(row: Row, u: UsageRow) {
    && Text(row.session, "legacy-session", u.session) && Text(row.vendor, "claude-code", u.vendor)
    && u.instance == DefaultInstance(row.vendor)
    && u.model == row.model && Text(row.provider, "unknown", u.provider)
    && u.output == Counted(row.output) && u.cacheCreation == Counted(row.cacheCreation) && u.cacheRead == Counted(row.cacheRead)
  }

  /** The input shown: cached tokens are taken out of a gross input exactly once. */
  predicate InputShown(row: Row, gross: bool, codexMarked: bool, u: UsageRow) {
    if gross then u.displayed + (if Unconverted(row, codexMarked) then 0 else u.cacheRead) == Counted(row.input)
    else u.displayed == Counted(row.input) + (if Unconverted(row, codexMarked) then u.cacheRead else 0)
  }

  /** Gross rows conserve tokens: what is shown and what came from the cache add up to the raw input. */
  predicate Conserves(gross: bool, u: UsageRow) {
    u.raw == if gross then u.displayed + u.cacheRead else u.displayed
  }

  /** A stored usage row as the image of a legacy row. */
  predicate ImageOf(row: Row, codexMarked: bool, u: UsageRow) {
    && Listed(row) && Carries(row, u)
    && InputShown(row, Mapped(row.usageSource).value.semantics.Gross?, codexMarked, u)
    && Conserves(Mapped(row.usageSource).value.semantics.Gross?, u)
    && u.snapshot == Mapped(row.usageSource).value.snapshot
  }

  /** A gross input below its cached part; never so for Codex rows not yet converted. */
  predicate Overdrawn(row: Row, codexMarked: bool) {
    && Listed(row) && Mapped(row.usageSource).value.semantics.Gross? && !Unconverted(row, codexMarked)
    && Counted(row.input) < Counted(row.cacheRead)
  }

  lemma DisposeMeans(row: Row, native: string, codexMarked: bool)
    ensures var d := Dispose(row, native, codexMarked);
      && (d.Pending? <==> !Listed(row))
      && (d.Invalid? <==> Overdrawn(row, codexMarked))
      && (d.Accepted? ==> d.usage.native == native && ImageOf(row, codexMarked, d.usage))
  {}

  /** Every stored usage row is the image of a legacy row of its id, token for token. */
  lemma StoredUsageMeans(digest: Digest, db: LegacyDb, codexMarked: bool, u: UsageRow)
    requires u in BackfillAll(digest, Fresh(codexMarked), AllEntries(db)).usage
    ensures exists row :: row in db(TokenUsageEvents) && ImageOf(row, codexMarked, u)
                          && IdOf(Entry(TokenUsageEvents, row)).native == u.native
  {
    StoredUsage(digest, codexMarked, AllEntries(db), u);
    var e :| e in AllEntries(db) && AcceptedAs(e, codexMarked, u);
    AllEntriesAreRows(db, e);
    DisposeMeans(e.row, u.native, codexMarked);
    assert e.row in db(TokenUsageEvents) && e == Entry(TokenUsageEvents, e.row);
  }

  /** The first usage row of an id that is neither left pending nor invalid. */
  function FirstAccepted(entries: seq<Entry>, native: string, codexMarked: bool): Option<Row>
    decreases |entries|
  {
    if entries == [] then None
    else
      var before, e := FirstAccepted(entries[..|entries| - 1], native, codexMarked), entries[|entries| - 1];
      if before.Some? then before
      else if IsUsage(e, native) && Listed(e.row) && !Overdrawn(e.row, codexMarked) then Some(e.row) else None
  }

  ghost predicate UsageOnce(usage: seq<UsageRow>) {
    forall i, j :: 0 <= i < j < |usage| ==> usage[i].native != usage[j].native
  }

  ghost predicate FirstsStored(c: Canonical, codexMarked: bool, entries: seq<Entry>, native: string) {
    && c.codexMarked == codexMarked && UsageOnce(c.usage)
    && (HasUsage(c.usage, native) <==> FirstAccepted(entries, native, codexMarked).Some?)
    && forall u :: u in c.usage && u.native == native && FirstAccepted(entries, native, codexMarked).Some? ==>
         ImageOf(FirstAccepted(entries, native, codexMarked).value, codexMarked, u)
  }

  /** Each id has one usage row at most, the image of its first acceptable legacy row. */
  lemma {:induction false} FirstIsStored(digest: Digest, codexMarked: bool, entries: seq<Entry>, native: string)
    ensures FirstsStored(BackfillAll(digest, Fresh(codexMarked), entries), codexMarked, entries, native)
    decreases |entries|
  {
    if entries != [] {
      var before, e := entries[..|entries| - 1], entries[|entries| - 1];
      FirstIsStored(digest, codexMarked, before, native);
      LastEntry(entries);
      FirstStep(digest, codexMarked, BackfillAll(digest, Fresh(codexMarked), before), before, e, native);
    }
  }

  lemma FirstStep(digest: Digest, codexMarked: bool, c: Canonical, before: seq<Entry>, e: Entry, native: string)
    requires FirstsStored(c, codexMarked, before, native)
    ensures FirstsStored(BackfillOne(digest, c, e), codexMarked, before + [e], native)
  {
    assert (before + [e])[..|before|] == before;
    DisposeMeans(e.row, IdOf(e).native, codexMarked);
    if e.table.TokenUsageEvents? {
      StoreOnce(c, e.row, IdOf(e).native, native);
      UsageOfOne(digest, c, e);
    } else {
      assert BackfillOne(digest, c, e).usage == c.usage;
    }
  }

  lemma UsageOfOne(digest: Digest, c: Canonical, e: Entry)
    requires e.table.TokenUsageEvents?
    ensures BackfillOne(digest, c, e).usage == InsertUsage(c, e.row, IdOf(e).native).usage
    ensures BackfillOne(digest, c, e).codexMarked == c.codexMarked
  {}

  lemma StoreOnce(c: Canonical, row: Row, id: string, native: string)
    requires UsageOnce(c.usage)
    ensures var c' := InsertUsage(c, row, id);
      && UsageOnce(c'.usage)
      && (HasUsage(c'.usage, native) <==> HasUsage(c.usage, native) || (id == native && Dispose(row, id, c.codexMarked).Accepted?))
      && forall u :: u in c'.usage ==>
           u in c.usage || (!HasUsage(c.usage, id) && Dispose(row, id, c.codexMarked) == Accepted(u) && u.native == id)
  {
    var d := Dispose(row, id, c.codexMarked);
    if d.Accepted? {
      HasUsageAppend(c.usage, d.usage, native);
    }
  }

  /** The Codex marker is set by a migration that saw Codex rows, and nothing else depends on that. */
  lemma MarkerMeans(digest: Digest, db: LegacyDb, codexMarked: bool)
    ensures var c := Backfill(digest, db, codexMarked);
      && (c.codexMarked <==> codexMarked || exists row :: row in db(TokenUsageEvents) && row.vendor == "codex")
      && c.(codexMarked := codexMarked) == BackfillAll(digest, Fresh(codexMarked), AllEntries(db))
  {
    MarkerStays(digest, Fresh(codexMarked), AllEntries(db));
    var rows := db(TokenUsageEvents);
    if exists row :: row in rows && row.vendor == "codex" {
      var row :| row in rows && row.vendor == "codex";
      var i :| 0 <= i < |rows| && rows[i] == row;
      assert HasCodexRows(rows);
    }
  }

  /**
   The total the check computes again: from the legacy cells alone, cached tokens counted once, except
   for Codex rows, whose stored columns it takes on trust.
   */
  lemma IndependentMeans(rows: seq<Row>, u: UsageRow)
    ensures match FindRow(rows, u.native)
            case None => IndependentTotal(rows, u).None?
            case Some(row) =>
              if Mapped(row.usageSource).None? || row.adapter !in Mapped(row.usageSource).value.adapters
              then IndependentTotal(rows, u).None?
              else
                var gross := Mapped(row.usageSource).value.semantics.Gross?;
                var input, read := Counted(row.input), Counted(row.cacheRead);
                if Mapped(row.usageSource).value.snapshot then IndependentTotal(rows, u) == Some(0)
                else if row.vendor == "codex" then
                  IndependentTotal(rows, u) == Some(Counted(u.displayed) + Counted(u.output) + Counted(u.cacheRead) + Counted(u.cacheCreation))
                else if gross && input < read then IndependentTotal(rows, u).None?
                else IndependentTotal(rows, u)
                     == Some(input + Counted(row.output) + Counted(row.cacheCreation) + if gross then 0 else read)
  {}

  ghost predicate RowOfId(db: LegacyDb, native: string, row: Row) {
    row in db(TokenUsageEvents) && IdOf(Entry(TokenUsageEvents, row)).native == native
  }

  /** Which ids are left pending, reported invalid and stored, told by the cells of their rows. */
  lemma BucketsMean(digest: Digest, db: LegacyDb, codexMarked: bool, native: string)
    ensures var c := BackfillAll(digest, Fresh(codexMarked), AllEntries(db));
      && (native in c.pending <==> exists row :: RowOfId(db, native, row) && !Listed(row))
      && (native in c.invalid <==> exists row :: RowOfId(db, native, row) && Overdrawn(row, codexMarked))
      && (HasUsage(c.usage, native)
          <==> exists row :: RowOfId(db, native, row) && Listed(row) && !Overdrawn(row, codexMarked))
  {
    BackfillUsage(digest, codexMarked, AllEntries(db), native);
    forall e ensures e in AllEntries(db) && IsUsage(e, native)
                     <==> e == Entry(TokenUsageEvents, e.row) && RowOfId(db, native, e.row)
    {
      AllEntriesAreRows(db, e);
    }
    SomewhereMeans(db, native, codexMarked, IsPending());
    SomewhereMeans(db, native, codexMarked, IsInvalid());
    SomewhereMeans(db, native, codexMarked, IsAccepted());
    forall row
      ensures var d := Dispose(row, native, codexMarked);
        (d.Pending? <==> !Listed(row)) && (d.Invalid? <==> Overdrawn(row, codexMarked))
    {
      DisposeMeans(row, native, codexMarked);
    }
  }

  lemma SomewhereMeans(db: LegacyDb, native: string, codexMarked: bool, d: Disposition -> bool)
    ensures Somewhere(AllEntries(db), native, codexMarked, d)
            <==> exists row :: RowOfId(db, native, row) && d(Dispose(row, native, codexMarked))
  {
    if Somewhere(AllEntries(db), native, codexMarked, d) {
      var e :| e in AllEntries(db) && IsUsage(e, native) && d(Dispose(e.row, native, codexMarked));
      AllEntriesAreRows(db, e);
      assert RowOfId(db, native, e.row);
    }
    if exists row :: RowOfId(db, native, row) && d(Dispose(row, native, codexMarked)) {
      var row :| RowOfId(db, native, row) && d(Dispose(row, native, codexMarked));
      AllEntriesAreRows(db, Entry(TokenUsageEvents, row));
    }
  }

  lemma {:induction false} FindRowFinds(rows: seq<Row>, id: string)
    ensures match FindRow(rows, id)
            case None => forall row :: row in rows ==> row.id != id
            case Some(row) => row in rows && row.id == id
    decreases |rows|
  {
    if rows != [] && rows[0].id != id {
      FindRowFinds(rows[1..], id);
      assert rows == [rows[0]] + rows[1..];
    }
  }

  /** Computing a stored row's total again from the legacy row works exactly when the row has an id and an adapter. */
  lemma IndependentIsStored(db: LegacyDb, codexMarked: bool, u: UsageRow, row: Row)
    requires DistinctIds(AllEntries(db)) && row in db(TokenUsageEvents)
    requires IsUsage(Entry(TokenUsageEvents, row), u.native) && Dispose(row, u.native, codexMarked) == Accepted(u)
    requires !u.snapshot
    ensures IndependentTotal(db(TokenUsageEvents), u)
            == if row.id != "" && row.adapter != "" then Some(RowTotal(u)) else None
  {
    var rows := db(TokenUsageEvents);
    FindRowFinds(rows, u.native);
    var found := FindRow(rows, u.native);
    if found.Some? {
      AllEntriesAreRows(db, Entry(TokenUsageEvents, row));
      AllEntriesAreRows(db, Entry(TokenUsageEvents, found.value));
      SameIdSameEntry(AllEntries(db), Entry(TokenUsageEvents, row), Entry(TokenUsageEvents, found.value));
    }
  }

  /** The row behind a stored usage row would have been called countable beforehand, and conversely. */
  lemma CountableBehind(row: Row, native: string, codexMarked: bool)
    ensures Dispose(row, row.id, codexMarked).Accepted? <==> Dispose(row, native, codexMarked).Accepted?
    ensures Dispose(row, native, codexMarked).Accepted? ==>
              Dispose(row, native, codexMarked).usage.snapshot == Dispose(row, row.id, codexMarked).usage.snapshot
  {}

  predicate Traceable(row: Row) { row.id != "" && row.adapter != "" }

  ghost predicate AllTraceable(db: LegacyDb, codexMarked: bool) {
    forall row :: row in db(TokenUsageEvents) && CountsAsAdditive(row, codexMarked) ==> Traceable(row)
  }

  /** The total of a stored additive row, computed again. */
  lemma StoredTotal(db: LegacyDb, codexMarked: bool, u: UsageRow)
    requires DistinctIds(AllEntries(db)) && AllTraceable(db, codexMarked)
    requires !u.snapshot && FromRow(AllEntries(db), codexMarked, u)
    ensures IndependentTotal(db(TokenUsageEvents), u) == Some(RowTotal(u))
  {
    var e :| e in AllEntries(db) && AcceptedAs(e, codexMarked, u);
    AllEntriesAreRows(db, e);
    assert e == Entry(TokenUsageEvents, e.row);
    CountableBehind(e.row, u.native, codexMarked);
    IndependentIsStored(db, codexMarked, u, e.row);
  }

  /** When every row's total agrees, the fold from the legacy rows is the fold of the stored rows. */
  lemma {:induction false} FoldsAgree(rows: seq<Row>, usage: seq<UsageRow>)
    requires forall i :: 0 <= i < |usage| ==> IndependentTotal(rows, usage[i]) == Some(RowTotal(usage[i]))
    ensures IndependentFold(rows, usage) == Some(Sum(usage, RowTotal))
    decreases |usage|
  {
    if usage != [] {
      FoldsAgree(rows, usage[..|usage| - 1]);
      assert IndependentTotal(rows, usage[|usage| - 1]).Some?;
    }
  }

  /** One row that cannot be traced makes the fold fail. */
  lemma {:induction false} FoldFails(rows: seq<Row>, usage: seq<UsageRow>, u: UsageRow)
    requires u in usage && IndependentTotal(rows, u).None?
    ensures IndependentFold(rows, usage).None?
    decreases |usage|
  {
    if u != usage[|usage| - 1] {
      assert u in usage[..|usage| - 1];
      FoldFails(rows, usage[..|usage| - 1], u);
    }
  }

  lemma {:induction false} AdditiveIs(usage: seq<UsageRow>, u: UsageRow)
    ensures u in Additive(usage) <==> u in usage && !u.snapshot
    decreases |usage|
  {
    if usage != [] {
      var before, last := usage[..|usage| - 1], usage[|usage| - 1];
      AdditiveIs(before, u);
      assert usage == before + [last];
      assert Additive(usage) == if last.snapshot then Additive(before) else Additive(before) + [last];
    }
  }

  lemma GroupsAlwaysAgree(usage: seq<UsageRow>)
    ensures GroupsAgree(usage)
  {
    GroupsConserve(usage, ModelOf, RowTotal);
    GroupsConserve(usage, VendorOf, RowTotal);
    GroupsConserve(usage, ProviderOf, RowTotal);
    GroupsConserve(usage, SessionOf, RowTotal);
  }

  // ---------------------------------------------------------------- the main result

  /** A usage row passes the bucket check exactly when the id the check uses is some usage row's id. */
  lemma OneBucketIff(digest: Digest, db: LegacyDb, codexMarked: bool, row: Row)
    requires DistinctIds(AllEntries(db)) && row in db(TokenUsageEvents)
    ensures OneBucket(BackfillAll(digest, Fresh(codexMarked), AllEntries(db)), row) <==>
              row.id != "" || exists other :: other in db(TokenUsageEvents) && other.id == "usage"
  {
    BucketsOf(digest, codexMarked, AllEntries(db), CheckedNative(row));
    if row.id != "" {
      AllEntriesAreRows(db, Entry(TokenUsageEvents, row));
      assert IsUsage(Entry(TokenUsageEvents, row), row.id);
    } else {
      NamedUsage(db);
    }
  }

  lemma NamedUsage(db: LegacyDb)
    ensures (exists e :: e in AllEntries(db) && IsUsage(e, "usage")) <==>
            (exists other :: other in db(TokenUsageEvents) && other.id == "usage")
  {
    assert |Fallback(TokenUsageEvents)| != |"usage"|;
    if exists e :: e in AllEntries(db) && IsUsage(e, "usage") {
      var e :| e in AllEntries(db) && IsUsage(e, "usage");
      AllEntriesAreRows(db, e);
    }
    if exists other :: other in db(TokenUsageEvents) && other.id == "usage" {
      var other :| other in db(TokenUsageEvents) && other.id == "usage";
      AllEntriesAreRows(db, Entry(TokenUsageEvents, other));
      assert IsUsage(Entry(TokenUsageEvents, other), "usage");
    }
  }

  /** A countable row reaches the usage table as what it was accepted as. */
  lemma CountableIsStored(digest: Digest, db: LegacyDb, codexMarked: bool, row: Row) returns (u: UsageRow)
    requires DistinctIds(AllEntries(db)) && row in db(TokenUsageEvents) && CountsAsAdditive(row, codexMarked)
    ensures u in Additive(BackfillAll(digest, Fresh(codexMarked), AllEntries(db)).usage)
    ensures AcceptedAs(Entry(TokenUsageEvents, row), codexMarked, u) && !u.snapshot
  {
    var entries := AllEntries(db);
    var usage := BackfillAll(digest, Fresh(codexMarked), entries).usage;
    var mine := Entry(TokenUsageEvents, row);
    var native := IdOf(mine).native;
    AllEntriesAreRows(db, mine);
    CountableBehind(row, native, codexMarked);
    BackfillUsage(digest, codexMarked, entries, native);
    assert IsUsage(mine, native);
    assert Somewhere(entries, native, codexMarked, IsAccepted());
    var i :| 0 <= i < |usage| && usage[i].native == native;
    u := usage[i];
    StoredUsage(digest, codexMarked, entries, u);
    var e :| e in entries && AcceptedAs(e, codexMarked, u);
    SameIdSameEntry(entries, e, mine);
    AdditiveIs(usage, u);
  }

  lemma FoldIff(digest: Digest, db: LegacyDb, codexMarked: bool)
    requires DistinctIds(AllEntries(db))
    ensures var usage := Additive(BackfillAll(digest, Fresh(codexMarked), AllEntries(db)).usage);
      IndependentFold(db(TokenUsageEvents), usage) == Some(Sum(usage, RowTotal)) <==> AllTraceable(db, codexMarked)
  {
    var all := BackfillAll(digest, Fresh(codexMarked), AllEntries(db)).usage;
    var usage := Additive(all);
    if AllTraceable(db, codexMarked) {
      forall i | 0 <= i < |usage| ensures IndependentTotal(db(TokenUsageEvents), usage[i]) == Some(RowTotal(usage[i])) {
        assert usage[i] in usage;
        AdditiveIs(all, usage[i]);
        StoredUsage(digest, codexMarked, AllEntries(db), usage[i]);
        StoredTotal(db, codexMarked, usage[i]);
      }
      FoldsAgree(db(TokenUsageEvents), usage);
    } else {
      var row :| row in db(TokenUsageEvents) && CountsAsAdditive(row, codexMarked) && !Traceable(row);
      var u := CountableIsStored(digest, db, codexMarked, row);
      IndependentIsStored(db, codexMarked, u, row);
      FoldFails(db(TokenUsageEvents), usage, u);
    }
  }

  lemma WellFormedIs(db: LegacyDb, codexMarked: bool)
    ensures WellFormed(db, codexMarked) <==>
      && DistinctIds(AllEntries(db))
      && (forall row :: row in db(TokenUsageEvents) ==>
            row.id != "" || exists other :: other in db(TokenUsageEvents) && other.id == "usage")
      && AllTraceable(db, codexMarked)
  {
    var rows := db(TokenUsageEvents);
    assert forall i :: 0 <= i < |rows| ==> rows[i] in rows;
    assert (exists j :: 0 <= j < |rows| && rows[j].id == "usage") <==> (exists other :: other in rows && other.id == "usage");
  }

  /** The Codex marker set at the end is not looked at by the check. */
  lemma MarkerIsIrrelevant(db: LegacyDb, c: Canonical)
    ensures Reconciles(db, c) <==> Reconciles(db, c.(codexMarked := true))
  {}

  /** The check accepts the migrated database if and only if the legacy database was well formed. */
  lemma ReconcilesIff(digest: Digest, db: LegacyDb, codexMarked: bool)
    ensures Reconciles(db, Backfill(digest, db, codexMarked)) <==> WellFormed(db, codexMarked)
  {
    var entries := AllEntries(db);
    var c := BackfillAll(digest, Fresh(codexMarked), entries);
    MarkerIsIrrelevant(db, c);
    WellFormedIs(db, codexMarked);
    BackfillEvents(digest, Fresh(codexMarked), entries);
    BackfillObservations(digest, Fresh(codexMarked), entries);
    ObservationsReconcile(c);
    GroupsAlwaysAgree(Additive(c.usage));
    if DistinctIds(entries) {
      BackfillTools(digest, Fresh(codexMarked), entries);
      AllToolCount(db);
      FoldIff(digest, db, codexMarked);
      forall row | row in db(TokenUsageEvents)
        ensures OneBucket(c, row) <==>
                  row.id != "" || exists other :: other in db(TokenUsageEvents) && other.id == "usage"
      {
        OneBucketIff(digest, db, codexMarked, row);
      }
    }
  }

  /** In particular: distinct ids, and every usage row with its id and adapter filled in. */
  lemma OrdinaryDatabasesReconcile(digest: Digest, db: LegacyDb, codexMarked: bool)
    requires DistinctIds(AllEntries(db))
    requires forall i :: 0 <= i < |db(TokenUsageEvents)| ==> Traceable(db(TokenUsageEvents)[i])
    ensures Reconciles(db, Backfill(digest, db, codexMarked))
  {
    ReconcilesIff(digest, db, codexMarked);
  }

  // ---------------------------------------------------------------- what the check looks at

  /** The row's id is stored as usage, left pending or reported invalid, and only one of these. */
  ghost predicate InOneBucket(c: Canonical, row: Row) {
    var native := if row.id != "" then row.id else "usage";
    var stored := exists u :: u in c.usage && u.native == native;
    && (stored || native in c.pending || native in c.invalid)
    && !(stored && native in c.pending) && !(stored && native in c.invalid) && !(native in c.pending && native in c.invalid)
  }

  lemma OneBucketMeans(c: Canonical, row: Row)
    ensures OneBucket(c, row) <==> InOneBucket(c, row)
  {
    var native := if row.id != "" then row.id else "usage";
    if exists u :: u in c.usage && u.native == native {
      var u :| u in c.usage && u.native == native;
      var i :| 0 <= i < |c.usage| && c.usage[i] == u;
      assert HasUsage(c.usage, native);
    }
    if HasUsage(c.usage, native) {
      var i :| 0 <= i < |c.usage| && c.usage[i].native == native;
      assert c.usage[i] in c.usage;
    }
  }

  lemma RowCount(db: LegacyDb)
    ensures |AllEntries(db)| == |db(Sessions)| + |db(ToolEvents)| + |db(PromptEvents)| + |db(AssistantResponses)|
                                + |db(TokenUsageEvents)| + |db(CodeEdits)|
  {
    assert |EventEntries(db, 0)| == 0;
    assert |EventEntries(db, 1)| == |db(ToolEvents)|;
    assert |EventEntries(db, 2)| == |EventEntries(db, 1)| + |db(PromptEvents)|;
    assert |EventEntries(db, 3)| == |EventEntries(db, 2)| + |db(AssistantResponses)|;
    assert |EventEntries(db, 4)| == |EventEntries(db, 3)| + |db(TokenUsageEvents)|;
    assert |EventEntries(db, 5)| == |EventEntries(db, 4)| + |db(CodeEdits)|;
  }

  /**
   What makes the check accept any tables, not only those of the backfill: as many events as legacy rows
   and tool calls as tool rows, every usage row in one bucket, the same token total computed twice, and a
   conflict for each event seen with two fingerprints.
   */
  lemma CheckMeans(db: LegacyDb, c: Canonical)
    ensures Reconciles(db, c)
            <==> && |c.events| == |db(Sessions)| + |db(ToolEvents)| + |db(PromptEvents)| + |db(AssistantResponses)|
                                  + |db(TokenUsageEvents)| + |db(CodeEdits)|
                 && |c.tools| == |db(ToolEvents)|
                 && (forall row :: row in db(TokenUsageEvents) ==> InOneBucket(c, row))
                 && IndependentFold(db(TokenUsageEvents), Additive(c.usage)) == Some(Sum(Additive(c.usage), RowTotal))
                 && (forall o, p :: o in c.observations && p in c.observations && o.id == p.id && o.fingerprint != p.fingerprint ==>
                       o.id in c.conflicts)
  {
    RowCount(db);
    GroupsAlwaysAgree(Additive(c.usage));
    var rows := db(TokenUsageEvents);
    forall row ensures OneBucket(c, row) <==> InOneBucket(c, row) { OneBucketMeans(c, row); }
    assert (forall i :: 0 <= i < |rows| ==> OneBucket(c, rows[i])) <==> forall row :: row in rows ==> InOneBucket(c, row);
    assert ConflictsRecorded(c.observations, c.conflicts)
           <==> forall o, p :: o in c.observations && p in c.observations && o.id == p.id && o.fingerprint != p.fingerprint ==>
                  o.id in c.conflicts;
  }
}
