/**
 The migration as it runs: loops over legacy rows filling the canonical tables, then loops over both
 sides that accumulate what has to agree (apps/core/src/domain-backfill.ts, domain-reconciliation.ts).
 */
module LegacyMigrators {
  import opened Common
  import opened Grouping
  import opened LegacyMigration
  import opened LegacyMigrationProof

  class LegacyMigrator {
    const digest: Digest
    var events: seq<EventRow>
    var observations: seq<Observation>
    var conflicts: set<LegacyId>
    var tools: seq<ToolKey>
    var usage: seq<UsageRow>
    var pending: set<string>
    var invalid: set<string>
    var codexMarked: bool

    ghost function Abs(): Canonical
      reads this
    {
      Canonical(events, observations, conflicts, tools, usage, pending, invalid, codexMarked)
    }

    constructor (digest: Digest, codexMarked: bool)
      ensures Abs() == Fresh(codexMarked) && this.digest == digest
    {
      this.digest, this.codexMarked := digest, codexMarked;
      events, observations, conflicts, tools, usage, pending, invalid := [], [], {}, [], [], {}, {};
    }

    method InsertLegacyEvent(id: LegacyId, adapter: string, fingerprint: int)
      modifies this
      ensures Abs() == InsertEvent(old(Abs()), id, adapter, fingerprint)
    {
      var existing := FingerprintAt(events, id);
      if existing.Some? && existing.value != fingerprint {
        conflicts := conflicts + {id};
      } else if existing.None? {
        events := events + [EventRow(id, fingerprint)];
      }
      if !Observes(observations, id, adapter) {
        observations := observations + [Observation(id, adapter, fingerprint)];
      }
    }

    method UpsertLegacyToolCall(key: ToolKey)
      modifies this
      ensures Abs() == InsertTool(old(Abs()), key)
    {
      if key !in tools {
        tools := tools + [key];
      }
    }

    /** A usage row is accepted, left pending for want of a mapping, or reported invalid. */
    method UpsertLegacyUsage(row: Row, native: string)
      modifies this
      ensures Abs() == InsertUsage(old(Abs()), row, native)
    {
      var mapping := Mapped(row.usageSource);
      if mapping.None? || AdapterOf(TokenUsageEvents, row) !in mapping.value.adapters {
        pending := pending + {native};
        return;
      }
      var input, read := NonNegative(row.input), NonNegative(row.cacheRead);
      var stored: int := input;
      if Vendor(row) == "codex" && !codexMarked {
        stored := stored + read;
      }
      var displayed: int := if mapping.value.semantics.Gross? then stored - read else stored;
      if displayed < 0 {
        invalid := invalid + {native};
        return;
      }
      if !HasUsage(usage, native) {
        usage := usage + [UsageRow(native, InstanceOf(Vendor(row)), StringValue(row.session, "legacy-session"),
                                   Vendor(row), row.model, StringValue(row.provider, "unknown"),
                                   mapping.value.snapshot, stored, displayed, NonNegative(row.output),
                                   NonNegative(row.cacheCreation), read)];
      }
    }

    method BackfillLegacyEvent(table: Table, row: Row)
      modifies this
      ensures Abs() == BackfillOne(digest, old(Abs()), Entry(table, row))
    {
      var id := LegacyId(table, StringValue(row.id, Fallback(table)));
      InsertLegacyEvent(id, AdapterOf(table, row), digest(id, row));
      if table.ToolEvents? {
        UpsertLegacyToolCall(ToolKey(InstanceOf(Vendor(row)), StringValue(row.session, "legacy-session"), id.native));
      } else if table.TokenUsageEvents? {
        UpsertLegacyUsage(row, id.native);
      }
    }

    method BackfillTable(table: Table, rows: seq<Row>)
      modifies this
      ensures Abs() == BackfillAll(digest, old(Abs()), EntriesOf(table, rows))
    {
      for i := 0 to |rows|
        invariant Abs() == BackfillAll(digest, old(Abs()), EntriesOf(table, rows[..i]))
      {
        BackfillLegacyEvent(table, rows[i]);
        NextRow(digest, old(Abs()), table, rows, i);
      }
      assert rows[..|rows|] == rows;
    }

    method BackfillLegacyData(db: LegacyDb)
      requires Abs() == Fresh(codexMarked)
      modifies this
      ensures Abs() == Backfill(digest, db, old(codexMarked))
    {
      ghost var start := Abs();
      BackfillTable(Sessions, db(Sessions));
      ghost var sessions := EntriesOf(Sessions, db(Sessions));
      BackfillNothing(digest, start, sessions);
      for t := 0 to |EVENT_TABLES|
        invariant Abs() == BackfillAll(digest, start, sessions + EventEntries(db, t))
      {
        ghost var before := Abs();
        BackfillTable(EVENT_TABLES[t], db(EVENT_TABLES[t]));
        NextTable(digest, start, sessions, db, t);
      }
      if HasCodexRows(db(TokenUsageEvents)) {
        codexMarked := true;
      }
    }

    /** Each usage row in exactly one bucket. */
    method ReconcileUsageDisposition(rows: seq<Row>) returns (ok: bool)
      ensures ok <==> forall i :: 0 <= i < |rows| ==> OneBucket(Abs(), rows[i])
    {
      for i := 0 to |rows|
        invariant forall k :: 0 <= k < i ==> OneBucket(Abs(), rows[k])
      {
        var native := StringValue(rows[i].id, "usage");
        var buckets := CountIf(HasUsage(usage, native), native in pending, native in invalid);
        assert OneBucket(Abs(), rows[i]) <==> buckets == 1;
        if buckets != 1 { return false; }
      }
      ok := true;
    }

    /** The additive rows, folded once, by four groupings, and once more from the legacy rows. */
    method ReconcileTokenFolds(rows: seq<Row>) returns (ok: bool)
      ensures ok <==> GroupsAgree(Additive(usage))
                      && IndependentFold(rows, Additive(usage)) == Some(Sum(Additive(usage), RowTotal))
    {
      var additive := Additive(usage);
      var overviewTotal: int := 0;
      var byModel, byVendor, byProvider := Empty<string>(), Empty<string>(), Empty<string>();
      var bySession := Empty<(string, string)>();
      for i := 0 to |additive|
        invariant overviewTotal == Sum(additive[..i], RowTotal)
        invariant byModel == GroupAll(additive[..i], ModelOf, RowTotal)
        invariant byVendor == GroupAll(additive[..i], VendorOf, RowTotal)
        invariant byProvider == GroupAll(additive[..i], ProviderOf, RowTotal)
        invariant bySession == GroupAll(additive[..i], SessionOf, RowTotal)
      {
        assert additive[..i + 1][..i] == additive[..i];
        var row := additive[i];
        var total := RowTotal(row);
        overviewTotal := overviewTotal + total;
        byModel := Add(byModel, row.model, total);
        byVendor := Add(byVendor, row.vendor, total);
        byProvider := Add(byProvider, row.provider, total);
        bySession := Add(bySession, (row.instance, row.session), total);
      }
      assert additive[..|additive|] == additive;
      if Total(byModel) != overviewTotal || Total(byVendor) != overviewTotal
         || Total(byProvider) != overviewTotal || Total(bySession) != overviewTotal {
        return false;
      }
      var independentTotal := IndependentSum(rows, additive);
      ok := independentTotal == Some(overviewTotal);
    }

    /** None stands for the error the original throws. */
    static method IndependentSum(rows: seq<Row>, additive: seq<UsageRow>) returns (total: Option<int>)
      ensures total == IndependentFold(rows, additive)
    {
      var sum: int := 0;
      for i := 0 to |additive|
        invariant IndependentFold(rows, additive[..i]) == Some(sum)
      {
        assert additive[..i + 1][..i] == additive[..i];
        var one := IndependentTotal(rows, additive[i]);
        if one.None? {
          FoldFails(rows, additive, additive[i]);
          return None;
        }
        sum := sum + one.value;
      }
      assert additive[..|additive|] == additive;
      total := Some(sum);
    }

    /** The whole check; false stands for the error that rolls the migration back. */
    method ReconcileLegacyMigration(db: LegacyDb) returns (ok: bool)
      ensures ok <==> Reconciles(db, Abs())
    {
      if |events| != |AllEntries(db)| { return false; }
      var disposed := ReconcileUsageDisposition(db(TokenUsageEvents));
      if !disposed { return false; }
      if |tools| != |db(ToolEvents)| { return false; }
      var folded := ReconcileTokenFolds(db(TokenUsageEvents));
      if !folded { return false; }
      ok := ConflictsRecorded(observations, conflicts);
    }

    /** Backfill and check in one transaction: it commits exactly for well-formed databases. */
    method Migrate(db: LegacyDb) returns (committed: bool)
      requires Abs() == Fresh(codexMarked)
      modifies this
      ensures committed <==> WellFormed(db, old(codexMarked))
      ensures Abs() == Backfill(digest, db, old(codexMarked))
    {
      ghost var marked := codexMarked;
      BackfillLegacyData(db);
      committed := ReconcileLegacyMigration(db);
      ReconcilesIff(digest, db, marked);
    }
  }

  lemma NextRow(digest: Digest, c: Canonical, table: Table, rows: seq<Row>, i: nat)
    requires i < |rows|
    ensures BackfillAll(digest, c, EntriesOf(table, rows[..i + 1]))
            == BackfillOne(digest, BackfillAll(digest, c, EntriesOf(table, rows[..i])), Entry(table, rows[i]))
  {
    var entries := EntriesOf(table, rows[..i + 1]);
    assert entries[..i] == EntriesOf(table, rows[..i]);
  }

  lemma {:induction false} BackfillConcat(digest: Digest, c: Canonical, a: seq<Entry>, b: seq<Entry>)
    ensures BackfillAll(digest, c, a + b) == BackfillAll(digest, BackfillAll(digest, c, a), b)
    decreases |b|
  {
    if b == [] {
      assert a + b == a;
    } else {
      var before, e := b[..|b| - 1], b[|b| - 1];
      BackfillConcat(digest, c, a, before);
      assert (a + b)[..|a + b| - 1] == a + before && (a + b)[|a + b| - 1] == e;
      BackfillLast(digest, c, a + b);
      BackfillLast(digest, BackfillAll(digest, c, a), b);
    }
  }

  lemma BackfillLast(digest: Digest, c: Canonical, entries: seq<Entry>)
    requires entries != []
    ensures BackfillAll(digest, c, entries)
            == BackfillOne(digest, BackfillAll(digest, c, entries[..|entries| - 1]), entries[|entries| - 1])
  {}

  lemma BackfillNothing(digest: Digest, c: Canonical, a: seq<Entry>)
    ensures a + [] == a && BackfillAll(digest, c, a + []) == BackfillAll(digest, c, a)
  {
    assert a + [] == a;
  }

  lemma NextTable(digest: Digest, c: Canonical, sessions: seq<Entry>, db: LegacyDb, t: nat)
    requires t < |EVENT_TABLES|
    ensures BackfillAll(digest, c, sessions + EventEntries(db, t + 1))
            == BackfillAll(digest, BackfillAll(digest, c, sessions + EventEntries(db, t)),
                           EntriesOf(EVENT_TABLES[t], db(EVENT_TABLES[t])))
  {
    var more := EntriesOf(EVENT_TABLES[t], db(EVENT_TABLES[t]));
    var before := EventEntries(db, t);
    Associate(sessions, before, more);
    BackfillConcat(digest, c, sessions + before, more);
  }
}
