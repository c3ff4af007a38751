/**
 The backfill of a legacy database and the check that runs right after it
 (apps/core/src/domain-backfill.ts, domain-reconciliation.ts, domain-migration-helpers.ts).

 Text cells that are empty or not text are the empty string here; ids keep their table and native
 part apart (table names contain no colon, so the concatenated form loses nothing).
 */
module LegacyMigration {
  import opened Common
  import opened Grouping

  datatype Table = Sessions | ToolEvents | PromptEvents | AssistantResponses | TokenUsageEvents | CodeEdits

  /** One legacy row; tables use the columns they have.  `rest` is all a fingerprint may also depend on. */
  datatype Row = Row(
    id: string,
    session: string,
    vendor: string,
    adapter: string,
    usageSource: string,
    model: string,
    provider: string,
    input: int,
    output: int,
    cacheCreation: int,
    cacheRead: int,
    rest: int)

  type LegacyDb = Table -> seq<Row>

  const EVENT_TABLES: seq<Table> := [ToolEvents, PromptEvents, AssistantResponses, TokenUsageEvents, CodeEdits]

  datatype LegacyId = LegacyId(table: Table, native: string)
  datatype Entry = Entry(table: Table, row: Row)

  /** Computes a fingerprint from the source instance and everything but the adapter; nothing is assumed of it. */
  type Digest = (LegacyId, Row) -> int

  datatype EventRow = EventRow(id: LegacyId, fingerprint: int)
  datatype Observation = Observation(id: LegacyId, adapter: string, fingerprint: int)
  datatype ToolKey = ToolKey(instance: string, session: string, native: string)

  datatype Semantics = Delta | Gross
  datatype Mapping = Mapping(semantics: Semantics, snapshot: bool, adapters: seq<string>)

  datatype UsageRow = UsageRow(
    native: string,
    instance: string,
    session: string,
    vendor: string,
    model: string,
    provider: string,
    snapshot: bool,
    raw: nat,
    displayed: nat,
    output: nat,
    cacheCreation: nat,
    cacheRead: nat)

  datatype Canonical = Canonical(
    events: seq<EventRow>,
    observations: seq<Observation>,
    conflicts: set<LegacyId>,
    tools: seq<ToolKey>,
    usage: seq<UsageRow>,
    pending: set<string>,
    invalid: set<string>,
    codexMarked: bool)

  function Fresh(codexMarked: bool): Canonical {
    Canonical([], [], {}, [], [], {}, {}, codexMarked)
  }

  // ---------------------------------------------------------------- helpers of the original

  function StringValue(value: string, fallback: string): string {
    if value == "" then fallback else value
  }

  const MAX_SAFE_INTEGER: int := 9007199254740991

  /** Anything but a safe non-negative integer counts as zero. */
  function NonNegative(value: int): nat {
    if 0 <= value <= MAX_SAFE_INTEGER then value else 0
  }

  function Mapped(source: string): Option<Mapping> {
    if source == "claude-transcript" then Some(Mapping(Delta, false, ["claude-transcript"]))
    else if source == "opencode-message" then Some(Mapping(Gross, false, ["opencode-db", "zcode-db", "mimo-db"]))
    else if source == "opencode-step-finish" then Some(Mapping(Gross, false, ["opencode-db", "zcode-db", "mimo-db"]))
    else if source == "kimicode-usage" then Some(Mapping(Delta, false, ["kimicode-wire"]))
    else if source == "dsh-usage" then Some(Mapping(Delta, false, ["dsh-jsonl"]))
    else if source == "cursor-generation" then Some(Mapping(Delta, false, ["cursor-ide"]))
    else if source == "cursor-composer-context" then Some(Mapping(Delta, true, ["cursor-ide"]))
    else if source == "codex-rollout" then Some(Mapping(Gross, false, ["codex-rollout"]))
    else if source == "codex-logs" then Some(Mapping(Gross, false, ["codex-logs"]))
    else if source == "workbuddy-usage" then Some(Mapping(Gross, false, ["workbuddy-jsonl"]))
    else if source == "codebuddy-log" then Some(Mapping(Gross, false, ["codebuddy-cli-log"]))
    else None
  }

  function InstanceOf(vendor: string): string {
    if vendor == "claude-code" then "claude:default" else vendor + ":default"
  }

  function Vendor(row: Row): string { StringValue(row.vendor, "claude-code") }

  function AdapterOf(table: Table, row: Row): string {
    StringValue(row.adapter,
                if table in {TokenUsageEvents, AssistantResponses, PromptEvents} then "claude-transcript"
                else "claude-hook")
  }

  function Fallback(table: Table): string {
    match table
    case Sessions => "legacy-session"
    case ToolEvents => "tool_events-legacy"
    case PromptEvents => "prompt_events-legacy"
    case AssistantResponses => "assistant_responses-legacy"
    case TokenUsageEvents => "token_usage_events-legacy"
    case CodeEdits => "code_edits-legacy"
  }

  function IdOf(e: Entry): LegacyId {
    LegacyId(e.table, StringValue(e.row.id, Fallback(e.table)))
  }

  // ---------------------------------------------------------------- the backfill

  /** Every row in the order it is visited. */
  function EntriesOf(table: Table, rows: seq<Row>): seq<Entry>
    ensures |EntriesOf(table, rows)| == |rows|
  {
    seq(|rows|, i requires 0 <= i < |rows| => Entry(table, rows[i]))
  }

  function AllEntries(db: LegacyDb): seq<Entry> {
    EntriesOf(Sessions, db(Sessions)) + EventEntries(db, |EVENT_TABLES|)
  }

  function EventEntries(db: LegacyDb, n: nat): seq<Entry>
    requires n <= |EVENT_TABLES|
  {
    if n == 0 then [] else EventEntries(db, n - 1) + EntriesOf(EVENT_TABLES[n - 1], db(EVENT_TABLES[n - 1]))
  }

  function FingerprintAt(events: seq<EventRow>, id: LegacyId): Option<int>
    decreases |events|
  {
    if events == [] then None
    else
      var before := FingerprintAt(events[..|events| - 1], id);
      if before.Some? then before
      else if events[|events| - 1].id == id then Some(events[|events| - 1].fingerprint) else None
  }

  predicate Observes(observations: seq<Observation>, id: LegacyId, adapter: string) {
    exists i :: 0 <= i < |observations| && observations[i].id == id && observations[i].adapter == adapter
  }

  function InsertEvent(c: Canonical, id: LegacyId, adapter: string, fingerprint: int): Canonical {
    var existing := FingerprintAt(c.events, id);
    var conflict := existing.Some? && existing.value != fingerprint;
    c.(events := if existing.Some? then c.events else c.events + [EventRow(id, fingerprint)],
       conflicts := if conflict then c.conflicts + {id} else c.conflicts,
       observations := if Observes(c.observations, id, adapter) then c.observations
                       else c.observations + [Observation(id, adapter, fingerprint)])
  }

  function InsertTool(c: Canonical, key: ToolKey): Canonical {
    if key in c.tools then c else c.(tools := c.tools + [key])
  }

  datatype Disposition = Pending | Invalid | Accepted(usage: UsageRow)

  /** Where a usage row goes, given whether Codex inputs were already raw before the migration. */
  function Dispose(row: Row, native: string, codexMarked: bool): Disposition {
    var mapping := Mapped(row.usageSource);
    if mapping.None? || AdapterOf(TokenUsageEvents, row) !in mapping.value.adapters then Pending
    else
      var input, read := NonNegative(row.input), NonNegative(row.cacheRead);
      var stored := if Vendor(row) == "codex" && !codexMarked then input + read else input;
      var displayed := if mapping.value.semantics.Gross? then stored - read else stored;
      if displayed < 0 then Invalid
      else Accepted(UsageRow(native, InstanceOf(Vendor(row)), StringValue(row.session, "legacy-session"), Vendor(row),
                             row.model, StringValue(row.provider, "unknown"), mapping.value.snapshot,
                             stored, displayed, NonNegative(row.output), NonNegative(row.cacheCreation), read))
  }

  predicate HasUsage(usage: seq<UsageRow>, native: string) {
    exists i :: 0 <= i < |usage| && usage[i].native == native
  }

  function InsertUsage(c: Canonical, row: Row, native: string): Canonical {
    var d := Dispose(row, native, c.codexMarked);
    match d
    case Pending => c.(pending := c.pending + {native})
    case Invalid => c.(invalid := c.invalid + {native})
    case Accepted(u) => if HasUsage(c.usage, native) then c else c.(usage := c.usage + [u])
  }

  function BackfillOne(digest: Digest, c: Canonical, e: Entry): Canonical {
    var id := IdOf(e);
    var inserted := InsertEvent(c, id, AdapterOf(e.table, e.row), digest(id, e.row));
    if e.table.ToolEvents? then
      InsertTool(inserted, ToolKey(InstanceOf(Vendor(e.row)), StringValue(e.row.session, "legacy-session"), id.native))
    else if e.table.TokenUsageEvents? then InsertUsage(inserted, e.row, id.native)
    else inserted
  }

  function BackfillAll(digest: Digest, c: Canonical, entries: seq<Entry>): Canonical
    decreases |entries|
  {
    if entries == [] then c
    else BackfillOne(digest, BackfillAll(digest, c, entries[..|entries| - 1]), entries[|entries| - 1])
  }

  predicate HasCodexRows(rows: seq<Row>) {
    exists i :: 0 <= i < |rows| && rows[i].vendor == "codex"
  }

  /** The Codex marker is set once its rows have been converted. */
  function Backfill(digest: Digest, db: LegacyDb, codexMarked: bool): Canonical {
    var c := BackfillAll(digest, Fresh(codexMarked), AllEntries(db));
    if HasCodexRows(db(TokenUsageEvents)) then c.(codexMarked := true) else c
  }

  // ---------------------------------------------------------------- the check

  function CountIf(a: bool, b: bool, c: bool): nat {
    (if a then 1 else 0) + (if b then 1 else 0) + (if c then 1 else 0)
  }

  /** The check names a row without id differently than the backfill does. */
  function CheckedNative(row: Row): string { StringValue(row.id, "usage") }

  predicate OneBucket(c: Canonical, row: Row) {
    var native := CheckedNative(row);
    CountIf(HasUsage(c.usage, native), native in c.pending, native in c.invalid) == 1
  }

  function RowTotal(u: UsageRow): int {
    NonNegative(u.displayed) + NonNegative(u.output) + NonNegative(u.cacheRead) + NonNegative(u.cacheCreation)
  }

  function FindRow(rows: seq<Row>, id: string): Option<Row>
    decreases |rows|
  {
    if rows == [] then None
    else if rows[0].id == id then Some(rows[0]) else FindRow(rows[1..], id)
  }

  /** The total computed from the legacy row; None where the check throws. */
  function IndependentTotal(rows: seq<Row>, u: UsageRow): Option<int> {
    var found := FindRow(rows, u.native);
    if found.None? then None
    else
      var row := found.value;
      var mapping := Mapped(row.usageSource);
      if mapping.None? || row.adapter !in mapping.value.adapters then None
      else if mapping.value.snapshot then Some(0)
      else if row.vendor == "codex" then Some(RowTotal(u))
      else
        var read := NonNegative(row.cacheRead);
        var displayed := if mapping.value.semantics.Gross? then NonNegative(row.input) - read else NonNegative(row.input);
        if displayed < 0 then None
        else Some(displayed + NonNegative(row.output) + read + NonNegative(row.cacheCreation))
  }

  function Additive(usage: seq<UsageRow>): seq<UsageRow>
    decreases |usage|
  {
    if usage == [] then []
    else Additive(usage[..|usage| - 1]) + if usage[|usage| - 1].snapshot then [] else [usage[|usage| - 1]]
  }

  function IndependentFold(rows: seq<Row>, usage: seq<UsageRow>): Option<int>
    decreases |usage|
  {
    if usage == [] then Some(0)
    else
      var before := IndependentFold(rows, usage[..|usage| - 1]);
      var last := IndependentTotal(rows, usage[|usage| - 1]);
      if before.None? || last.None? then None else Some(before.value + last.value)
  }

  function ModelOf(u: UsageRow): string { u.model }
  function VendorOf(u: UsageRow): string { u.vendor }
  function ProviderOf(u: UsageRow): string { u.provider }
  function SessionOf(u: UsageRow): (string, string) { (u.instance, u.session) }

  /** The four groupings of the additive rows. */
  predicate GroupsAgree(usage: seq<UsageRow>) {
    var total := Sum(usage, RowTotal);
    && Total(GroupAll(usage, ModelOf, RowTotal)) == total
    && Total(GroupAll(usage, VendorOf, RowTotal)) == total
    && Total(GroupAll(usage, ProviderOf, RowTotal)) == total
    && Total(GroupAll(usage, SessionOf, RowTotal)) == total
  }

  /** Differing fingerprints of one event need a diagnostic. */
  predicate ConflictsRecorded(observations: seq<Observation>, conflicts: set<LegacyId>) {
    forall i, j :: 0 <= i < |observations| && 0 <= j < |observations|
                   && observations[i].id == observations[j].id
                   && observations[i].fingerprint != observations[j].fingerprint ==>
      observations[i].id in conflicts
  }

  /** What the check demands before the migration may commit. */
  predicate Reconciles(db: LegacyDb, c: Canonical) {
    && |c.events| == |AllEntries(db)|
    && (forall i :: 0 <= i < |db(TokenUsageEvents)| ==> OneBucket(c, db(TokenUsageEvents)[i]))
    && |c.tools| == |db(ToolEvents)|
    && GroupsAgree(Additive(c.usage))
    && IndependentFold(db(TokenUsageEvents), Additive(c.usage)) == Some(Sum(Additive(c.usage), RowTotal))
    && ConflictsRecorded(c.observations, c.conflicts)
  }
}
