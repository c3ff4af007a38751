/**
 Token totals by model, source, provider and time bucket, and the filter that keeps Cursor usage from
 being counted twice (apps/core/src/aggregate-queries.ts, session-queries.ts, cursor-account-usage.ts,
 packages/metrics-engine/src/index.ts).
 */
module UsageGroups {
  import opened Common
  import opened Grouping

  datatype Row = Row(
    vendor: string,
    model: Option<string>,
    tier: Option<string>,
    providerHost: Option<string>,
    providerId: Option<string>,
    source: Option<string>,
    snapshot: bool,
    created: Option<int>,
    input: nat,
    output: nat,
    cacheRead: nat,
    cacheCreation: nat)

  /** The calendar day of a time; which zone it is in does not matter here. */
  type DayKey = int -> int

  // ---------------------------------------------------------------- official days shadow generations

  predicate Official(row: Row) { row.source == Some("cursor-official") && row.created.Some? }
  predicate Generation(row: Row) { row.source == Some("cursor-generation") && row.created.Some? }

  predicate OfficialOn(rows: seq<Row>, day: DayKey, d: int) {
    exists o :: o in rows && Official(o) && day(o.created.value) == d
  }

  /** Some official row is of the same day. */
  predicate Shadowed(rows: seq<Row>, day: DayKey, row: Row) {
    Generation(row) && OfficialOn(rows, day, day(row.created.value))
  }

  function Keep(rows: seq<Row>, all: seq<Row>, day: DayKey): seq<Row>
    decreases |rows|
  {
    if rows == [] then []
    else
      var last := rows[|rows| - 1];
      Keep(rows[..|rows| - 1], all, day) + if Shadowed(all, day, last) then [] else [last]
  }

  function DropShadowed(rows: seq<Row>, day: DayKey): seq<Row> { Keep(rows, rows, day) }

  lemma {:induction false} KeepIs(rows: seq<Row>, all: seq<Row>, day: DayKey, x: Row)
    ensures x in Keep(rows, all, day) <==> x in rows && !Shadowed(all, day, x)
    decreases |rows|
  {
    if rows != [] {
      var before, last := rows[..|rows| - 1], rows[|rows| - 1];
      KeepIs(before, all, day, x);
      assert rows == before + [last];
      assert Keep(rows, all, day) == if Shadowed(all, day, last) then Keep(before, all, day) else Keep(before, all, day) + [last];
    }
  }

  lemma {:induction false} KeepAll(rows: seq<Row>, all: seq<Row>, day: DayKey)
    requires forall i :: 0 <= i < |rows| ==> !Shadowed(all, day, rows[i])
    ensures Keep(rows, all, day) == rows
    decreases |rows|
  {
    if rows != [] {
      KeepAll(rows[..|rows| - 1], all, day);
      assert rows == rows[..|rows| - 1] + [rows[|rows| - 1]];
    }
  }

  /** The same days are official after filtering, since official rows stay. */
  lemma ShadowedAfter(rows: seq<Row>, day: DayKey, x: Row)
    ensures Shadowed(DropShadowed(rows, day), day, x) <==> Shadowed(rows, day, x)
  {
    var kept := DropShadowed(rows, day);
    forall o ensures o in kept && Official(o) <==> o in rows && Official(o) {
      KeepIs(rows, rows, day, o);
      assert Official(o) ==> !Generation(o) by { assert |"cursor-official"| != |"cursor-generation"|; }
    }
  }

  /** Filtering twice is filtering once. */
  lemma DropIdempotent(rows: seq<Row>, day: DayKey)
    ensures DropShadowed(DropShadowed(rows, day), day) == DropShadowed(rows, day)
  {
    var kept := DropShadowed(rows, day);
    forall i | 0 <= i < |kept| ensures !Shadowed(kept, day, kept[i]) {
      assert kept[i] in kept;
      KeepIs(rows, rows, day, kept[i]);
      ShadowedAfter(rows, day, kept[i]);
    }
    KeepAll(kept, kept, day);
  }

  /** Only generation rows go, exactly those with an official row on their day, and no day keeps both kinds. */
  lemma DropExactly(rows: seq<Row>, day: DayKey, x: Row)
    ensures x in rows && x !in DropShadowed(rows, day)
            <==> x in rows && x.source == Some("cursor-generation") && x.created.Some?
                 && exists o :: o in rows && o.source == Some("cursor-official") && o.created.Some?
                                && day(o.created.value) == day(x.created.value)
    ensures x in rows && x !in DropShadowed(rows, day) ==> x.source == Some("cursor-generation")
    ensures x in DropShadowed(rows, day) && Generation(x) ==>
              forall o :: o in DropShadowed(rows, day) && Official(o) ==> day(o.created.value) != day(x.created.value)
  {
    KeepIs(rows, rows, day, x);
    assert Generation(x) ==> (Shadowed(rows, day, x) <==>
             exists o :: o in rows && o.source == Some("cursor-official") && o.created.Some?
                         && day(o.created.value) == day(x.created.value)) by {
      if Generation(x) && Shadowed(rows, day, x) {
        var o :| o in rows && Official(o) && day(o.created.value) == day(x.created.value);
      }
      forall o | o in rows && o.source == Some("cursor-official") && o.created.Some?
                 && Generation(x) && day(o.created.value) == day(x.created.value)
        ensures Shadowed(rows, day, x)
      {
        assert Official(o);
      }
    }
    forall o | o in DropShadowed(rows, day) ensures o in rows { KeepIs(rows, rows, day, o); }
  }

  /** Everything that is not a Cursor generation keeps its tokens. */
  lemma {:induction false} DropConservesOthers(rows: seq<Row>, all: seq<Row>, day: DayKey)
    ensures Sum(Keep(rows, all, day), OtherTokens) == Sum(rows, OtherTokens)
    decreases |rows|
  {
    if rows != [] {
      var before, last := rows[..|rows| - 1], rows[|rows| - 1];
      DropConservesOthers(before, all, day);
      SumAppend(Keep(before, all, day), last, OtherTokens);
      assert Keep(rows, all, day) == if Shadowed(all, day, last) then Keep(before, all, day) else Keep(before, all, day) + [last];
    }
  }

  function OtherTokens(row: Row): int {
    if row.source == Some("cursor-generation") then 0 else Tokens(row)
  }

  lemma SumAppend<R>(rows: seq<R>, row: R, value: R -> int)
    ensures Sum(rows + [row], value) == Sum(rows, value) + value(row)
  {
    assert (rows + [row])[..|rows|] == rows;
  }

  method DropCursorGenerationShadowedByOfficial(rows: seq<Row>, day: DayKey) returns (kept: seq<Row>)
    ensures kept == DropShadowed(rows, day)
  {
    var officialDays: set<int> := {};
    for i := 0 to |rows|
      invariant forall d :: d in officialDays <==> OfficialOn(rows[..i], day, d)
    {
      OfficialDaysStep(rows, day, i);
      if Official(rows[i]) {
        officialDays := officialDays + {day(rows[i].created.value)};
      }
    }
    assert rows[..|rows|] == rows;
    if officialDays == {} {
      forall i | 0 <= i < |rows| ensures !Shadowed(rows, day, rows[i]) {
        if Generation(rows[i]) { assert day(rows[i].created.value) !in officialDays; }
      }
      KeepAll(rows, rows, day);
      return rows;
    }
    kept := [];
    for i := 0 to |rows|
      invariant kept == Keep(rows[..i], rows, day)
    {
      assert rows[..i + 1][..i] == rows[..i];
      var row := rows[i];
      if !(Generation(row) && day(row.created.value) in officialDays) {
        kept := kept + [row];
      }
    }
    assert rows[..|rows|] == rows;
  }

  lemma OfficialDaysStep(rows: seq<Row>, day: DayKey, i: nat)
    requires i < |rows|
    ensures forall d :: OfficialOn(rows[..i + 1], day, d) <==>
                        OfficialOn(rows[..i], day, d) || (Official(rows[i]) && day(rows[i].created.value) == d)
  {
    var before, row := rows[..i], rows[i];
    assert rows[..i + 1] == before + [row];
    forall d ensures OfficialOn(before + [row], day, d) <==>
                       OfficialOn(before, day, d) || (Official(row) && day(row.created.value) == d)
    {
      if OfficialOn(before, day, d) {
        var o :| o in before && Official(o) && day(o.created.value) == d;
        assert o in before + [row];
      }
      assert row in before + [row];
    }
  }

  // ---------------------------------------------------------------- groupings

  predicate IsAdditive(row: Row) { !row.snapshot && row.source != Some("cursor-composer-context") }

  function Additive(rows: seq<Row>): seq<Row>
    decreases |rows|
  {
    if rows == [] then []
    else Additive(rows[..|rows| - 1]) + if IsAdditive(rows[|rows| - 1]) then [rows[|rows| - 1]] else []
  }

  function Tokens(row: Row): int { row.input + row.output + row.cacheRead + row.cacheCreation }
  function Input(row: Row): int { row.input }
  function Output(row: Row): int { row.output }
  function CacheRead(row: Row): int { row.cacheRead }
  function CacheCreation(row: Row): int { row.cacheCreation }

  /** Standard pricing and no tier are the same. */
  function NormalTier(tier: Option<string>): string {
    if tier.None? || tier.value == "standard" then "" else tier.value
  }

  function OrElse(text: Option<string>, other: string): string {
    if text.Some? then text.value else other
  }

  type ModelKey = (string, string, string)

  function ByModel(row: Row): ModelKey { (row.vendor, OrElse(row.model, "unknown"), NormalTier(row.tier)) }
  function BySource(row: Row): string { row.vendor }
  function ByProvider(row: Row): (string, string) { (OrElse(row.providerHost, ""), OrElse(row.providerId, "")) }

  datatype Totals = Totals(input: int, output: int, cacheRead: int, cacheCreation: int, total: int)

  const NONE := Totals(0, 0, 0, 0, 0)

  function AddRow(t: Totals, row: Row): Totals {
    Totals(t.input + row.input, t.output + row.output, t.cacheRead + row.cacheRead,
           t.cacheCreation + row.cacheCreation, t.total + Tokens(row))
  }

  /** The counters of one group, straight from the rows. */
  function GroupTotals<K(==)>(rows: seq<Row>, key: Row -> K, k: K): Totals {
    Totals(SumWhere(rows, key, Input, k), SumWhere(rows, key, Output, k), SumWhere(rows, key, CacheRead, k),
           SumWhere(rows, key, CacheCreation, k), SumWhere(rows, key, Tokens, k))
  }

  lemma GroupTotalsStep<K>(rows: seq<Row>, key: Row -> K, row: Row, k: K)
    ensures GroupTotals(rows + [row], key, k)
            == if key(row) == k then AddRow(GroupTotals(rows, key, k), row) else GroupTotals(rows, key, k)
  {
    assert (rows + [row])[..|rows|] == rows;
  }

  lemma {:induction false} GroupTotalsAddUp<K>(rows: seq<Row>, key: Row -> K, k: K)
    ensures var t := GroupTotals(rows, key, k); t.total == t.input + t.output + t.cacheRead + t.cacheCreation
    decreases |rows|
  {
    if rows != [] {
      GroupTotalsAddUp(rows[..|rows| - 1], key, k);
    }
  }

  ghost predicate Holds<K(!new)>(grouped: map<K, Totals>, rows: seq<Row>, key: Row -> K) {
    && (forall k :: k in grouped <==> exists i :: 0 <= i < |rows| && key(rows[i]) == k)
    && (forall k :: k in grouped ==> grouped[k] == GroupTotals(rows, key, k))
    && (forall k :: k !in grouped ==> GroupTotals(rows, key, k) == NONE)
  }

  function Plus(a: Totals, b: Totals): Totals {
    Totals(a.input + b.input, a.output + b.output, a.cacheRead + b.cacheRead, a.cacheCreation + b.cacheCreation,
           a.total + b.total)
  }

  function Of<K(==)>(grouped: map<K, Totals>, k: K): Totals { if k in grouped then grouped[k] else NONE }

  /** All groups of a breakdown added up. */
  function GrandTotal<K(==)>(order: seq<K>, grouped: map<K, Totals>): Totals
    decreases |order|
  {
    if order == [] then NONE
    else Plus(GrandTotal(order[..|order| - 1], grouped), Of(grouped, order[|order| - 1]))
  }

  /** The ungrouped rows added up. */
  function RowTotals(rows: seq<Row>): Totals {
    Totals(Sum(rows, Input), Sum(rows, Output), Sum(rows, CacheRead), Sum(rows, CacheCreation), Sum(rows, Tokens))
  }

  lemma RowTotalsAppend(rows: seq<Row>, row: Row)
    ensures RowTotals(rows + [row]) == AddRow(RowTotals(rows), row)
  {
    assert (rows + [row])[..|rows|] == rows;
  }

  lemma {:induction false} GrandTotalUpdate<K>(order: seq<K>, grouped: map<K, Totals>, k: K, row: Row)
    requires NoDup(order)
    ensures GrandTotal(order, grouped[k := AddRow(Of(grouped, k), row)])
            == if k in order then AddRow(GrandTotal(order, grouped), row) else GrandTotal(order, grouped)
    decreases |order|
  {
    if order != [] {
      var before, last := order[..|order| - 1], order[|order| - 1];
      GrandTotalUpdate(before, grouped, k, row);
      assert order == before + [last];
      NoDupAppend(before, last);
    }
  }

  lemma GrandTotalAppend<K>(order: seq<K>, grouped: map<K, Totals>, k: K)
    ensures GrandTotal(order + [k], grouped) == Plus(GrandTotal(order, grouped), Of(grouped, k))
  {
    assert (order + [k])[..|order|] == order;
  }

  /** Adding a row to its group adds it to the grand total, once. */
  lemma GrandTotalStep<K>(order: seq<K>, grouped: map<K, Totals>, k: K, row: Row)
    requires NoDup(order) && forall x :: x in order <==> x in grouped
    ensures GrandTotal(if k in grouped then order else order + [k], grouped[k := AddRow(Of(grouped, k), row)])
            == AddRow(GrandTotal(order, grouped), row)
  {
    GrandTotalUpdate(order, grouped, k, row);
    GrandTotalAppend(order, grouped[k := AddRow(Of(grouped, k), row)], k);
  }

  /**
   One accumulating pass over the additive rows; the four breakdowns differ in the key only.  Each
   group holds its own rows, and the groups of the map that is returned add up, counter by counter,
   to the ungrouped additive rows.
   */
  method GroupUsage<K(!new, ==)>(rows: seq<Row>, key: Row -> K) returns (order: seq<K>, grouped: map<K, Totals>)
    ensures Holds(grouped, Additive(rows), key)
    ensures NoDup(order) && forall k :: k in order <==> k in grouped
    ensures GrandTotal(order, grouped) == RowTotals(Additive(rows))
    ensures forall k :: k in grouped ==>
              grouped[k].total == grouped[k].input + grouped[k].output + grouped[k].cacheRead + grouped[k].cacheCreation
  {
    order, grouped := [], map[];
    for i := 0 to |rows|
      invariant Holds(grouped, Additive(rows[..i]), key)
      invariant NoDup(order) && forall k :: k in order <==> k in grouped
      invariant GrandTotal(order, grouped) == RowTotals(Additive(rows[..i]))
    {
      assert rows[..i + 1][..i] == rows[..i];
      var row := rows[i];
      if !IsAdditive(row) {
        assert Additive(rows[..i + 1]) == Additive(rows[..i]);
        continue;
      }
      var k := key(row);
      HoldsStep(grouped, Additive(rows[..i]), key, row);
      NoDupAppend(order, k);
      GrandTotalStep(order, grouped, k, row);
      RowTotalsAppend(Additive(rows[..i]), row);
      if k !in grouped {
        order := order + [k];
      }
      grouped := grouped[k := AddRow(if k in grouped then grouped[k] else NONE, row)];
    }
    assert rows[..|rows|] == rows;
    forall k { GroupTotalsAddUp(Additive(rows), key, k); }
  }

  lemma HoldsStep<K(!new)>(grouped: map<K, Totals>, rows: seq<Row>, key: Row -> K, row: Row)
    requires Holds(grouped, rows, key)
    ensures var k := key(row);
      Holds(grouped[k := AddRow(if k in grouped then grouped[k] else NONE, row)], rows + [row], key)
  {
    var k := key(row);
    var all := rows + [row];
    var after := grouped[k := AddRow(if k in grouped then grouped[k] else NONE, row)];
    assert all[|rows|] == row;
    forall x
      ensures x in after <==> exists i :: 0 <= i < |all| && key(all[i]) == x
      ensures GroupTotals(all, key, x)
              == if x == k then AddRow(GroupTotals(rows, key, x), row) else GroupTotals(rows, key, x)
    {
      GroupTotalsStep(rows, key, row, x);
      if x in grouped {
        var i :| 0 <= i < |rows| && key(rows[i]) == x;
        assert all[i] == rows[i];
      }
    }
  }

  // ---------------------------------------------------------------- the breakdowns of one window

  /** Standing context snapshots count for no group. */
  lemma {:induction false} AdditiveIs(rows: seq<Row>, x: Row)
    ensures x in Additive(rows) <==> x in rows && !x.snapshot && x.source != Some("cursor-composer-context")
    decreases |rows|
  {
    if rows != [] {
      AdditiveIs(rows[..|rows| - 1], x);
      assert rows == rows[..|rows| - 1] + [rows[|rows| - 1]];
      AdditiveAppend(rows[..|rows| - 1], rows[|rows| - 1]);
    }
  }

  predicate SameText(a: Option<string>, b: Option<string>, absent: string) {
    (if a.Some? then a.value else absent) == (if b.Some? then b.value else absent)
  }

  predicate Standard(tier: Option<string>) { tier.None? || tier.value == "" || tier.value == "standard" }

  /** Which rows share a group of each breakdown; no tier is the standard tier. */
  lemma GroupKeys(a: Row, b: Row)
    ensures ByModel(a) == ByModel(b)
            <==> a.vendor == b.vendor && SameText(a.model, b.model, "unknown")
                 && ((Standard(a.tier) && Standard(b.tier)) || a.tier == b.tier)
    ensures BySource(a) == BySource(b) <==> a.vendor == b.vendor
    ensures ByProvider(a) == ByProvider(b)
            <==> SameText(a.providerHost, b.providerHost, "") && SameText(a.providerId, b.providerId, "")
  {}

  /** The names a group is shown under. */
  lemma GroupNames(row: Row)
    ensures ByModel(row).0 == BySource(row) == row.vendor
    ensures ByModel(row).1 == if row.model.Some? then row.model.value else "unknown"
    ensures row.tier.Some? && row.tier.value != "standard" ==> ByModel(row).2 == row.tier.value
    ensures row.tier.None? || row.tier.value == "standard" ==> ByModel(row).2 == ""
    ensures row.providerHost.Some? ==> ByProvider(row).0 == row.providerHost.value
    ensures row.providerId.Some? ==> ByProvider(row).1 == row.providerId.value
  {}

  /**
   The tokens a row adds to a breakdown: none for snapshots and for generations that an official row of
   their day covers.
   */
  function CountedTokens(all: seq<Row>, day: DayKey): Row -> int {
    (row: Row) =>
      if row.snapshot || row.source == Some("cursor-composer-context") then 0
      else if row.source == Some("cursor-generation") && row.created.Some?
              && exists o :: o in all && o.source == Some("cursor-official") && o.created.Some?
                             && day(o.created.value) == day(row.created.value) then 0
      else row.input + row.output + row.cacheRead + row.cacheCreation
  }

  lemma {:induction false} CountedTotal(rows: seq<Row>, all: seq<Row>, day: DayKey)
    ensures Sum(Additive(rows), KeptTokens(all, day)) == Sum(rows, CountedTokens(all, day))
    decreases |rows|
  {
    if rows != [] {
      var before, last := rows[..|rows| - 1], rows[|rows| - 1];
      CountedTotal(before, all, day);
      assert rows == before + [last];
      AdditiveSum(before, last, KeptTokens(all, day));
      SumAppend(before, last, CountedTokens(all, day));
      CountedOne(last, all, day);
    }
  }

  lemma CountedOne(row: Row, all: seq<Row>, day: DayKey)
    ensures CountedTokens(all, day)(row) == if IsAdditive(row) then KeptTokens(all, day)(row) else 0
  {
    if Shadowed(all, day, row) {
      var o :| o in all && Official(o) && day(o.created.value) == day(row.created.value);
    }
    forall o | o in all && o.source == Some("cursor-official") && o.created.Some?
               && Generation(row) && day(o.created.value) == day(row.created.value)
      ensures Shadowed(all, day, row)
    {
      assert Official(o);
    }
  }

  /** A row's tokens, unless an official row of its day shadows it. */
  function KeptTokens(all: seq<Row>, day: DayKey): Row -> int {
    (row: Row) => if Shadowed(all, day, row) then 0 else Tokens(row)
  }

  /** What is left to group: every additive row that is not shadowed, once. */
  lemma {:induction false} FilteredTotal(rows: seq<Row>, all: seq<Row>, day: DayKey)
    ensures Sum(Additive(Keep(rows, all, day)), Tokens) == Sum(Additive(rows), KeptTokens(all, day))
    decreases |rows|
  {
    if rows != [] {
      var before, last := rows[..|rows| - 1], rows[|rows| - 1];
      FilteredTotal(before, all, day);
      assert rows == before + [last];
      AdditiveSum(before, last, KeptTokens(all, day));
      if !Shadowed(all, day, last) {
        AdditiveSum(Keep(before, all, day), last, Tokens);
      } else {
        assert Keep(rows, all, day) == Keep(before, all, day);
      }
    }
  }

  lemma AdditiveSum(rows: seq<Row>, row: Row, value: Row -> int)
    ensures Sum(Additive(rows + [row]), value) == Sum(Additive(rows), value) + if IsAdditive(row) then value(row) else 0
  {
    AdditiveAppend(rows, row);
    SumAppend(Additive(rows), row, value);
  }

  lemma AdditiveAppend(rows: seq<Row>, row: Row)
    ensures Additive(rows + [row]) == if IsAdditive(row) then Additive(rows) + [row] else Additive(rows)
  {
    assert (rows + [row])[..|rows|] == rows;
    assert Additive(rows) + [] == Additive(rows);
  }

  /**
   The model, source, provider and trend breakdowns of one window: the rows are filtered once, and the
   four maps that the loops fill have the same grand totals, those of the additive rows left.
   */
  method SelectBreakdowns(rows: seq<Row>, day: DayKey, bucket: Row -> int)
    returns (models: (seq<ModelKey>, map<ModelKey, Totals>), sources: (seq<string>, map<string, Totals>),
             providers: (seq<(string, string)>, map<(string, string), Totals>), trend: (seq<int>, map<int, Totals>))
    ensures var total := RowTotals(Additive(DropShadowed(rows, day)));
      && GrandTotal(models.0, models.1) == total && GrandTotal(sources.0, sources.1) == total
      && GrandTotal(providers.0, providers.1) == total && GrandTotal(trend.0, trend.1) == total
      && total.total == Sum(rows, CountedTokens(rows, day))
    ensures var kept := Additive(DropShadowed(rows, day));
      && Holds(models.1, kept, ByModel) && Holds(sources.1, kept, BySource)
      && Holds(providers.1, kept, ByProvider) && Holds(trend.1, kept, bucket)
  {
    var kept := DropCursorGenerationShadowedByOfficial(rows, day);
    FilteredTotal(rows, rows, day);
    CountedTotal(rows, rows, day);
    var order, grouped := GroupUsage(kept, ByModel);
    models := (order, grouped);
    var order', grouped' := GroupUsage(kept, BySource);
    sources := (order', grouped');
    var order'', grouped'' := GroupUsage(kept, ByProvider);
    providers := (order'', grouped'');
    var buckets, counts := GroupUsage(kept, bucket);
    trend := (buckets, counts);
  }
}
