/**
 Pages by keyset cursor (apps/core/src/canonical-queries.ts): filter behind the cursor, sort, take one
 row more than the page, hand out a cursor when there was one more.

 Texts are compared as numbers in collation order; the key columns of a row are unique.
 */
module Keyset {
  import opened Common

  /** A strict total order on rows. */
  type Order<!T> = (T, T) -> bool

  ghost predicate Total<T(!new)>(before: Order<T>) {
    && (forall a :: !before(a, a))
    && (forall a, b :: before(a, b) ==> !before(b, a))
    && (forall a, b, c :: before(a, b) && before(b, c) ==> before(a, c))
    && (forall a, b :: a == b || before(a, b) || before(b, a))
  }

  ghost predicate Sorted<T>(before: Order<T>, s: seq<T>) {
    forall i, j :: 0 <= i < j < |s| ==> before(s[i], s[j])
  }

  // ---------------------------------------------------------------- the query

  function Insert<T>(before: Order<T>, sorted: seq<T>, x: T): seq<T>
    decreases |sorted|
  {
    if sorted == [] then [x]
    else if before(x, sorted[0]) then [x] + sorted
    else [sorted[0]] + Insert(before, sorted[1..], x)
  }

  function Sort<T>(before: Order<T>, s: seq<T>): seq<T>
    decreases |s|
  {
    if s == [] then [] else Insert(before, Sort(before, s[1..]), s[0])
  }

  function Behind<T>(before: Order<T>, cursor: Option<T>): T -> bool {
    (x: T) => cursor.None? || before(cursor.value, x)
  }

  function Take<T>(s: seq<T>, n: nat): seq<T> { if |s| <= n then s else s[..n] }

  datatype Page<T> = Page(rows: seq<T>, next: Option<T>)

  /** One query: at most `limit` rows, and a cursor when a further row was there. */
  function Query<T>(before: Order<T>, table: seq<T>, cursor: Option<T>, limit: nat): Page<T> {
    PageOf(Take(Sort(before, Filter(table, Behind(before, cursor))), limit + 1), limit)
  }

  function PageOf<T>(rows: seq<T>, limit: nat): Page<T> {
    var page := Take(rows, limit);
    Page(page, if |rows| > limit && page != [] then Some(page[|page| - 1]) else None)
  }

  /** The extra row is what tells whether there is a further page. */
  lemma PageOfIs<T>(rows: seq<T>, limit: nat)
    requires limit > 0
    ensures PageOf(Take(rows, limit + 1), limit)
            == if |rows| <= limit then Page(rows, None) else Page(rows[..limit], Some(rows[limit - 1]))
  {
    if |rows| > limit {
      assert rows[..limit + 1][..limit] == rows[..limit];
    }
  }

  // ---------------------------------------------------------------- sorting and filtering

  lemma {:induction false} InsertIs<T(!new)>(before: Order<T>, sorted: seq<T>, x: T)
    requires Total(before) && Sorted(before, sorted) && x !in sorted
    ensures Sorted(before, Insert(before, sorted, x))
    ensures forall y :: y in Insert(before, sorted, x) <==> y in sorted || y == x
    decreases |sorted|
  {
    if sorted != [] && !before(x, sorted[0]) {
      var rest := sorted[1..];
      assert sorted == [sorted[0]] + rest;
      InsertIs(before, rest, x);
      var inserted := Insert(before, rest, x);
      forall y | y in inserted ensures before(sorted[0], y) {
        if y in rest {
          var k :| 0 <= k < |rest| && rest[k] == y;
          assert before(sorted[0], sorted[k + 1]);
        }
      }
      SortedCons(before, sorted[0], inserted);
    } else if sorted != [] {
      SortedBelow(before, x, sorted);
      SortedCons(before, x, sorted);
    }
  }

  lemma SortedCons<T>(before: Order<T>, x: T, s: seq<T>)
    requires Sorted(before, s) && forall y :: y in s ==> before(x, y)
    ensures Sorted(before, [x] + s)
  {}

  lemma SortedBelow<T(!new)>(before: Order<T>, x: T, s: seq<T>)
    requires Total(before) && Sorted(before, s) && s != [] && before(x, s[0])
    ensures forall y :: y in s ==> before(x, y)
  {
    forall y | y in s ensures before(x, y) {
      var k :| 0 <= k < |s| && s[k] == y;
      if k > 0 { assert before(s[0], s[k]); }
    }
  }

  lemma {:induction false} SortIs<T(!new)>(before: Order<T>, s: seq<T>)
    requires Total(before) && NoDup(s)
    ensures Sorted(before, Sort(before, s))
    ensures forall x :: x in Sort(before, s) <==> x in s
    decreases |s|
  {
    if s != [] {
      assert s == [s[0]] + s[1..];
      NoDupTail(s);
      SortIs(before, s[1..]);
      InsertIs(before, Sort(before, s[1..]), s[0]);
    }
  }

  lemma NoDupTail<T>(s: seq<T>)
    requires NoDup(s) && s != []
    ensures NoDup(s[1..]) && s[0] !in s[1..]
  {
    forall i, j | 0 <= i < j < |s[1..]| ensures s[1..][i] != s[1..][j] {
      assert s[i + 1] != s[j + 1];
    }
    forall k | 0 <= k < |s[1..]| ensures s[1..][k] != s[0] {
      assert s[0] != s[k + 1];
    }
  }

  lemma HeadIn<T>(s: seq<T>)
    ensures s == [] || s[0] in s
  {}

  /** A sorted list is determined by its elements. */
  lemma {:induction false} SortedUnique<T(!new)>(before: Order<T>, a: seq<T>, b: seq<T>)
    requires Total(before) && Sorted(before, a) && Sorted(before, b)
    requires forall x :: x in a <==> x in b
    ensures a == b
    decreases |a|
  {
    if a == [] {
      HeadIn(b);
    } else {
      assert a[0] in b && b != [] && b[0] in a;
      SameHead(before, a, b);
      assert a == [a[0]] + a[1..] && b == [b[0]] + b[1..];
      SortedTail(before, a);
      SortedTail(before, b);
      forall x ensures x in a[1..] <==> x in b[1..] {
        assert x in a <==> x == a[0] || x in a[1..];
        assert x in b <==> x == b[0] || x in b[1..];
      }
      SortedUnique(before, a[1..], b[1..]);
    }
  }

  lemma HeadIsLeast<T(!new)>(before: Order<T>, s: seq<T>, x: T)
    requires Sorted(before, s) && x in s
    ensures s[0] == x || before(s[0], x)
  {
    var i :| 0 <= i < |s| && s[i] == x;
    if i > 0 { assert before(s[0], s[i]); }
  }

  lemma SameHead<T(!new)>(before: Order<T>, a: seq<T>, b: seq<T>)
    requires Total(before) && Sorted(before, a) && Sorted(before, b) && a != [] && b != []
    requires a[0] in b && b[0] in a
    ensures a[0] == b[0]
  {
    HeadIsLeast(before, a, b[0]);
    HeadIsLeast(before, b, a[0]);
  }

  lemma SortedTail<T(!new)>(before: Order<T>, s: seq<T>)
    requires Total(before) && Sorted(before, s) && s != []
    ensures Sorted(before, s[1..]) && s[0] !in s[1..]
  {
    forall k | 0 <= k < |s[1..]| ensures s[1..][k] != s[0] {
      assert before(s[0], s[k + 1]);
    }
    forall i, j | 0 <= i < j < |s[1..]| ensures before(s[1..][i], s[1..][j]) {
      assert before(s[i + 1], s[j + 1]);
    }
  }

  /** The rows from position `k` on of the full ordered list are what the cursor at `k - 1` leaves. */
  lemma SuffixIsQuery<T(!new)>(before: Order<T>, table: seq<T>, k: nat)
    requires Total(before) && NoDup(table) && k <= |Sort(before, table)|
    ensures var all := Sort(before, table);
      Sort(before, Filter(table, Behind(before, CursorAt(all, k)))) == all[k..]
  {
    var all := Sort(before, table);
    var cursor := CursorAt(all, k);
    var p := Behind(before, cursor);
    SortIs(before, table);
    FilterNoDup(table, p);
    SortIs(before, Filter(table, p));
    forall i, j | 0 <= i < j < |all[k..]| ensures before(all[k..][i], all[k..][j]) {
      assert before(all[k + i], all[k + j]);
    }
    forall x ensures x in Sort(before, Filter(table, p)) <==> x in all[k..] {
      FilterIs(table, p, x);
      InSuffix(before, all, k, x);
    }
    SortedUnique(before, Sort(before, Filter(table, p)), all[k..]);
  }

  lemma InSuffix<T(!new)>(before: Order<T>, all: seq<T>, k: nat, x: T)
    requires Total(before) && Sorted(before, all) && k <= |all|
    ensures x in all[k..] <==> x in all && (k == 0 || before(all[k - 1], x))
  {
    if x in all[k..] {
      var i :| 0 <= i < |all[k..]| && all[k..][i] == x;
      assert all[k + i] == x;
    }
    forall i | 0 <= i < k ensures !before(all[k - 1], all[i]) {
      if i < k - 1 { assert before(all[i], all[k - 1]); }
    }
    if x in all && (k == 0 || before(all[k - 1], x)) {
      var i :| 0 <= i < |all| && all[i] == x;
      assert all[k..][i - k] == x;
    }
  }

  // ---------------------------------------------------------------- following the cursors

  /** A query with everything but the cursor fixed. */
  function QueryFor<T>(before: Order<T>, table: seq<T>, limit: nat): Option<T> -> Page<T> {
    (cursor: Option<T>) => Query(before, table, cursor, limit)
  }

  /** The pages read by following the cursors, `fuel` at most. */
  function Pages<T>(query: Option<T> -> Page<T>, cursor: Option<T>, fuel: nat): seq<seq<T>>
    decreases fuel
  {
    if fuel == 0 then []
    else
      var page := query(cursor);
      [page.rows] + if page.next.None? then [] else Pages(query, page.next, fuel - 1)
  }

  function Concat<T>(pages: seq<seq<T>>): seq<T>
    decreases |pages|
  {
    if pages == [] then [] else pages[0] + Concat(pages[1..])
  }

  function CursorAt<T>(all: seq<T>, k: nat): Option<T>
    requires k <= |all|
  {
    if k == 0 then None else Some(all[k - 1])
  }

  /** What a query at position `k` of the ordered list should return. */
  function PageAt<T>(all: seq<T>, k: nat, limit: nat): Page<T>
    requires k <= |all| && limit > 0
  {
    if |all| - k <= limit then Page(all[k..], None) else Page(all[k..][..limit], Some(all[k + limit - 1]))
  }

  /** Whatever position a cursor stands at, the query returns the page there. */
  ghost predicate AllPages<T>(query: Option<T> -> Page<T>, all: seq<T>, limit: nat)
    requires limit > 0
  {
    forall k :: 0 <= k <= |all| ==> query(CursorAt(all, k)) == PageAt(all, k, limit)
  }

  lemma QueryAt<T(!new)>(before: Order<T>, table: seq<T>, k: nat, limit: nat)
    requires Total(before) && NoDup(table) && k <= |Sort(before, table)| && limit > 0
    ensures var all := Sort(before, table);
      QueryFor(before, table, limit)(CursorAt(all, k)) == PageAt(all, k, limit)
  {
    SuffixIsQuery(before, table, k);
    PageOfIs(Sort(before, table)[k..], limit);
  }

  lemma JoinSuffix<T>(s: seq<T>, k: nat, n: nat)
    requires k + n <= |s|
    ensures s[k..][..n] + s[k + n..] == s[k..]
  {}

  lemma ConcatCons<T>(first: seq<T>, rest: seq<seq<T>>)
    ensures Concat([first] + rest) == first + Concat(rest)
  {
    assert ([first] + rest)[1..] == rest;
  }

  lemma ConcatOne<T>(first: seq<T>)
    ensures Concat([first]) == first
  {
    assert [first][1..] == [];
    assert first + [] == first;
  }

  /** The ordered list from position `k` on, cut every `limit` rows. */
  function Chunks<T>(all: seq<T>, k: nat, limit: nat): seq<seq<T>>
    requires k <= |all| && limit > 0
    decreases if k <= |all| then |all| - k else 0
  {
    if |all| - k <= limit then [all[k..]] else [all[k..][..limit]] + Chunks(all, k + limit, limit)
  }

  /** The chunks put together are the list, without gap or repeat, for every page size. */
  lemma {:induction false} ChunksTile<T>(all: seq<T>, k: nat, limit: nat)
    requires k <= |all| && limit > 0
    ensures Concat(Chunks(all, k, limit)) == all[k..]
    decreases if k <= |all| then |all| - k else 0
  {
    if |all| - k <= limit {
      ConcatOne(all[k..]);
    } else {
      ChunksTile(all, k + limit, limit);
      ConcatCons(all[k..][..limit], Chunks(all, k + limit, limit));
      JoinSuffix(all, k, limit);
    }
  }

  /** Following the cursors gives the chunks. */
  lemma {:induction false} PagesAreChunks<T>(query: Option<T> -> Page<T>, all: seq<T>, k: nat, limit: nat, fuel: nat)
    requires limit > 0 && AllPages(query, all, limit)
    requires k <= |all| && fuel > |all| - k
    ensures Pages(query, CursorAt(all, k), fuel) == Chunks(all, k, limit)
    decreases fuel
  {
    assert query(CursorAt(all, k)) == PageAt(all, k, limit);
    if |all| - k > limit {
      PagesAreChunks(query, all, k + limit, limit, fuel - 1);
    } else {
      assert [all[k..]] + [] == [all[k..]];
    }
  }

  /** Starting without a cursor and going on while there is one reads the whole list. */
  lemma FollowingCursorsReadsAll<T(!new)>(before: Order<T>, table: seq<T>, limit: nat)
    requires Total(before) && NoDup(table) && limit > 0
    ensures Concat(Pages(QueryFor(before, table, limit), None, |Sort(before, table)| + 1)) == Sort(before, table)
    ensures Sorted(before, Sort(before, table)) && forall x :: x in Sort(before, table) <==> x in table
  {
    var all := Sort(before, table);
    SortIs(before, table);
    forall k | 0 <= k <= |all|
      ensures QueryFor(before, table, limit)(CursorAt(all, k)) == PageAt(all, k, limit)
    {
      QueryAt(before, table, k, limit);
    }
    PagesAreChunks(QueryFor(before, table, limit), all, 0, limit, |all| + 1);
    ChunksTile(all, 0, limit);
    assert all[0..] == all;
  }

  // ---------------------------------------------------------------- while the table changes

  /** Page `i` is read from `tables[i]`; reading stops when there is no cursor. */
  function Reading<T>(before: Order<T>, tables: seq<seq<T>>, cursor: Option<T>, limit: nat): seq<seq<T>>
    decreases |tables|
  {
    if tables == [] then []
    else
      var page := Query(before, tables[0], cursor, limit);
      [page.rows] + if page.next.None? then [] else Reading(before, tables[1..], page.next, limit)
  }

  /** The reading came to its end before the tables did. */
  predicate Completes<T>(before: Order<T>, tables: seq<seq<T>>, cursor: Option<T>, limit: nat)
    decreases |tables|
  {
    tables != []
    && var page := Query(before, tables[0], cursor, limit);
       page.next.None? || Completes(before, tables[1..], page.next, limit)
  }

  function Occurrences<T(==)>(pages: seq<seq<T>>, x: T): nat
    decreases |pages|
  {
    if pages == [] then 0 else (if x in pages[0] then 1 else 0) + Occurrences(pages[1..], x)
  }

  /** On one page: a row behind the cursor is on it or behind the next cursor; a row not behind it is on neither. */
  lemma OnePage<T(!new)>(before: Order<T>, table: seq<T>, cursor: Option<T>, limit: nat, x: T)
    requires Total(before) && NoDup(table) && limit > 0
    ensures var page := Query(before, table, cursor, limit);
      && (x in page.rows ==> x in table && Behind(before, cursor)(x))
      && (page.next.Some? ==> Behind(before, cursor)(page.next.value))
      && (x in page.rows && page.next.Some? ==> !before(page.next.value, x))
      && (x in table && Behind(before, cursor)(x) && x !in page.rows ==>
            page.next.Some? && before(page.next.value, x))
  {
    var p := Behind(before, cursor);
    var f := Filter(table, p);
    FilterNoDup(table, p);
    SortIs(before, f);
    FilterIs(table, p, x);
    PageOfIs(Sort(before, f), limit);
    SplitSorted(before, Sort(before, f), limit, x);
    if |Sort(before, f)| > limit {
      FilterIs(table, p, Sort(before, f)[limit - 1]);
    }
  }

  /** In a sorted list, the part up to a position and the part behind the row at it. */
  lemma SplitSorted<T(!new)>(before: Order<T>, sorted: seq<T>, n: nat, x: T)
    requires Total(before) && Sorted(before, sorted) && 0 < n
    ensures n < |sorted| ==>
              && sorted[n - 1] in sorted
              && (x in sorted[..n] ==> x in sorted && !before(sorted[n - 1], x))
              && (x in sorted && x !in sorted[..n] ==> before(sorted[n - 1], x))
  {
    if n < |sorted| {
      if x in sorted[..n] {
        var i :| 0 <= i < n && sorted[..n][i] == x;
        assert sorted[i] == x;
        if i < n - 1 { assert before(sorted[i], sorted[n - 1]); }
      }
      if x in sorted && x !in sorted[..n] {
        forall j | 0 <= j < n ensures sorted[j] in sorted[..n] { assert sorted[..n][j] == sorted[j]; }
        var i :| 0 <= i < |sorted| && sorted[i] == x;
        assert before(sorted[n - 1], sorted[i]);
      }
    }
  }

  /** A row that is not behind the cursor does not come again. */
  lemma {:induction false} NeverAgain<T(!new)>(before: Order<T>, tables: seq<seq<T>>, cursor: Option<T>, limit: nat, x: T)
    requires Total(before) && limit > 0 && (forall t :: t in tables ==> NoDup(t))
    requires !Behind(before, cursor)(x)
    ensures Occurrences(Reading(before, tables, cursor, limit), x) == 0
    decreases |tables|
  {
    if tables != [] {
      var page := Query(before, tables[0], cursor, limit);
      OnePage(before, tables[0], cursor, limit, x);
      assert forall t :: t in tables[1..] ==> t in tables;
      var rest := if page.next.None? then [] else Reading(before, tables[1..], page.next, limit);
      assert ([page.rows] + rest)[1..] == rest;
      if page.next.Some? {
        NeverAgain(before, tables[1..], page.next, limit, x);
      }
    }
  }

  /**
   A row that stays in the table while others come and go is read exactly once by a reading that
   completes.
   */
  lemma {:induction false} StableRowsOnce<T(!new)>(before: Order<T>, tables: seq<seq<T>>, cursor: Option<T>, limit: nat, x: T)
    requires Total(before) && limit > 0 && (forall t :: t in tables ==> NoDup(t) && x in t)
    requires Behind(before, cursor)(x) && Completes(before, tables, cursor, limit)
    ensures Occurrences(Reading(before, tables, cursor, limit), x) == 1
    decreases |tables|
  {
    var page := Query(before, tables[0], cursor, limit);
    assert tables[0] in tables;
    OnePage(before, tables[0], cursor, limit, x);
    assert forall t :: t in tables[1..] ==> t in tables;
    var rest := if page.next.None? then [] else Reading(before, tables[1..], page.next, limit);
    assert ([page.rows] + rest)[1..] == rest;
    if page.next.Some? {
      if x in page.rows {
        NeverAgain(before, tables[1..], page.next, limit, x);
      } else {
        StableRowsOnce(before, tables[1..], page.next, limit, x);
      }
    }
  }

  // ---------------------------------------------------------------- the two orders of the repository

  datatype Session = Session(lastActivityAt: int, sourceInstanceId: int, sessionId: int)

  /** ORDER BY lastActivityAt DESC, source_instance_id ASC, session_id ASC */
  function SessionOrder(): Order<Session> {
    (a: Session, b: Session) =>
      a.lastActivityAt > b.lastActivityAt
      || (a.lastActivityAt == b.lastActivityAt
          && (a.sourceInstanceId < b.sourceInstanceId
              || (a.sourceInstanceId == b.sourceInstanceId && a.sessionId < b.sessionId)))
  }

  /** The WHERE clause built from a session cursor. */
  predicate SessionCursorCondition(cursor: Session, row: Session) {
    || row.lastActivityAt < cursor.lastActivityAt
    || (&& row.lastActivityAt == cursor.lastActivityAt
        && (|| row.sourceInstanceId > cursor.sourceInstanceId
            || (row.sourceInstanceId == cursor.sourceInstanceId && row.sessionId > cursor.sessionId)))
  }

  datatype TimelineRow = TimelineRow(createdAt: int, eventId: int)

  /** ORDER BY timestamp ASC, event_id ASC */
  function TimelineOrder(): Order<TimelineRow> {
    (a: TimelineRow, b: TimelineRow) =>
      a.createdAt < b.createdAt || (a.createdAt == b.createdAt && a.eventId < b.eventId)
  }

  predicate TimelineCursorCondition(cursor: TimelineRow, row: TimelineRow) {
    row.createdAt > cursor.createdAt || (row.createdAt == cursor.createdAt && row.eventId > cursor.eventId)
  }

  lemma OrdersAreTotal()
    ensures Total(SessionOrder()) && Total(TimelineOrder())
  {}

  /** The mixed-direction condition says exactly "behind the cursor in the session order". */
  lemma SessionConditionIsBehind(cursor: Session, row: Session)
    ensures SessionCursorCondition(cursor, row) <==> Behind(SessionOrder(), Some(cursor))(row)
  {}

  lemma TimelineConditionIsBehind(cursor: TimelineRow, row: TimelineRow)
    ensures TimelineCursorCondition(cursor, row) <==> Behind(TimelineOrder(), Some(cursor))(row)
  {}

  lemma {:induction false} FilterSame<T>(s: seq<T>, p: T -> bool, q: T -> bool)
    requires forall x :: x in s ==> p(x) == q(x)
    ensures Filter(s, p) == Filter(s, q)
    decreases |s|
  {
    if s != [] {
      FilterSame(s[..|s| - 1], p, q);
    }
  }

  lemma {:induction false} PagesSame<T(!new)>(a: Option<T> -> Page<T>, b: Option<T> -> Page<T>, cursor: Option<T>, fuel: nat)
    requires forall c :: a(c) == b(c)
    ensures Pages(a, cursor, fuel) == Pages(b, cursor, fuel)
    decreases fuel
  {
    if fuel > 0 && a(cursor).next.Some? {
      PagesSame(a, b, a(cursor).next, fuel - 1);
    }
  }

  function SessionWhere(cursor: Option<Session>): Session -> bool {
    (row: Session) => cursor.None? || SessionCursorCondition(cursor.value, row)
  }

  /** The session query as written: the cursor's WHERE clause, ORDER BY, LIMIT one more. */
  function SessionQuery(table: seq<Session>, limit: nat): Option<Session> -> Page<Session> {
    (cursor: Option<Session>) => PageOf(Take(Sort(SessionOrder(), Filter(table, SessionWhere(cursor))), limit + 1), limit)
  }

  function TimelineWhere(cursor: Option<TimelineRow>): TimelineRow -> bool {
    (row: TimelineRow) => cursor.None? || TimelineCursorCondition(cursor.value, row)
  }

  function TimelineQuery(table: seq<TimelineRow>, limit: nat): Option<TimelineRow> -> Page<TimelineRow> {
    (cursor: Option<TimelineRow>) =>
      PageOf(Take(Sort(TimelineOrder(), Filter(table, TimelineWhere(cursor))), limit + 1), limit)
  }

  lemma SessionQueryIs(table: seq<Session>, limit: nat, cursor: Option<Session>)
    ensures SessionQuery(table, limit)(cursor) == QueryFor(SessionOrder(), table, limit)(cursor)
  {
    forall row ensures SessionWhere(cursor)(row) == Behind(SessionOrder(), cursor)(row) {
      if cursor.Some? { SessionConditionIsBehind(cursor.value, row); }
    }
    FilterSame(table, SessionWhere(cursor), Behind(SessionOrder(), cursor));
  }

  lemma TimelineQueryIs(table: seq<TimelineRow>, limit: nat, cursor: Option<TimelineRow>)
    ensures TimelineQuery(table, limit)(cursor) == QueryFor(TimelineOrder(), table, limit)(cursor)
  {
    forall row ensures TimelineWhere(cursor)(row) == Behind(TimelineOrder(), cursor)(row) {
      if cursor.Some? { TimelineConditionIsBehind(cursor.value, row); }
    }
    FilterSame(table, TimelineWhere(cursor), Behind(TimelineOrder(), cursor));
  }

  /** Session pages, each taken with the WHERE clause of the previous page's cursor, tile the session list. */
  lemma SessionPagesTile(table: seq<Session>, limit: nat)
    requires NoDup(table) && limit > 0
    ensures var all := Sort(SessionOrder(), table);
      Concat(Pages(SessionQuery(table, limit), None, |all| + 1)) == all
  {
    OrdersAreTotal();
    FollowingCursorsReadsAll(SessionOrder(), table, limit);
    forall cursor ensures SessionQuery(table, limit)(cursor) == QueryFor(SessionOrder(), table, limit)(cursor) {
      SessionQueryIs(table, limit, cursor);
    }
    PagesSame(SessionQuery(table, limit), QueryFor(SessionOrder(), table, limit), None, |Sort(SessionOrder(), table)| + 1);
  }

  /** Timeline pages tile the timeline. */
  lemma TimelinePagesTile(table: seq<TimelineRow>, limit: nat)
    requires NoDup(table) && limit > 0
    ensures var all := Sort(TimelineOrder(), table);
      Concat(Pages(TimelineQuery(table, limit), None, |all| + 1)) == all
  {
    OrdersAreTotal();
    FollowingCursorsReadsAll(TimelineOrder(), table, limit);
    forall cursor ensures TimelineQuery(table, limit)(cursor) == QueryFor(TimelineOrder(), table, limit)(cursor) {
      TimelineQueryIs(table, limit, cursor);
    }
    PagesSame(TimelineQuery(table, limit), QueryFor(TimelineOrder(), table, limit), None, |Sort(TimelineOrder(), table)| + 1);
  }
}
