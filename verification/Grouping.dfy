/**
 Grouped totals: a map filled row by row, keys in order of first appearance, as the aggregation
 loops of the repository fill a `Map` (apps/core/src/domain-reconciliation.ts, aggregate-queries.ts,
 session-queries.ts).
 */
module Grouping {
  import opened Common

  datatype Groups<K> = Groups(keys: seq<K>, totals: map<K, int>)

  ghost predicate GroupsOk<K(!new)>(g: Groups<K>) {
    NoDup(g.keys) && forall k :: k in g.keys <==> k in g.totals
  }

  function Empty<K>(): Groups<K> { Groups([], map[]) }

  /** `totals.set(k, (totals.get(k) ?? 0) + n)` */
  function Add<K>(g: Groups<K>, k: K, n: int): Groups<K> {
    if k in g.totals then Groups(g.keys, g.totals[k := g.totals[k] + n])
    else Groups(g.keys + [k], g.totals[k := n])
  }

  function At<K>(totals: map<K, int>, k: K): int {
    if k in totals then totals[k] else 0
  }

  /** The sum of the listed entries. */
  function SumOf<K>(keys: seq<K>, totals: map<K, int>): int
    decreases |keys|
  {
    if keys == [] then 0
    else SumOf(keys[..|keys| - 1], totals) + At(totals, keys[|keys| - 1])
  }

  function Total<K>(g: Groups<K>): int { SumOf(g.keys, g.totals) }

  function GroupAll<R, K>(rows: seq<R>, key: R -> K, value: R -> int): Groups<K>
    decreases |rows|
  {
    if rows == [] then Empty()
    else
      var last := rows[|rows| - 1];
      Add(GroupAll(rows[..|rows| - 1], key, value), key(last), value(last))
  }

  function Sum<R>(rows: seq<R>, value: R -> int): int
    decreases |rows|
  {
    if rows == [] then 0 else Sum(rows[..|rows| - 1], value) + value(rows[|rows| - 1])
  }

  /** The rows of one group, straight from the rows. */
  function SumWhere<R, K(==)>(rows: seq<R>, key: R -> K, value: R -> int, k: K): int
    decreases |rows|
  {
    if rows == [] then 0
    else
      var last := rows[|rows| - 1];
      SumWhere(rows[..|rows| - 1], key, value, k) + if key(last) == k then value(last) else 0
  }

  lemma {:induction false} SumOfUpdate<K>(keys: seq<K>, totals: map<K, int>, k: K, n: int)
    requires NoDup(keys)
    ensures SumOf(keys, totals[k := n]) == SumOf(keys, totals) + if k in keys then n - At(totals, k) else 0
    decreases |keys|
  {
    if keys != [] {
      var before, last := keys[..|keys| - 1], keys[|keys| - 1];
      SumOfUpdate(before, totals, k, n);
      assert keys == before + [last];
      assert last !in before;
    }
  }

  lemma SumOfAppend<K>(keys: seq<K>, totals: map<K, int>, k: K)
    ensures SumOf(keys + [k], totals) == SumOf(keys, totals) + At(totals, k)
  {
    assert (keys + [k])[..|keys|] == keys;
  }

  lemma AddOk<K(!new)>(g: Groups<K>, k: K, n: int)
    requires GroupsOk(g)
    ensures GroupsOk(Add(g, k, n))
  {
    if k !in g.totals {
      NoDupAppend(g.keys, k);
    }
  }

  lemma AddTotal<K(!new)>(g: Groups<K>, k: K, n: int)
    requires GroupsOk(g)
    ensures Total(Add(g, k, n)) == Total(g) + n
  {
    if k in g.totals {
      SumOfUpdate(g.keys, g.totals, k, g.totals[k] + n);
    } else {
      SumOfUpdate(g.keys, g.totals, k, n);
      SumOfAppend(g.keys, g.totals[k := n], k);
    }
  }

  /** Conservation: however rows are grouped, the groups add up to the ungrouped rows. */
  lemma {:induction false} GroupsConserve<R, K(!new)>(rows: seq<R>, key: R -> K, value: R -> int)
    ensures GroupsOk(GroupAll(rows, key, value))
    ensures Total(GroupAll(rows, key, value)) == Sum(rows, value)
    decreases |rows|
  {
    if rows != [] {
      var before, last := rows[..|rows| - 1], rows[|rows| - 1];
      GroupsConserve(before, key, value);
      AddOk(GroupAll(before, key, value), key(last), value(last));
      AddTotal(GroupAll(before, key, value), key(last), value(last));
    }
  }

  /** Each group holds its own rows and no others. */
  lemma {:induction false} GroupIsItsRows<R, K>(rows: seq<R>, key: R -> K, value: R -> int, k: K)
    ensures At(GroupAll(rows, key, value).totals, k) == SumWhere(rows, key, value, k)
    ensures k in GroupAll(rows, key, value).totals <==> exists i :: 0 <= i < |rows| && key(rows[i]) == k
    decreases |rows|
  {
    if rows != [] {
      var before, last := rows[..|rows| - 1], rows[|rows| - 1];
      GroupIsItsRows(before, key, value, k);
      assert forall i :: 0 <= i < |before| ==> rows[i] == before[i];
      assert rows[|rows| - 1] == last;
    }
  }
}
