/**
 The request cache as it runs: entries and requests updated by calls, loaders and timers
 (apps/dashboard/src/query-client.ts).
 */
module QueryClients {
  import opened Common
  import opened QueryModel
  import opened QueryProperties

  class QueryClient {
    var keys: map<string, EntryId>
    var entries: seq<Entry>
    var requests: seq<Request>

    ghost function Abs(): Client
      reads this
    {
      Client(keys, entries, requests)
    }

    ghost predicate Valid()
      reads this
    {
      Inv(Abs())
    }

    constructor ()
      ensures Valid() && Abs() == EMPTY
    {
      keys, entries, requests := map[], [], [];
      new;
      EmptyInv();
    }

    method GetOrCreateEntry(key: string) returns (x: EntryId)
      requires Valid()
      modifies `keys, `entries
      ensures Valid() && Abs() == WithEntry(old(Abs()), key) && key in keys && keys[key] == x < |entries|
    {
      WithEntryInv(Abs(), key);
      if key in keys {
        return keys[key];
      }
      x := |entries|;
      keys, entries := keys[key := x], entries + [FRESH];
    }

    /** Join the request in flight or start one; the result names the promise. */
    method FetchKey(key: string) returns (promise: RequestId)
      requires Valid()
      modifies this
      ensures Valid() && Abs() == Next(old(Abs()), Fetch(key))
      ensures key in keys && keys[key] < |entries| && entries[keys[key]].flight == Some(promise)
      ensures promise < |requests| && requests[promise].outcome.Pending?
    {
      NextInv(Abs(), Fetch(key));
      var x := GetOrCreateEntry(key);
      assert FlightOk(Abs(), x);
      if entries[x].flight.Some? {
        return entries[x].flight.value;
      }
      promise := |requests|;
      var generation := entries[x].generation + 1;
      requests := requests + [Request(x, generation, Pending, true, true, false, false)];
      entries := entries[x := entries[x].(
                   generation := generation, flight := Some(promise), error := None,
                   status := if entries[x].data.None? then Loading else entries[x].status)];
    }

    method LoaderResolved(r: RequestId, data: Option<int>, now: int)
      requires Valid() && Allowed(Abs(), LoaderResolves(r, data, now))
      modifies this
      ensures Valid() && Abs() == Next(old(Abs()), LoaderResolves(r, data, now))
    {
      NextInv(Abs(), LoaderResolves(r, data, now));
      var q := requests[r];
      var e := entries[q.entry];
      if e.generation == q.generation {
        entries := entries[q.entry := e.(status := Ready, data := data, error := None, updatedAt := Some(now),
                                         flight := None, loadedBy := Some(r))];
        q := Settle(q, Resolved(data));
      } else if !q.timedOut {
        q := Settle(q, Rejected(Cancelled));
      }
      requests := requests[r := q.(running := false, timer := false)];
    }

    method LoaderRejected(r: RequestId, code: int)
      requires Valid() && Allowed(Abs(), LoaderRejects(r, code))
      modifies this
      ensures Valid() && Abs() == Next(old(Abs()), LoaderRejects(r, code))
    {
      NextInv(Abs(), LoaderRejects(r, code));
      var q := requests[r];
      var e := entries[q.entry];
      var problem := ToQueryError(code, q.aborted, q.timedOut);
      if e.generation == q.generation {
        entries := entries[q.entry := e.(status := if e.data.None? then Failed else Stale,
                                         error := Some(problem), flight := None)];
      }
      if !q.timedOut {
        q := Settle(q, Rejected(problem));
      }
      requests := requests[r := q.(running := false, timer := false)];
    }

    method TimerFired(r: RequestId)
      requires Valid() && Allowed(Abs(), TimerFires(r))
      modifies this
      ensures Valid() && Abs() == Next(old(Abs()), TimerFires(r))
    {
      NextInv(Abs(), TimerFires(r));
      var q := requests[r];
      var e := entries[q.entry];
      if e.generation != q.generation {
        requests := requests[r := q.(timer := false)];
        return;
      }
      entries := entries[q.entry := e.(generation := e.generation + 1, flight := None,
                                       status := if e.data.None? then Failed else Stale, error := Some(TimedOut))];
      requests := requests[r := Settle(q, Rejected(TimedOut)).(timedOut := true, aborted := true, timer := false)];
    }

    method CancelKey(key: string)
      requires Valid()
      modifies this
      ensures Valid() && Abs() == Next(old(Abs()), Cancel(key))
    {
      NextInv(Abs(), Cancel(key));
      if key !in keys || entries[keys[key]].flight.None? {
        return;
      }
      var x := keys[key];
      var e := entries[x];
      assert FlightOk(Abs(), x);
      var r := e.flight.value;
      requests := requests[r := Settle(requests[r], Rejected(Cancelled)).(aborted := true, timer := false)];
      entries := entries[x := e.(generation := e.generation + 1, flight := None,
                                 status := if e.data.None? then Idle else Stale, error := None)];
    }

    method InvalidateKey(key: string)
      requires Valid()
      modifies this
      ensures Valid() && Abs() == Next(old(Abs()), Invalidate(key))
    {
      NextInv(Abs(), Invalidate(key));
      if key !in keys {
        return;
      }
      var e := entries[keys[key]];
      entries := entries[keys[key] := e.(status := if e.data.None? then Idle else Stale, error := None)];
    }

    /** Abort what is in flight, entry by entry, and forget the keys. */
    method DisposeAll()
      requires Valid()
      modifies this
      ensures Valid() && Abs() == Next(old(Abs()), Dispose)
      ensures forall r :: 0 <= r < |requests| ==> !requests[r].outcome.Pending?
    {
      ghost var start := Abs();
      NextInv(start, Dispose);
      DisposeInv(start);
      var listed := keys.Values;
      for x := 0 to |entries|
        invariant Abs() == DisposeFirst(start, x) && keys == start.keys && |entries| == |start.entries|
      {
        DisposeFirstCore(start, x);
        assert FlightOk(Abs(), x);
        if x in listed {
          var e := entries[x];
          if e.flight.Some? {
            var r := e.flight.value;
            requests := requests[r := Settle(requests[r], Rejected(Cancelled)).(aborted := true, timer := false)];
          }
          entries := entries[x := e.(generation := e.generation + 1, flight := None)];
        }
      }
      keys := map[];
    }
  }
}
