/**
 The dashboard's request cache as a transition system (apps/dashboard/src/query-client.ts).

 Entries are named by number because requests keep pointing at the entry they were made for, also
 after the client forgot it.  A request's loader settles at most once and its timer fires at most
 once; cancelling, disposing and settling clear the timer.  Listeners are not modelled: they must not
 fetch from inside a notification.
 */
module QueryModel {
  import opened Common

  type EntryId = nat
  type RequestId = nat

  datatype Status = Idle | Loading | Ready | Stale | Failed

  datatype Problem = TimedOut | Cancelled | LoaderError(code: int)

  /** A loader may resolve with null, as the account usage loader does on a 404. */
  datatype Outcome = Pending | Resolved(data: Option<int>) | Rejected(problem: Problem)

  /** `loadedBy` is history: the request whose result, null or not, the entry took last. */
  datatype Entry = Entry(
    status: Status,
    data: Option<int>,
    error: Option<Problem>,
    updatedAt: Option<int>,
    generation: nat,
    flight: Option<RequestId>,
    loadedBy: Option<RequestId>)

  datatype Request = Request(
    entry: EntryId,
    generation: nat,
    outcome: Outcome,
    running: bool,
    timer: bool,
    timedOut: bool,
    aborted: bool)

  datatype Client = Client(keys: map<string, EntryId>, entries: seq<Entry>, requests: seq<Request>)

  datatype Step =
    | Fetch(key: string)
    | LoaderResolves(request: RequestId, data: Option<int>, now: int)
    | LoaderRejects(request: RequestId, code: int)
    | TimerFires(request: RequestId)
    | Cancel(key: string)
    | Invalidate(key: string)
    | Dispose

  const EMPTY := Client(map[], [], [])
  const FRESH := Entry(Idle, None, None, None, 0, None, None)

  // ---------------------------------------------------------------- pieces

  /** The first settlement of a promise counts, later ones do nothing. */
  function Settle(r: Request, outcome: Outcome): Request {
    if r.outcome.Pending? then r.(outcome := outcome) else r
  }

  function ToQueryError(code: int, aborted: bool, timedOut: bool): Problem {
    if timedOut then TimedOut else if aborted then Cancelled else LoaderError(code)
  }

  function FailedEntry(e: Entry, problem: Problem): Entry {
    e.(status := if e.data.None? then Failed else Stale, error := Some(problem), flight := None)
  }

  function Rest(e: Entry): Entry {
    e.(status := if e.data.None? then Idle else Stale, error := None)
  }

  function WithEntry(c: Client, key: string): Client {
    if key in c.keys then c
    else c.(keys := c.keys[key := |c.entries|], entries := c.entries + [FRESH])
  }

  function Begin(c: Client, key: string): Client
    requires key in c.keys && c.keys[key] < |c.entries|
  {
    var x := c.keys[key];
    var e := c.entries[x];
    if e.flight.Some? then c
    else
      var r := |c.requests|;
      c.(requests := c.requests + [Request(x, e.generation + 1, Pending, true, true, false, false)],
         entries := c.entries[x := e.(generation := e.generation + 1, flight := Some(r), error := None,
                                      status := if e.data.None? then Loading else e.status)])
  }

  /** Abort the entry's request, if it has one. */
  function AbortFlight(requests: seq<Request>, e: Entry): seq<Request> {
    if e.flight.Some? && e.flight.value < |requests| then
      var r := e.flight.value;
      requests[r := Settle(requests[r], Rejected(Cancelled)).(aborted := true, timer := false)]
    else requests
  }

  predicate Known(c: Client, r: RequestId) {
    r < |c.requests| && c.requests[r].entry < |c.entries|
  }

  predicate Current(c: Client, r: RequestId)
    requires Known(c, r)
  {
    c.entries[c.requests[r].entry].generation == c.requests[r].generation
  }

  function Resolve(c: Client, r: RequestId, data: Option<int>, now: int): Client
    requires Known(c, r)
  {
    var q := c.requests[r];
    var e := c.entries[q.entry];
    if Current(c, r) then
      c.(entries := c.entries[q.entry := Entry(Ready, data, None, Some(now), e.generation, None, Some(r))],
         requests := c.requests[r := Settle(q, Resolved(data)).(running := false, timer := false)])
    else
      var settled := if q.timedOut then q else Settle(q, Rejected(Cancelled));
      c.(requests := c.requests[r := settled.(running := false, timer := false)])
  }

  function Reject(c: Client, r: RequestId, code: int): Client
    requires Known(c, r)
  {
    var q := c.requests[r];
    var e := c.entries[q.entry];
    var problem := ToQueryError(code, q.aborted, q.timedOut);
    var settled := if q.timedOut then q else Settle(q, Rejected(problem));
    c.(entries := if Current(c, r) then c.entries[q.entry := FailedEntry(e, problem)] else c.entries,
       requests := c.requests[r := settled.(running := false, timer := false)])
  }

  function Expire(c: Client, r: RequestId): Client
    requires Known(c, r)
  {
    var q := c.requests[r];
    var e := c.entries[q.entry];
    if Current(c, r) then
      c.(entries := c.entries[q.entry := FailedEntry(e, TimedOut).(generation := e.generation + 1)],
         requests := c.requests[r := Settle(q, Rejected(TimedOut)).(timedOut := true, aborted := true, timer := false)])
    else c.(requests := c.requests[r := q.(timer := false)])
  }

  // ---------------------------------------------------------------- steps

  /** What the environment may do: settle a running loader, fire an armed timer, or call the client. */
  predicate Allowed(c: Client, step: Step) {
    match step
    case LoaderResolves(r, _, _) => Known(c, r) && c.requests[r].running
    case LoaderRejects(r, _) => Known(c, r) && c.requests[r].running
    case TimerFires(r) => Known(c, r) && c.requests[r].timer
    case Fetch(_) => true
    case Cancel(_) => true
    case Invalidate(_) => true
    case Dispose => true
  }

  function OnCancel(c: Client, key: string): Client {
    if key in c.keys && c.keys[key] < |c.entries| && c.entries[c.keys[key]].flight.Some? then
      var x := c.keys[key];
      var e := c.entries[x];
      c.(requests := AbortFlight(c.requests, e),
         entries := c.entries[x := Rest(e).(generation := e.generation + 1, flight := None)])
    else c
  }

  function OnInvalidate(c: Client, key: string): Client {
    if key in c.keys && c.keys[key] < |c.entries| then
      c.(entries := c.entries[c.keys[key] := Rest(c.entries[c.keys[key]])])
    else c
  }

  predicate Attached(c: Client, x: EntryId) { x in c.keys.Values }

  /** Dispose of one entry the client lists. */
  function DisposeOne(c: Client, x: EntryId): Client
    requires x < |c.entries|
  {
    var e := c.entries[x];
    if Attached(c, x) then
      c.(requests := AbortFlight(c.requests, e), entries := c.entries[x := e.(generation := e.generation + 1, flight := None)])
    else c
  }

  /** The first `n` entries; the map lists them in the order they were made. */
  function DisposeFirst(c: Client, n: nat): (r: Client)
    requires n <= |c.entries|
    ensures r.keys == c.keys && |r.entries| == |c.entries| && |r.requests| == |c.requests|
  {
    if n == 0 then c else DisposeOne(DisposeFirst(c, n - 1), n - 1)
  }

  function OnDispose(c: Client): Client {
    DisposeFirst(c, |c.entries|).(keys := map[])
  }

  function OnFetch(c: Client, key: string): Client {
    var known := WithEntry(c, key);
    if known.keys[key] < |known.entries| then Begin(known, key) else known
  }

  function Next(c: Client, step: Step): Client
    requires Allowed(c, step)
  {
    match step
    case Fetch(key) => OnFetch(c, key)
    case LoaderResolves(r, data, now) => Resolve(c, r, data, now)
    case LoaderRejects(r, code) => Reject(c, r, code)
    case TimerFires(r) => Expire(c, r)
    case Cancel(key) => OnCancel(c, key)
    case Invalidate(key) => OnInvalidate(c, key)
    case Dispose => OnDispose(c)
  }
}
