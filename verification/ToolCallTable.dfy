/**
 The tool-call table as it is kept (apps/core/src/tool-aliases.ts, domain-projection.ts): nodes, edges
 and groups filled in loops, then rows replaced.
 */
module ToolCallTables {
  import opened Common
  import opened ToolCalls
  import opened ToolAliases
  import opened ToolSessions

  datatype Node = Node(toolName: string, times: seq<int>)

  function TimesOf(events: seq<Event>, adapter: Adapter, id: CallId): seq<int>
    decreases |events|
  {
    if events == [] then []
    else
      var last := events[|events| - 1];
      TimesOf(events[..|events| - 1], adapter, id) + if At(last, adapter, id) then [last.time] else []
  }

  lemma {:induction false} TimesOfIs(events: seq<Event>, adapter: Adapter, id: CallId, time: int)
    ensures time in TimesOf(events, adapter, id) <==> exists e :: e in events && At(e, adapter, id) && e.time == time
    decreases |events|
  {
    if events != [] {
      var before, last := events[..|events| - 1], events[|events| - 1];
      assert events == before + [last];
      TimesOfIs(before, adapter, id, time);
      assert TimesOf(events, adapter, id)
             == if At(last, adapter, id) then TimesOf(before, adapter, id) + [last.time] else TimesOf(before, adapter, id);
      if exists e :: e in before && At(e, adapter, id) && e.time == time {
        var e :| e in before && At(e, adapter, id) && e.time == time;
        assert e in events;
      }
      if At(last, adapter, id) { assert last in events; }
    }
  }

  predicate NodesAreClose(left: seq<int>, right: seq<int>) {
    exists i, j :: 0 <= i < |left| && 0 <= j < |right|
                   && -MAX_ALIAS_DISTANCE_MS <= left[i] - right[j] <= MAX_ALIAS_DISTANCE_MS
  }

  /** Nodes close in time are events close in time. */
  lemma CloseNodes(events: seq<Event>, hook: CallId, transcript: CallId)
    ensures NodesAreClose(TimesOf(events, Hook, hook), TimesOf(events, Transcript, transcript)) <==>
              Close(events, hook, transcript)
  {
    var left, right := TimesOf(events, Hook, hook), TimesOf(events, Transcript, transcript);
    if NodesAreClose(left, right) {
      var i, j :| 0 <= i < |left| && 0 <= j < |right|
                  && -MAX_ALIAS_DISTANCE_MS <= left[i] - right[j] <= MAX_ALIAS_DISTANCE_MS;
      TimesOfIs(events, Hook, hook, left[i]);
      TimesOfIs(events, Transcript, transcript, right[j]);
      var a :| a in events && At(a, Hook, hook) && a.time == left[i];
      var b :| b in events && At(b, Transcript, transcript) && b.time == right[j];
      assert Near(a, b);
    }
    if Close(events, hook, transcript) {
      var a, b :| a in events && b in events && At(a, Hook, hook) && At(b, Transcript, transcript) && Near(a, b);
      TimesOfIs(events, Hook, hook, a.time);
      TimesOfIs(events, Transcript, transcript, b.time);
      var i :| 0 <= i < |left| && left[i] == a.time;
      var j :| 0 <= j < |right| && right[j] == b.time;
      assert -MAX_ALIAS_DISTANCE_MS <= left[i] - right[j] <= MAX_ALIAS_DISTANCE_MS;
    }
  }

  /** What has been collected of one adapter: ids in order of appearance and a node for each. */
  ghost predicate Collected(events: seq<Event>, adapter: Adapter, ids: seq<CallId>, nodes: map<CallId, Node>) {
    && ids == IdsOf(events, adapter)
    && forall id :: id in ids ==>
         id in nodes && nodes[id] == Node(NameOf(events, adapter, id), TimesOf(events, adapter, id))
  }

  lemma CollectStep(events: seq<Event>, adapter: Adapter, ids: seq<CallId>, nodes: map<CallId, Node>, e: Event)
    requires Collected(events, adapter, ids, nodes)
    ensures e.adapter != adapter ==> Collected(events + [e], adapter, ids, nodes)
    ensures e.adapter == adapter && e.call in ids ==>
              Collected(events + [e], adapter, ids,
                        nodes[e.call := Node(nodes[e.call].toolName, nodes[e.call].times + [e.time])])
    ensures e.adapter == adapter && e.call !in ids ==>
              Collected(events + [e], adapter, ids + [e.call], nodes[e.call := Node(e.toolName, [e.time])])
  {
    assert (events + [e])[..|events|] == events;
    forall id
      ensures id in ids || !At(e, adapter, id) ==> NameOf(events + [e], adapter, id) == NameOf(events, adapter, id)
      ensures TimesOf(events + [e], adapter, id) == AddTime(TimesOf(events, adapter, id), e, adapter, id)
      ensures id !in ids && At(e, adapter, id) ==>
                NameOf(events + [e], adapter, id) == e.toolName && TimesOf(events, adapter, id) == []
    {
      NameStep(events, adapter, id, e);
    }
  }

  function AddTime(times: seq<int>, e: Event, adapter: Adapter, id: CallId): seq<int> {
    if At(e, adapter, id) then times + [e.time] else times
  }

  lemma NameStep(events: seq<Event>, adapter: Adapter, id: CallId, e: Event)
    ensures id in IdsOf(events, adapter) || !At(e, adapter, id) ==>
              NameOf(events + [e], adapter, id) == NameOf(events, adapter, id)
    ensures TimesOf(events + [e], adapter, id) == AddTime(TimesOf(events, adapter, id), e, adapter, id)
    ensures id !in IdsOf(events, adapter) ==> TimesOf(events, adapter, id) == []
    ensures id !in IdsOf(events, adapter) && At(e, adapter, id) ==> NameOf(events + [e], adapter, id) == e.toolName
  {
    assert (events + [e])[..|events|] == events;
    IdsOfIs(events, adapter);
    FirstWithIn(events, (x: Event) => At(x, adapter, id));
    if TimesOf(events, adapter, id) != [] {
      TimesOfIs(events, adapter, id, TimesOf(events, adapter, id)[0]);
      assert TimesOf(events, adapter, id)[0] in TimesOf(events, adapter, id);
    }
  }

  /** The hooks a transcript node has been linked to so far. */
  function Linked(reverse: map<CallId, seq<CallId>>, transcript: CallId): seq<CallId> {
    if transcript in reverse then reverse[transcript] else []
  }

  class ToolCallTable {
    var stored: seq<Event>
    var aliases: map<CallId, CallId>
    var calls: map<CallId, Row>

    constructor ()
      ensures stored == [] && aliases == map[] && calls == map[]
    {
      stored, aliases, calls := [], map[], map[];
    }

    /** One event outside the Claude sessions. */
    method ObserveEvent(e: Event)
      modifies `stored, `calls
      ensures Tables(stored, calls) == Observe(old(Tables(stored, calls)), e)
    {
      var known := WithId(stored, e.id);
      if known.Some? && known.value != e {
        return;
      }
      if known.None? {
        stored := stored + [e];
      }
      calls := calls[e.call := Recompute(OfCall(stored, e.call))];
    }

    /** A batch; one with Claude events ends with a rebuild of the session's calls. */
    method ProjectBatch(batch: seq<Event>)
      modifies this
      ensures Tables(stored, calls) == ObserveBatch(old(Tables(stored, calls)), batch)
    {
      var affected := false;
      for i := 0 to |batch|
        invariant Tables(stored, calls) == ObserveEach(old(Tables(stored, calls)), batch[..i])
        invariant affected <==> Affected(batch[..i])
      {
        assert batch[..i + 1][..i] == batch[..i];
        AffectedStep(batch, i);
        ObserveEvent(batch[i]);
        affected := affected || FromClaude(batch[i]);
      }
      assert batch[..|batch|] == batch;
      if affected {
        RecomputeClaudeToolAliases();
      }
    }

    static lemma AffectedStep(batch: seq<Event>, i: nat)
      requires i < |batch|
      ensures Affected(batch[..i + 1]) <==> Affected(batch[..i]) || FromClaude(batch[i])
    {
      assert batch[..i + 1] == batch[..i] + [batch[i]];
      if Affected(batch[..i]) {
        var k :| 0 <= k < i && FromClaude(batch[..i][k]);
        assert FromClaude(batch[..i + 1][k]);
      }
      if FromClaude(batch[i]) { assert FromClaude(batch[..i + 1][i]); }
    }

    method CollectNodes(adapter: Adapter) returns (ids: seq<CallId>, nodes: map<CallId, Node>)
      ensures Collected(stored, adapter, ids, nodes)
    {
      ids, nodes := [], map[];
      for i := 0 to |stored|
        invariant Collected(stored[..i], adapter, ids, nodes)
      {
        var e := stored[i];
        CollectStep(stored[..i], adapter, ids, nodes, e);
        assert stored[..i + 1] == stored[..i] + [e];
        if e.adapter == adapter {
          if e.call in ids {
            nodes := nodes[e.call := Node(nodes[e.call].toolName, nodes[e.call].times + [e.time])];
          } else {
            ids, nodes := ids + [e.call], nodes[e.call := Node(e.toolName, [e.time])];
          }
        }
      }
      assert stored[..|stored|] == stored;
    }

    /** The transcript nodes compatible with one hook. */
    method CandidatesOf(hook: CallId, hookNode: Node, transcripts: seq<CallId>, nodes: map<CallId, Node>)
      returns (candidates: seq<CallId>)
      requires Collected(stored, Transcript, transcripts, nodes)
      requires hookNode == Node(NameOf(stored, Hook, hook), TimesOf(stored, Hook, hook))
      ensures candidates == Candidates(stored, hook)
    {
      candidates := [];
      for i := 0 to |transcripts|
        invariant candidates == Filter(transcripts[..i], From(stored, hook))
      {
        assert transcripts[..i + 1][..i] == transcripts[..i];
        var t := transcripts[i];
        CloseNodes(stored, hook, t);
        if hookNode.toolName == nodes[t].toolName && hook != t && NodesAreClose(hookNode.times, nodes[t].times) {
          candidates := candidates + [t];
        }
      }
      assert transcripts[..|transcripts|] == transcripts;
    }

    /** The edges from every hook, and back from every transcript node. */
    method BuildEdges(hooks: seq<CallId>, hookNodes: map<CallId, Node>, transcripts: seq<CallId>, transcriptNodes: map<CallId, Node>)
      returns (edges: map<CallId, seq<CallId>>, reverse: map<CallId, seq<CallId>>)
      requires Collected(stored, Hook, hooks, hookNodes) && Collected(stored, Transcript, transcripts, transcriptNodes)
      ensures forall h :: h in hooks ==> h in edges && edges[h] == Candidates(stored, h)
      ensures forall t :: t in transcripts ==> Linked(reverse, t) == Reverse(stored, t)
    {
      edges, reverse := map[], map[];
      for i := 0 to |hooks|
        invariant forall k :: 0 <= k < i ==> hooks[k] in edges && edges[hooks[k]] == Candidates(stored, hooks[k])
        invariant forall t :: t in transcripts ==> Linked(reverse, t) == Filter(hooks[..i], To(stored, t))
      {
        var hook := hooks[i];
        var candidates := CandidatesOf(hook, hookNodes[hook], transcripts, transcriptNodes);
        edges := edges[hook := candidates];
        reverse := LinkBack(stored, hook, candidates, reverse);
        assert hooks[..i + 1][..i] == hooks[..i];
        forall t | t in transcripts ensures t in candidates <==> To(stored, t)(hook) {
          FilterIs(IdsOf(stored, Transcript), From(stored, hook), t);
        }
      }
      assert hooks[..|hooks|] == hooks;
    }

    /** Add the hook to the list of each of its candidates. */
    static method LinkBack(ghost events: seq<Event>, hook: CallId, candidates: seq<CallId>, before: map<CallId, seq<CallId>>)
      returns (reverse: map<CallId, seq<CallId>>)
      requires candidates == Candidates(events, hook)
      ensures forall t :: Linked(reverse, t) == if t in candidates then Linked(before, t) + [hook] else Linked(before, t)
    {
      IdsOfIs(events, Transcript);
      FilterNoDup(IdsOf(events, Transcript), From(events, hook));
      reverse := before;
      for j := 0 to |candidates|
        invariant forall t :: Linked(reverse, t)
                              == if t in candidates[..j] then Linked(before, t) + [hook] else Linked(before, t)
      {
        var t := candidates[j];
        assert t !in candidates[..j];
        reverse := reverse[t := Linked(reverse, t) + [hook]];
        assert candidates[..j + 1] == candidates[..j] + [t];
      }
      assert candidates[..|candidates|] == candidates;
    }

    /** Match hooks to transcript nodes and rebuild the calls under canonical ids. */
    method RecomputeClaudeToolAliases()
      modifies `aliases, `calls
      ensures aliases == Aliases(stored) && calls == Rebuild(stored)
    {
      var hooks, hookNodes := CollectNodes(Hook);
      var transcripts, transcriptNodes := CollectNodes(Transcript);
      var edges, reverse := BuildEdges(hooks, hookNodes, transcripts, transcriptNodes);
      aliases := map[];
      for i := 0 to |hooks|
        invariant aliases == map h | h in hooks[..i] && AliasOf(stored, h).Some? :: AliasOf(stored, h).value
      {
        assert hooks[..i + 1] == hooks[..i] + [hooks[i]];
        var alias := UniqueCandidate(hooks[i], edges[hooks[i]], transcripts, reverse);
        if alias.Some? {
          aliases := aliases[hooks[i] := alias.value];
        }
      }
      assert hooks[..|hooks|] == hooks;
      RebuildClaudeToolCalls();
    }

    /** One candidate that is linked back to one hook. */
    method UniqueCandidate(hook: CallId, candidates: seq<CallId>, ghost transcripts: seq<CallId>, reverse: map<CallId, seq<CallId>>)
      returns (alias: Option<CallId>)
      requires candidates == Candidates(stored, hook) && transcripts == IdsOf(stored, Transcript)
      requires forall t :: t in transcripts ==> Linked(reverse, t) == Reverse(stored, t)
      ensures alias == AliasOf(stored, hook)
    {
      if |candidates| != 1 { return None; }
      FilterIs(IdsOf(stored, Transcript), From(stored, hook), candidates[0]);
      assert candidates[0] in candidates;
      alias := if |Linked(reverse, candidates[0])| == 1 then Some(candidates[0]) else None;
    }

    method RebuildClaudeToolCalls()
      requires aliases == Aliases(stored)
      modifies `calls
      ensures calls == Rebuild(stored)
    {
      var groups: map<CallId, seq<Event>> := map[];
      for i := 0 to |stored|
        invariant groups == Groups(stored[..i], aliases)
      {
        assert stored[..i + 1][..i] == stored[..i];
        var e := stored[i];
        if !FromClaude(e) {
          continue;
        }
        var canonicalId := if e.call in aliases then aliases[e.call] else e.call;
        var current := if canonicalId in groups then groups[canonicalId] + [e] else [e];
        groups := groups[canonicalId := current];
      }
      assert stored[..|stored|] == stored;
      calls := map id | id in groups :: RecomputeGroup(groups[id]);
    }
  }
}
