/** The pipeline engine: an object that reads and writes a store one operation at a time. */
module Coordinator {
  import opened Model
  import opened Records
  import opened Storage
  import opened Sorting
  import opened Definitions
  import opened Engine
  import opened Advance
  import opened Cancelling
  import opened Restarting
  import Cas = CasSafety
  import M = Memory

  /** Node executions can be told apart by their keys. */
  ghost predicate Listable(s: Store) {
    && NodesExact(s.executions, s.nodes)
    && (forall id :: id in s.executions ==> s.executions[id].id == id)
    && (forall id :: id in s.executions && s.executions[id].runId.Some? ==> s.executions[id].nodeKey != "")
  }

  /** Whatever an advance or a restart is proved to mean applies to the engine's calls: a store that
      a run can be advanced in is one the engine can list. */
  lemma RunnableIsListable(reg: Registry, s: Store, r: Uuid)
    requires Runnable(reg, s, r)
    ensures Listable(s) && s.runs[r].id == r
  {
    forall id | id in s.executions && s.executions[id].runId.Some?
      ensures s.executions[id].nodeKey != ""
    {
      assert Cas.Shaped(reg, s, s.executions[id]);
    }
  }

  ghost predicate OneEach(items: seq<Execution>) {
    forall i, j :: 0 <= i < j < |items| ==> items[i].nodeKey != items[j].nodeKey
  }

  ghost predicate ByKey(items: seq<Execution>, n: nat, byNode: Snapshot)
    requires n <= |items|
  {
    && (forall j :: 0 <= j < n ==> items[j].nodeKey in byNode && byNode[items[j].nodeKey] == items[j])
    && (forall k :: k in byNode ==> exists j :: 0 <= j < n && items[j].nodeKey == k)
  }

  predicate BrokenItem(e: Execution) { e.status.Failed? || e.status.Cancelled? }

  lemma ListedApart(s: Store, r: Uuid, items: seq<Execution>)
    requires Listable(s) && M.AreExecutionsOf(s.executions, r, items)
    ensures OneEach(items)
  {
    forall i, j | 0 <= i < j < |items|
      ensures items[i].nodeKey != items[j].nodeKey
    {
      assert NodeOf(items[i]) in s.nodes && s.nodes[NodeOf(items[i])] == items[i].id;
      assert NodeOf(items[j]) in s.nodes && s.nodes[NodeOf(items[j])] == items[j].id;
    }
  }

  lemma ListedIsNode(s: Store, r: Uuid, items: seq<Execution>, byNode: Snapshot, k: string)
    requires Listable(s) && M.AreExecutionsOf(s.executions, r, items) && ByKey(items, |items|, byNode)
    ensures k in byNode <==> k != "" && Node(s, r, k).Some?
    ensures k in byNode ==> byNode[k] == Node(s, r, k).value
  {
    if k in byNode {
      var j :| 0 <= j < |items| && items[j].nodeKey == k;
      assert NodeOf(items[j]) == (r, k);
    }
    if k != "" && Node(s, r, k).Some? {
      var e := Node(s, r, k).value;
      assert NodeOf(e) == (r, k);
      assert e in items;
    }
  }

  /** The state rebuilt from the listed executions is the state of the run's nodes. */
  lemma ListedIsSnap(s: Store, r: Uuid, items: seq<Execution>, byNode: Snapshot)
    requires Listable(s) && M.AreExecutionsOf(s.executions, r, items) && ByKey(items, |items|, byNode)
    ensures byNode == Snap(s, r)
  {
    forall k
      ensures k in byNode <==> k in Snap(s, r)
      ensures k in byNode ==> byNode[k] == Snap(s, r)[k]
    {
      ListedIsNode(s, r, items, byNode, k);
      if k != "" {
        SnapIsNodes(s, r, k);
      }
    }
  }

  lemma NextByKey(items: seq<Execution>, i: nat, byNode: Snapshot)
    requires OneEach(items) && i < |items| && ByKey(items, i, byNode)
    ensures items[i].nodeKey !in byNode && ByKey(items, i + 1, byNode[items[i].nodeKey := items[i]])
  {
    var e := items[i];
    var after := byNode[e.nodeKey := e];
    forall k | k in after
      ensures exists j :: 0 <= j < i + 1 && items[j].nodeKey == k
    {
      if k == e.nodeKey {
        assert items[i].nodeKey == k;
      } else {
        var j :| 0 <= j < i && items[j].nodeKey == k;
      }
    }
  }

  function Noted(outputs: map<string, Json>, e: Execution): map<string, Json> {
    if e.status.Succeeded? then outputs[e.nodeKey := e.output] else outputs
  }

  lemma NextOutputs(byNode: Snapshot, e: Execution)
    requires e.nodeKey !in byNode
    ensures Outputs(byNode[e.nodeKey := e]) == Noted(Outputs(byNode), e)
  {
  }

  /** The executions by node and the outputs of those that succeeded, up to the first failed or
      cancelled one. */
  method Rebuild(items: seq<Execution>) returns (byNode: Snapshot, outputs: map<string, Json>, broken: Option<Execution>)
    requires OneEach(items)
    ensures broken.Some? ==> broken.value in items && BrokenItem(broken.value)
    ensures broken.None? ==> ByKey(items, |items|, byNode) && outputs == Outputs(byNode)
    ensures broken.None? ==> forall j :: 0 <= j < |items| ==> !BrokenItem(items[j])
  {
    byNode, outputs := map[], map[];
    for i := 0 to |items|
      invariant ByKey(items, i, byNode) && outputs == Outputs(byNode)
      invariant forall j :: 0 <= j < i ==> !BrokenItem(items[j])
    {
      var item := items[i];
      NextByKey(items, i, byNode);
      NextOutputs(byNode, item);
      byNode := byNode[item.nodeKey := item];
      if item.status == Succeeded {
        outputs := outputs[item.nodeKey := item.output];
      }
      if item.status == Failed || item.status == Cancelled {
        return byNode, outputs, Some(item);
      }
    }
    broken := None;
  }

  method IsReady(byNode: Snapshot, node: NodeDef) returns (ready: bool)
    ensures ready == Ready(byNode, node)
  {
    var dependencies := Deps(node);
    ready := true;
    for i := 0 to |dependencies|
      invariant ready
      invariant forall j :: 0 <= j < i ==> dependencies[j] in byNode && byNode[dependencies[j]].status.Succeeded?
    {
      var dependency := dependencies[i];
      if dependency !in byNode || byNode[dependency].status != Succeeded {
        assert dependency in Deps(node);
        return false;
      }
    }
  }

  method IsAllSucceeded(byNode: Snapshot) returns (all: bool)
    ensures all == AllSucceeded(byNode)
  {
    var keys := Enumerate(byNode.Keys);
    all := true;
    for i := 0 to |keys|
      invariant all && forall j :: 0 <= j < i ==> keys[j] in byNode && byNode[keys[j]].status.Succeeded?
    {
      assert keys[i] in Elements(keys);
      if byNode[keys[i]].status != Succeeded {
        return false;
      }
    }
    forall k | k in byNode
      ensures byNode[k].status.Succeeded?
    {
      assert k in Elements(keys);
    }
  }

  datatype Visited = Passed | Began | Halted(end: WalkEnd)

  /** Adding what was created before to a walk. */
  function Join(created: bool, w: Walked): Walked { w.(created := w.created || created) }

  /** The text of a recorded failure names the node that caused it. */
  predicate Explains(s: Store, r: Uuid, nodes: seq<NodeDef>, cause: string, error: string) {
    var snap := Snap(s, r);
    if AnyBroken(snap) then
      exists k :: k in snap && Broken(snap, k) && error == "node " + k + ": " + snap[k].lastError
    else
      r in s.runs && (Stop(snap, nodes, s.runs[r].input, 0, |nodes|) < |nodes| ==>
        error == "build node " + nodes[Stop(snap, nodes, s.runs[r].input, 0, |nodes|)].key + " input: " + cause)
  }

  /** What an advance of an open run leaves as its error: none if it is not failed, and otherwise the
      explanation. */
  predicate Recorded(s: Store, s': Store, r: Uuid, nodes: seq<NodeDef>, cause: string) {
    && r in s.runs && r in s'.runs
    && (s'.runs[r].status == RunFailed ==> Explains(s, r, nodes, cause, s'.runs[r].error))
    && (s'.runs[r].status != RunFailed && s'.runs[r] != s.runs[r] ==> s'.runs[r].error == "")
  }

  class PipelineEngine {
    const store: M.MemoryStore
    const registry: Registry

    constructor (store: M.MemoryStore, registry: Registry)
      ensures this.store == store && this.registry == registry
    {
      this.store, this.registry := store, registry;
    }

    method Start(byNode: Snapshot, r: Uuid, node: NodeDef, input: Json, newId: Uuid, now: Time) returns (reply: Result<()>)
      requires store.Keyed() && newId != NIL && newId !in store.executions && node.taskName != ""
      modifies store
      ensures store.Keyed() && store.runs == old(store.runs)
      ensures store.executions.Keys <= old(store.executions).Keys + {newId}
      ensures store.View() == StartIn(old(store.View()), byNode, r, node, input, newId, now)
      ensures reply == StartReply(old(store.View()), byNode, node, input, now)
      ensures reply.Err? ==> store.View() == old(store.View())
    {
      if node.key in byNode {
        var existing := byNode[node.key];
        var released := store.ReleaseExecution(existing.id, input, existing.availableAt, now);
        if released.Err? {
          return Err(released.error);
        }
        return Ok(());
      }
      var request := CreateExecution(node.taskName, node.taskVersion, input, node.maxAttempts, ZERO_TIME,
                                     NodeRef(r, node.key), Some(r), node.key);
      var created := store.CreateExecution(request, newId, now);
      reply := Ok(());
    }

    /** Starts the due nodes in declaration order, and says where it stopped. */
    method StartDue(run: PipelineRun, byNode: Snapshot, outputs: map<string, Json>, nodes: seq<NodeDef>, ids: Ids, now: Time)
      returns (created: bool, end: WalkEnd, stop: nat)
      requires store.Keyed() && FreshIds(store.View(), ids, 0, |nodes|) && Topological(nodes) && outputs == Outputs(byNode)
      modifies store
      ensures store.Keyed() && store.runs == old(store.runs)
      ensures Walked(store.View(), created, end) == Walk(old(store.View()), run, byNode, nodes, 0, |nodes|, ids, now)
      ensures end.MapperFailed? ==> stop == Stop(byNode, nodes, run.input, 0, |nodes|) < |nodes|
    {
      created := false;
      ghost var was := store.View();
      for i := 0 to |nodes|
        invariant store.Keyed() && store.runs == was.runs && FreshIds(store.View(), ids, i, |nodes|)
        invariant Walk(was, run, byNode, nodes, 0, |nodes|, ids, now) ==
                  Join(created, Walk(store.View(), run, byNode, nodes, i, |nodes|, ids, now))
        invariant Stop(byNode, nodes, run.input, 0, |nodes|) == Stop(byNode, nodes, run.input, i, |nodes|)
      {
        var visit := Visit(run, byNode, outputs, nodes, i, ids, now);
        match visit {
          case Passed =>
          case Began => created := true;
          case Halted(e) => return created, e, i;
        }
      }
      end, stop := Clean, |nodes|;
    }

    /** Looks at one node and starts it if it is due. */
    method Visit(run: PipelineRun, byNode: Snapshot, outputs: map<string, Json>, nodes: seq<NodeDef>, i: nat, ids: Ids, now: Time)
      returns (visit: Visited)
      requires store.Keyed() && i < |nodes| && FreshIds(store.View(), ids, i, |nodes|) && Topological(nodes) && outputs == Outputs(byNode)
      modifies store
      ensures store.Keyed() && store.runs == old(store.runs) && FreshIds(store.View(), ids, i + 1, |nodes|)
      ensures Walk(old(store.View()), run, byNode, nodes, i, |nodes|, ids, now) ==
              if visit.Halted? then Walked(store.View(), false, visit.end)
              else Join(visit.Began?, Walk(store.View(), run, byNode, nodes, i + 1, |nodes|, ids, now))
      ensures Stop(byNode, nodes, run.input, i, |nodes|) ==
              if visit == Halted(MapperFailed) then i else Stop(byNode, nodes, run.input, i + 1, |nodes|)
      ensures visit.Halted? ==> !visit.end.Clean?
    {
      var node := nodes[i];
      assert Placed(nodes, i);
      if node.key in byNode && byNode[node.key].status != Blocked {
        return Passed;
      }
      var ready := IsReady(byNode, node);
      if !ready {
        return Passed;
      }
      var input := BuildInput(node, run.input, outputs);
      if input.None? {
        return Halted(MapperFailed);
      }
      var reply := Start(byNode, run.id, node, input.value, ids[i], now);
      visit := if reply.Err? then Halted(ReleaseFailed(reply.error)) else Began;
    }

    /** The status write after the nodes have been looked at, if any. */
    method Conclude(run: PipelineRun, byNode: Snapshot, nodes: seq<NodeDef>, created: bool, now: Time) returns (reply: Result<()>)
      requires store.Keyed()
      modifies store
      ensures store.Keyed()
      ensures Advanced(store.View(), reply) == Finish(run, byNode, nodes, Walked(old(store.View()), created, Clean), "", now)
      ensures store.runs == old(store.runs) ||
              (run.id in store.runs && store.runs[run.id].status in {RunSucceeded, RunRunning} && store.runs[run.id].error == "")
    {
      if |nodes| == 0 {
        reply := store.SetPipelineRunStatus(run.id, run.revision, RunSucceeded, "", now);
        return;
      }
      if |byNode| == |nodes| {
        var all := IsAllSucceeded(byNode);
        if all {
          reply := store.SetPipelineRunStatus(run.id, run.revision, RunSucceeded, "", now);
          return;
        }
      }
      if created || run.status == RunPending {
        reply := store.SetPipelineRunStatus(run.id, run.revision, RunRunning, "", now);
        return;
      }
      reply := Ok(());
    }

    /** One pass over an open run of a registered definition; `cause` is what a failing mapper
        reports. */
    method AdvanceRun(run: PipelineRun, nodes: seq<NodeDef>, ids: Ids, cause: string, now: Time)
      returns (reply: Result<()>, ghost error: string)
      requires store.Keyed() && Listable(store.View()) && Topological(nodes) && FreshIds(store.View(), ids, 0, |nodes|)
      requires run.id in store.runs && store.runs[run.id] == run && !run.status.Terminal()
      requires Registered(registry, run) && nodes == NodesOf(registry, run)
      modifies store
      ensures store.Keyed()
      ensures Advanced(store.View(), reply) == Advance.AdvanceOnce(registry, old(store.View()), run.id, ids, error, now)
      ensures Explains(old(store.View()), run.id, nodes, cause, error)
      ensures Recorded(old(store.View()), store.View(), run.id, nodes, cause)
    {
      ghost var was := store.View();
      error := "";
      var items := store.ListRunExecutions(run.id);
      ListedApart(was, run.id, items);
      var byNode, outputs, broken := Rebuild(items);
      ListedBroken(was, run.id, items, byNode, broken);
      if broken.Some? {
        var text := "node " + broken.value.nodeKey + ": " + broken.value.lastError;
        error := text;
        reply := store.SetPipelineRunStatus(run.id, run.revision, RunFailed, text, now);
        return;
      }
      ListedIsSnap(was, run.id, items, byNode);
      var created, end, stop := StartDue(run, byNode, outputs, nodes, ids, now);
      match end {
        case MapperFailed =>
          var text := "build node " + nodes[stop].key + " input: " + cause;
          error := text;
          var stamped := store.SetPipelineRunStatus(run.id, run.revision, RunFailed, text, now);
          reply := Err(ErrMapper);
        case ReleaseFailed(e) =>
          error := Excuse(was, run, nodes, cause);
          reply := Err(e);
        case Clean =>
          error := Excuse(was, run, nodes, cause);
          reply := Conclude(run, byNode, nodes, created, now);
      }
    }

    method AdvanceOnce(r: Uuid, ids: Ids, cause: string, now: Time) returns (reply: Result<()>, ghost error: string)
      requires store.Keyed() && Listable(store.View()) && ValidRegistry(registry)
      requires r in store.runs ==> store.runs[r].id == r
      requires r in store.runs && Registered(registry, store.runs[r]) ==>
                 FreshIds(store.View(), ids, 0, |NodesOf(registry, store.runs[r])|)
      modifies store
      ensures store.Keyed()
      ensures Advanced(store.View(), reply) == Advance.AdvanceOnce(registry, old(store.View()), r, ids, error, now)
      ensures r in old(store.runs) && !old(store.runs[r]).status.Terminal() && Registered(registry, old(store.runs[r])) ==>
                && Explains(old(store.View()), r, NodesOf(registry, old(store.runs[r])), cause, error)
                && Recorded(old(store.View()), store.View(), r, NodesOf(registry, old(store.runs[r])), cause)
    {
      error := "";
      var read := store.GetPipelineRun(r);
      if read.Err? {
        return Err(read.error), error;
      }
      var run := read.value;
      if run.status == RunSucceeded || run.status == RunFailed || run.status == RunCancelled {
        return Ok(()), error;
      }
      if (run.pipelineName, run.pipelineVersion) !in registry {
        return Err(ErrNotRegistered), error;
      }
      var nodes := registry[(run.pipelineName, run.pipelineVersion)];
      reply, error := AdvanceRun(run, nodes, ids, cause, now);
    }

    /** Restarts a node with everything downstream of it, and then advances its run. */
    method RestartNode(item: Execution, nodes: seq<NodeDef>, ids: Ids, cause: string, now: Time)
      returns (reply: Result<Execution>, ghost error: string)
      requires store.Keyed() && Listable(store.View()) && ValidRegistry(registry)
      requires item.id in store.executions && store.executions[item.id] == item && item.runId.Some?
      requires item.runId.value in store.runs && store.runs[item.runId.value].id == item.runId.value
      requires Registered(registry, store.runs[item.runId.value]) && nodes == NodesOf(registry, store.runs[item.runId.value])
      requires FreshIds(store.View(), ids, 0, |nodes|)
      modifies store
      ensures store.Keyed()
      ensures NodeRestarted(registry, old(store.View()), store.View(), item, nodes, reply, ids, error, now)
    {
      error := "";
      ghost var was := store.View();
      var descendants, found := DescendantKeys(nodes, item.nodeKey);
      if !found {
        return Err(ErrNotRegistered), error;
      }
      var q := RestartSubgraph(item.runId.value, item.nodeKey, descendants, ZERO_TIME);
      ResetKeepsListable(was, q, now);
      var restarted := store.RestartPipelineSubgraph(q, now);
      if restarted.Err? {
        return restarted, error;
      }
      RestartKeepsIds(was, q, ids, |nodes|, now);
      RootIsItem(was, q, item, restarted.value, now);
      var advanced;
      advanced, error := AdvanceOnce(item.runId.value, ids, cause, now);
      if advanced.Err? {
        return Err(advanced.error), error;
      }
      reply := restarted;
    }

    method RestartExecution(id: Uuid, ids: Ids, cause: string, now: Time) returns (reply: Result<Execution>, ghost error: string)
      requires store.Keyed() && Listable(store.View()) && ValidRegistry(registry)
      requires forall r :: r in store.runs ==> store.runs[r].id == r
      requires IdsFor(registry, store.View(), ids) && FreshIds(store.View(), ids, 0, |ids|)
      modifies store
      ensures store.Keyed()
      ensures Restarted(registry, old(store.View()), store.View(), id, reply, ids, error, now)
    {
      error := "";
      var read := store.GetExecution(id);
      if read.Err? {
        return read, error;
      }
      var item := read.value;
      if item.runId.None? {
        reply := store.RestartExecution(id, ZERO_TIME, now);
        return;
      }
      var owner := store.GetPipelineRun(item.runId.value);
      if owner.Err? {
        return Err(owner.error), error;
      }
      var run := owner.value;
      if (run.pipelineName, run.pipelineVersion) !in registry {
        return Err(ErrNotRegistered), error;
      }
      reply, error := RestartNode(item, registry[(run.pipelineName, run.pipelineVersion)], ids, cause, now);
    }

    /** Cancels the unfinished deliveries of a run and then the run. */
    method CancelPipeline(r: Uuid, reason: string, now: Time) returns (reply: Result<()>, ghost items: seq<Execution>)
      requires store.Keyed()
      modifies store
      ensures store.Keyed()
      ensures r !in old(store.runs) ==> reply == Err(ErrNotFound) && store.View() == old(store.View())
      ensures r in old(store.runs) ==> reply == Ok(()) && M.AreExecutionsOf(old(store.executions), r, items)
      ensures r in old(store.runs) ==> store.View() == CancelRun(old(store.View()), r, items, reason, now)
      ensures r in old(store.runs) ==>
                r in store.runs && store.runs[r].status == RunCancelled && store.runs[r].error == reason && store.runs[r].finishedAt == Some(now)
    {
      items := [];
      var read := store.GetPipelineRun(r);
      if read.Err? {
        return Err(read.error), items;
      }
      var run := read.value;
      ghost var was := store.View();
      var listed := store.ListRunExecutions(r);
      items := listed;
      reply := CancelListed(r, listed, reason, now);
      if reply.Ok? {
        reply := store.SetPipelineRunStatus(r, run.revision, RunCancelled, reason, now);
      }
    }

    method CancelItem(item: Execution, reason: string, now: Time) returns (reply: Result<()>)
      requires store.Keyed()
      modifies store
      ensures store.Keyed() && store.View() == CancelOne(old(store.View()), item, reason, now)
      ensures reply == if item.status.Active() then Bare(TouchReply(old(store.View()), item.id, Cancel(reason), now)) else Ok(())
    {
      reply := Ok(());
      if item.status == Pending || item.status == Retry || item.status == Running {
        var cancelled := store.CancelExecution(item.id, reason, now);
        reply := Bare(cancelled);
      }
    }

    method CancelListed(r: Uuid, listed: seq<Execution>, reason: string, now: Time) returns (reply: Result<()>)
      requires store.Keyed() && M.AreExecutionsOf(store.executions, r, listed)
      modifies store
      ensures store.Keyed() && store.View() == CancelEach(old(store.View()), listed, |listed|, reason, now)
      ensures reply == Ok(()) && store.runs == old(store.runs)
    {
      ghost var was := store.View();
      reply := Ok(());
      var i := 0;
      while i < |listed| && reply.Ok?
        invariant 0 <= i <= |listed| && reply == Ok(())
        invariant store.Keyed() && store.View() == CancelEach(was, listed, i, reason, now)
      {
        NextCancelled(was, r, listed, i, reason, now);
        reply := CancelItem(listed[i], reason, now);
        i := i + 1;
      }
      CancelEachMeans(was, r, listed, |listed|, reason, now, r);
    }
  }

  /** Success or the error, without the value. */
  function Bare(r: Result<Execution>): Result<()> {
    match r
    case Ok(_) => Ok(())
    case Err(error) => Err(error)
  }

  lemma NextCancelled(s: Store, r: Uuid, items: seq<Execution>, n: nat, reason: string, now: Time)
    requires M.AreExecutionsOf(s.executions, r, items) && n < |items|
    ensures
      var mid := CancelEach(s, items, n, reason, now);
      && (items[n].status.Active() ==> TouchReply(mid, items[n].id, Cancel(reason), now).Ok?)
      && CancelEach(s, items, n + 1, reason, now) == CancelOne(mid, items[n], reason, now)
  {
    CancelEachMeans(s, r, items, n, reason, now, items[n].id);
    assert !Among(items, n, items[n].id);
  }

  /** What the restart of a node does: nothing if its definition lacks the node or some node of the
      subgraph is active, else the reset of the subgraph followed by an advance. */
  ghost predicate NodeRestarted(reg: Registry, s: Store, s': Store, item: Execution, nodes: seq<NodeDef>, reply: Result<Execution>,
                                ids: Ids, error: string, now: Time)
    requires item.runId.Some? && item.runId.value in s.runs && Registered(reg, s.runs[item.runId.value])
    requires nodes == NodesOf(reg, s.runs[item.runId.value]) && |nodes| <= |ids|
  {
    var r, q := item.runId.value, SubgraphOf(item.runId.value, item.nodeKey, nodes);
    if item.nodeKey !in KeysOf(nodes) then reply == Err(ErrNotRegistered) && s' == s
    else if RestartBusy(s, q) then reply == Err(ErrActive) && s' == s
    else
      var s1 := RestartNodes(s, q, now);
      && RestartAllowed(s, q)
      && var a := Advance.AdvanceOnce(reg, s1, r, ids, error, now);
      && s' == a.store
      && reply == if a.reply.Err? then Err(a.reply.error) else Ok(ResetRecord(item, q, now))
  }

  /** Enough generated ids for the nodes of any run. */
  ghost predicate IdsFor(reg: Registry, s: Store, ids: Ids) {
    forall r :: r in s.runs && Registered(reg, s.runs[r]) ==> |NodesOf(reg, s.runs[r])| <= |ids|
  }

  /** What a restart through the engine does. */
  ghost predicate Restarted(reg: Registry, s: Store, s': Store, id: Uuid, reply: Result<Execution>, ids: Ids, error: string, now: Time)
    requires IdsFor(reg, s, ids)
  {
    if id !in s.executions then reply == Err(ErrNotFound) && s' == s
    else
      var item := s.executions[id];
      if item.runId.None? then
        reply == TouchReply(s, id, Restart(ZERO_TIME), now) && s' == TouchRecord(s, id, Restart(ZERO_TIME), now)
      else if item.runId.value !in s.runs then reply == Err(ErrNotFound) && s' == s
      else if !Registered(reg, s.runs[item.runId.value]) then reply == Err(ErrNotRegistered) && s' == s
      else NodeRestarted(reg, s, s', item, NodesOf(reg, s.runs[item.runId.value]), reply, ids, error, now)
  }

  lemma ResetKeepsListable(s: Store, q: RestartSubgraph, now: Time)
    requires Listable(s)
    ensures Listable(RestartNodes(s, q, now))
  {
    if RestartAllowed(s, q) {
      var s' := RestartNodes(s, q, now);
      forall id | id in s.executions
        ensures id in s'.executions && SameIdentity(s.executions[id], s'.executions[id])
      {
      }
      RewriteKeepsNodes(s.executions, s'.executions, s.nodes);
    }
  }

  lemma RootIsItem(s: Store, q: RestartSubgraph, item: Execution, root: Execution, now: Time)
    requires Listable(s) && RestartAllowed(s, q) && item.id in s.executions && s.executions[item.id] == item
    requires item.runId == Some(q.runId) && item.nodeKey == q.root
    requires root.id in s.executions && RestartNodes(s, q, now).executions[root.id] == root
    requires root.runId == Some(q.runId) && root.nodeKey == q.root
    ensures root == ResetRecord(item, q, now)
  {
    assert NodeOf(item) == NodeOf(s.executions[root.id]);
  }

  /** A text that explains a walk that stopped nowhere or somewhere. */
  ghost function Excuse(s: Store, run: PipelineRun, nodes: seq<NodeDef>, cause: string): string {
    var j := Stop(Snap(s, run.id), nodes, run.input, 0, |nodes|);
    if j < |nodes| then "build node " + nodes[j].key + " input: " + cause else ""
  }

  /** The listing has a failed or cancelled item exactly when the run has such a node. */
  lemma ListedBroken(s: Store, r: Uuid, items: seq<Execution>, byNode: Snapshot, broken: Option<Execution>)
    requires Listable(s) && M.AreExecutionsOf(s.executions, r, items)
    requires broken.Some? ==> broken.value in items && BrokenItem(broken.value)
    requires broken.None? ==> ByKey(items, |items|, byNode) && forall j :: 0 <= j < |items| ==> !BrokenItem(items[j])
    ensures broken.Some? <==> AnyBroken(Snap(s, r))
    ensures
      var snap := Snap(s, r);
      broken.Some? ==> var k := broken.value.nodeKey; k in snap && Broken(snap, k) && snap[k] == broken.value
  {
    if broken.Some? {
      var e := broken.value;
      assert NodeOf(e) == (r, e.nodeKey);
      assert Node(s, r, e.nodeKey) == Some(e);
      SnapIsNodes(s, r, e.nodeKey);
    } else {
      ListedIsSnap(s, r, items, byNode);
      forall k | k in byNode
        ensures !Broken(byNode, k)
      {
        var j :| 0 <= j < |items| && items[j].nodeKey == k;
      }
    }
  }
}
