/** Restarting a pipeline node through the engine: the node and everything downstream of it start
    over, and nothing else does. */
module Restarting {
  import opened Model
  import opened Records
  import opened Storage
  import opened Definitions
  import opened Engine
  import opened CasSafety
  import opened Advance

  /** The restart of a node with all nodes downstream of it. */
  function SubgraphOf(r: Uuid, root: string, nodes: seq<NodeDef>): RestartSubgraph {
    RestartSubgraph(r, root, Descendants(nodes, root), ZERO_TIME)
  }

  lemma LastEdge(nodes: seq<NodeDef>, root: string, j: nat) returns (d: string)
    requires Topological(nodes) && j < |nodes| && Reaches(nodes, root, nodes[j].key)
    ensures d in Deps(nodes[j]) && (d == root || Reaches(nodes, root, d))
  {
    var path :| IsPath(nodes, path) && path[0] == root && path[|path| - 1] == nodes[j].key;
    var n := |path| - 2;
    d := path[n];
    assert Edge(nodes, path[n], path[n + 1]);
    DistinctKeys(nodes);
    if n > 0 {
      assert IsPath(nodes, path[..n + 1]);
    }
  }

  lemma ResetKeepsShape(reg: Registry, s: Store, q: RestartSubgraph, now: Time, e: Execution)
    requires Shaped(reg, s, e) && RestartAllowed(s, q)
    ensures Shaped(reg, RestartNodes(s, q, now), ResetRecord(e, q, now))
  {
  }

  lemma RestartKeepsShapes(reg: Registry, s: Store, q: RestartSubgraph, now: Time)
    requires ShapedStore(reg, s) && RestartAllowed(s, q)
    ensures ShapedStore(reg, RestartNodes(s, q, now))
  {
    forall id | id in s.executions
      ensures Shaped(reg, RestartNodes(s, q, now), ResetRecord(s.executions[id], q, now))
    {
      ResetKeepsShape(reg, s, q, now, s.executions[id]);
    }
  }

  lemma RestartKeepsRunnable(reg: Registry, s: Store, r: Uuid, q: RestartSubgraph, now: Time)
    requires Runnable(reg, s, r)
    ensures Runnable(reg, RestartNodes(s, q, now), r)
    ensures NodesIn(reg, RestartNodes(s, q, now), r) == NodesIn(reg, s, r)
  {
    SubgraphKeepsValid(s, q, now);
    if RestartAllowed(s, q) {
      RestartKeepsShapes(reg, s, q, now);
    }
  }

  /** Where the restart leaves a node before the engine advances the run. */
  /** A permitted subgraph restart, field by field: the root is pending and the named descendants are
      blocked, each as if never delivered; every other execution stands, and the run is open again. */
  lemma SubgraphMeans(s: Store, q: RestartSubgraph, now: Time, id: Uuid)
    requires RestartAllowed(s, q) && id in s.executions
    ensures
      var e, s' := s.executions[id], RestartNodes(s, q, now);
      && id in s'.executions
      && s'.executions[id] ==
         (if e.runId != Some(q.runId) || (e.nodeKey != q.root && e.nodeKey !in q.descendants) then e
          else e.(status := if e.nodeKey == q.root then Pending else Blocked, attempt := 0,
                  availableAt := if q.availableAt == ZERO_TIME then now else q.availableAt,
                  output := "", lastError := "", startedAt := None, finishedAt := None,
                  leaseOwner := "", leaseToken := NIL, leaseUntil := ZERO_TIME))
      && s'.runs == s.runs[q.runId := s.runs[q.runId].(status := RunRunning, error := "", finishedAt := None, updatedAt := now,
                                                       revision := s.runs[q.runId].revision + 1)]
  {
  }

  predicate ResetAt(s: Store, s1: Store, r: Uuid, nodes: seq<NodeDef>, root: string, k: string, now: Time) {
    var n, n1 := Node(s, r, k), Node(s1, r, k);
    if n.None? then n1.None?
    else if k == root then n1 == Some(Reset(n.value, Pending, now))
    else if k in Descendants(nodes, root) then n1 == Some(Reset(n.value, Blocked, now))
    else n1 == n
  }

  ghost predicate AllReset(s: Store, s1: Store, r: Uuid, nodes: seq<NodeDef>, root: string, now: Time) {
    forall k :: ResetAt(s, s1, r, nodes, root, k, now)
  }

  lemma RestartResets(s: Store, r: Uuid, nodes: seq<NodeDef>, root: string, now: Time)
    requires Valid(s) && RestartAllowed(s, SubgraphOf(r, root, nodes))
    ensures AllReset(s, RestartNodes(s, SubgraphOf(r, root, nodes), now), r, nodes, root, now)
  {
    forall k
      ensures ResetAt(s, RestartNodes(s, SubgraphOf(r, root, nodes), now), r, nodes, root, k, now)
    {
      NodeAfterSubgraph(s, SubgraphOf(r, root, nodes), now, r, k);
      if Node(s, r, k).Some? {
        NodeIdentity(s, r, k);
      }
    }
  }

  /** A node downstream of the restarted one is not due: something it depends on starts over. */
  lemma DownstreamWaits(s: Store, s1: Store, r: Uuid, nodes: seq<NodeDef>, root: string, j: nat, now: Time)
    requires Topological(nodes) && j < |nodes| && Reaches(nodes, root, nodes[j].key)
    requires AllReset(s, s1, r, nodes, root, now)
    ensures !Due(Snap(s1, r), nodes[j])
  {
    var d := LastEdge(nodes, root, j);
    DescendantsAreReachable(nodes, root, d);
    DependencyIsKey(nodes, j, d);
    assert Placed(nodes, Position(nodes, d));
    assert ResetAt(s, s1, r, nodes, root, d, now);
    SnapIsNodes(s1, r, d);
  }

  lemma RootFound(s: Store, r: Uuid, root: string, q: RestartSubgraph)
    requires Valid(s) && RestartFound(s, q) && q.runId == r && q.root == root && root != ""
    ensures Node(s, r, root).Some?
  {
    var id :| id in s.executions && s.executions[id].runId == Some(r) && s.executions[id].nodeKey == root;
    assert NodeOf(s.executions[id]) == (r, root);
  }

  // ---------------------------------------------------------------------------------------------
  // The rest of the run

  /** Neither the restarted node nor downstream of it. */
  ghost predicate Elsewhere(nodes: seq<NodeDef>, root: string, k: string) {
    k != root && !Reaches(nodes, root, k)
  }

  predicate IsBroken(n: Option<Execution>) {
    n.Some? && (n.value.status.Failed? || n.value.status.Cancelled?)
  }

  /** Some other node is failed or cancelled. */
  ghost predicate BrokenElsewhere(s: Store, r: Uuid, nodes: seq<NodeDef>, root: string) {
    exists j :: 0 <= j < |nodes| && Elsewhere(nodes, root, nodes[j].key) && IsBroken(Node(s, r, nodes[j].key))
  }

  /** Another node that is due. */
  ghost predicate DueElsewhere(s: Store, r: Uuid, n: NodeDef, nodes: seq<NodeDef>, root: string) {
    Elsewhere(nodes, root, n.key) && Due(Snap(s, r), n)
  }

  /** Another node that is due but whose mapper fails. */
  ghost predicate FailsElsewhere(s: Store, r: Uuid, input: Json, n: NodeDef, nodes: seq<NodeDef>, root: string) {
    DueElsewhere(s, r, n, nodes, root) && Built(Snap(s, r), n, input).None?
  }

  /** Another node that a restart starts along with the root: nothing else is broken, it is due, and
      no mapper fails up to it. */
  ghost predicate StartsAlong(s: Store, r: Uuid, input: Json, nodes: seq<NodeDef>, root: string, j: nat)
    requires j < |nodes|
  {
    && !BrokenElsewhere(s, r, nodes, root) && DueElsewhere(s, r, nodes[j], nodes, root)
    && forall i :: 0 <= i <= j ==> !FailsElsewhere(s, r, input, nodes[i], nodes, root)
  }

  /** The run fails over something the restart does not touch. */
  ghost predicate FailsAnyway(s: Store, r: Uuid, input: Json, nodes: seq<NodeDef>, root: string) {
    || BrokenElsewhere(s, r, nodes, root)
    || exists j :: 0 <= j < |nodes| && FailsElsewhere(s, r, input, nodes[j], nodes, root)
  }

  /** What an engine restart does to one node, from the store it found. */
  ghost predicate RestartedAt(s: Store, s': Store, r: Uuid, input: Json, nodes: seq<NodeDef>, root: string, j: nat, now: Time)
    requires j < |nodes|
  {
    var n, n' := Node(s, r, nodes[j].key), Node(s', r, nodes[j].key);
    if nodes[j].key == root then n.Some? && n' == Some(Reset(n.value, Pending, now))
    else if Reaches(nodes, root, nodes[j].key) then n' == if n.Some? then Some(Reset(n.value, Blocked, now)) else None
    else if StartsAlong(s, r, input, nodes, root, j) then
      Built(Snap(s, r), nodes[j], input).Some? && Begun(n', Built(Snap(s, r), nodes[j], input).value)
    else n' == n
  }

  /** A node elsewhere is left alone, and so is everything it depends on. */
  lemma ElsewhereStays(s: Store, s1: Store, r: Uuid, nodes: seq<NodeDef>, root: string, k: string, now: Time)
    requires Topological(nodes) && Elsewhere(nodes, root, k) && AllReset(s, s1, r, nodes, root, now)
    ensures Node(s1, r, k) == Node(s, r, k)
    ensures k != "" ==> (k in Snap(s1, r) <==> k in Snap(s, r)) && (k in Snap(s, r) ==> Snap(s1, r)[k] == Snap(s, r)[k])
  {
    assert ResetAt(s, s1, r, nodes, root, k, now);
    DescendantsAreReachable(nodes, root, k);
    if k != "" {
      SnapIsNodes(s, r, k);
      SnapIsNodes(s1, r, k);
    }
  }

  lemma DependencyElsewhere(nodes: seq<NodeDef>, root: string, j: nat, d: string)
    requires Topological(nodes) && j < |nodes| && Elsewhere(nodes, root, nodes[j].key) && d in Deps(nodes[j])
    ensures Elsewhere(nodes, root, d) && d != ""
  {
    assert Edge(nodes, d, nodes[j].key);
    if !Elsewhere(nodes, root, d) {
      ReachesOneMore(nodes, root, d, nodes[j].key);
    }
    DependencyIsKey(nodes, j, d);
    assert Placed(nodes, Position(nodes, d));
  }

  /** The same dependencies make a node ready, with the same input. */
  lemma SameReadiness(snap: Snapshot, snap1: Snapshot, n: NodeDef, input: Json)
    requires n.key in snap1 <==> n.key in snap
    requires n.key in snap ==> snap1[n.key] == snap[n.key]
    requires forall d :: d in Deps(n) ==> (d in snap1 <==> d in snap) && (d in snap ==> snap1[d] == snap[d])
    ensures Due(snap1, n) <==> Due(snap, n)
    ensures Due(snap, n) ==> Built(snap1, n, input) == Built(snap, n, input)
  {
    if Due(snap, n) {
      InputFromDependencies(n, input, Outputs(snap1), Outputs(snap));
    }
  }

  /** After the reset exactly the nodes elsewhere that were due are due, with the same input. */
  lemma DueAfterReset(s: Store, s1: Store, r: Uuid, input: Json, nodes: seq<NodeDef>, root: string, j: nat, now: Time)
    requires Topological(nodes) && j < |nodes| && Node(s, r, root).Some? && AllReset(s, s1, r, nodes, root, now)
    ensures Due(Snap(s1, r), nodes[j]) <==> DueElsewhere(s, r, nodes[j], nodes, root)
    ensures Due(Snap(s1, r), nodes[j]) ==> Built(Snap(s1, r), nodes[j], input) == Built(Snap(s, r), nodes[j], input)
  {
    var k := nodes[j].key;
    assert Placed(nodes, j);
    if Elsewhere(nodes, root, k) {
      ElsewhereStays(s, s1, r, nodes, root, k, now);
      forall d | d in Deps(nodes[j])
        ensures (d in Snap(s1, r) <==> d in Snap(s, r)) && (d in Snap(s, r) ==> Snap(s1, r)[d] == Snap(s, r)[d])
      {
        DependencyElsewhere(nodes, root, j, d);
        ElsewhereStays(s, s1, r, nodes, root, d, now);
      }
      SameReadiness(Snap(s, r), Snap(s1, r), nodes[j], input);
    } else if k == root {
      assert ResetAt(s, s1, r, nodes, root, k, now);
      SnapIsNodes(s1, r, k);
    } else {
      DownstreamWaits(s, s1, r, nodes, root, j, now);
    }
  }

  lemma BrokenAfterReset(s: Store, s1: Store, r: Uuid, nodes: seq<NodeDef>, root: string, now: Time)
    requires Topological(nodes) && AllReset(s, s1, r, nodes, root, now)
    requires Snap(s1, r).Keys <= KeysOf(nodes)
    ensures AnyBroken(Snap(s1, r)) <==> BrokenElsewhere(s, r, nodes, root)
  {
    var snap1 := Snap(s1, r);
    if AnyBroken(snap1) {
      var k :| k in snap1 && Broken(snap1, k);
      var j := Position(nodes, k);
      assert Placed(nodes, j);
      SnapIsNodes(s1, r, k);
      assert ResetAt(s, s1, r, nodes, root, k, now);
      DescendantsAreReachable(nodes, root, k);
      assert Elsewhere(nodes, root, nodes[j].key) && IsBroken(Node(s, r, nodes[j].key));
    }
    if BrokenElsewhere(s, r, nodes, root) {
      var j :| 0 <= j < |nodes| && Elsewhere(nodes, root, nodes[j].key) && IsBroken(Node(s, r, nodes[j].key));
      assert Placed(nodes, j);
      ElsewhereStays(s, s1, r, nodes, root, nodes[j].key, now);
      SnapIsNodes(s1, r, nodes[j].key);
      assert Broken(snap1, nodes[j].key);
    }
  }

  /** The first mapper to fail, seen from the store before the reset. */
  lemma StopAfterReset(s: Store, s1: Store, r: Uuid, input: Json, nodes: seq<NodeDef>, root: string, j: nat, now: Time)
    requires Topological(nodes) && Node(s, r, root).Some? && AllReset(s, s1, r, nodes, root, now) && j <= |nodes|
    ensures j <= Stop(Snap(s1, r), nodes, input, 0, |nodes|) <==>
            forall i :: 0 <= i < j ==> !FailsElsewhere(s, r, input, nodes[i], nodes, root)
  {
    var stop := Stop(Snap(s1, r), nodes, input, 0, |nodes|);
    forall i | 0 <= i < |nodes|
      ensures FailsElsewhere(s, r, input, nodes[i], nodes, root) <==>
              Due(Snap(s1, r), nodes[i]) && Built(Snap(s1, r), nodes[i], input).None?
    {
      DueAfterReset(s, s1, r, input, nodes, root, i, now);
    }
    if stop < j {
      assert FailsElsewhere(s, r, input, nodes[stop], nodes, root);
    }
  }

  /** The nodes the advance after a reset starts are the ones that start along with the root. */
  lemma BeginsAfterReset(s: Store, s1: Store, run: PipelineRun, nodes: seq<NodeDef>, root: string, j: nat, now: Time)
    requires Topological(nodes) && Node(s, run.id, root).Some? && AllReset(s, s1, run.id, nodes, root, now)
    requires Snap(s1, run.id).Keys <= KeysOf(nodes) && j < |nodes|
    ensures Begins(s1, run, nodes, j) <==> StartsAlong(s, run.id, run.input, nodes, root, j)
  {
    BrokenAfterReset(s, s1, run.id, nodes, root, now);
    DueAfterReset(s, s1, run.id, run.input, nodes, root, j, now);
    StopAfterReset(s, s1, run.id, run.input, nodes, root, j + 1, now);
  }

  lemma RestartedNode(s: Store, s1: Store, s': Store, run: PipelineRun, nodes: seq<NodeDef>, root: string, j: nat, now: Time)
    requires Topological(nodes) && j < |nodes| && Node(s, run.id, root).Some?
    requires AllReset(s, s1, run.id, nodes, root, now) && Snap(s1, run.id).Keys <= KeysOf(nodes)
    requires AdvancedAt(s1, s', run, nodes, j)
    ensures RestartedAt(s, s', run.id, run.input, nodes, root, j, now)
  {
    assert ResetAt(s, s1, run.id, nodes, root, nodes[j].key, now);
    DescendantsAreReachable(nodes, root, nodes[j].key);
    BeginsAfterReset(s, s1, run, nodes, root, j, now);
    DueAfterReset(s, s1, run.id, run.input, nodes, root, j, now);
  }

  lemma OutcomeAfterReset(s: Store, s1: Store, run: PipelineRun, nodes: seq<NodeDef>, root: string, now: Time)
    requires Topological(nodes) && root in KeysOf(nodes) && Node(s, run.id, root).Some?
    requires AllReset(s, s1, run.id, nodes, root, now) && Snap(s1, run.id).Keys <= KeysOf(nodes)
    ensures Outcome(s1, run, nodes) == if FailsAnyway(s, run.id, run.input, nodes, root) then RunFailed else RunRunning
  {
    BrokenAfterReset(s, s1, run.id, nodes, root, now);
    StopAfterReset(s, s1, run.id, run.input, nodes, root, |nodes|, now);
    var j := Position(nodes, root);
    assert ResetAt(s, s1, run.id, nodes, root, nodes[j].key, now);
  }

  /** An engine restart that is allowed: the reset, and then one advance. */
  ghost function EngineRestart(reg: Registry, s: Store, r: Uuid, root: string, ids: Ids, error: string, now: Time): Advanced
    requires Runnable(reg, s, r) && |NodesIn(reg, s, r)| <= |ids|
  {
    var nodes := NodesIn(reg, s, r);
    RestartKeepsRunnable(reg, s, r, SubgraphOf(r, root, nodes), now);
    AdvanceOnce(reg, RestartNodes(s, SubgraphOf(r, root, nodes), now), r, ids, error, now)
  }

  /** The store a restart leaves for the advance. */
  ghost predicate Reopened(reg: Registry, s: Store, s1: Store, r: Uuid, nodes: seq<NodeDef>, root: string, ids: Ids, now: Time) {
    && Runnable(reg, s1, r) && NodesIn(reg, s1, r) == nodes && !s1.runs[r].status.Terminal()
    && FreshIds(s1, ids, 0, |nodes|)
    && Node(s, r, root).Some? && AllReset(s, s1, r, nodes, root, now)
  }

  lemma KeyNotEmpty(nodes: seq<NodeDef>, k: string)
    requires Topological(nodes) && k in KeysOf(nodes)
    ensures k != ""
  {
    assert Placed(nodes, Position(nodes, k));
  }

  lemma RestartKeepsIds(s: Store, q: RestartSubgraph, ids: Ids, n: nat, now: Time)
    requires RestartAllowed(s, q) && FreshIds(s, ids, 0, n)
    ensures FreshIds(RestartNodes(s, q, now), ids, 0, n)
    ensures q.runId in RestartNodes(s, q, now).runs && !RestartNodes(s, q, now).runs[q.runId].status.Terminal()
  {
  }

  lemma RestartReopens(reg: Registry, s: Store, r: Uuid, root: string, ids: Ids, now: Time)
    requires Runnable(reg, s, r) && FreshIds(s, ids, 0, |NodesIn(reg, s, r)|)
    requires root in KeysOf(NodesIn(reg, s, r)) && RestartAllowed(s, SubgraphOf(r, root, NodesIn(reg, s, r)))
    ensures Reopened(reg, s, RestartNodes(s, SubgraphOf(r, root, NodesIn(reg, s, r)), now), r, NodesIn(reg, s, r), root, ids, now)
  {
    var nodes := NodesIn(reg, s, r);
    var q := SubgraphOf(r, root, nodes);
    RestartKeepsRunnable(reg, s, r, q, now);
    RestartKeepsIds(s, q, ids, |nodes|, now);
    KeyNotEmpty(nodes, root);
    RootFound(s, r, root, q);
    RestartResets(s, r, nodes, root, now);
  }

  lemma ReopenedAdvances(reg: Registry, s: Store, s1: Store, r: Uuid, nodes: seq<NodeDef>, root: string, ids: Ids, error: string, now: Time)
    requires Reopened(reg, s, s1, r, nodes, root, ids, now) && root in KeysOf(nodes)
    ensures
      var s', input := AdvanceOnce(reg, s1, r, ids, error, now).store, s1.runs[r].input;
      && (forall j :: 0 <= j < |nodes| ==> RestartedAt(s, s', r, input, nodes, root, j, now))
      && r in s'.runs && s'.runs[r].status == (if FailsAnyway(s, r, input, nodes, root) then RunFailed else RunRunning)
  {
    var s', run := AdvanceOnce(reg, s1, r, ids, error, now).store, s1.runs[r];
    AdvanceMeans(reg, s1, r, ids, error, now);
    SnapWithin(reg, s1, r);
    forall j | 0 <= j < |nodes|
      ensures RestartedAt(s, s', r, run.input, nodes, root, j, now)
    {
      RestartedNode(s, s1, s', run, nodes, root, j, now);
    }
    OutcomeAfterReset(s, s1, run, nodes, root, now);
  }

  lemma ReopenKeepsInput(s: Store, q: RestartSubgraph, now: Time)
    requires RestartAllowed(s, q)
    ensures RestartNodes(s, q, now).runs[q.runId].input == s.runs[q.runId].input
  {
  }

  /** Restarting a node through the engine. The node starts over; every existing node that can be
      reached from it is blocked with its result discarded, until its dependencies succeed anew; any
      other node is started if it is due, with the input its dependencies give it, and left as it is
      otherwise. The run fails if and only if another node is failed or cancelled, or another node is
      due and its mapper fails; otherwise it is running. */
  lemma RestartMeans(reg: Registry, s: Store, r: Uuid, root: string, ids: Ids, error: string, now: Time)
    requires Runnable(reg, s, r) && FreshIds(s, ids, 0, |NodesIn(reg, s, r)|)
    requires root in KeysOf(NodesIn(reg, s, r)) && RestartAllowed(s, SubgraphOf(r, root, NodesIn(reg, s, r)))
    ensures
      var nodes, input, s' := NodesIn(reg, s, r), s.runs[r].input, EngineRestart(reg, s, r, root, ids, error, now).store;
      && (forall j :: 0 <= j < |nodes| ==> RestartedAt(s, s', r, input, nodes, root, j, now))
      && r in s'.runs && s'.runs[r].status == (if FailsAnyway(s, r, input, nodes, root) then RunFailed else RunRunning)
  {
    var nodes := NodesIn(reg, s, r);
    var q := SubgraphOf(r, root, nodes);
    RestartReopens(reg, s, r, root, ids, now);
    ReopenKeepsInput(s, q, now);
    ReopenedAdvances(reg, s, RestartNodes(s, q, now), r, nodes, root, ids, error, now);
  }
}
