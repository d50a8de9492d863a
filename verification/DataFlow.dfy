/** Data flow through a run: a node that is delivered has the input its dependencies' current
    outputs give it. */
module DataFlow {
  import opened Model
  import opened Records
  import opened Storage
  import opened Definitions
  import opened Engine

  predicate IsSucceeded(n: Option<Execution>) {
    n.Some? && n.value.status.Succeeded?
  }

  function DepOutputs(s: Store, r: Uuid, n: NodeDef): map<string, Json> {
    map d | d in Deps(n) && Node(s, r, d).Some? :: Node(s, r, d).value.output
  }

  /** This input is the one the definition gives the node now: all its dependencies have succeeded,
      and its mapper makes this input of the run input and their outputs. */
  predicate Grounded(s: Store, run: PipelineRun, n: NodeDef, input: Json) {
    && (forall d :: d in Deps(n) ==> IsSucceeded(Node(s, run.id, d)))
    && BuildInput(n, run.input, DepOutputs(s, run.id, n)) == Some(input)
  }

  predicate NodeFlows(s: Store, run: PipelineRun, n: NodeDef) {
    var e := Node(s, run.id, n.key);
    e.Some? && !e.value.status.Blocked? ==> Grounded(s, run, n, e.value.input)
  }

  predicate Flows(s: Store, run: PipelineRun, nodes: seq<NodeDef>) {
    forall i :: 0 <= i < |nodes| ==> NodeFlows(s, run, nodes[i])
  }

  /** The guard a step must meet at one node: whatever makes an execution deliverable, or ends a
      blocked one, must find the node grounded. */
  ghost predicate Tame(s: Store, step: Step, run: PipelineRun, n: NodeDef) {
    var e := Node(s, run.id, n.key);
    match step
    case Create(q, _) =>
      q.taskName != "" && q.runId == Some(run.id) && q.nodeKey == n.key && Existing(s, q).None? ==>
        Grounded(s, run, n, q.input)
    case Touch(id, op) =>
      e.Some? && e.value.id == id && e.value.status.Blocked? ==>
        && (op.Release? ==> Grounded(s, run, n, op.input))
        && (op.Cancel? ==> Grounded(s, run, n, e.value.input))
    case Subgraph(q) =>
      RestartAllowed(s, q) && q.runId == run.id && q.root == n.key && e.Some? && e.value.status.Blocked? ==>
        Grounded(s, run, n, e.value.input)
    case _ => true
  }

  /** Restarts name the descendants the definition has. */
  predicate Compiled(step: Step, r: Uuid, nodes: seq<NodeDef>) {
    step.Subgraph? && step.restart.runId == r ==>
      step.restart.root in KeysOf(nodes) && step.restart.descendants == Descendants(nodes, step.restart.root)
  }

  predicate SameNode(a: Option<Execution>, b: Option<Execution>) {
    IsSucceeded(a) == IsSucceeded(b) && (IsSucceeded(a) ==> a.value.output == b.value.output)
  }

  lemma GroundedByDependencies(s: Store, s': Store, run: PipelineRun, n: NodeDef, input: Json)
    requires forall d :: d in Deps(n) ==> SameNode(Node(s, run.id, d), Node(s', run.id, d))
    ensures Grounded(s, run, n, input) <==> Grounded(s', run, n, input)
  {
    if forall d :: d in Deps(n) ==> IsSucceeded(Node(s, run.id, d)) {
      InputFromDependencies(n, run.input, DepOutputs(s, run.id, n), DepOutputs(s', run.id, n));
    }
  }

  /** A restart resets a dependency of a node only if it blocks that node. */
  lemma ResetReachesDependents(nodes: seq<NodeDef>, i: nat, d: string, q: RestartSubgraph)
    requires Topological(nodes) && i < |nodes| && d in Deps(nodes[i])
    requires q.root in KeysOf(nodes) && q.descendants == Descendants(nodes, q.root)
    requires d == q.root || d in q.descendants
    ensures nodes[i].key in q.descendants && nodes[i].key != q.root
  {
    var k := nodes[i].key;
    assert Edge(nodes, d, k);
    if d != q.root {
      DescendantsAreReachable(nodes, q.root, d);
    }
    ReachesOneMore(nodes, q.root, d, k);
    Acyclic(nodes, q.root, k);
    DescendantsAreReachable(nodes, q.root, k);
  }

  lemma DependencyIsOther(nodes: seq<NodeDef>, i: nat, d: string)
    requires Topological(nodes) && i < |nodes| && d in Deps(nodes[i])
    ensures d != nodes[i].key && d != ""
  {
    assert Placed(nodes, i);
    var j :| 0 <= j < i && nodes[..i][j].key == d;
    assert Placed(nodes, j);
  }

  // ---------------------------------------------------------------------------------------------
  // One step

  lemma RecordMove(e: Execution, op: RecordOp, now: Time)
    requires e.runId.Some? && Apply(e, op, now).Done?
    ensures
      var e' := Apply(e, op, now).record;
      && (e.status.Blocked? ==> op.Release? || op.Cancel?)
      && (op.Release? ==> e.status.Blocked? && e'.input == op.input && e'.status.Pending?)
      && (!op.Release? ==> e'.input == e.input && !e'.status.Blocked?)
      && !e.status.Succeeded?
  {
  }

  lemma ExistingNode(s: Store, q: CreateExecution, r: Uuid, k: string)
    requires Valid(s) && q.runId == Some(r) && q.nodeKey == k && k != "" && Node(s, r, k).Some?
    ensures Existing(s, q).Some?
  {
  }

  lemma TouchedDependency(s: Store, id: Uuid, op: RecordOp, now: Time, run: PipelineRun, n: NodeDef, d: string)
    requires NodeFlows(s, run, n) && d in Deps(n)
    requires Node(s, run.id, d).Some? ==> Node(s, run.id, d).value.runId.Some?
    requires Node(s, run.id, d).Some? && Node(s, run.id, n.key).Some? ==>
               Node(s, run.id, d).value.id != Node(s, run.id, n.key).value.id
    ensures
      || SameNode(Node(s, run.id, d), NodeNext(s, Touch(id, op), now, run.id, d))
      || (Unstarted(NodeNext(s, Touch(id, op), now, run.id, n.key)) && Tame(s, Touch(id, op), run, n))
  {
    var e := Node(s, run.id, d);
    if e.Some? && e.value.id == id && Apply(e.value, op, now).Done? {
      RecordMove(e.value, op, now);
      assert !IsSucceeded(e);
    }
  }

  lemma ResetDependency(s: Store, q: RestartSubgraph, now: Time, run: PipelineRun, nodes: seq<NodeDef>, i: nat, d: string)
    requires Topological(nodes) && Compiled(Subgraph(q), run.id, nodes)
    requires i < |nodes| && d in Deps(nodes[i])
    requires Node(s, run.id, d).Some? ==> Node(s, run.id, d).value.runId == Some(run.id) && Node(s, run.id, d).value.nodeKey == d
    requires
      var e := Node(s, run.id, nodes[i].key);
      e.Some? ==> e.value.runId == Some(run.id) && e.value.nodeKey == nodes[i].key
    ensures
      || SameNode(Node(s, run.id, d), NodeNext(s, Subgraph(q), now, run.id, d))
      || (Unstarted(NodeNext(s, Subgraph(q), now, run.id, nodes[i].key)) && Tame(s, Subgraph(q), run, nodes[i]))
  {
    var e := Node(s, run.id, d);
    if e.Some? && RestartAllowed(s, q) && ResetTo(e.value, q).Some? {
      ResetReachesDependents(nodes, i, d, q);
    }
  }

  /** What a step does to a dependency and its dependent: the dependency's result stands, or the
      dependent is waiting afterwards. */
  lemma DependencyMoves(s: Store, step: Step, now: Time, run: PipelineRun, nodes: seq<NodeDef>, i: nat, d: string)
    requires Valid(s) && Topological(nodes) && Compiled(step, run.id, nodes)
    requires i < |nodes| && d in Deps(nodes[i]) && NodeFlows(s, run, nodes[i])
    ensures
      || SameNode(Node(s, run.id, d), NodeNext(s, step, now, run.id, d))
      || (Unstarted(NodeNext(s, step, now, run.id, nodes[i].key)) && Tame(s, step, run, nodes[i]))
  {
    DependencyIsOther(nodes, i, d);
    if Node(s, run.id, d).Some? {
      NodeIdentity(s, run.id, d);
    }
    if Node(s, run.id, nodes[i].key).Some? {
      NodeIdentity(s, run.id, nodes[i].key);
    }
    match step
    case Create(q, _) =>
      if Node(s, run.id, d).Some? && q.runId == Some(run.id) && q.nodeKey == d {
        ExistingNode(s, q, run.id, d);
      }
    case Touch(id, op) => TouchedDependency(s, id, op, now, run, nodes[i], d);
    case Subgraph(q) => ResetDependency(s, q, now, run, nodes, i, d);
    case _ =>
  }

  ghost predicate SameGround(s: Store, s': Store, run: PipelineRun, n: NodeDef) {
    forall input :: Grounded(s, run, n, input) <==> Grounded(s', run, n, input)
  }

  lemma TouchItself(s: Store, id: Uuid, op: RecordOp, now: Time, run: PipelineRun, n: NodeDef, s': Store)
    requires NodeFlows(s, run, n) && SameGround(s, s', run, n)
    requires Node(s, run.id, n.key).Some? ==> Node(s, run.id, n.key).value.runId.Some?
    requires Node(s', run.id, n.key) == NodeNext(s, Touch(id, op), now, run.id, n.key)
    ensures NodeFlows(s', run, n) <==> Tame(s, Touch(id, op), run, n)
  {
    var e := Node(s, run.id, n.key);
    if e.Some? && e.value.id == id {
      if Apply(e.value, op, now).Done? {
        RecordMove(e.value, op, now);
      } else {
        assert e.value.status.Blocked? ==> !op.Release? && !op.Cancel?;
      }
    }
  }

  lemma CreateItself(s: Store, step: Step, now: Time, run: PipelineRun, n: NodeDef, s': Store)
    requires step.Create? && NodeFlows(s, run, n) && SameGround(s, s', run, n)
    requires Node(s', run.id, n.key) == NodeNext(s, step, now, run.id, n.key)
    ensures NodeFlows(s', run, n) <==> Tame(s, step, run, n)
  {
  }

  lemma RestartItself(s: Store, q: RestartSubgraph, now: Time, run: PipelineRun, n: NodeDef, s': Store)
    requires NodeFlows(s, run, n) && SameGround(s, s', run, n)
    requires
      var e := Node(s, run.id, n.key);
      e.Some? ==> e.value.runId == Some(run.id) && e.value.nodeKey == n.key
    requires Node(s', run.id, n.key) == NodeNext(s, Subgraph(q), now, run.id, n.key)
    ensures NodeFlows(s', run, n) <==> Tame(s, Subgraph(q), run, n)
  {
  }

  lemma NodeItself(s: Store, step: Step, now: Time, run: PipelineRun, n: NodeDef, s': Store)
    requires Valid(s) && NodeFlows(s, run, n) && SameGround(s, s', run, n)
    requires Node(s', run.id, n.key) == NodeNext(s, step, now, run.id, n.key)
    ensures NodeFlows(s', run, n) <==> Tame(s, step, run, n)
  {
    if Node(s, run.id, n.key).Some? {
      NodeIdentity(s, run.id, n.key);
    }
    match step
    case Create(_, _) => CreateItself(s, step, now, run, n, s');
    case Touch(id, op) => TouchItself(s, id, op, now, run, n, s');
    case Subgraph(q) => RestartItself(s, q, now, run, n, s');
    case _ =>
  }

  lemma NodeKeptExactly(s: Store, step: Step, now: Time, run: PipelineRun, nodes: seq<NodeDef>, i: nat)
    requires Valid(s) && Fresh(s, step) && Orderly(s, step) && step != DropRun(run.id)
    requires Topological(nodes) && Compiled(step, run.id, nodes) && i < |nodes|
    requires NodeFlows(s, run, nodes[i])
    ensures NodeFlows(Do(s, step, now), run, nodes[i]) <==> Tame(s, step, run, nodes[i])
  {
    var n, s' := nodes[i], Do(s, step, now);
    assert Placed(nodes, i);
    NodeAfter(s, step, now, run.id, n.key);
    if d :| d in Deps(n) && !SameNode(Node(s, run.id, d), NodeNext(s, step, now, run.id, d)) {
      DependencyMoves(s, step, now, run, nodes, i, d);
    } else {
      forall d | d in Deps(n)
        ensures SameNode(Node(s, run.id, d), Node(s', run.id, d))
      {
        DependencyIsOther(nodes, i, d);
        NodeAfter(s, step, now, run.id, d);
      }
      forall input
        ensures Grounded(s, run, n, input) <==> Grounded(s', run, n, input)
      {
        GroundedByDependencies(s, s', run, n, input);
      }
      NodeItself(s, step, now, run, n, s');
    }
  }

  /** Exactly when a step keeps the data flow of a run: at every node it must meet the guard. The
      store itself checks only part of it, so a creation or release decided on an outdated list, a
      cancellation of a blocked node and a restart of one can each break the flow. */
  lemma FlowKeptExactly(s: Store, step: Step, now: Time, run: PipelineRun, nodes: seq<NodeDef>)
    requires Valid(s) && Fresh(s, step) && Orderly(s, step) && step != DropRun(run.id)
    requires Topological(nodes) && Compiled(step, run.id, nodes)
    requires Flows(s, run, nodes)
    ensures Flows(Do(s, step, now), run, nodes) <==> forall i :: 0 <= i < |nodes| ==> Tame(s, step, run, nodes[i])
  {
    forall i | 0 <= i < |nodes|
      ensures NodeFlows(Do(s, step, now), run, nodes[i]) <==> Tame(s, step, run, nodes[i])
    {
      NodeKeptExactly(s, step, now, run, nodes, i);
    }
  }

  /** The node is blocked and something it depends on has not succeeded. */
  predicate Waits(s: Store, run: PipelineRun, n: NodeDef) {
    && Node(s, run.id, n.key).Some? && Node(s, run.id, n.key).value.status.Blocked?
    && exists d :: d in Deps(n) && !IsSucceeded(Node(s, run.id, d))
  }

  /** Cancelling a node while it waits always breaks the flow; the store accepts it. */
  lemma CancelBreaksFlow(s: Store, run: PipelineRun, nodes: seq<NodeDef>, i: nat, reason: string, now: Time)
    requires Valid(s) && Topological(nodes) && Flows(s, run, nodes) && i < |nodes| && Waits(s, run, nodes[i])
    ensures
      var id := Node(s, run.id, nodes[i].key).value.id;
      TouchReply(s, id, Cancel(reason), now).Ok? && !Flows(Do(s, Touch(id, Cancel(reason)), now), run, nodes)
  {
    NodeIdentity(s, run.id, nodes[i].key);
    var id := Node(s, run.id, nodes[i].key).value.id;
    FlowKeptExactly(s, Touch(id, Cancel(reason)), now, run, nodes);
    assert !Tame(s, Touch(id, Cancel(reason)), run, nodes[i]);
  }

  /** Restarting a node while it waits always breaks the flow, if nothing downstream of it is active
      so that the store accepts it: the node can be delivered with an input made of outputs that have
      been discarded. */
  lemma RestartBreaksFlow(s: Store, run: PipelineRun, nodes: seq<NodeDef>, i: nat, at: Time, now: Time)
    requires Valid(s) && Topological(nodes) && Flows(s, run, nodes) && i < |nodes| && Waits(s, run, nodes[i])
    requires RestartAllowed(s, RestartSubgraph(run.id, nodes[i].key, Descendants(nodes, nodes[i].key), at))
    ensures !Flows(Do(s, Subgraph(RestartSubgraph(run.id, nodes[i].key, Descendants(nodes, nodes[i].key), at)), now), run, nodes)
  {
    var step := Subgraph(RestartSubgraph(run.id, nodes[i].key, Descendants(nodes, nodes[i].key), at));
    KeyAt(nodes, i);
    FlowKeptExactly(s, step, now, run, nodes);
    assert !Tame(s, step, run, nodes[i]);
  }
}
