/** What the pipeline engine decides from what it reads, and how the store's steps move the nodes of
    a run. */
module Engine {
  import opened Model
  import opened Records
  import opened Storage
  import opened Definitions
  import opened Sorting

  /** The registered definitions, by pipeline name and version. */
  type Registry = map<(string, int), seq<NodeDef>>

  predicate Registered(reg: Registry, run: PipelineRun) {
    (run.pipelineName, run.pipelineVersion) in reg
  }

  function NodesOf(reg: Registry, run: PipelineRun): seq<NodeDef>
    requires Registered(reg, run)
  {
    reg[(run.pipelineName, run.pipelineVersion)]
  }

  predicate ValidRegistry(reg: Registry) {
    forall k :: k in reg ==> Topological(reg[k])
  }

  /** The execution of one node of one run. */
  function Node(s: Store, r: Uuid, k: string): Option<Execution> {
    if (r, k) in s.nodes && s.nodes[(r, k)] in s.executions then Some(s.executions[s.nodes[(r, k)]]) else None
  }

  type Snapshot = map<string, Execution>

  function NodeKeys(s: Store, r: Uuid): set<string> {
    set p | p in s.nodes && p.0 == r && p.1 != "" && s.nodes[p] in s.executions :: p.1
  }

  /** All nodes of a run by node key, as the engine lists them. */
  function Snap(s: Store, r: Uuid): Snapshot {
    map k | k in NodeKeys(s, r) :: s.executions[s.nodes[(r, k)]]
  }

  lemma SnapIsNodes(s: Store, r: Uuid, k: string)
    requires k != ""
    ensures k in Snap(s, r) <==> Node(s, r, k).Some?
    ensures k in Snap(s, r) ==> Snap(s, r)[k] == Node(s, r, k).value
  {
    if Node(s, r, k).Some? {
      assert (r, k) in s.nodes && (r, k).1 == k;
    }
  }

  // ---------------------------------------------------------------------------------------------
  // Decisions

  predicate Broken(snap: Snapshot, k: string) {
    k in snap && (snap[k].status.Failed? || snap[k].status.Cancelled?)
  }

  predicate AnyBroken(snap: Snapshot) {
    exists k :: k in snap && Broken(snap, k)
  }

  predicate Wanted(snap: Snapshot, n: NodeDef) {
    n.key !in snap || snap[n.key].status.Blocked?
  }

  predicate Ready(snap: Snapshot, n: NodeDef) {
    forall d :: d in Deps(n) ==> d in snap && snap[d].status.Succeeded?
  }

  function Outputs(snap: Snapshot): map<string, Json> {
    map k | k in snap && snap[k].status.Succeeded? :: snap[k].output
  }

  predicate Due(snap: Snapshot, n: NodeDef) {
    Wanted(snap, n) && Ready(snap, n)
  }

  function Built(snap: Snapshot, n: NodeDef, initial: Json): Option<Json> {
    BuildInput(n, initial, Outputs(snap))
  }

  /** The mapper makes this input of the run input and the stored outputs of the nodes it names, in the
      order it names them. */
  predicate Maps(s: Store, r: Uuid, n: NodeDef, initial: Json, input: Json) {
    match n.mapper
    case FromInput(start) => start(initial) == Some(input)
    case FromOne(previous, map1) =>
      var e := Node(s, r, previous);
      e.Some? && map1(e.value.output) == Some(input)
    case FromTwo(first, second, map2) =>
      var a, b := Node(s, r, first), Node(s, r, second);
      a.Some? && b.Some? && map2(a.value.output, b.value.output) == Some(input)
  }

  /** What a coordinator builds for a node whose dependencies have succeeded is what the mapper makes
      of their outputs. */
  lemma BuiltMaps(s: Store, r: Uuid, n: NodeDef, initial: Json)
    requires Ready(Snap(s, r), n) && Built(Snap(s, r), n, initial).Some?
    ensures Maps(s, r, n, initial, Built(Snap(s, r), n, initial).value)
  {
    forall d | d in Deps(n)
      ensures IsOutput(s, r, Outputs(Snap(s, r)), d)
    {
      ListedOutput(s, r, d);
    }
    OutputsMap(s, r, n, initial, Outputs(Snap(s, r)));
  }

  predicate IsOutput(s: Store, r: Uuid, outputs: map<string, Json>, d: string) {
    Node(s, r, d).Some? && d in outputs && outputs[d] == Node(s, r, d).value.output
  }

  lemma ListedOutput(s: Store, r: Uuid, d: string)
    requires d in Snap(s, r) && Snap(s, r)[d].status.Succeeded?
    ensures IsOutput(s, r, Outputs(Snap(s, r)), d)
  {
    assert d in NodeKeys(s, r);
  }

  lemma OutputsMap(s: Store, r: Uuid, n: NodeDef, initial: Json, outputs: map<string, Json>)
    requires (forall d :: d in Deps(n) ==> IsOutput(s, r, outputs, d)) && BuildInput(n, initial, outputs).Some?
    ensures Maps(s, r, n, initial, BuildInput(n, initial, outputs).value)
  {
    InputFromDependencies(n, initial, outputs, outputs);
    match n.mapper
    case FromInput(_) =>
    case FromOne(previous, _) => assert previous in Deps(n);
    case FromTwo(first, second, _) => assert first in Deps(n) && second in Deps(n);
  }

  function NodeRequest(r: Uuid, n: NodeDef, input: Json): CreateExecution {
    CreateExecution(n.taskName, n.taskVersion, input, n.maxAttempts, ZERO_TIME, NodeRef(r, n.key), Some(r), n.key)
  }

  /** The write that starts a node that is due: release the blocked execution or create a new one. */
  function StartNode(snap: Snapshot, r: Uuid, n: NodeDef, input: Json, newId: Uuid): Step {
    if n.key in snap then Touch(snap[n.key].id, Release(input, snap[n.key].availableAt))
    else Create(NodeRequest(r, n, input), newId)
  }

  predicate AllSucceeded(snap: Snapshot) {
    forall k :: k in snap ==> snap[k].status.Succeeded?
  }

  /** The status to write once all nodes have been looked at, if any. */
  function Conclusion(run: PipelineRun, snap: Snapshot, nodes: seq<NodeDef>, created: bool): Option<RunStatus> {
    if |nodes| == 0 || (|snap| == |nodes| && AllSucceeded(snap)) then Some(RunSucceeded)
    else if created || run.status == RunPending then Some(RunRunning)
    else None
  }

  lemma KeysCounted(nodes: seq<NodeDef>)
    requires Topological(nodes)
    ensures |KeysOf(nodes)| == |nodes|
  {
    if nodes == [] {
      assert KeysOf(nodes) == {};
    } else {
      var n := |nodes| - 1;
      TopologicalPrefix(nodes, n);
      KeysCounted(nodes[..n]);
      KeysOfExtend(nodes, n);
      assert nodes[..n + 1] == nodes;
      assert Placed(nodes, n);
    }
  }

  /** The engine's count of nodes decides completion correctly: a run is concluded succeeded exactly
      when every node of the definition exists and has succeeded. */
  lemma CountDecidesCompletion(run: PipelineRun, snap: Snapshot, nodes: seq<NodeDef>, created: bool)
    requires Topological(nodes) && snap.Keys <= KeysOf(nodes)
    ensures Conclusion(run, snap, nodes, created) == Some(RunSucceeded) <==>
            forall k :: k in KeysOf(nodes) ==> k in snap && snap[k].status.Succeeded?
  {
    KeysCounted(nodes);
    if |snap| == |nodes| {
      SameSize(snap.Keys, KeysOf(nodes));
    }
    if forall k :: k in KeysOf(nodes) ==> k in snap && snap[k].status.Succeeded? {
      assert snap.Keys == KeysOf(nodes);
      assert |snap| == |snap.Keys|;
    }
  }

  // ---------------------------------------------------------------------------------------------
  // How steps move nodes

  lemma NodeAfterTouch(s: Store, id: Uuid, op: RecordOp, now: Time, r: Uuid, k: string)
    requires Valid(s)
    ensures
      var n, n' := Node(s, r, k), Node(TouchRecord(s, id, op, now), r, k);
      if n.Some? && n.value.id == id && Apply(n.value, op, now).Done? then
        n' == Some(Apply(n.value, op, now).record)
      else n' == n
  {
    TouchedRecords(s, id, op, now);
    if Node(s, r, k).Some? {
      NodeIdentity(s, r, k);
    }
    if id in s.executions && Apply(s.executions[id], op, now).Done? {
      NodeRewritten(s, TouchRecord(s, id, op, now), id, Apply(s.executions[id], op, now).record, r, k);
    }
  }

  lemma NodeRewritten(s: Store, s': Store, id: Uuid, e': Execution, r: Uuid, k: string)
    requires s'.nodes == s.nodes && id in s.executions && s'.executions == s.executions[id := e'] && s.executions[id].id == id
    requires Node(s, r, k).Some? ==> s.nodes[(r, k)] == Node(s, r, k).value.id
    ensures Node(s', r, k) == if Node(s, r, k).Some? && Node(s, r, k).value.id == id then Some(e') else Node(s, r, k)
  {
  }

  lemma TouchedRecords(s: Store, id: Uuid, op: RecordOp, now: Time)
    requires id in s.executions ==> s.executions[id].id == id
    ensures
      var s' := TouchRecord(s, id, op, now);
      && s'.nodes == s.nodes
      && s'.executions == (if id in s.executions && Apply(s.executions[id], op, now).Done?
                           then s.executions[id := Apply(s.executions[id], op, now).record] else s.executions)
  {
    if id in s.executions && Apply(s.executions[id], op, now).Done? {
      ApplyKeepsIdentity(s.executions[id], op, now);
    }
  }

  lemma NodeAfterCreate(s: Store, q: CreateExecution, newId: Uuid, now: Time, r: Uuid, k: string)
    requires Valid(s) && newId !in s.executions && k != ""
    ensures
      var n, n' := Node(s, r, k), Node(CreateRecord(s, q, newId, now), r, k);
      if q.taskName != "" && Existing(s, q).None? && q.runId == Some(r) && q.nodeKey == k then
        n.None? && n' == Some(NewExecution(q, newId, now))
      else n' == n
  {
    if q.taskName != "" && Existing(s, q).None? {
      NodeInserted(s, NewExecution(q, newId, now), now, r, k);
    }
  }

  lemma NodeInserted(s: Store, e: Execution, now: Time, r: Uuid, k: string)
    requires k != "" && e.id !in s.executions && (forall p :: p in s.nodes ==> s.nodes[p] in s.executions)
    requires Indexed(e) ==> NodeOf(e) !in s.nodes
    ensures Node(Insert(s, e, now), r, k) == if e.runId == Some(r) && e.nodeKey == k then Some(e) else Node(s, r, k)
    ensures e.runId == Some(r) && e.nodeKey == k ==> Node(s, r, k).None?
  {
  }

  lemma NodeAfterSubgraph(s: Store, q: RestartSubgraph, now: Time, r: Uuid, k: string)
    requires Valid(s)
    ensures
      var n, n' := Node(s, r, k), Node(RestartNodes(s, q, now), r, k);
      if n.Some? && RestartAllowed(s, q) then n' == Some(ResetRecord(n.value, q, now))
      else n' == n
  {
  }

  lemma NodeAfterDrop(s: Store, dead: set<Uuid>, r: Uuid, k: string)
    requires Valid(s)
    requires forall id :: id in dead && id in s.executions ==> s.executions[id].runId != Some(r)
    ensures Node(DropExecutions(s, dead), r, k) == Node(s, r, k)
  {
  }

  /** Steps as the program makes them: pipeline executions have a node key, and retention removes
      one only together with its run. */
  predicate Orderly(s: Store, step: Step) {
    match step
    case Create(q, _) => q.runId.None? || q.nodeKey != ""
    case DropExecution(id) => id in s.executions ==> s.executions[id].runId.None?
    case _ => true
  }

  /** A node an advance may still start: without an execution, or blocked. */
  predicate Unstarted(n: Option<Execution>) {
    n.None? || n.value.status.Blocked?
  }

  /** Where a step takes one node of a run that it does not remove. */
  ghost function NodeNext(s: Store, step: Step, now: Time, r: Uuid, k: string): Option<Execution> {
    var n := Node(s, r, k);
    match step
    case Create(q, newId) =>
      if q.taskName != "" && Existing(s, q).None? && q.runId == Some(r) && q.nodeKey == k then
        Some(NewExecution(q, newId, now))
      else n
    case Touch(id, op) =>
      if n.Some? && n.value.id == id && Apply(n.value, op, now).Done? then Some(Apply(n.value, op, now).record) else n
    case Subgraph(q) => if n.Some? && RestartAllowed(s, q) then Some(ResetRecord(n.value, q, now)) else n
    case _ => n
  }

  lemma NodeAfter(s: Store, step: Step, now: Time, r: Uuid, k: string)
    requires Valid(s) && Fresh(s, step) && Orderly(s, step) && k != "" && step != DropRun(r)
    ensures Node(Do(s, step, now), r, k) == NodeNext(s, step, now, r, k)
  {
    match step
    case Create(q, newId) => NodeAfterCreate(s, q, newId, now, r, k);
    case Touch(id, op) => NodeAfterTouch(s, id, op, now, r, k);
    case Subgraph(q) => NodeAfterSubgraph(s, q, now, r, k);
    case DropExecution(id) => NodeAfterDrop(s, {id}, r, k);
    case DropRun(id) => NodeAfterDrop(s, ExecutionsOf(s, id), r, k);
    case NewRun(_, _) =>
    case SetStatus(_, _, _, _) =>
  }

  /** Where a step takes one run record. */
  ghost function RunNext(s: Store, step: Step, now: Time, r: Uuid): Option<PipelineRun> {
    var run := if r in s.runs then Some(s.runs[r]) else None;
    match step
    case Subgraph(q) => if q.runId == r && RestartAllowed(s, q) then Some(ReopenedRun(s.runs[r], now)) else run
    case NewRun(q, newId) =>
      if newId == r && !(q.idempotencyKey != NoKey && (q.pipelineName, q.idempotencyKey) in s.runIdempotent) then
        Some(NewPipelineRun(q, newId, now))
      else run
    case SetStatus(id, expected, status, error) =>
      if id == r && StatusReply(s, id, expected).Ok? then Some(StampedRun(s.runs[r], status, error, now)) else run
    case DropRun(id) => if id == r then None else run
    case _ => run
  }

  lemma RunAfter(s: Store, step: Step, now: Time, r: Uuid)
    requires forall id :: id in s.runs ==> s.runs[id].id == id
    ensures
      var s' := Do(s, step, now);
      RunNext(s, step, now, r) == if r in s'.runs then Some(s'.runs[r]) else None
  {
  }

  /** A node's execution carries its run and node key. */
  lemma NodeIdentity(s: Store, r: Uuid, k: string)
    requires Valid(s) && Node(s, r, k).Some?
    ensures
      var e := Node(s, r, k).value;
      && e.runId == Some(r) && e.nodeKey == k && k != "" && Sound(e)
      && e.id in s.executions && s.executions[e.id] == e && s.nodes[(r, k)] == e.id
  {
  }
}
