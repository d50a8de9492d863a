/** The results of pipelines: when handlers are functions of their input, every output a run stores
    is the one recursive evaluation of the DAG gives. */
module Results {
  import opened Model
  import opened Records
  import opened Storage
  import opened Definitions
  import opened Engine
  import opened Histories
  import opened Coordination
  import opened CasSafety
  import opened DataFlow
  import opened FlowSafety

  function KeyOf(e: Execution): TaskKey { TaskKey(e.taskName, e.taskVersion) }

  /** The delivery a worker holds: the record as some earlier claim of the same token returned it. */
  ghost predicate Delivered(ss: seq<Sys>, moves: seq<Move>, j: nat, id: Uuid, token: Uuid) {
    && j < |moves| && |ss| == |moves| + 1
    && moves[j].Env? && moves[j].step.Touch? && moves[j].step.id == id && moves[j].step.op.Start? && moves[j].step.op.token == token
    && Holds(ss[j + 1].world, id, token)
  }

  /** A worker that reports success for a lease it still holds reports the handler's output for the
      input it was delivered. */
  ghost predicate Honest(handlers: Handlers, ss: seq<Sys>, moves: seq<Move>, i: nat)
    requires i < |moves| && |ss| == |moves| + 1
  {
    match moves[i]
    case Env(Touch(id, Succeed(token, output))) =>
      token != NIL && Holds(ss[i].world, id, token) ==>
        exists j :: 0 <= j < i && Delivered(ss, moves, j, id, token) && Handled(handlers, ss[j + 1].world.store, id, output)
    case _ => true
  }

  predicate Handled(handlers: Handlers, s: Store, id: Uuid, output: Json) {
    id in s.executions && output == handlers(KeyOf(s.executions[id]), s.executions[id].input)
  }

  ghost predicate IsHonestRun(reg: Registry, handlers: Handlers, ss: seq<Sys>, moves: seq<Move>) {
    && IsRun(reg, ss, moves)
    && (forall i :: 0 <= i < |moves| ==> Honest(handlers, ss, moves, i))
  }

  // ---------------------------------------------------------------------------------------------
  // An input does not change while a lease is held

  lemma LeasedApply(e: Execution, op: RecordOp, now: Time)
    requires e.status.Running? && Apply(e, op, now).Done?
    ensures Apply(e, op, now).record.input == e.input
  {
  }

  lemma LeasedTouch(s: Store, id': Uuid, op: RecordOp, now: Time, id: Uuid)
    requires id' in s.executions ==> s.executions[id'].id == id'
    requires id in s.executions && s.executions[id].status.Running?
    ensures id in TouchRecord(s, id', op, now).executions
    ensures TouchRecord(s, id', op, now).executions[id].input == s.executions[id].input
  {
    if id' in s.executions && Apply(s.executions[id'], op, now).Done? {
      ApplyKeepsIdentity(s.executions[id'], op, now);
      if id' == id {
        LeasedApply(s.executions[id], op, now);
      }
    }
  }

  lemma LeasedInputStays(w: World, step: Step, w': World, id: Uuid, token: Uuid)
    requires Inv(w) && Next(w, step, w') && token != NIL && Holds(w, id, token) && Holds(w', id, token)
    ensures w'.store.executions[id].input == w.store.executions[id].input
    ensures KeyOf(w'.store.executions[id]) == KeyOf(w.store.executions[id])
  {
    ExecutionAfter(w.store, step, w'.clock, id);
    if step.Touch? {
      LeasedTouch(w.store, step.id, step.op, w'.clock, id);
    }
  }

  /** A lease held after a move, of a token issued before, was held before it, over the same input. */
  lemma LeaseThroughMove(reg: Registry, a: Sys, move: Move, b: Sys, id: Uuid, token: Uuid)
    requires Inv(a.world) && SysNext(reg, a, move, b) && token != NIL && token in a.world.issued && Holds(b.world, id, token)
    ensures Holds(a.world, id, token)
    ensures SameDelivery(a.world.store, b.world.store, id)
  {
    MoveIsStep(reg, a, move, b);
    match StepOf(reg, a, move)
    case None =>
    case Some(step) =>
      if !Holds(a.world, id, token) {
        LostStaysLost(a.world, step, b.world, id, token);
      }
      LeasedInputStays(a.world, step, b.world, id, token);
  }

  lemma RunInv(reg: Registry, ss: seq<Sys>, moves: seq<Move>, i: nat)
    requires ValidRegistry(reg) && IsRun(reg, ss, moves) && i < |ss|
    ensures Inv(ss[i].world)
  {
    RunKeepsCas(reg, ss, moves, i);
  }

  lemma HeldIsIssued(reg: Registry, ss: seq<Sys>, moves: seq<Move>, i: nat, id: Uuid, token: Uuid)
    requires ValidRegistry(reg) && IsRun(reg, ss, moves) && i < |ss| && token != NIL && Holds(ss[i].world, id, token)
    ensures token in ss[i].world.issued
  {
    RunInv(reg, ss, moves, i);
    assert Traced(ss[i].world.store.executions[id], ss[i].world.clock, ss[i].world.issued);
  }

  lemma LeaseOneBack(reg: Registry, ss: seq<Sys>, moves: seq<Move>, i: nat, id: Uuid, token: Uuid)
    requires ValidRegistry(reg) && IsRun(reg, ss, moves) && 0 < i < |ss|
    requires token != NIL && token in ss[i - 1].world.issued && Holds(ss[i].world, id, token)
    ensures Holds(ss[i - 1].world, id, token)
    ensures SameDelivery(ss[i - 1].world.store, ss[i].world.store, id)
  {
    RunInv(reg, ss, moves, i - 1);
    assert SysNext(reg, ss[i - 1], moves[i - 1], ss[i]);
    LeaseThroughMove(reg, ss[i - 1], moves[i - 1], ss[i], id, token);
  }

  predicate SameDelivery(a: Store, b: Store, id: Uuid) {
    && id in a.executions && id in b.executions
    && a.executions[id].input == b.executions[id].input && KeyOf(a.executions[id]) == KeyOf(b.executions[id])
  }

  /** What a worker was delivered is what the store holds for as long as the lease lasts. */
  lemma {:induction false} DeliveredInputStands(reg: Registry, ss: seq<Sys>, moves: seq<Move>, j: nat, i: nat, id: Uuid, token: Uuid)
    requires ValidRegistry(reg) && IsRun(reg, ss, moves) && j <= i < |ss|
    requires token != NIL && Holds(ss[j].world, id, token) && Holds(ss[i].world, id, token)
    ensures SameDelivery(ss[j].world.store, ss[i].world.store, id)
  {
    if j < i {
      HeldIsIssued(reg, ss, moves, j, id, token);
      IssuedStays(reg, ss, moves, j, i - 1, token);
      LeaseOneBack(reg, ss, moves, i, id, token);
      DeliveredInputStands(reg, ss, moves, j, i - 1, id, token);
    }
  }

  lemma {:induction false} IssuedStays(reg: Registry, ss: seq<Sys>, moves: seq<Move>, j: nat, i: nat, u: Uuid)
    requires IsRun(reg, ss, moves) && j <= i < |ss| && u in ss[j].world.issued
    ensures u in ss[i].world.issued
  {
    if j < i {
      IssuedStays(reg, ss, moves, j, i - 1, u);
      assert SysNext(reg, ss[i - 1], moves[i - 1], ss[i]);
      MoveIsStep(reg, ss[i - 1], moves[i - 1], ss[i]);
    }
  }

  // ---------------------------------------------------------------------------------------------
  // Every stored output is a handler's

  ghost predicate AllHandled(handlers: Handlers, s: Store) {
    forall id :: id in s.executions && s.executions[id].status.Succeeded? ==> Handled(handlers, s, id, s.executions[id].output)
  }

  lemma ApplySucceeds(e: Execution, op: RecordOp, now: Time)
    requires Apply(e, op, now).Done? && Apply(e, op, now).record.status.Succeeded?
    ensures op.Succeed? && Owned(e, op.token)
    ensures Apply(e, op, now).record.output == op.output && Apply(e, op, now).record.input == e.input
  {
  }

  lemma TouchHandled(handlers: Handlers, s: Store, id: Uuid, op: RecordOp, now: Time)
    requires Valid(s) && AllHandled(handlers, s)
    requires op.Succeed? && id in s.executions && Owned(s.executions[id], op.token) ==> Handled(handlers, s, id, op.output)
    ensures AllHandled(handlers, TouchRecord(s, id, op, now))
  {
    if id in s.executions && Apply(s.executions[id], op, now).Done? {
      var e' := Apply(s.executions[id], op, now).record;
      ApplyKeepsIdentity(s.executions[id], op, now);
      if e'.status.Succeeded? {
        ApplySucceeds(s.executions[id], op, now);
      }
      assert TouchRecord(s, id, op, now).executions == s.executions[id := e'];
    }
  }

  /** Only a worker's report makes an execution succeed. */
  lemma OthersLeave(s: Store, step: Step, now: Time, id: Uuid)
    requires !step.Touch? && id in Do(s, step, now).executions
    ensures Do(s, step, now).executions[id].status.Succeeded? ==>
              id in s.executions && Do(s, step, now).executions[id] == s.executions[id]
  {
  }

  lemma StepHandled(handlers: Handlers, s: Store, step: Step, now: Time)
    requires Valid(s) && AllHandled(handlers, s)
    requires step.Touch? && step.op.Succeed? && step.id in s.executions && Owned(s.executions[step.id], step.op.token) ==>
               Handled(handlers, s, step.id, step.op.output)
    ensures AllHandled(handlers, Do(s, step, now))
  {
    if step.Touch? {
      TouchHandled(handlers, s, step.id, step.op, now);
    } else {
      forall id | id in Do(s, step, now).executions && Do(s, step, now).executions[id].status.Succeeded?
        ensures Handled(handlers, Do(s, step, now), id, Do(s, step, now).executions[id].output)
      {
        OthersLeave(s, step, now, id);
      }
    }
  }

  lemma {:induction false} RunHandled(reg: Registry, handlers: Handlers, ss: seq<Sys>, moves: seq<Move>, i: nat)
    requires ValidRegistry(reg) && IsHonestRun(reg, handlers, ss, moves) && i < |ss|
    ensures AllHandled(handlers, ss[i].world.store)
  {
    if i > 0 {
      RunHandled(reg, handlers, ss, moves, i - 1);
      MoveHandled(reg, handlers, ss, moves, i - 1);
    }
  }

  lemma MoveHandled(reg: Registry, handlers: Handlers, ss: seq<Sys>, moves: seq<Move>, i: nat)
    requires ValidRegistry(reg) && IsHonestRun(reg, handlers, ss, moves) && i < |moves|
    requires AllHandled(handlers, ss[i].world.store)
    ensures AllHandled(handlers, ss[i + 1].world.store)
  {
    var a, b := ss[i], ss[i + 1];
    RunInv(reg, ss, moves, i);
    assert SysNext(reg, a, moves[i], b);
    MoveIsStep(reg, a, moves[i], b);
    match StepOf(reg, a, moves[i])
    case None =>
    case Some(step) =>
      if step.Touch? && step.op.Succeed? && step.id in a.world.store.executions && Owned(a.world.store.executions[step.id], step.op.token) {
        SuccessIsHandled(reg, handlers, ss, moves, i, step);
      }
      StepHandled(handlers, a.world.store, step, b.world.clock);
  }

  lemma SuccessIsHandled(reg: Registry, handlers: Handlers, ss: seq<Sys>, moves: seq<Move>, i: nat, step: Step)
    requires ValidRegistry(reg) && IsHonestRun(reg, handlers, ss, moves) && i < |moves|
    requires SysNext(reg, ss[i], moves[i], ss[i + 1]) && StepOf(reg, ss[i], moves[i]) == Some(step)
    requires step.Touch? && step.op.Succeed? && Holds(ss[i].world, step.id, step.op.token) && step.op.token != NIL
    ensures Handled(handlers, ss[i].world.store, step.id, step.op.output)
  {
    assert moves[i] == Env(step);
    assert Honest(handlers, ss, moves, i);
    var j :| 0 <= j < i && Delivered(ss, moves, j, step.id, step.op.token)
             && Handled(handlers, ss[j + 1].world.store, step.id, step.op.output);
    DeliveredInputStands(reg, ss, moves, j + 1, i, step.id, step.op.token);
  }

  // ---------------------------------------------------------------------------------------------
  // Evaluation, node by node

  lemma {:induction false} EvaluateKeys(nodes: seq<NodeDef>, handlers: Handlers, initial: Json, k: string)
    requires k in Evaluate(nodes, handlers, initial)
    ensures k in KeysOf(nodes)
  {
    var m := |nodes| - 1;
    KeysOfExtend(nodes, m);
    assert nodes[..m + 1] == nodes;
    if k in Evaluate(nodes[..m], handlers, initial) {
      EvaluateKeys(nodes[..m], handlers, initial, k);
    }
  }

  predicate SameEntry(a: map<string, Json>, b: map<string, Json>, k: string) {
    (k in a <==> k in b) && (k in a && k in b ==> a[k] == b[k])
  }

  lemma EvaluateNext(nodes: seq<NodeDef>, handlers: Handlers, initial: Json, m: nat, k: string)
    requires 0 < m <= |nodes| && k != nodes[m - 1].key
    ensures SameEntry(Evaluate(nodes[..m], handlers, initial), Evaluate(nodes[..m - 1], handlers, initial), k)
  {
    assert nodes[..m][..m - 1] == nodes[..m - 1];
  }

  /** What evaluation gives a node it does not change later. */
  lemma {:induction false} EvaluateStays(nodes: seq<NodeDef>, handlers: Handlers, initial: Json, i: nat, m: nat)
    requires Topological(nodes) && i < m <= |nodes|
    ensures SameEntry(Evaluate(nodes[..m], handlers, initial), Evaluate(nodes[..i + 1], handlers, initial), nodes[i].key)
  {
    if i + 1 < m {
      DistinctKeys(nodes);
      EvaluateStays(nodes, handlers, initial, i, m - 1);
      EvaluateNext(nodes, handlers, initial, m, nodes[i].key);
    }
  }

  /** What evaluation has for a node's dependencies when it comes to the node, it has in the end. */
  lemma DependencyStays(nodes: seq<NodeDef>, handlers: Handlers, initial: Json, j: nat, d: string)
    requires Topological(nodes) && j < |nodes| && d in Deps(nodes[j])
    ensures SameEntry(Evaluate(nodes, handlers, initial), Evaluate(nodes[..j], handlers, initial), d)
  {
    assert Placed(nodes, j);
    var i :| 0 <= i < j && nodes[..j][i].key == d;
    assert nodes[i].key == d && nodes[..|nodes|] == nodes;
    EvaluateStays(nodes, handlers, initial, i, j);
    EvaluateStays(nodes, handlers, initial, i, |nodes|);
  }

  /** The input evaluation makes for a node. */
  ghost predicate Fed(outputs: map<string, Json>, initial: Json, n: NodeDef, input: Json) {
    (forall d :: d in Deps(n) ==> d in outputs) && BuildInput(n, initial, outputs) == Some(input)
  }

  lemma FedSame(a: map<string, Json>, b: map<string, Json>, initial: Json, n: NodeDef, input: Json)
    requires Fed(a, initial, n, input) && forall d :: d in Deps(n) ==> SameEntry(a, b, d)
    ensures Fed(b, initial, n, input)
  {
    InputFromDependencies(n, initial, a, b);
  }

  lemma EvaluateAt(nodes: seq<NodeDef>, handlers: Handlers, initial: Json, j: nat, input: Json)
    requires j < |nodes| && Fed(Evaluate(nodes[..j], handlers, initial), initial, nodes[j], input)
    ensures
      var outputs := Evaluate(nodes[..j + 1], handlers, initial);
      nodes[j].key in outputs && outputs[nodes[j].key] == handlers(TaskKey(nodes[j].taskName, nodes[j].taskVersion), input)
  {
    assert nodes[..j + 1][..j] == nodes[..j];
  }

  /** On the input evaluation makes for it, a handler gives the output evaluation has. */
  lemma FedIsEvaluated(nodes: seq<NodeDef>, handlers: Handlers, initial: Json, j: nat, input: Json)
    requires Topological(nodes) && j < |nodes| && Fed(Evaluate(nodes, handlers, initial), initial, nodes[j], input)
    ensures
      var outputs := Evaluate(nodes, handlers, initial);
      nodes[j].key in outputs && outputs[nodes[j].key] == handlers(TaskKey(nodes[j].taskName, nodes[j].taskVersion), input)
  {
    forall d | d in Deps(nodes[j])
      ensures SameEntry(Evaluate(nodes, handlers, initial), Evaluate(nodes[..j], handlers, initial), d)
    {
      DependencyStays(nodes, handlers, initial, j, d);
    }
    FedSame(Evaluate(nodes, handlers, initial), Evaluate(nodes[..j], handlers, initial), initial, nodes[j], input);
    EvaluateAt(nodes, handlers, initial, j, input);
    EvaluateStays(nodes, handlers, initial, j, |nodes|);
    assert nodes[..|nodes|] == nodes;
  }

  /** The equation a node puts on the outputs: it has one exactly if its mapper makes an input of the
      others, and then it is the handler's for that input. */
  ghost predicate Agrees(n: NodeDef, handlers: Handlers, initial: Json, outputs: map<string, Json>) {
    && (forall input :: Makes(n, initial, outputs, input) ==>
          n.key in outputs && outputs[n.key] == handlers(TaskKey(n.taskName, n.taskVersion), input))
    && (n.key in outputs ==> exists input :: Makes(n, initial, outputs, input))
  }

  lemma MakesIsFed(n: NodeDef, initial: Json, outputs: map<string, Json>, input: Json)
    requires Makes(n, initial, outputs, input)
    ensures Fed(outputs, initial, n, input)
  {
    InputFromDependencies(n, initial, outputs, outputs);
  }

  lemma EvaluatedIsMade(nodes: seq<NodeDef>, handlers: Handlers, initial: Json, j: nat)
    requires Topological(nodes) && j < |nodes| && nodes[j].key in Evaluate(nodes, handlers, initial)
    ensures exists input :: Makes(nodes[j], initial, Evaluate(nodes, handlers, initial), input)
  {
    var n, before, outputs := nodes[j], Evaluate(nodes[..j], handlers, initial), Evaluate(nodes, handlers, initial);
    assert Placed(nodes, j) && nodes[..|nodes|] == nodes && nodes[..j + 1][..j] == nodes[..j];
    EvaluateStays(nodes, handlers, initial, j, |nodes|);
    if n.key in before {
      EvaluateKeys(nodes[..j], handlers, initial, n.key);
    }
    forall d | d in Deps(n)
      ensures SameEntry(outputs, before, d)
    {
      DependencyStays(nodes, handlers, initial, j, d);
    }
    InputFromDependencies(n, initial, before, outputs);
  }

  /** Evaluation solves the equations of all nodes. */
  lemma EvaluateSolves(nodes: seq<NodeDef>, handlers: Handlers, initial: Json, j: nat)
    requires Topological(nodes) && j < |nodes|
    ensures Agrees(nodes[j], handlers, initial, Evaluate(nodes, handlers, initial))
  {
    var outputs := Evaluate(nodes, handlers, initial);
    forall input | Makes(nodes[j], initial, outputs, input)
      ensures nodes[j].key in outputs && outputs[nodes[j].key] == handlers(TaskKey(nodes[j].taskName, nodes[j].taskVersion), input)
    {
      MakesIsFed(nodes[j], initial, outputs, input);
      FedIsEvaluated(nodes, handlers, initial, j, input);
    }
    if nodes[j].key in outputs {
      EvaluatedIsMade(nodes, handlers, initial, j);
    }
  }

  lemma SameEquation(n: NodeDef, handlers: Handlers, initial: Json, a: map<string, Json>, b: map<string, Json>)
    requires Agrees(n, handlers, initial, a) && Agrees(n, handlers, initial, b) && forall d :: d in Deps(n) ==> SameEntry(a, b, d)
    ensures SameEntry(a, b, n.key)
  {
    forall input
      ensures Makes(n, initial, a, input) <==> Makes(n, initial, b, input)
    {
      match n.mapper
      case FromInput(_) =>
      case FromOne(previous, _) => assert previous in Deps(n);
      case FromTwo(first, second, _) => assert first in Deps(n) && second in Deps(n);
    }
  }

  /** And nothing else does: the outputs of a pipeline are the one solution of its nodes' equations. */
  lemma {:induction false} OnlyEvaluateSolves(nodes: seq<NodeDef>, handlers: Handlers, initial: Json, outputs: map<string, Json>, m: nat)
    requires Topological(nodes) && m <= |nodes| && forall i :: 0 <= i < |nodes| ==> Agrees(nodes[i], handlers, initial, outputs)
    ensures forall i :: 0 <= i < m ==> SameEntry(outputs, Evaluate(nodes, handlers, initial), nodes[i].key)
  {
    if m > 0 {
      OnlyEvaluateSolves(nodes, handlers, initial, outputs, m - 1);
      EvaluateSolves(nodes, handlers, initial, m - 1);
      assert Placed(nodes, m - 1);
      forall d | d in Deps(nodes[m - 1])
        ensures SameEntry(outputs, Evaluate(nodes, handlers, initial), d)
      {
        var i :| 0 <= i < m - 1 && nodes[..m - 1][i].key == d;
        assert nodes[i].key == d;
      }
      SameEquation(nodes[m - 1], handlers, initial, outputs, Evaluate(nodes, handlers, initial));
    }
  }

  // ---------------------------------------------------------------------------------------------
  // Every stored input is the evaluated one

  function Truth(reg: Registry, handlers: Handlers, run: PipelineRun): map<string, Json>
    requires Registered(reg, run)
  {
    Evaluate(NodesOf(reg, run), handlers, run.input)
  }

  /** The input is the one evaluation makes for the node of this key. */
  ghost predicate FedIn(reg: Registry, handlers: Handlers, run: PipelineRun, k: string, input: Json)
    requires Registered(reg, run)
  {
    forall j :: 0 <= j < |NodesOf(reg, run)| && NodesOf(reg, run)[j].key == k ==>
      Fed(Truth(reg, handlers, run), run.input, NodesOf(reg, run)[j], input)
  }

  ghost predicate FedAt(reg: Registry, handlers: Handlers, s: Store, e: Execution) {
    e.runId.Some? && e.runId.value in s.runs && Registered(reg, s.runs[e.runId.value]) ==>
      FedIn(reg, handlers, s.runs[e.runId.value], e.nodeKey, e.input)
  }

  ghost predicate AllFed(reg: Registry, handlers: Handlers, s: Store) {
    forall id :: id in s.executions ==> FedAt(reg, handlers, s, s.executions[id])
  }

  lemma LaterIsFed(reg: Registry, handlers: Handlers, run: PipelineRun, run': PipelineRun, k: string, input: Json)
    requires Later(run, run') && Registered(reg, run) && FedIn(reg, handlers, run, k, input)
    ensures Registered(reg, run') && FedIn(reg, handlers, run', k, input)
  {
    assert NodesOf(reg, run') == NodesOf(reg, run) && Truth(reg, handlers, run') == Truth(reg, handlers, run);
    forall j | 0 <= j < |NodesOf(reg, run)| && NodesOf(reg, run)[j].key == k
      ensures Fed(Truth(reg, handlers, run), run.input, NodesOf(reg, run)[j], input)
    {
    }
  }

  lemma ApplyInput(e: Execution, op: RecordOp, now: Time)
    requires Apply(e, op, now).Done?
    ensures Apply(e, op, now).record.input == if op.Release? then op.input else e.input
  {
  }

  /** An execution's input is set when it is created or released, and by nothing else. */
  lemma InputAfter(s: Store, step: Step, now: Time, id: Uuid)
    requires (forall x :: x in s.executions ==> s.executions[x].id == x) && id in Do(s, step, now).executions
    ensures
      var e' := Do(s, step, now).executions[id];
      || (id in s.executions && SameIdentity(s.executions[id], e') && e'.input == s.executions[id].input)
      || (step.Create? && e' == NewExecution(step.request, step.newId, now))
      || (step.Touch? && step.op.Release? && step.id == id && id in s.executions
          && SameIdentity(s.executions[id], e') && e'.input == step.op.input)
  {
    ExecutionAfter(s, step, now, id);
    if step.Touch? && step.id in s.executions && Apply(s.executions[step.id], step.op, now).Done? {
      ApplyInput(s.executions[step.id], step.op, now);
      ApplyKeepsIdentity(s.executions[step.id], step.op, now);
    }
  }

  /** What a step writes as the input of a node is the evaluated one. */
  ghost predicate Feeds(reg: Registry, handlers: Handlers, s: Store, step: Step) {
    match step
    case Create(q, _) =>
      q.runId.Some? && q.runId.value in s.runs && Registered(reg, s.runs[q.runId.value]) ==>
        FedIn(reg, handlers, s.runs[q.runId.value], q.nodeKey, q.input)
    case Touch(id, Release(input, _)) => id in s.executions ==> FedAt(reg, handlers, s, s.executions[id].(input := input))
    case _ => true
  }

  lemma ExecutionFed(reg: Registry, handlers: Handlers, w: World, step: Step, w': World, id: Uuid)
    requires Inv(w) && Next(w, step, w') && AllShaped(reg, w) && AllFed(reg, handlers, w.store) && Feeds(reg, handlers, w.store, step)
    requires id in w'.store.executions
    ensures FedAt(reg, handlers, w'.store, w'.store.executions[id])
  {
    var s, e' := w.store, w'.store.executions[id];
    InputAfter(s, step, w'.clock, id);
    if e'.runId.Some? && e'.runId.value in w'.store.runs && Registered(reg, w'.store.runs[e'.runId.value]) {
      var r := e'.runId.value;
      RunsOnlyAdvance(w, step, w', r);
      RunBeforeNode(reg, w, step, w', id, r);
      assert id in s.executions ==> FedAt(reg, handlers, s, s.executions[id]);
      assert FedIn(reg, handlers, s.runs[r], e'.nodeKey, e'.input);
      LaterIsFed(reg, handlers, s.runs[r], w'.store.runs[r], e'.nodeKey, e'.input);
    }
  }

  /** A run that has a node was there before. */
  lemma RunBeforeNode(reg: Registry, w: World, step: Step, w': World, id: Uuid, r: Uuid)
    requires Inv(w) && Next(w, step, w') && AllShaped(reg, w)
    requires id in w'.store.executions && w'.store.executions[id].runId == Some(r) && r in w'.store.runs
    ensures r in w.store.runs
  {
    RunsOnlyAdvance(w, step, w', r);
    RunAfter(w.store, step, w'.clock, r);
    ExecutionAfter(w.store, step, w'.clock, id);
  }

  /** A listed result is the evaluated one. */
  ghost predicate SnapTrue(reg: Registry, handlers: Handlers, run: PipelineRun, snap: Snapshot)
    requires Registered(reg, run)
  {
    forall k :: k in snap && snap[k].status.Succeeded? ==>
      k in Truth(reg, handlers, run) && snap[k].output == Truth(reg, handlers, run)[k]
  }

  ghost predicate LocalTrue(reg: Registry, handlers: Handlers, w: World, l: Local) {
    l.Walking? && l.run.id in w.store.runs && Registered(reg, l.run) ==> SnapTrue(reg, handlers, l.run, l.snap)
  }

  ghost predicate EvalInv(reg: Registry, handlers: Handlers, sys: Sys) {
    && AllFed(reg, handlers, sys.world.store)
    && (forall c :: c in sys.locals ==> LocalTrue(reg, handlers, sys.world, sys.locals[c]))
  }

  /** A succeeded node whose input is the evaluated one has the evaluated output. */
  lemma NodeIsTrue(reg: Registry, handlers: Handlers, s: Store, r: Uuid, k: string)
    requires ValidRegistry(reg) && Valid(s) && AllHandled(handlers, s) && AllFed(reg, handlers, s)
    requires forall id :: id in s.executions ==> Shaped(reg, s, s.executions[id])
    requires r in s.runs && Registered(reg, s.runs[r]) && IsSucceeded(Node(s, r, k))
    ensures k in Truth(reg, handlers, s.runs[r]) && Node(s, r, k).value.output == Truth(reg, handlers, s.runs[r])[k]
  {
    var e, nodes := Node(s, r, k).value, NodesOf(reg, s.runs[r]);
    NodeIdentity(s, r, k);
    assert Shaped(reg, s, e) && FedAt(reg, handlers, s, e) && Handled(handlers, s, e.id, e.output);
    FedIsEvaluated(nodes, handlers, s.runs[r].input, Position(nodes, k), e.input);
  }

  lemma ListIsTrue(reg: Registry, handlers: Handlers, w: World, run: PipelineRun)
    requires ValidRegistry(reg) && Inv(w) && AllShaped(reg, w) && WasRead(w, run) && Registered(reg, run)
    requires AllHandled(handlers, w.store) && AllFed(reg, handlers, w.store) && run.id in w.store.runs
    ensures SnapTrue(reg, handlers, run, Snap(w.store, run.id))
  {
    var snap := Snap(w.store, run.id);
    forall k | k in snap && snap[k].status.Succeeded?
      ensures k in Truth(reg, handlers, run) && snap[k].output == Truth(reg, handlers, run)[k]
    {
      SnapIsNodes(w.store, run.id, k);
      NodeIsTrue(reg, handlers, w.store, run.id, k);
    }
  }

  /** A coordinator builds from what it has listed what evaluation would. */
  lemma WalkIsTrue(reg: Registry, handlers: Handlers, run: PipelineRun, snap: Snapshot, i: nat)
    requires ValidRegistry(reg) && Registered(reg, run) && SnapTrue(reg, handlers, run, snap) && i < |NodesOf(reg, run)|
    requires Ready(snap, NodesOf(reg, run)[i]) && Built(snap, NodesOf(reg, run)[i], run.input).Some?
    ensures FedIn(reg, handlers, run, NodesOf(reg, run)[i].key, Built(snap, NodesOf(reg, run)[i], run.input).value)
  {
    var n := NodesOf(reg, run)[i];
    DistinctKeys(NodesOf(reg, run));
    InputFromDependencies(n, run.input, Outputs(snap), Truth(reg, handlers, run));
  }

  lemma WalkFeeds(reg: Registry, handlers: Handlers, w: World, l: Local, act: Act)
    requires ValidRegistry(reg) && LocalInv(reg, w, l) && LocalTrue(reg, handlers, w, l) && l.Walking? && Pinned(w.store, l.run, l.snap)
    requires act.Walk? && Enabled(reg, w.store, l, act) && Effect(reg, l, act).Some?
    ensures Feeds(reg, handlers, w.store, Effect(reg, l, act).value)
  {
    var n := NodesOf(reg, l.run)[l.i];
    if l.run.id in w.store.runs {
      WalkIsTrue(reg, handlers, l.run, l.snap, l.i);
      LaterIsFed(reg, handlers, l.run, w.store.runs[l.run.id], n.key, Built(l.snap, n, l.run.input).value);
    }
  }

  lemma MoveFeeds(reg: Registry, handlers: Handlers, a: Sys, move: Move, b: Sys, step: Step)
    requires ValidRegistry(reg) && CasInv(reg, a) && AllPinned(a) && EvalInv(reg, handlers, a)
    requires SysNext(reg, a, move, b) && StepOf(reg, a, move) == Some(step)
    ensures Feeds(reg, handlers, a.world.store, step)
  {
    if move.Coord? && move.act.Walk? {
      WalkFeeds(reg, handlers, a.world, LocalOf(a, move.c), move.act);
    }
  }

  lemma StoreStaysFed(reg: Registry, handlers: Handlers, a: Sys, move: Move, b: Sys)
    requires ValidRegistry(reg) && CasInv(reg, a) && AllPinned(a) && EvalInv(reg, handlers, a) && SysNext(reg, a, move, b)
    ensures AllFed(reg, handlers, b.world.store)
  {
    MoveIsStep(reg, a, move, b);
    match StepOf(reg, a, move)
    case None =>
    case Some(step) =>
      MoveFeeds(reg, handlers, a, move, b, step);
      forall id | id in b.world.store.executions
        ensures FedAt(reg, handlers, b.world.store, b.world.store.executions[id])
      {
        ExecutionFed(reg, handlers, a.world, step, b.world, id);
      }
  }

  lemma TruthStays(reg: Registry, handlers: Handlers, a: Sys, move: Move, b: Sys, l: Local)
    requires Inv(a.world) && SysNext(reg, a, move, b) && LocalInv(reg, a.world, l) && LocalTrue(reg, handlers, a.world, l)
    ensures LocalTrue(reg, handlers, b.world, l)
  {
    MoveIsStep(reg, a, move, b);
    if l.Walking? && StepOf(reg, a, move).Some? {
      WasReadStays(a.world, StepOf(reg, a, move).value, b.world, l.run);
    }
  }

  lemma ActorIsTrue(reg: Registry, handlers: Handlers, a: Sys, c: nat, act: Act, b: Sys)
    requires ValidRegistry(reg) && CasInv(reg, a) && EvalInv(reg, handlers, a) && AllHandled(handlers, a.world.store)
    requires SysNext(reg, a, Coord(c, act), b)
    ensures LocalTrue(reg, handlers, b.world, b.locals[c])
  {
    var l := LocalOf(a, c);
    if act.List? {
      if l.run.id in a.world.store.runs {
        ListIsTrue(reg, handlers, a.world, l.run);
      }
    } else if act.Walk? {
      TruthStays(reg, handlers, a, Coord(c, act), b, l);
    }
  }

  lemma MoveKeepsEval(reg: Registry, handlers: Handlers, a: Sys, move: Move, b: Sys)
    requires ValidRegistry(reg) && CasInv(reg, a) && AllPinned(a) && EvalInv(reg, handlers, a) && AllHandled(handlers, a.world.store)
    requires SysNext(reg, a, move, b)
    ensures EvalInv(reg, handlers, b)
  {
    StoreStaysFed(reg, handlers, a, move, b);
    forall c | c in b.locals
      ensures LocalTrue(reg, handlers, b.world, b.locals[c])
    {
      if move.Coord? && c == move.c {
        ActorIsTrue(reg, handlers, a, c, move.act, b);
      } else {
        TruthStays(reg, handlers, a, move, b, a.locals[c]);
      }
    }
  }

  lemma StateKeepsEval(reg: Registry, handlers: Handlers, ss: seq<Sys>, moves: seq<Move>, i: nat)
    requires ValidRegistry(reg) && IsHonestRun(reg, handlers, ss, moves) && i < |moves| && EvalInv(reg, handlers, ss[i])
    ensures EvalInv(reg, handlers, ss[i + 1])
  {
    RunKeepsCas(reg, ss, moves, i);
    RunKeepsPins(reg, ss, moves, i);
    RunHandled(reg, handlers, ss, moves, i);
    MoveKeepsEval(reg, handlers, ss[i], moves[i], ss[i + 1]);
  }

  lemma {:induction false} RunKeepsEval(reg: Registry, handlers: Handlers, ss: seq<Sys>, moves: seq<Move>, i: nat)
    requires ValidRegistry(reg) && IsHonestRun(reg, handlers, ss, moves) && i < |ss|
    ensures EvalInv(reg, handlers, ss[i])
  {
    if i > 0 {
      RunKeepsEval(reg, handlers, ss, moves, i - 1);
      StateKeepsEval(reg, handlers, ss, moves, i - 1);
    }
  }

  // ---------------------------------------------------------------------------------------------
  // Theorems

  lemma StoreShaped(reg: Registry, ss: seq<Sys>, moves: seq<Move>, i: nat)
    requires ValidRegistry(reg) && IsRun(reg, ss, moves) && i < |ss|
    ensures
      var s := ss[i].world.store;
      Valid(s) && forall id :: id in s.executions ==> Shaped(reg, s, s.executions[id])
  {
    RunKeepsCas(reg, ss, moves, i);
  }

  /** If handlers are functions of their input, then in every reachable state every node of every run
      is stored with the input that recursive evaluation of the DAG makes for it, whatever the order of
      workers, retries, lost leases, crashes, restarts and cancellations, and even where the data flow
      is broken: what a stale coordinator builds is built from results that come out the same again. */
  lemma EveryInputIsEvaluated(reg: Registry, handlers: Handlers, ss: seq<Sys>, moves: seq<Move>, i: nat, r: Uuid, j: nat)
    requires ValidRegistry(reg) && IsHonestRun(reg, handlers, ss, moves) && i < |ss|
    requires r in ss[i].world.store.runs && Registered(reg, ss[i].world.store.runs[r])
    requires j < |NodesOf(reg, ss[i].world.store.runs[r])| && Node(ss[i].world.store, r, NodesOf(reg, ss[i].world.store.runs[r])[j].key).Some?
    ensures
      var s := ss[i].world.store;
      var n := NodesOf(reg, s.runs[r])[j];
      Makes(n, s.runs[r].input, Evaluate(NodesOf(reg, s.runs[r]), handlers, s.runs[r].input), Node(s, r, n.key).value.input)
  {
    var s, k := ss[i].world.store, NodesOf(reg, ss[i].world.store.runs[r])[j].key;
    StoreShaped(reg, ss, moves, i);
    RunKeepsEval(reg, handlers, ss, moves, i);
    NodeIdentity(s, r, k);
    assert FedAt(reg, handlers, s, Node(s, r, k).value);
    var n, outputs := NodesOf(reg, s.runs[r])[j], Truth(reg, handlers, s.runs[r]);
    assert Fed(outputs, s.runs[r].input, n, Node(s, r, k).value.input);
    InputFromDependencies(n, s.runs[r].input, outputs, outputs);
  }

  /** And every node that has succeeded holds the output evaluation gives it. */
  lemma SucceededNodeIsEvaluated(reg: Registry, handlers: Handlers, ss: seq<Sys>, moves: seq<Move>, i: nat, r: Uuid, k: string)
    requires ValidRegistry(reg) && IsHonestRun(reg, handlers, ss, moves) && i < |ss|
    requires r in ss[i].world.store.runs && Registered(reg, ss[i].world.store.runs[r]) && IsSucceeded(Node(ss[i].world.store, r, k))
    ensures
      var s := ss[i].world.store;
      var outputs := Evaluate(NodesOf(reg, s.runs[r]), handlers, s.runs[r].input);
      k in outputs && outputs[k] == Node(s, r, k).value.output
  {
    StoreShaped(reg, ss, moves, i);
    RunHandled(reg, handlers, ss, moves, i);
    RunKeepsEval(reg, handlers, ss, moves, i);
    NodeIsTrue(reg, handlers, ss[i].world.store, r, k);
  }

  /** When a run is succeeded, evaluation is defined at every node and is what the run stores. */
  lemma SucceededRunIsEvaluated(reg: Registry, handlers: Handlers, ss: seq<Sys>, moves: seq<Move>, i: nat, r: Uuid, k: string)
    requires ValidRegistry(reg) && IsHonestRun(reg, handlers, ss, moves) && i < |ss|
    requires r in ss[i].world.store.runs && ss[i].world.store.runs[r].status == RunSucceeded
    ensures
      var s := ss[i].world.store;
      && Registered(reg, s.runs[r])
      && (k in KeysOf(NodesOf(reg, s.runs[r])) <==> k in Evaluate(NodesOf(reg, s.runs[r]), handlers, s.runs[r].input))
      && (k in KeysOf(NodesOf(reg, s.runs[r])) ==>
            && IsSucceeded(Node(s, r, k))
            && Node(s, r, k).value.output == Evaluate(NodesOf(reg, s.runs[r]), handlers, s.runs[r].input)[k])
  {
    var s := ss[i].world.store;
    SucceededRunIsComplete(reg, ss, moves, i, r);
    if k in KeysOf(NodesOf(reg, s.runs[r])) {
      SucceededNodeIsEvaluated(reg, handlers, ss, moves, i, r, k);
    } else if k in Evaluate(NodesOf(reg, s.runs[r]), handlers, s.runs[r].input) {
      EvaluateKeys(NodesOf(reg, s.runs[r]), handlers, s.runs[r].input, k);
    }
  }
}
