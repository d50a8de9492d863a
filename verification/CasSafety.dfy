/** The revision compare-and-set: whatever coordinators, workers and operators interleave, a run is
    marked succeeded only while all its nodes have succeeded, and a terminal run is reopened only
    by a subgraph restart. */
module CasSafety {
  import opened Model
  import opened Records
  import opened Storage
  import opened Definitions
  import opened Engine
  import opened Histories
  import opened Coordination

  // ---------------------------------------------------------------------------------------------
  // What single steps cannot do

  /** A later version of a run record. */
  predicate Later(run: PipelineRun, run': PipelineRun) {
    && run'.id == run.id && run'.input == run.input
    && run'.pipelineName == run.pipelineName && run'.pipelineVersion == run.pipelineVersion
    && run.revision <= run'.revision
    && (run.revision == run'.revision ==> run' == run)
  }

  lemma RunsOnlyAdvance(w: World, step: Step, w': World, r: Uuid)
    requires Inv(w) && Next(w, step, w') && r in w'.store.runs
    ensures r in w.store.runs ==> Later(w.store.runs[r], w'.store.runs[r])
    ensures r !in w.store.runs ==> r !in w.issued && w'.store.runs[r].status == RunPending
  {
    RunAfter(w.store, step, w'.clock, r);
  }

  predicate SucceededWith(n: Option<Execution>, output: Json) {
    n.Some? && n.value.status.Succeeded? && n.value.output == output
  }

  lemma SucceededIsFinal(e: Execution, op: RecordOp, now: Time)
    requires e.status.Succeeded? && e.runId.Some?
    ensures Apply(e, op, now).Refused?
  {
  }

  lemma SucceededNext(s: Store, step: Step, now: Time, r: Uuid, k: string, output: Json)
    requires SucceededWith(Node(s, r, k), output) && Node(s, r, k).value.runId == Some(r)
    requires r in s.runs && step != DropRun(r)
    requires step.Create? && step.request.runId == Some(r) && step.request.nodeKey == k ==> Existing(s, step.request).Some?
    ensures
      || SucceededWith(NodeNext(s, step, now, r, k), output)
      || (step.Subgraph? && step.restart.runId == r && RestartAllowed(s, step.restart))
  {
    if step.Touch? {
      SucceededIsFinal(Node(s, r, k).value, step.op, now);
    }
  }

  /** A succeeded node keeps its status and output until its run is reopened, which raises the
      revision. */
  lemma SucceededStays(w: World, step: Step, w': World, r: Uuid, k: string, output: Json)
    requires Inv(w) && Next(w, step, w') && Orderly(w.store, step)
    requires r in w.store.runs && r in w'.store.runs && k != ""
    requires SucceededWith(Node(w.store, r, k), output)
    ensures
      || SucceededWith(Node(w'.store, r, k), output)
      || (step.Subgraph? && step.restart.runId == r && w.store.runs[r].revision < w'.store.runs[r].revision)
  {
    NodeIdentity(w.store, r, k);
    RunAfter(w.store, step, w'.clock, r);
    NodeAfter(w.store, step, w'.clock, r, k);
    SucceededNext(w.store, step, w'.clock, r, k, output);
  }

  // ---------------------------------------------------------------------------------------------
  // The invariant

  /** The executions of pipeline runs are the ones coordinators create. */
  predicate Shaped(reg: Registry, s: Store, e: Execution) {
    && (e.runId.Some? ==> e.nodeKey != "" && e.idempotencyKey == NodeRef(e.runId.value, e.nodeKey))
    && (e.idempotencyKey.NodeRef? ==> e.runId == Some(e.idempotencyKey.run))
    && (e.runId.Some? && e.runId.value in s.runs && Registered(reg, s.runs[e.runId.value]) ==>
          Declared(NodesOf(reg, s.runs[e.runId.value]), e))
  }

  /** The definition has a node with this execution's key, task and attempt budget. */
  predicate Declared(nodes: seq<NodeDef>, e: Execution) {
    && e.nodeKey in KeysOf(nodes)
    && (forall i :: 0 <= i < |nodes| && nodes[i].key == e.nodeKey ==>
          nodes[i].taskName == e.taskName && nodes[i].taskVersion == e.taskVersion && nodes[i].maxAttempts == e.maxAttempts)
  }

  ghost predicate AllShaped(reg: Registry, w: World) {
    forall id :: id in w.store.executions ==>
      && Shaped(reg, w.store, w.store.executions[id])
      && (w.store.executions[id].runId.Some? ==> w.store.executions[id].runId.value in w.issued)
  }

  /** A run record some coordinator has read. */
  predicate WasRead(w: World, run: PipelineRun) {
    run.id in w.issued && (run.id in w.store.runs ==> Later(run, w.store.runs[run.id]))
  }

  /** The run is still at the revision the coordinator read. */
  predicate Untouched(w: World, run: PipelineRun) {
    run.id in w.store.runs && w.store.runs[run.id].revision == run.revision
  }

  predicate SnapOf(run: PipelineRun, snap: Snapshot, issued: set<Uuid>) {
    forall k :: k in snap ==>
      k != "" && snap[k].runId == Some(run.id) && snap[k].nodeKey == k && snap[k].id in issued
  }

  ghost predicate StillSucceeded(w: World, r: Uuid, snap: Snapshot) {
    forall k :: k in snap && snap[k].status.Succeeded? ==> SucceededWith(Node(w.store, r, k), snap[k].output)
  }

  predicate Complete(reg: Registry, s: Store, run: PipelineRun) {
    Registered(reg, run) &&
    forall k :: k in KeysOf(NodesOf(reg, run)) ==> Node(s, run.id, k).Some? && Node(s, run.id, k).value.status.Succeeded?
  }

  ghost predicate LocalInv(reg: Registry, w: World, l: Local) {
    match l
    case Idle => true
    case GotRun(run) => WasRead(w, run) && !run.status.Terminal() && Registered(reg, run)
    case Walking(run, snap, i, _) =>
      && WasRead(w, run) && !run.status.Terminal() && Registered(reg, run)
      && i <= |NodesOf(reg, run)|
      && SnapOf(run, snap, w.issued)
      && (run.id in w.store.runs ==> snap.Keys <= KeysOf(NodesOf(reg, run)))
      && (Untouched(w, run) ==> StillSucceeded(w, run.id, snap))
    case Finishing(run, status, _) =>
      && WasRead(w, run)
      && (status != RunCancelled ==> !run.status.Terminal())
      && (status == RunSucceeded && Untouched(w, run) ==> Complete(reg, w.store, run))
  }

  ghost predicate CasInv(reg: Registry, sys: Sys) {
    && Inv(sys.world)
    && AllShaped(reg, sys.world)
    && (forall c :: c in sys.locals ==> LocalInv(reg, sys.world, sys.locals[c]))
    && (forall r :: r in sys.world.store.runs && sys.world.store.runs[r].status == RunSucceeded ==>
          Complete(reg, sys.world.store, sys.world.store.runs[r]))
  }

  // ---------------------------------------------------------------------------------------------
  // Steps keep what coordinators know

  lemma WasReadStays(w: World, step: Step, w': World, run: PipelineRun)
    requires Inv(w) && Next(w, step, w') && WasRead(w, run)
    ensures WasRead(w', run)
    ensures Untouched(w', run) ==> Untouched(w, run) && w'.store.runs[run.id] == w.store.runs[run.id]
    ensures run.id in w'.store.runs ==> run.id in w.store.runs
  {
    if run.id in w'.store.runs {
      RunsOnlyAdvance(w, step, w', run.id);
    }
  }

  lemma CompleteStays(reg: Registry, w: World, step: Step, w': World, run: PipelineRun)
    requires Inv(w) && Next(w, step, w') && Orderly(w.store, step) && ValidRegistry(reg)
    requires WasRead(w, run) && Untouched(w', run) && Complete(reg, w.store, run)
    ensures Complete(reg, w'.store, run)
  {
    WasReadStays(w, step, w', run);
    forall k | k in KeysOf(NodesOf(reg, run))
      ensures Node(w'.store, run.id, k).Some? && Node(w'.store, run.id, k).value.status.Succeeded?
    {
      NodeIdentity(w.store, run.id, k);
      SucceededStays(w, step, w', run.id, k, Node(w.store, run.id, k).value.output);
    }
  }

  lemma StillSucceededStays(w: World, step: Step, w': World, run: PipelineRun, snap: Snapshot)
    requires Inv(w) && Next(w, step, w') && Orderly(w.store, step)
    requires WasRead(w, run) && Untouched(w', run)
    requires SnapOf(run, snap, w.issued) && StillSucceeded(w, run.id, snap)
    ensures StillSucceeded(w', run.id, snap)
  {
    WasReadStays(w, step, w', run);
    forall k | k in snap && snap[k].status.Succeeded?
      ensures SucceededWith(Node(w'.store, run.id, k), snap[k].output)
    {
      SucceededStays(w, step, w', run.id, k, snap[k].output);
    }
  }

  /** What a coordinator knows survives any step of anybody. */
  lemma LocalStays(reg: Registry, w: World, step: Step, w': World, l: Local)
    requires Inv(w) && Next(w, step, w') && Orderly(w.store, step) && ValidRegistry(reg)
    requires LocalInv(reg, w, l)
    ensures LocalInv(reg, w', l)
  {
    if !l.Idle? {
      WasReadStays(w, step, w', l.run);
    }
    match l
    case Walking(run, snap, _, _) =>
      if Untouched(w', run) {
        StillSucceededStays(w, step, w', run, snap);
      }
    case Finishing(run, status, _) =>
      if status == RunSucceeded && Untouched(w', run) {
        CompleteStays(reg, w, step, w', run);
      }
    case _ =>
  }

  // ---------------------------------------------------------------------------------------------
  // Pipeline executions keep their shape

  predicate ProperCreate(reg: Registry, w: World, q: CreateExecution) {
    && (q.runId.None? ==> !q.idempotencyKey.NodeRef?)
    && (q.runId.Some? ==>
          && q.nodeKey != "" && q.idempotencyKey == NodeRef(q.runId.value, q.nodeKey) && q.runId.value in w.issued
          && (q.runId.value in w.store.runs && Registered(reg, w.store.runs[q.runId.value]) ==>
                Declared(NodesOf(reg, w.store.runs[q.runId.value]), NewExecution(q, NIL, 0))))
  }

  lemma TouchedExecution(s: Store, id': Uuid, op: RecordOp, now: Time, id: Uuid)
    requires id' in s.executions ==> s.executions[id'].id == id'
    requires id in TouchRecord(s, id', op, now).executions
    ensures id in s.executions && SameIdentity(s.executions[id], TouchRecord(s, id', op, now).executions[id])
  {
    if id' in s.executions && Apply(s.executions[id'], op, now).Done? {
      ApplyKeepsIdentity(s.executions[id'], op, now);
    }
  }

  lemma ExecutionAfter(s: Store, step: Step, now: Time, id: Uuid)
    requires forall x :: x in s.executions ==> s.executions[x].id == x
    requires id in Do(s, step, now).executions
    ensures
      var e' := Do(s, step, now).executions[id];
      || (id in s.executions && SameIdentity(s.executions[id], e'))
      || (step.Create? && e' == NewExecution(step.request, step.newId, now))
  {
    if step.Touch? {
      TouchedExecution(s, step.id, step.op, now, id);
    }
  }

  lemma ShapeStays(reg: Registry, w: World, step: Step, w': World)
    requires Inv(w) && Next(w, step, w') && AllShaped(reg, w)
    requires step.Create? ==> ProperCreate(reg, w, step.request)
    ensures AllShaped(reg, w')
  {
    forall id | id in w'.store.executions
      ensures Shaped(reg, w'.store, w'.store.executions[id])
      ensures w'.store.executions[id].runId.Some? ==> w'.store.executions[id].runId.value in w'.issued
    {
      ExecutionAfter(w.store, step, w'.clock, id);
      var e' := w'.store.executions[id];
      if e'.runId.Some? && e'.runId.value in w'.store.runs {
        RunsOnlyAdvance(w, step, w', e'.runId.value);
      }
    }
  }

  // ---------------------------------------------------------------------------------------------
  // Acts of a coordinator

  lemma ListKnows(reg: Registry, w: World, run: PipelineRun)
    requires Inv(w) && AllShaped(reg, w) && WasRead(w, run) && Registered(reg, run)
    ensures
      var snap := Snap(w.store, run.id);
      && SnapOf(run, snap, w.issued)
      && (run.id in w.store.runs ==> snap.Keys <= KeysOf(NodesOf(reg, run)))
      && StillSucceeded(w, run.id, snap)
  {
    var snap := Snap(w.store, run.id);
    forall k | k in snap
      ensures k != "" && snap[k].runId == Some(run.id) && snap[k].nodeKey == k && snap[k].id in w.issued
      ensures run.id in w.store.runs ==> k in KeysOf(NodesOf(reg, run))
      ensures Node(w.store, run.id, k) == Some(snap[k])
    {
      SnapIsNodes(w.store, run.id, k);
      NodeIdentity(w.store, run.id, k);
      assert Shaped(reg, w.store, snap[k]);
    }
  }

  lemma ConcludeKnows(reg: Registry, w: World, l: Local)
    requires ValidRegistry(reg) && LocalInv(reg, w, l) && l.Walking? && Untouched(w, l.run)
    requires Conclusion(l.run, l.snap, NodesOf(reg, l.run), l.created) == Some(RunSucceeded)
    ensures Complete(reg, w.store, l.run)
  {
    var nodes := NodesOf(reg, l.run);
    CountDecidesCompletion(l.run, l.snap, nodes, l.created);
    forall k | k in KeysOf(nodes)
      ensures Node(w.store, l.run.id, k).Some? && Node(w.store, l.run.id, k).value.status.Succeeded?
    {
      assert SucceededWith(Node(w.store, l.run.id, k), l.snap[k].output);
    }
  }

  /** A coordinator that reads, lists or concludes writes nothing and knows what it must. */
  lemma QuietActKnows(reg: Registry, w: World, l: Local, act: Act, now: Time)
    requires Inv(w) && AllShaped(reg, w) && ValidRegistry(reg) && LocalInv(reg, w, l)
    requires Enabled(reg, w.store, l, act) && Effect(reg, l, act).None?
    ensures LocalInv(reg, w, After(reg, w.store, l, act, now))
  {
    match act
    case List(_) => ListKnows(reg, w, l.run);
    case Conclude =>
      if Conclusion(l.run, l.snap, NodesOf(reg, l.run), l.created) == Some(RunSucceeded) && Untouched(w, l.run) {
        ConcludeKnows(reg, w, l);
      }
    case _ =>
  }

  lemma WalkIsProper(reg: Registry, w: World, l: Local, act: Act)
    requires ValidRegistry(reg) && LocalInv(reg, w, l) && act.Walk? && Enabled(reg, w.store, l, act)
    requires Effect(reg, l, act).Some?
    ensures
      var step := Effect(reg, l, act).value;
      && Orderly(w.store, step) && (step.Touch? || step.Create?)
      && (step.Create? ==> ProperCreate(reg, w, step.request))
  {
    var nodes := NodesOf(reg, l.run);
    var n := nodes[l.i];
    assert Placed(nodes, l.i);
    KeyAt(nodes, l.i);
    DistinctKeys(nodes);
  }

  /** Everything a walk or a commit leaves behind for the coordinator itself. */
  lemma WritingActKnows(reg: Registry, w: World, l: Local, act: Act, w': World)
    requires Inv(w) && ValidRegistry(reg) && LocalInv(reg, w, l)
    requires Enabled(reg, w.store, l, act) && Effect(reg, l, act).Some?
    requires Next(w, Effect(reg, l, act).value, w')
    ensures LocalInv(reg, w', After(reg, w.store, l, act, w'.clock))
  {
    if act.Walk? {
      WalkIsProper(reg, w, l, act);
      LocalStays(reg, w, Effect(reg, l, act).value, w', l);
    }
  }

  /** A run becomes succeeded only by a commit, and that commit found it complete. */
  lemma NewlySucceeded(reg: Registry, w: World, l: Local, w': World, r: Uuid)
    requires Inv(w) && LocalInv(reg, w, l) && l.Finishing?
    requires Next(w, SetStatus(l.run.id, l.run.revision, l.status, l.error), w')
    requires r == l.run.id && r in w.store.runs && w.store.runs[r].revision == l.run.revision && l.status == RunSucceeded
    ensures Complete(reg, w'.store, w'.store.runs[r])
  {
    assert w.store.runs[r] == l.run;
    assert Complete(reg, w.store, l.run);
    forall k
      ensures Node(w'.store, r, k) == Node(w.store, r, k)
    {
    }
  }

  ghost predicate SucceededRunsComplete(reg: Registry, s: Store) {
    forall r :: r in s.runs && s.runs[r].status == RunSucceeded ==> Complete(reg, s, s.runs[r])
  }

  lemma SucceededRunsStay(reg: Registry, w: World, step: Step, w': World)
    requires Inv(w) && Next(w, step, w') && Orderly(w.store, step) && ValidRegistry(reg)
    requires SucceededRunsComplete(reg, w.store)
    requires forall r :: r in w'.store.runs && r in w.store.runs && w.store.runs[r] != w'.store.runs[r] ==>
               (w'.store.runs[r].status == RunSucceeded ==> Complete(reg, w'.store, w'.store.runs[r]))
    ensures SucceededRunsComplete(reg, w'.store)
  {
    forall r | r in w'.store.runs && w'.store.runs[r].status == RunSucceeded
      ensures Complete(reg, w'.store, w'.store.runs[r])
    {
      RunsOnlyAdvance(w, step, w', r);
      if w.store.runs[r] == w'.store.runs[r] {
        CompleteStays(reg, w, step, w', w.store.runs[r]);
      }
    }
  }

  lemma RunChange(w: World, step: Step, w': World, r: Uuid)
    requires Inv(w) && Next(w, step, w')
    requires r in w.store.runs && r in w'.store.runs && w.store.runs[r] != w'.store.runs[r]
    ensures
      || (step.Subgraph? && step.restart.runId == r && w'.store.runs[r].status == RunRunning)
      || (step.SetStatus? && step.id == r && w.store.runs[r].revision == step.expected
          && w'.store.runs[r].status == step.status)
  {
    RunAfter(w.store, step, w'.clock, r);
  }

  lemma StepKeepsCas(reg: Registry, sys: Sys, step: Step, sys': Sys)
    requires CasInv(reg, sys) && ValidRegistry(reg) && Next(sys.world, step, sys'.world) && Orderly(sys.world.store, step)
    requires step.Create? ==> ProperCreate(reg, sys.world, step.request)
    ensures Inv(sys'.world) && AllShaped(reg, sys'.world)
    ensures forall c :: c in sys.locals ==> LocalInv(reg, sys'.world, sys.locals[c])
  {
    StepKeepsInv(sys.world, step, sys'.world);
    ShapeStays(reg, sys.world, step, sys'.world);
    forall c | c in sys.locals
      ensures LocalInv(reg, sys'.world, sys.locals[c])
    {
      LocalStays(reg, sys.world, step, sys'.world, sys.locals[c]);
    }
  }

  lemma EnvKeepsCas(reg: Registry, sys: Sys, step: Step, sys': Sys)
    requires CasInv(reg, sys) && ValidRegistry(reg) && SysNext(reg, sys, Env(step), sys')
    ensures CasInv(reg, sys')
  {
    var w, w' := sys.world, sys'.world;
    StepKeepsCas(reg, sys, step, sys');
    forall r | r in w'.store.runs && r in w.store.runs && w.store.runs[r] != w'.store.runs[r]
      ensures w'.store.runs[r].status != RunSucceeded
    {
      RunChange(w, step, w', r);
    }
    SucceededRunsStay(reg, w, step, w');
  }

  lemma CoordKeepsCas(reg: Registry, sys: Sys, c: nat, act: Act, sys': Sys)
    requires CasInv(reg, sys) && ValidRegistry(reg) && CoordNext(reg, sys, c, act, sys')
    ensures CasInv(reg, sys')
  {
    var w, w', l := sys.world, sys'.world, LocalOf(sys, c);
    if Effect(reg, l, act).None? {
      QuietActKnows(reg, w, l, act, w'.clock);
    } else {
      var step := Effect(reg, l, act).value;
      if act.Walk? {
        WalkIsProper(reg, w, l, act);
      }
      StepKeepsCas(reg, sys, step, sys');
      WritingActKnows(reg, w, l, act, w');
      forall r | r in w'.store.runs && r in w.store.runs && w.store.runs[r] != w'.store.runs[r]
        ensures w'.store.runs[r].status == RunSucceeded ==> Complete(reg, w'.store, w'.store.runs[r])
      {
        RunChange(w, step, w', r);
        if w'.store.runs[r].status == RunSucceeded {
          NewlySucceeded(reg, w, l, w', r);
        }
      }
      SucceededRunsStay(reg, w, step, w');
    }
  }

  /** Every reachable state satisfies the invariant. */
  lemma {:induction false} RunKeepsCas(reg: Registry, ss: seq<Sys>, moves: seq<Move>, i: nat)
    requires ValidRegistry(reg) && IsRun(reg, ss, moves) && i < |ss|
    ensures CasInv(reg, ss[i])
  {
    if i > 0 {
      RunKeepsCas(reg, ss, moves, i - 1);
      assert SysNext(reg, ss[i - 1], moves[i - 1], ss[i]);
      match moves[i - 1]
      case Env(step) => EnvKeepsCas(reg, ss[i - 1], step, ss[i]);
      case Coord(c, act) => CoordKeepsCas(reg, ss[i - 1], c, act, ss[i]);
    }
  }

  lemma StepIsOrderly(reg: Registry, a: Sys, move: Move, b: Sys, step: Step)
    requires ValidRegistry(reg) && CasInv(reg, a) && SysNext(reg, a, move, b) && StepOf(reg, a, move) == Some(step)
    ensures Orderly(a.world.store, step) && Fresh(a.world.store, step)
    ensures step.Subgraph? || (step.Touch? && step.op.Start?) ==> move == Env(step)
  {
    MoveIsStep(reg, a, move, b);
    NextIsFresh(a.world, step, b.world);
    if move.Coord? && move.act.Walk? {
      WalkIsProper(reg, a.world, LocalOf(a, move.c), move.act);
    }
  }

  lemma NextIsFresh(w: World, step: Step, w': World)
    requires Inv(w) && Next(w, step, w')
    ensures Fresh(w.store, step)
  {
  }

  // ---------------------------------------------------------------------------------------------
  // Theorems

  /** Whenever a run is succeeded, every node of its definition exists and has succeeded, however
      coordinators, workers, operators, restarts and retention were interleaved. */
  lemma SucceededRunIsComplete(reg: Registry, ss: seq<Sys>, moves: seq<Move>, i: nat, r: Uuid)
    requires ValidRegistry(reg) && IsRun(reg, ss, moves) && i < |ss|
    requires r in ss[i].world.store.runs && ss[i].world.store.runs[r].status == RunSucceeded
    ensures
      var s := ss[i].world.store;
      && Registered(reg, s.runs[r])
      && (forall k :: k in KeysOf(NodesOf(reg, s.runs[r])) ==> Node(s, r, k).Some? && Node(s, r, k).value.status.Succeeded?)
  {
    RunKeepsCas(reg, ss, moves, i);
    assert ss[i].world.store.runs[r].id == r;
  }

  /** A status write of a coordinator changes a run only if the run is, field for field, the one
      that coordinator read; an advance therefore never overwrites a terminal run. */
  lemma CommitActsOnTheRunItRead(reg: Registry, ss: seq<Sys>, moves: seq<Move>, i: nat, c: nat)
    requires ValidRegistry(reg) && IsRun(reg, ss, moves) && i < |moves|
    requires moves[i] == Coord(c, Commit)
    ensures LocalOf(ss[i], c).Finishing?
    ensures
      var l, s, s' := LocalOf(ss[i], c), ss[i].world.store, ss[i + 1].world.store;
      && (s'.runs != s.runs ==> l.run.id in s.runs && s.runs[l.run.id] == l.run)
      && (s'.runs != s.runs && l.status != RunCancelled ==> !s.runs[l.run.id].status.Terminal())
  {
    RunKeepsCas(reg, ss, moves, i);
    assert SysNext(reg, ss[i], moves[i], ss[i + 1]);
  }

  /** A terminal run leaves the terminal statuses only through a subgraph restart. */
  lemma TerminalLeftOnlyByRestart(reg: Registry, ss: seq<Sys>, moves: seq<Move>, i: nat, r: Uuid)
    requires ValidRegistry(reg) && IsRun(reg, ss, moves) && i < |moves|
    requires r in ss[i].world.store.runs && r in ss[i + 1].world.store.runs
    requires ss[i].world.store.runs[r].status.Terminal() && !ss[i + 1].world.store.runs[r].status.Terminal()
    ensures moves[i].Env? && moves[i].step.Subgraph? && moves[i].step.restart.runId == r
  {
    RunKeepsCas(reg, ss, moves, i);
    assert SysNext(reg, ss[i], moves[i], ss[i + 1]);
    MoveIsStep(reg, ss[i], moves[i], ss[i + 1]);
    RunChange(ss[i].world, StepOf(reg, ss[i], moves[i]).value, ss[i + 1].world, r);
  }

  // ---------------------------------------------------------------------------------------------
  // Finish times

  /** Coordinators write a status that is not final only over one that is not final. */
  lemma StatusWriteIsDue(reg: Registry, a: Sys, move: Move, b: Sys, step: Step)
    requires CasInv(reg, a) && SysNext(reg, a, move, b) && StepOf(reg, a, move) == Some(step)
    requires step.SetStatus? && StatusReply(a.world.store, step.id, step.expected).Ok?
    ensures step.status.Terminal() || !a.world.store.runs[step.id].status.Terminal()
  {
    assert LocalInv(reg, a.world, LocalOf(a, move.c));
  }

  lemma TimedStays(reg: Registry, a: Sys, move: Move, b: Sys, r: Uuid)
    requires CasInv(reg, a) && SysNext(reg, a, move, b) && r in b.world.store.runs
    requires r in a.world.store.runs ==> Timed(a.world.store.runs[r])
    ensures Timed(b.world.store.runs[r])
  {
    MoveIsStep(reg, a, move, b);
    match StepOf(reg, a, move)
    case None =>
    case Some(step) =>
      RunAfter(a.world.store, step, b.world.clock, r);
      if step.SetStatus? && StatusReply(a.world.store, step.id, step.expected).Ok? {
        StatusWriteIsDue(reg, a, move, b, step);
      }
  }

  /** In every reachable state a run has a finish time exactly when it has finished. */
  lemma {:induction false} FinishTimesInEveryState(reg: Registry, ss: seq<Sys>, moves: seq<Move>, i: nat, r: Uuid)
    requires ValidRegistry(reg) && IsRun(reg, ss, moves) && i < |ss| && r in ss[i].world.store.runs
    ensures Timed(ss[i].world.store.runs[r])
  {
    if i > 0 {
      RunKeepsCas(reg, ss, moves, i - 1);
      assert SysNext(reg, ss[i - 1], moves[i - 1], ss[i]);
      if r in ss[i - 1].world.store.runs {
        FinishTimesInEveryState(reg, ss, moves, i - 1, r);
      }
      TimedStays(reg, ss[i - 1], moves[i - 1], ss[i], r);
    }
  }
  // ---------------------------------------------------------------------------------------------
  // What a run record says

  /** A coordinator about to write a final text has failed or cancelled the run. */
  predicate Civil(l: Local) {
    l.Finishing? ==> l.status != RunPending && (l.error != "" ==> l.status == RunFailed || l.status == RunCancelled)
  }

  ghost predicate AllCivil(sys: Sys) {
    forall c :: c in sys.locals ==> Civil(sys.locals[c])
  }

  lemma {:induction false} RunKeepsCivil(reg: Registry, ss: seq<Sys>, moves: seq<Move>, i: nat)
    requires IsRun(reg, ss, moves) && i < |ss|
    ensures AllCivil(ss[i])
  {
    if i > 0 {
      RunKeepsCivil(reg, ss, moves, i - 1);
      assert SysNext(reg, ss[i - 1], moves[i - 1], ss[i]);
    }
  }

  /** The record was last written when it says, finished then if it is finished, bears an error only
      if it failed or was cancelled, and is pending until it is first written. */
  predicate Kempt(run: PipelineRun, clock: Time) {
    && run.createdAt <= run.updatedAt <= clock
    && (run.finishedAt.Some? ==> run.finishedAt == Some(run.updatedAt))
    && (run.error != "" ==> run.status == RunFailed || run.status == RunCancelled)
    && (run.status == RunPending <==> run.revision == 0)
  }

  lemma KemptByStep(s: Store, step: Step, clock: Time, now: Time, r: Uuid)
    requires clock <= now && RunNext(s, step, now, r).Some?
    requires r in s.runs ==> Kempt(s.runs[r], clock) && Timed(s.runs[r])
    requires step.SetStatus? ==> step.status != RunPending && (step.error != "" ==> step.status == RunFailed || step.status == RunCancelled)
    requires step.SetStatus? && StatusReply(s, step.id, step.expected).Ok? ==> step.status.Terminal() || !s.runs[step.id].status.Terminal()
    ensures Kempt(RunNext(s, step, now, r).value, now)
  {
  }

  lemma KemptStays(reg: Registry, a: Sys, move: Move, b: Sys, r: Uuid)
    requires CasInv(reg, a) && AllCivil(a) && SysNext(reg, a, move, b) && r in b.world.store.runs
    requires r in a.world.store.runs ==> Kempt(a.world.store.runs[r], a.world.clock) && Timed(a.world.store.runs[r])
    ensures Kempt(b.world.store.runs[r], b.world.clock)
  {
    MoveIsStep(reg, a, move, b);
    match StepOf(reg, a, move)
    case None =>
    case Some(step) =>
      RunAfter(a.world.store, step, b.world.clock, r);
      if step.SetStatus? && StatusReply(a.world.store, step.id, step.expected).Ok? {
        StatusWriteIsDue(reg, a, move, b, step);
      }
      KemptByStep(a.world.store, step, a.world.clock, b.world.clock, r);
  }

  /** In every reachable state a run record tells when it was last written and, if it is finished, that
      it finished then; it bears an error only if it failed or was cancelled, and is pending exactly as
      long as nothing has been written to it. */
  lemma {:induction false} RunRecordsInEveryState(reg: Registry, ss: seq<Sys>, moves: seq<Move>, i: nat, r: Uuid)
    requires ValidRegistry(reg) && IsRun(reg, ss, moves) && i < |ss| && r in ss[i].world.store.runs
    ensures
      var run := ss[i].world.store.runs[r];
      && run.createdAt <= run.updatedAt <= ss[i].world.clock
      && run.finishedAt == (if run.status.Terminal() then Some(run.updatedAt) else None)
      && (run.error != "" ==> run.status == RunFailed || run.status == RunCancelled)
      && (run.status == RunPending <==> run.revision == 0)
  {
    RunIsKempt(reg, ss, moves, i, r);
    FinishTimesInEveryState(reg, ss, moves, i, r);
  }

  lemma {:induction false} RunIsKempt(reg: Registry, ss: seq<Sys>, moves: seq<Move>, i: nat, r: Uuid)
    requires ValidRegistry(reg) && IsRun(reg, ss, moves) && i < |ss| && r in ss[i].world.store.runs
    ensures Kempt(ss[i].world.store.runs[r], ss[i].world.clock)
  {
    if i > 0 {
      RunKeepsCas(reg, ss, moves, i - 1);
      RunKeepsCivil(reg, ss, moves, i - 1);
      assert SysNext(reg, ss[i - 1], moves[i - 1], ss[i]);
      if r in ss[i - 1].world.store.runs {
        RunIsKempt(reg, ss, moves, i - 1, r);
        FinishTimesInEveryState(reg, ss, moves, i - 1, r);
      }
      KemptStays(reg, ss[i - 1], moves[i - 1], ss[i], r);
    }
  }
}
