/** Data flow over whole runs of the system: exactly when it holds, and what alone can break it. */
module FlowSafety {
  import opened Model
  import opened Storage
  import opened Definitions
  import opened Engine
  import opened Histories
  import opened Coordination
  import opened CasSafety
  import opened DataFlow

  // ---------------------------------------------------------------------------------------------
  // What coordinators have listed stays what it was

  /** The listed executions are still the ones stored under their ids. */
  ghost predicate Pinned(s: Store, run: PipelineRun, snap: Snapshot) {
    forall k :: k in snap && snap[k].id in s.executions ==>
      s.executions[snap[k].id].runId == Some(run.id) && s.executions[snap[k].id].nodeKey == k
  }

  lemma PinnedStays(w: World, step: Step, w': World, run: PipelineRun, snap: Snapshot)
    requires Inv(w) && Next(w, step, w') && SnapOf(run, snap, w.issued) && Pinned(w.store, run, snap)
    ensures Pinned(w'.store, run, snap)
  {
    forall k | k in snap && snap[k].id in w'.store.executions
      ensures w'.store.executions[snap[k].id].runId == Some(run.id) && w'.store.executions[snap[k].id].nodeKey == k
    {
      ExecutionAfter(w.store, step, w'.clock, snap[k].id);
      if snap[k].id !in w.store.executions {
        NewExecutionIsNew(w, step, w', snap[k].id);
      }
    }
  }

  lemma NewExecutionIsNew(w: World, step: Step, w': World, id: Uuid)
    requires Inv(w) && Next(w, step, w') && id in w'.store.executions && id !in w.store.executions
    ensures id !in w.issued
  {
    if step.Touch? {
      TouchKeepsKeys(w.store, step.id, step.op, w'.clock);
    }
  }

  lemma ListPins(reg: Registry, w: World, run: PipelineRun)
    requires Inv(w) && AllShaped(reg, w) && WasRead(w, run) && Registered(reg, run)
    ensures Pinned(w.store, run, Snap(w.store, run.id))
  {
    ListKnows(reg, w, run);
    var snap := Snap(w.store, run.id);
    forall k | k in snap
      ensures w.store.executions[snap[k].id] == snap[k]
    {
      SnapIsNodes(w.store, run.id, k);
      NodeIdentity(w.store, run.id, k);
    }
  }

  ghost predicate AllPinned(sys: Sys) {
    forall c :: c in sys.locals && sys.locals[c].Walking? ==> Pinned(sys.world.store, sys.locals[c].run, sys.locals[c].snap)
  }

  lemma PinStays(reg: Registry, a: Sys, move: Move, b: Sys, l: Local)
    requires Inv(a.world) && SysNext(reg, a, move, b)
    requires l.Walking? && LocalInv(reg, a.world, l) && Pinned(a.world.store, l.run, l.snap)
    ensures Pinned(b.world.store, l.run, l.snap)
  {
    MoveIsStep(reg, a, move, b);
    match StepOf(reg, a, move)
    case None =>
    case Some(step) => PinnedStays(a.world, step, b.world, l.run, l.snap);
  }

  lemma ActorIsPinned(reg: Registry, a: Sys, c: nat, act: Act, b: Sys)
    requires CasInv(reg, a) && AllPinned(a) && SysNext(reg, a, Coord(c, act), b) && b.locals[c].Walking?
    ensures Pinned(b.world.store, b.locals[c].run, b.locals[c].snap)
  {
    var l := LocalOf(a, c);
    if act.List? {
      ListPins(reg, a.world, l.run);
    } else {
      PinStays(reg, a, Coord(c, act), b, l);
    }
  }

  lemma MoveKeepsPins(reg: Registry, a: Sys, move: Move, b: Sys)
    requires CasInv(reg, a) && AllPinned(a) && SysNext(reg, a, move, b)
    ensures AllPinned(b)
  {
    forall c | c in b.locals && b.locals[c].Walking?
      ensures Pinned(b.world.store, b.locals[c].run, b.locals[c].snap)
    {
      if move.Coord? && c == move.c {
        ActorIsPinned(reg, a, c, move.act, b);
      } else {
        PinStays(reg, a, move, b, a.locals[c]);
      }
    }
  }

  lemma {:induction false} RunKeepsPins(reg: Registry, ss: seq<Sys>, moves: seq<Move>, i: nat)
    requires ValidRegistry(reg) && IsRun(reg, ss, moves) && i < |ss|
    ensures AllPinned(ss[i])
  {
    if i > 0 {
      RunKeepsPins(reg, ss, moves, i - 1);
      RunKeepsCas(reg, ss, moves, i - 1);
      assert SysNext(reg, ss[i - 1], moves[i - 1], ss[i]);
      MoveKeepsPins(reg, ss[i - 1], moves[i - 1], ss[i]);
    }
  }

  // ---------------------------------------------------------------------------------------------
  // One move

  ghost predicate TameRun(s: Store, step: Step, run: PipelineRun, nodes: seq<NodeDef>) {
    forall i :: 0 <= i < |nodes| ==> Tame(s, step, run, nodes[i])
  }

  lemma SameRunFlows(s: Store, a: PipelineRun, b: PipelineRun, nodes: seq<NodeDef>)
    requires a.id == b.id && a.input == b.input && Flows(s, a, nodes)
    ensures Flows(s, b, nodes)
  {
    forall i | 0 <= i < |nodes|
      ensures NodeFlows(s, b, nodes[i])
    {
      assert NodeFlows(s, a, nodes[i]);
    }
  }

  lemma NewRunFlows(reg: Registry, w: World, step: Step, w': World, r: Uuid, nodes: seq<NodeDef>)
    requires Inv(w) && Next(w, step, w') && AllShaped(reg, w)
    requires r !in w.store.runs && r in w'.store.runs
    ensures Flows(w'.store, w'.store.runs[r], nodes)
  {
    RunAfter(w.store, step, w'.clock, r);
    assert step.NewRun?;
    RunsOnlyAdvance(w, step, w', r);
    assert w'.store.runs[r].id == r;
    forall k
      ensures Node(w'.store, r, k).None?
    {
      if Node(w.store, r, k).Some? {
        NodeIdentity(w.store, r, k);
      }
    }
  }

  /** The data flow of one run in one state. */
  ghost predicate FlowsAt(reg: Registry, sys: Sys, r: Uuid) {
    var s := sys.world.store;
    r in s.runs && Registered(reg, s.runs[r]) ==> Flows(s, s.runs[r], NodesOf(reg, s.runs[r]))
  }

  /** The move meets the guard at every node of the run. */
  ghost predicate TameMove(reg: Registry, sys: Sys, move: Move, r: Uuid) {
    var s := sys.world.store;
    && (move.Coord? ==> Enabled(reg, s, LocalOf(sys, move.c), move.act))
    && match StepOf(reg, sys, move)
       case None => true
       case Some(step) => r in s.runs && Registered(reg, s.runs[r]) ==> TameRun(s, step, s.runs[r], NodesOf(reg, s.runs[r]))
  }

  ghost predicate AllTameMoves(reg: Registry, ss: seq<Sys>, moves: seq<Move>, p: nat, q: nat, r: Uuid)
    requires q < |ss| == |moves| + 1
  {
    forall i :: p <= i < q ==> TameMove(reg, ss[i], moves[i], r)
  }

  ghost predicate FlowsFrom(reg: Registry, ss: seq<Sys>, p: nat, q: nat, r: Uuid)
    requires q < |ss|
  {
    forall i :: p <= i <= q ==> FlowsAt(reg, ss[i], r)
  }

  /** A restart that is carried out names the descendants the definition has, as the engine's do. */
  ghost predicate CompiledMove(reg: Registry, sys: Sys, move: Move, r: Uuid) {
    var s := sys.world.store;
    move.Env? && move.step.Subgraph? && RestartAllowed(s, move.step.restart) && r in s.runs && Registered(reg, s.runs[r]) ==>
      Compiled(move.step, r, NodesOf(reg, s.runs[r]))
  }

  lemma StepFlowsExactly(reg: Registry, w: World, step: Step, w': World, r: Uuid)
    requires ValidRegistry(reg) && Inv(w) && Next(w, step, w') && Orderly(w.store, step) && Fresh(w.store, step)
    requires r in w.store.runs && r in w'.store.runs && Registered(reg, w.store.runs[r])
    requires Compiled(step, r, NodesOf(reg, w.store.runs[r])) && Flows(w.store, w.store.runs[r], NodesOf(reg, w.store.runs[r]))
    ensures Registered(reg, w'.store.runs[r]) && NodesOf(reg, w'.store.runs[r]) == NodesOf(reg, w.store.runs[r])
    ensures Flows(w'.store, w'.store.runs[r], NodesOf(reg, w'.store.runs[r])) <==>
            TameRun(w.store, step, w.store.runs[r], NodesOf(reg, w.store.runs[r]))
  {
    var run, run', nodes := w.store.runs[r], w'.store.runs[r], NodesOf(reg, w.store.runs[r]);
    RunsOnlyAdvance(w, step, w', r);
    RunAfter(w.store, step, w'.clock, r);
    FlowKeptExactly(w.store, step, w'.clock, run, nodes);
    if Flows(w'.store, run, nodes) {
      SameRunFlows(w'.store, run, run', nodes);
    }
    if Flows(w'.store, run', nodes) {
      SameRunFlows(w'.store, run', run, nodes);
    }
  }

  lemma MoveFlowsExactly(reg: Registry, a: Sys, move: Move, b: Sys, r: Uuid)
    requires ValidRegistry(reg) && CasInv(reg, a) && SysNext(reg, a, move, b) && CompiledMove(reg, a, move, r)
    requires r in a.world.store.runs && r in b.world.store.runs && FlowsAt(reg, a, r)
    ensures FlowsAt(reg, b, r) <==> TameMove(reg, a, move, r)
  {
    MoveIsStep(reg, a, move, b);
    match StepOf(reg, a, move)
    case None =>
    case Some(step) =>
      StepIsOrderly(reg, a, move, b, step);
      RunsOnlyAdvance(a.world, step, b.world, r);
      if Registered(reg, a.world.store.runs[r]) {
        if step.Subgraph? && !RestartAllowed(a.world.store, step.restart) {
          assert TameRun(a.world.store, step, a.world.store.runs[r], NodesOf(reg, a.world.store.runs[r]));
        } else {
          StepFlowsExactly(reg, a.world, step, b.world, r);
        }
      }
  }

  lemma NewRunFlowsAt(reg: Registry, a: Sys, move: Move, b: Sys, r: Uuid)
    requires CasInv(reg, a) && SysNext(reg, a, move, b) && r !in a.world.store.runs && r in b.world.store.runs
    ensures FlowsAt(reg, b, r)
  {
    MoveIsStep(reg, a, move, b);
    var s := b.world.store;
    if Registered(reg, s.runs[r]) {
      NewRunFlows(reg, a.world, StepOf(reg, a, move).value, b.world, r, NodesOf(reg, s.runs[r]));
    }
  }

  lemma CreatedRunFlows(reg: Registry, ss: seq<Sys>, moves: seq<Move>, p: nat, r: Uuid)
    requires ValidRegistry(reg) && IsRun(reg, ss, moves) && p < |moves|
    requires r !in ss[p].world.store.runs && r in ss[p + 1].world.store.runs
    ensures FlowsAt(reg, ss[p + 1], r)
  {
    RunKeepsCas(reg, ss, moves, p);
    NewRunFlowsAt(reg, ss[p], moves[p], ss[p + 1], r);
  }

  lemma OneMoreFlows(reg: Registry, ss: seq<Sys>, moves: seq<Move>, q: nat, r: Uuid)
    requires ValidRegistry(reg) && IsRun(reg, ss, moves) && 0 < q < |ss| && CompiledMove(reg, ss[q - 1], moves[q - 1], r)
    requires r in ss[q - 1].world.store.runs && r in ss[q].world.store.runs && FlowsAt(reg, ss[q - 1], r)
    ensures FlowsAt(reg, ss[q], r) <==> TameMove(reg, ss[q - 1], moves[q - 1], r)
  {
    RunKeepsCas(reg, ss, moves, q - 1);
    MoveFlowsExactly(reg, ss[q - 1], moves[q - 1], ss[q], r);
  }

  lemma OneMoreState(reg: Registry, ss: seq<Sys>, moves: seq<Move>, p: nat, q: nat, r: Uuid)
    requires p < q < |ss| == |moves| + 1
    ensures FlowsFrom(reg, ss, p, q, r) <==> FlowsFrom(reg, ss, p, q - 1, r) && FlowsAt(reg, ss[q], r)
    ensures AllTameMoves(reg, ss, moves, p, q, r) <==>
            AllTameMoves(reg, ss, moves, p, q - 1, r) && TameMove(reg, ss[q - 1], moves[q - 1], r)
  {
  }

  // ---------------------------------------------------------------------------------------------
  // Whole runs

  /** Exactly when data flows through a run, whatever workers, coordinators and operators do: from its
      creation on, in every state up to a given one, if and only if every move on the way met the
      guard. */
  lemma {:induction false} FlowsThroughoutExactly(reg: Registry, ss: seq<Sys>, moves: seq<Move>, p: nat, q: nat, r: Uuid)
    requires ValidRegistry(reg) && IsRun(reg, ss, moves) && 0 < p <= q < |ss|
    requires r !in ss[p - 1].world.store.runs && forall i :: p <= i <= q ==> r in ss[i].world.store.runs
    requires forall i :: p <= i < q ==> CompiledMove(reg, ss[i], moves[i], r)
    ensures FlowsFrom(reg, ss, p, q, r) <==> AllTameMoves(reg, ss, moves, p, q, r)
    decreases q
  {
    if p == q {
      CreatedRunFlows(reg, ss, moves, p - 1, r);
    } else {
      FlowsThroughoutExactly(reg, ss, moves, p, q - 1, r);
      OneMoreState(reg, ss, moves, p, q, r);
      if FlowsFrom(reg, ss, p, q - 1, r) {
        OneMoreFlows(reg, ss, moves, q, r);
      }
    }
  }

  // ---------------------------------------------------------------------------------------------
  // What can break the flow

  /** A blocked node of the run is cancelled. */
  ghost predicate CancelsBlocked(sys: Sys, move: Move, r: Uuid) {
    var s := sys.world.store;
    && move.Env? && move.step.Touch? && move.step.op.Cancel? && move.step.id in s.executions
    && s.executions[move.step.id].runId == Some(r) && s.executions[move.step.id].status.Blocked?
  }

  /** A part of the run is restarted. */
  ghost predicate Restarts(sys: Sys, move: Move, r: Uuid) {
    move.Env? && move.step.Subgraph? && move.step.restart.runId == r && RestartAllowed(sys.world.store, move.step.restart)
  }

  ghost predicate RestartsBlocked(sys: Sys, move: Move, r: Uuid) {
    && Restarts(sys, move, r) && Node(sys.world.store, r, move.step.restart.root).Some?
    && Node(sys.world.store, r, move.step.restart.root).value.status.Blocked?
  }

  /** The results a node is built from, as they were listed, are still the stored ones. */
  ghost predicate ResultsStand(s: Store, r: Uuid, snap: Snapshot, n: NodeDef) {
    forall d :: d in Deps(n) && d in snap && snap[d].status.Succeeded? ==> SucceededWith(Node(s, r, d), snap[d].output)
  }

  /** A coordinator starts a node of the run from a listed result that has been discarded since. A
      result is discarded by a restart only (`CasSafety.SucceededStays`). */
  ghost predicate StartsStale(reg: Registry, sys: Sys, move: Move, r: Uuid) {
    && move.Coord? && move.act.Walk? && LocalOf(sys, move.c).Walking?
    && var l := LocalOf(sys, move.c);
       && l.run.id == r && Enabled(reg, sys.world.store, l, move.act) && Effect(reg, l, move.act).Some?
       && !ResultsStand(sys.world.store, r, l.snap, NodesOf(reg, l.run)[l.i])
  }

  /** What may break the data flow of a run: a blocked node is cancelled or restarted, a restart does
      not name the descendants the definition has, or a coordinator builds on a discarded result. */
  ghost predicate Harmful(reg: Registry, sys: Sys, move: Move, r: Uuid) {
    CancelsBlocked(sys, move, r) || RestartsBlocked(sys, move, r) || !CompiledMove(reg, sys, move, r) || StartsStale(reg, sys, move, r)
  }

  lemma EnvIsTame(s: Store, step: Step, run: PipelineRun, n: NodeDef)
    requires Valid(s) && EnvStep(s, step)
    requires step.Touch? && step.op.Cancel? && step.id in s.executions && s.executions[step.id].runId == Some(run.id) ==>
               !s.executions[step.id].status.Blocked?
    requires step.Subgraph? && step.restart.runId == run.id && RestartAllowed(s, step.restart) ==>
               !(Node(s, run.id, step.restart.root).Some? && Node(s, run.id, step.restart.root).value.status.Blocked?)
    ensures Tame(s, step, run, n)
  {
    if Node(s, run.id, n.key).Some? {
      NodeIdentity(s, run.id, n.key);
    }
  }

  lemma SameRunGrounded(s: Store, a: PipelineRun, b: PipelineRun, n: NodeDef, input: Json)
    requires a.id == b.id && a.input == b.input
    ensures Grounded(s, a, n, input) <==> Grounded(s, b, n, input)
  {
  }

  /** From results that stand a coordinator builds the input the definition gives now. */
  lemma WalkIsGrounded(w: World, l: Local, n: NodeDef)
    requires l.Walking? && ResultsStand(w.store, l.run.id, l.snap, n) && Ready(l.snap, n) && Built(l.snap, n, l.run.input).Some?
    ensures Grounded(w.store, l.run, n, Built(l.snap, n, l.run.input).value)
  {
    forall d | d in Deps(n)
      ensures SucceededWith(Node(w.store, l.run.id, d), l.snap[d].output)
    {
    }
    InputFromDependencies(n, l.run.input, Outputs(l.snap), DepOutputs(w.store, l.run.id, n));
  }

  /** What it starts is a node of its run. */
  lemma OwnWalkIsTame(reg: Registry, w: World, l: Local, act: Act, run: PipelineRun, i: nat)
    requires ValidRegistry(reg) && Inv(w) && LocalInv(reg, w, l) && l.Walking? && Pinned(w.store, l.run, l.snap)
    requires act.Walk? && Enabled(reg, w.store, l, act) && Effect(reg, l, act).Some?
    requires run.id == l.run.id && run.input == l.run.input && i < |NodesOf(reg, l.run)|
    requires ResultsStand(w.store, l.run.id, l.snap, NodesOf(reg, l.run)[l.i])
    ensures Tame(w.store, Effect(reg, l, act).value, run, NodesOf(reg, l.run)[i])
  {
    var nodes, n := NodesOf(reg, l.run), NodesOf(reg, l.run)[l.i];
    DistinctKeys(nodes);
    if Node(w.store, run.id, nodes[i].key).Some? {
      NodeIdentity(w.store, run.id, nodes[i].key);
    }
    if nodes[i].key == n.key {
      WalkIsGrounded(w, l, n);
      SameRunGrounded(w.store, l.run, run, n, Built(l.snap, n, l.run.input).value);
    }
  }

  lemma OtherWalkIsTame(reg: Registry, w: World, l: Local, act: Act, run: PipelineRun, n: NodeDef)
    requires Inv(w) && l.Walking? && Pinned(w.store, l.run, l.snap)
    requires act.Walk? && Enabled(reg, w.store, l, act) && Effect(reg, l, act).Some? && run.id != l.run.id
    ensures Tame(w.store, Effect(reg, l, act).value, run, n)
  {
    if Node(w.store, run.id, n.key).Some? {
      NodeIdentity(w.store, run.id, n.key);
    }
  }

  lemma WalkIsTame(reg: Registry, w: World, l: Local, act: Act, r: Uuid)
    requires ValidRegistry(reg) && Inv(w) && LocalInv(reg, w, l) && l.Walking? && Pinned(w.store, l.run, l.snap)
    requires act.Walk? && Enabled(reg, w.store, l, act) && Effect(reg, l, act).Some?
    requires r in w.store.runs && Registered(reg, w.store.runs[r])
    requires l.run.id == r ==> ResultsStand(w.store, r, l.snap, NodesOf(reg, l.run)[l.i])
    ensures TameRun(w.store, Effect(reg, l, act).value, w.store.runs[r], NodesOf(reg, w.store.runs[r]))
  {
    var run, nodes := w.store.runs[r], NodesOf(reg, w.store.runs[r]);
    forall i | 0 <= i < |nodes|
      ensures Tame(w.store, Effect(reg, l, act).value, run, nodes[i])
    {
      if l.run.id == r {
        OwnWalkIsTame(reg, w, l, act, run, i);
      } else {
        OtherWalkIsTame(reg, w, l, act, run, nodes[i]);
      }
    }
  }

  lemma HarmlessIsTame(reg: Registry, a: Sys, move: Move, b: Sys, r: Uuid)
    requires ValidRegistry(reg) && CasInv(reg, a) && AllPinned(a) && SysNext(reg, a, move, b)
    requires r in a.world.store.runs && !Harmful(reg, a, move, r)
    ensures TameMove(reg, a, move, r)
  {
    var s := a.world.store;
    if Registered(reg, s.runs[r]) && StepOf(reg, a, move).Some? {
      var step, nodes := StepOf(reg, a, move).value, NodesOf(reg, s.runs[r]);
      if move.Coord? && move.act.Walk? {
        WalkIsTame(reg, a.world, LocalOf(a, move.c), move.act, r);
      } else if move.Env? {
        forall i | 0 <= i < |nodes|
          ensures Tame(s, step, s.runs[r], nodes[i])
        {
          EnvIsTame(s, step, s.runs[r], nodes[i]);
        }
      }
    }
  }

  /** In every run of the system, whatever workers, coordinators and operators do, the data flow of a
      pipeline run breaks only by a harmful move: everything else keeps it, in particular retries,
      reclaims, lost leases, crashes, restarts of nodes that are not blocked, and every start from
      results that stand. */
  lemma FlowBreaksOnlyBy(reg: Registry, ss: seq<Sys>, moves: seq<Move>, i: nat, r: Uuid)
    requires ValidRegistry(reg) && IsRun(reg, ss, moves) && i < |moves|
    requires r in ss[i].world.store.runs && r in ss[i + 1].world.store.runs
    requires FlowsAt(reg, ss[i], r) && !FlowsAt(reg, ss[i + 1], r)
    ensures Harmful(reg, ss[i], moves[i], r)
  {
    RunKeepsCas(reg, ss, moves, i);
    RunKeepsPins(reg, ss, moves, i);
    if !Harmful(reg, ss[i], moves[i], r) {
      HarmlessIsTame(reg, ss[i], moves[i], ss[i + 1], r);
      MoveFlowsExactly(reg, ss[i], moves[i], ss[i + 1], r);
    }
  }

  lemma {:induction false} FlowsWithoutHarm(reg: Registry, ss: seq<Sys>, p: nat, q: nat, r: Uuid)
    requires p <= q < |ss| && FlowsAt(reg, ss[p], r) && forall i :: p <= i < q && FlowsAt(reg, ss[i], r) ==> FlowsAt(reg, ss[i + 1], r)
    ensures FlowsAt(reg, ss[q], r)
    decreases q
  {
    if p < q {
      FlowsWithoutHarm(reg, ss, p, q - 1, r);
      assert FlowsAt(reg, ss[q - 1 + 1], r);
    }
  }

  /** So until a run is harmed, in every state every node that is not blocked has all its dependencies
      succeeded, and its stored input is what its mapper makes of the run input and their current
      outputs. */
  lemma DataFlowsUntilHarmed(reg: Registry, ss: seq<Sys>, moves: seq<Move>, p: nat, q: nat, r: Uuid, j: nat)
    requires ValidRegistry(reg) && IsRun(reg, ss, moves) && p < q < |ss|
    requires r !in ss[p].world.store.runs && forall i :: p < i <= q ==> r in ss[i].world.store.runs
    requires forall i :: p < i < q ==> !Harmful(reg, ss[i], moves[i], r)
    requires Registered(reg, ss[q].world.store.runs[r]) && j < |NodesOf(reg, ss[q].world.store.runs[r])|
    ensures
      var s := ss[q].world.store;
      var n := NodesOf(reg, s.runs[r])[j];
      var e := Node(s, r, n.key);
      e.Some? && !e.value.status.Blocked? ==>
        (forall d :: d in Deps(n) ==> IsSucceeded(Node(s, r, d))) && Maps(s, r, n, s.runs[r].input, e.value.input)
  {
    CreatedRunFlows(reg, ss, moves, p, r);
    forall i | p + 1 <= i < q && FlowsAt(reg, ss[i], r)
      ensures FlowsAt(reg, ss[i + 1], r)
    {
      if !FlowsAt(reg, ss[i + 1], r) {
        FlowBreaksOnlyBy(reg, ss, moves, i, r);
      }
    }
    FlowsWithoutHarm(reg, ss, p + 1, q, r);
    RunIdentity(reg, ss, moves, q, r);
    FlowingNodeMaps(ss[q].world.store, ss[q].world.store.runs[r], NodesOf(reg, ss[q].world.store.runs[r])[j]);
  }

  lemma FlowingNodeMaps(s: Store, run: PipelineRun, n: NodeDef)
    requires NodeFlows(s, run, n)
    ensures
      var e := Node(s, run.id, n.key);
      e.Some? && !e.value.status.Blocked? ==> Maps(s, run.id, n, run.input, e.value.input)
  {
    var e, outputs := Node(s, run.id, n.key), DepOutputs(s, run.id, n);
    if e.Some? && !e.value.status.Blocked? {
      InputFromDependencies(n, run.input, outputs, outputs);
    }
  }

  lemma RunIdentity(reg: Registry, ss: seq<Sys>, moves: seq<Move>, i: nat, r: Uuid)
    requires ValidRegistry(reg) && IsRun(reg, ss, moves) && i < |ss| && r in ss[i].world.store.runs
    ensures ss[i].world.store.runs[r].id == r
  {
    RunKeepsCas(reg, ss, moves, i);
  }

  // ---------------------------------------------------------------------------------------------
  // Where discarded results come from

  /** The coordinator is walking over this list of this run. */
  predicate WalksOver(sys: Sys, c: nat, run: PipelineRun, snap: Snapshot) {
    var l := LocalOf(sys, c);
    l.Walking? && l.run == run && l.snap == snap
  }

  lemma DiscardedByRestart(reg: Registry, a: Sys, move: Move, b: Sys, run: PipelineRun, snap: Snapshot)
    requires ValidRegistry(reg) && CasInv(reg, a) && SysNext(reg, a, move, b) && SnapOf(run, snap, a.world.issued)
    requires run.id in a.world.store.runs && run.id in b.world.store.runs
    requires StillSucceeded(a.world, run.id, snap) && !StillSucceeded(b.world, run.id, snap)
    ensures Restarts(a, move, run.id)
  {
    MoveIsStep(reg, a, move, b);
    var step := StepOf(reg, a, move).value;
    StepIsOrderly(reg, a, move, b, step);
    var k :| k in snap && snap[k].status.Succeeded? && !SucceededWith(Node(b.world.store, run.id, k), snap[k].output);
    SucceededStays(a.world, step, b.world, run.id, k, snap[k].output);
    RunAfter(a.world.store, step, b.world.clock, run.id);
  }

  /** Before a move the walker had the same list, or the move was its listing. */
  lemma WalkerBefore(reg: Registry, a: Sys, move: Move, b: Sys, c: nat, run: PipelineRun, snap: Snapshot)
    requires ValidRegistry(reg) && CasInv(reg, a) && SysNext(reg, a, move, b) && WalksOver(b, c, run, snap)
    ensures WalksOver(a, c, run, snap) || StillSucceeded(b.world, run.id, snap)
  {
    if move.Coord? && move.c == c && move.act.List? {
      assert LocalInv(reg, a.world, LocalOf(a, c));
      ListKnows(reg, a.world, LocalOf(a, c).run);
    }
  }

  lemma OneBack(reg: Registry, ss: seq<Sys>, moves: seq<Move>, i: nat, c: nat, run: PipelineRun, snap: Snapshot)
    requires ValidRegistry(reg) && IsRun(reg, ss, moves) && i < |moves|
    requires WalksOver(ss[i + 1], c, run, snap) && run.id in ss[i + 1].world.store.runs && !StillSucceeded(ss[i + 1].world, run.id, snap)
    ensures WalksOver(ss[i], c, run, snap) && run.id in ss[i].world.store.runs
    ensures StillSucceeded(ss[i].world, run.id, snap) ==> Restarts(ss[i], moves[i], run.id)
  {
    RunKeepsCas(reg, ss, moves, i);
    WalkerBefore(reg, ss[i], moves[i], ss[i + 1], c, run, snap);
    MoveIsStep(reg, ss[i], moves[i], ss[i + 1]);
    assert LocalInv(reg, ss[i].world, LocalOf(ss[i], c));
    if StepOf(reg, ss[i], moves[i]).Some? {
      WasReadStays(ss[i].world, StepOf(reg, ss[i], moves[i]).value, ss[i + 1].world, run);
    }
    if StillSucceeded(ss[i].world, run.id, snap) {
      DiscardedByRestart(reg, ss[i], moves[i], ss[i + 1], run, snap);
    }
  }

  /** A coordinator holds a result that has been discarded only if a part of the run was restarted
      while it was walking over its list: a stale start comes from a restart inside an advance. */
  lemma {:induction false} StaleOnlyByRestart(reg: Registry, ss: seq<Sys>, moves: seq<Move>, i: nat, c: nat, run: PipelineRun, snap: Snapshot)
    returns (j: nat)
    requires ValidRegistry(reg) && IsRun(reg, ss, moves) && i < |ss|
    requires WalksOver(ss[i], c, run, snap) && run.id in ss[i].world.store.runs && !StillSucceeded(ss[i].world, run.id, snap)
    ensures j < i && WalksOver(ss[j], c, run, snap) && Restarts(ss[j], moves[j], run.id)
  {
    OneBack(reg, ss, moves, i - 1, c, run, snap);
    if StillSucceeded(ss[i - 1].world, run.id, snap) {
      j := i - 1;
    } else {
      j := StaleOnlyByRestart(reg, ss, moves, i - 1, c, run, snap);
    }
  }
}
