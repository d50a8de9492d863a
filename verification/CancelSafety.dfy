/** Cancelled runs under every interleaving: what can make a node of a finished run deliverable
    again, and that nothing else can. */
module CancelSafety {
  import opened Model
  import opened Records
  import opened Storage
  import opened Engine
  import opened Histories
  import opened Coordination
  import opened CasSafety
  import F = FlowSafety
  import K = Cancelling
  import M = Memory
  import W = FlowWitnesses

  // ---------------------------------------------------------------------------------------------
  // One step

  /** The node is waiting for a worker or with one. */
  predicate Deliverable(n: Option<Execution>) {
    n.Some? && n.value.status.Active()
  }

  /** The step makes a node deliverable that was not. */
  ghost predicate Wakes(s: Store, step: Step, r: Uuid, k: string) {
    match step
    case Create(q, _) => q.taskName != "" && Existing(s, q).None? && q.runId == Some(r) && q.nodeKey == k
    case Touch(id, op) => op.Release? && Node(s, r, k).Some? && Node(s, r, k).value.id == id && Node(s, r, k).value.status.Blocked?
    case Subgraph(q) => q.runId == r && RestartAllowed(s, q) && q.root == k
    case _ => false
  }

  lemma RecordWakes(e: Execution, op: RecordOp, now: Time)
    requires e.runId.Some? && !e.status.Active() && Apply(e, op, now).Done?
    ensures Apply(e, op, now).record.status.Active() <==> op.Release? && e.status.Blocked?
  {
  }

  lemma RootIsNode(s: Store, q: RestartSubgraph)
    requires NodesExact(s.executions, s.nodes) && RestartFound(s, q) && q.root != ""
    ensures Node(s, q.runId, q.root).Some?
  {
    var id :| id in s.executions && s.executions[id].runId == Some(q.runId) && s.executions[id].nodeKey == q.root;
    assert NodeOf(s.executions[id]) == (q.runId, q.root);
  }

  lemma AbsentWakes(s: Store, step: Step, now: Time, r: Uuid, k: string)
    requires NodesExact(s.executions, s.nodes) && k != "" && Node(s, r, k).None?
    ensures Deliverable(NodeNext(s, step, now, r, k)) <==> Wakes(s, step, r, k)
  {
    if step.Subgraph? && step.restart.root == k && step.restart.runId == r && RestartAllowed(s, step.restart) {
      RootIsNode(s, step.restart);
    }
  }

  lemma PresentWakes(s: Store, step: Step, now: Time, r: Uuid, k: string, e: Execution)
    requires Node(s, r, k) == Some(e) && e.runId == Some(r) && e.nodeKey == k && !e.status.Active()
    requires step.Create? && step.request.runId == Some(r) && step.request.nodeKey == k ==> Existing(s, step.request).Some?
    ensures Deliverable(NodeNext(s, step, now, r, k)) <==> Wakes(s, step, r, k)
  {
    if step.Touch? && Apply(e, step.op, now).Done? {
      RecordWakes(e, step.op, now);
    }
  }

  lemma NextWakes(s: Store, step: Step, now: Time, r: Uuid, k: string)
    requires Valid(s) && k != "" && !Deliverable(Node(s, r, k))
    ensures Deliverable(NodeNext(s, step, now, r, k)) <==> Wakes(s, step, r, k)
  {
    match Node(s, r, k)
    case None => AbsentWakes(s, step, now, r, k);
    case Some(e) =>
      NodeIdentity(s, r, k);
      PresentWakes(s, step, now, r, k, e);
  }

  lemma NodeWakes(s: Store, step: Step, now: Time, r: Uuid, k: string)
    requires Valid(s) && Fresh(s, step) && Orderly(s, step) && k != "" && step != DropRun(r) && !Deliverable(Node(s, r, k))
    ensures Deliverable(Node(Do(s, step, now), r, k)) <==> Wakes(s, step, r, k)
  {
    NodeAfter(s, step, now, r, k);
    NextWakes(s, step, now, r, k);
  }

  // ---------------------------------------------------------------------------------------------
  // Who can wake a node of a finished run

  /** A restart of a part of the run with this root. */
  ghost predicate RestartsAt(sys: Sys, move: Move, r: Uuid, k: string) {
    move.Env? && move.step.Subgraph? && Wakes(sys.world.store, move.step, r, k)
  }

  /** A coordinator that read the run at an older revision starts the node. */
  ghost predicate StaleStart(reg: Registry, sys: Sys, move: Move, r: Uuid, k: string) {
    && move.Coord? && move.act.Walk? && LocalOf(sys, move.c).Walking?
    && var l := LocalOf(sys, move.c);
       && l.run.id == r && r in sys.world.store.runs && l.run.revision < sys.world.store.runs[r].revision
       && Enabled(reg, sys.world.store, l, move.act) && Effect(reg, l, move.act).Some?
       && Wakes(sys.world.store, Effect(reg, l, move.act).value, r, k)
  }

  /** What a coordinator starts is a node of the run it walks. */
  lemma WalkWakesOwn(reg: Registry, w: World, l: Local, act: Act, r: Uuid, k: string)
    requires Inv(w) && l.Walking? && F.Pinned(w.store, l.run, l.snap) && act.Walk? && Enabled(reg, w.store, l, act)
    requires Effect(reg, l, act).Some? && Wakes(w.store, Effect(reg, l, act).value, r, k)
    ensures r == l.run.id
  {
    var step := Effect(reg, l, act).value;
    if step.Touch? {
      NodeIdentity(w.store, r, k);
    }
  }

  /** And if that run has finished, it has been written since it was read. */
  lemma WalkIsStale(reg: Registry, w: World, l: Local, r: Uuid)
    requires LocalInv(reg, w, l) && l.Walking? && l.run.id == r && r in w.store.runs && w.store.runs[r].status.Terminal()
    ensures l.run.revision < w.store.runs[r].revision
  {
  }

  lemma CoordWakes(reg: Registry, a: Sys, move: Move, b: Sys, r: Uuid, k: string, step: Step)
    requires CasInv(reg, a) && F.AllPinned(a) && SysNext(reg, a, move, b) && move.Coord? && StepOf(reg, a, move) == Some(step)
    requires r in a.world.store.runs && a.world.store.runs[r].status.Terminal()
    ensures Wakes(a.world.store, step, r, k) <==> StaleStart(reg, a, move, r, k)
  {
    if Wakes(a.world.store, step, r, k) {
      WalkWakesOwn(reg, a.world, LocalOf(a, move.c), move.act, r, k);
      WalkIsStale(reg, a.world, LocalOf(a, move.c), r);
    }
  }

  lemma MoveWakes(reg: Registry, a: Sys, move: Move, b: Sys, r: Uuid, k: string)
    requires ValidRegistry(reg) && CasInv(reg, a) && F.AllPinned(a) && SysNext(reg, a, move, b)
    requires r in a.world.store.runs && r in b.world.store.runs && a.world.store.runs[r].status.Terminal()
    requires k != "" && !Deliverable(Node(a.world.store, r, k))
    ensures Deliverable(Node(b.world.store, r, k)) <==> RestartsAt(a, move, r, k) || StaleStart(reg, a, move, r, k)
  {
    MoveIsStep(reg, a, move, b);
    match StepOf(reg, a, move)
    case None =>
    case Some(step) =>
      StepIsOrderly(reg, a, move, b, step);
      RunAfter(a.world.store, step, b.world.clock, r);
      NodeWakes(a.world.store, step, b.world.clock, r, k);
      if move.Coord? {
        CoordWakes(reg, a, move, b, r, k, step);
      }
  }

  /** In every run of the system: a node of a finished run becomes deliverable by a move if and only
      if that is a restart with the node as its root, or a start of the node by a coordinator that
      read the run before it was finished. Creations and releases carry no revision, so the second is
      not prevented. */
  lemma FinishedRunWakesExactly(reg: Registry, ss: seq<Sys>, moves: seq<Move>, i: nat, r: Uuid, k: string)
    requires ValidRegistry(reg) && IsRun(reg, ss, moves) && i < |moves|
    requires r in ss[i].world.store.runs && r in ss[i + 1].world.store.runs && ss[i].world.store.runs[r].status.Terminal()
    requires k != "" && !Deliverable(Node(ss[i].world.store, r, k))
    ensures Deliverable(Node(ss[i + 1].world.store, r, k)) <==>
            RestartsAt(ss[i], moves[i], r, k) || StaleStart(reg, ss[i], moves[i], r, k)
  {
    RunKeepsCas(reg, ss, moves, i);
    F.RunKeepsPins(reg, ss, moves, i);
    MoveWakes(reg, ss[i], moves[i], ss[i + 1], r, k);
  }

  // ---------------------------------------------------------------------------------------------
  // Silence lasts

  ghost predicate Silent(s: Store, r: Uuid) {
    forall k :: k != "" ==> !Deliverable(Node(s, r, k))
  }

  /** No coordinator is between reading the run and its last write of an advance. */
  ghost predicate NoAdvance(sys: Sys, r: Uuid) {
    forall c :: c in sys.locals && (sys.locals[c].GotRun? || sys.locals[c].Walking?) ==> sys.locals[c].run.id != r
  }

  /** The run is finished, nothing of it is deliverable, and nobody is about to change that. */
  ghost predicate Settled(sys: Sys, r: Uuid) {
    && r in sys.world.store.runs && sys.world.store.runs[r].status.Terminal()
    && Silent(sys.world.store, r) && NoAdvance(sys, r)
  }

  /** A finished run is not read to be advanced. */
  lemma NoAdvanceBegins(reg: Registry, a: Sys, move: Move, b: Sys, r: Uuid)
    requires SysNext(reg, a, move, b) && NoAdvance(a, r) && r in a.world.store.runs && a.world.store.runs[r].status.Terminal()
    requires forall x :: x in a.world.store.runs ==> a.world.store.runs[x].id == x
    ensures NoAdvance(b, r)
  {
    if move.Coord? {
      assert b.locals[move.c] == After(reg, a.world.store, LocalOf(a, move.c), move.act, b.world.clock);
    }
  }

  lemma StaysFinished(reg: Registry, a: Sys, move: Move, b: Sys, r: Uuid)
    requires CasInv(reg, a) && SysNext(reg, a, move, b) && !F.Restarts(a, move, r)
    requires r in a.world.store.runs && r in b.world.store.runs && a.world.store.runs[r].status.Terminal()
    ensures b.world.store.runs[r].status.Terminal()
  {
    MoveIsStep(reg, a, move, b);
    match StepOf(reg, a, move)
    case None =>
    case Some(step) =>
      RunAfter(a.world.store, step, b.world.clock, r);
      if step.SetStatus? && StatusReply(a.world.store, step.id, step.expected).Ok? {
        StatusWriteIsDue(reg, a, move, b, step);
      }
  }

  lemma SettledStays(reg: Registry, a: Sys, move: Move, b: Sys, r: Uuid)
    requires ValidRegistry(reg) && CasInv(reg, a) && F.AllPinned(a) && SysNext(reg, a, move, b)
    requires Settled(a, r) && r in b.world.store.runs && !F.Restarts(a, move, r)
    ensures Settled(b, r)
  {
    StaysFinished(reg, a, move, b, r);
    NoAdvanceBegins(reg, a, move, b, r);
    forall k | k != ""
      ensures !Deliverable(Node(b.world.store, r, k))
    {
      MoveWakes(reg, a, move, b, r, k);
    }
  }

  lemma SettledNext(reg: Registry, ss: seq<Sys>, moves: seq<Move>, i: nat, r: Uuid)
    requires ValidRegistry(reg) && IsRun(reg, ss, moves) && i < |moves|
    requires Settled(ss[i], r) && r in ss[i + 1].world.store.runs && !F.Restarts(ss[i], moves[i], r)
    ensures Settled(ss[i + 1], r)
  {
    RunKeepsCas(reg, ss, moves, i);
    F.RunKeepsPins(reg, ss, moves, i);
    SettledStays(reg, ss[i], moves[i], ss[i + 1], r);
  }

  /** The run is kept and no part of it is restarted from one state to another. */
  ghost predicate LeftAlone(ss: seq<Sys>, moves: seq<Move>, p: nat, q: nat, r: Uuid)
    requires q < |ss| == |moves| + 1
  {
    && (forall i :: p <= i <= q ==> r in ss[i].world.store.runs)
    && (forall i :: p <= i < q ==> !F.Restarts(ss[i], moves[i], r))
  }

  lemma {:induction false} SettledFrom(ss: seq<Sys>, p: nat, q: nat, r: Uuid)
    requires p <= q < |ss| && Settled(ss[p], r) && forall i :: p <= i < q && Settled(ss[i], r) ==> Settled(ss[i + 1], r)
    ensures Settled(ss[q], r)
    decreases q
  {
    if p < q {
      SettledFrom(ss, p, q - 1, r);
      assert Settled(ss[q - 1 + 1], r);
    }
  }

  /** Once a run is finished with nothing deliverable and no coordinator is in the middle of advancing
      it, it stays so, whatever anybody does, until a part of it is restarted. */
  lemma SilenceLasts(reg: Registry, ss: seq<Sys>, moves: seq<Move>, p: nat, q: nat, r: Uuid)
    requires ValidRegistry(reg) && IsRun(reg, ss, moves) && p <= q < |ss| && Settled(ss[p], r) && LeftAlone(ss, moves, p, q, r)
    ensures Settled(ss[q], r)
  {
    forall i | p <= i < q && Settled(ss[i], r)
      ensures Settled(ss[i + 1], r)
    {
      SettledNext(reg, ss, moves, i, r);
    }
    SettledFrom(ss, p, q, r);
  }

  /** An uninterrupted cancellation leaves the run finished with nothing deliverable. */
  lemma CancelIsSilent(s: Store, r: Uuid, items: seq<Execution>, reason: string, now: Time)
    requires Valid(s) && M.AreExecutionsOf(s.executions, r, items) && r in s.runs
    ensures
      var s' := K.CancelRun(s, r, items, reason, now);
      r in s'.runs && s'.runs[r].status.Terminal() && Silent(s', r)
  {
    K.CancelMeans(s, r, items, reason, now, NIL);
    forall k | k != ""
      ensures !Deliverable(Node(K.CancelRun(s, r, items, reason, now), r, k))
    {
      if (r, k) in s.nodes {
        NodeIdentity(s, r, k);
        K.CancelMeans(s, r, items, reason, now, s.nodes[(r, k)]);
      }
    }
  }

  // ---------------------------------------------------------------------------------------------
  // A witness

  const CANCELLED := StampedRun(W.RUN0, RunCancelled, "stop", 1)

  /** Two coordinators at time 1. */
  function Both(s: Store, issued: set<Uuid>, l0: Local, l1: Local): Sys {
    Sys(World(s, 1, issued), map[0 := l0, 1 := l1])
  }

  lemma SecondReads(s: Store, l: Local)
    requires W.HoldingNone(s)
    ensures SysNext(W.REG, W.At(s, {1}, l), Coord(1, ReadToCancel(1, "stop")), Both(s, {1}, l, Finishing(W.RUN0, RunCancelled, "stop")))
  {
    assert W.At(s, {1}, l).locals[1 := Finishing(W.RUN0, RunCancelled, "stop")] ==
           Both(s, {1}, l, Finishing(W.RUN0, RunCancelled, "stop")).locals;
  }

  lemma SecondCommits(s: Store, l: Local)
    requires W.HoldingNone(s)
    ensures SysNext(W.REG, Both(s, {1}, l, Finishing(W.RUN0, RunCancelled, "stop")), Coord(1, Commit),
                    Both(s.(runs := map[1 := CANCELLED]), {1}, l, Idle))
  {
    assert SetRunStatus(s, 1, 0, RunCancelled, "stop", 1) == s.(runs := map[1 := CANCELLED]);
    assert Both(s, {1}, l, Finishing(W.RUN0, RunCancelled, "stop")).locals[1 := Idle] ==
           Both(s.(runs := map[1 := CANCELLED]), {1}, l, Idle).locals;
  }

  lemma FirstStarts(s: Store)
    requires s.executions == map[] && s.nodes == map[] && s.idempotent == map[]
    ensures SysNext(W.REG, Both(s, {1}, Walking(W.RUN0, map[], 0, false), Idle), Coord(0, Walk(2, "")),
                    Both(CreateRecord(s, NodeRequest(1, W.FIRST, "in"), 2, 1), {1, 2}, Walking(W.RUN0, map[], 1, true), Idle))
  {
    assert Due(map[], W.FIRST);
    assert Both(s, {1}, Walking(W.RUN0, map[], 0, false), Idle).locals[0 := Walking(W.RUN0, map[], 1, true)] ==
           Both(s, {1, 2}, Walking(W.RUN0, map[], 1, true), Idle).locals;
  }

  lemma OneMore(reached: Sys -> bool, a: Sys, move: Move, b: Sys)
    requires W.Closed(reached) && reached(a) && SysNext(W.REG, a, move, b)
    ensures reached(b)
  {
  }

  lemma CancelledAndListed(reached: Sys -> bool) returns (s: Store)
    requires W.Closed(reached)
    ensures reached(Both(s, {1}, Walking(W.RUN0, map[], 0, false), Idle))
    ensures s.executions == map[] && s.nodes == map[] && s.idempotent == map[] && s.runs == map[1 := CANCELLED]
  {
    var s0 := W.FreshRun(reached);
    var l, finishing := Walking(W.RUN0, map[], 0, false), Finishing(W.RUN0, RunCancelled, "stop");
    W.NothingListed(s0);
    W.ReadAndList(reached, s0, {1}, map[]);
    SecondReads(s0, l);
    OneMore(reached, W.At(s0, {1}, l), Coord(1, ReadToCancel(1, "stop")), Both(s0, {1}, l, finishing));
    SecondCommits(s0, l);
    s := s0.(runs := map[1 := CANCELLED]);
    OneMore(reached, Both(s0, {1}, l, finishing), Coord(1, Commit), Both(s, {1}, l, Idle));
  }

  lemma FirstIsPending(s: Store)
    requires s.executions == map[] && s.nodes == map[] && s.idempotent == map[]
    ensures
      var s' := CreateRecord(s, NodeRequest(1, W.FIRST, "in"), 2, 1);
      s'.runs == s.runs && Node(s', 1, "a").Some? && Node(s', 1, "a").value.status.Pending?
  {
  }

  /** A reachable state in which a cancelled run has a pending node: one coordinator had listed the run
      before another cancelled it, and then created the node. */
  lemma CancelledRunWakes() returns (ss: seq<Sys>, moves: seq<Move>, s: Store)
    ensures IsRun(W.REG, ss, moves) && ss[|moves|].world.store == s
    ensures 1 in s.runs && s.runs[1].status == RunCancelled
    ensures Node(s, 1, "a").Some? && Node(s, 1, "a").value.status.Pending?
  {
    W.ReachableIsClosed();
    var s1 := CancelledAndListed(W.Reachable);
    FirstStarts(s1);
    FirstIsPending(s1);
    s := CreateRecord(s1, NodeRequest(1, W.FIRST, "in"), 2, 1);
    var last := Both(s, {1, 2}, Walking(W.RUN0, map[], 1, true), Idle);
    OneMore(W.Reachable, Both(s1, {1}, Walking(W.RUN0, map[], 0, false), Idle), Coord(0, Walk(2, "")), last);
    ss, moves := W.RunTo(last);
  }
}
