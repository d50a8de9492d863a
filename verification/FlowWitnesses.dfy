/** Runs in which the data flow breaks: a restart falls inside an advance, a blocked node is
    cancelled, or a blocked node is restarted. */
module FlowWitnesses {
  import opened Model
  import opened Records
  import opened Storage
  import opened Definitions
  import opened Engine
  import opened Histories
  import opened Coordination
  import opened DataFlow

  const FIRST := NodeDef("a", "ta", 1, 1, FromInput((x: Json) => Some(x)), true)
  const SECOND := NodeDef("b", "tb", 1, 1, FromOne("a", (x: Json) => Some(x)), true)
  const NODES := [FIRST, SECOND]
  const REG: Registry := map[("p", 1) := NODES]

  const RUN0 := NewPipelineRun(CreateRun("p", 1, "in", NoKey), 1, 1)
  const RUN1 := ReopenedRun(RUN0, 1)
  const A0 := NewExecution(NodeRequest(1, FIRST, "in"), 2, 1)
  const A1 := Started(A0, "w", 3, 1, 10)
  const A2 := Finished(A1, Succeeded, "", 1).(output := "out")
  const A3 := Reset(A2, Pending, 1)
  const B0 := NewExecution(NodeRequest(1, SECOND, "out"), 4, 1)
  const Q := RestartSubgraph(1, "a", ["b"], ZERO_TIME)

  /** A store that holds the run and node a only. */
  ghost predicate Holding(s: Store, a: Execution, run: PipelineRun) {
    && s.executions == map[2 := a] && s.runs == map[1 := run]
    && s.nodes == map[(1, "a") := 2] && s.idempotent == map[("ta", NodeRef(1, "a")) := 2]
  }

  /** A state reached in n moves. */
  ghost predicate ReachedIn(n: nat, sys: Sys) {
    if n == 0 then Initial(sys) else exists prev, m :: ReachedIn(n - 1, prev) && SysNext(REG, prev, m, sys)
  }

  lemma {:induction false} RunOf(n: nat, sys: Sys) returns (ss: seq<Sys>, moves: seq<Move>)
    requires ReachedIn(n, sys)
    ensures IsRun(REG, ss, moves) && ss[|moves|] == sys
  {
    if n == 0 {
      ss, moves := [sys], [];
    } else {
      var prev, m :| ReachedIn(n - 1, prev) && SysNext(REG, prev, m, sys);
      var ss0, moves0 := RunOf(n - 1, prev);
      ss, moves := ss0 + [sys], moves0 + [m];
      forall i | 0 <= i < |moves|
        ensures SysNext(REG, ss[i], moves[i], ss[i + 1])
      {
        if i < |moves0| {
          assert SysNext(REG, ss0[i], moves0[i], ss0[i + 1]);
        }
      }
    }
  }

  /** A property of states that every move keeps. */
  ghost predicate Closed(reached: Sys -> bool) {
    && (forall sys :: Initial(sys) ==> reached(sys))
    && (forall a, m, b :: reached(a) && SysNext(REG, a, m, b) ==> reached(b))
  }

  /** Time 1, and one coordinator. */
  function At(s: Store, issued: set<Uuid>, l: Local): Sys {
    Sys(World(s, 1, issued), map[0 := l])
  }

  lemma Outside(reached: Sys -> bool, s: Store, issued: set<Uuid>, l: Local, step: Step, issued': set<Uuid>)
    requires Closed(reached) && reached(At(s, issued, l)) && EnvStep(s, step)
    requires NIL !in Generated(step) && Generated(step) !! issued && issued' == issued + Generated(step)
    ensures reached(At(Do(s, step, 1), issued', l))
  {
    assert SysNext(REG, At(s, issued, l), Env(step), At(Do(s, step, 1), issued', l));
  }

  lemma Quiet(reached: Sys -> bool, s: Store, issued: set<Uuid>, l: Local, act: Act, l': Local)
    requires Closed(reached) && reached(At(s, issued, l)) && Enabled(REG, s, l, act) && Effect(REG, l, act).None?
    requires l' == After(REG, s, l, act, 1)
    ensures reached(At(s, issued, l'))
  {
    assert SysNext(REG, At(s, issued, l), Coord(0, act), At(s, issued, l'));
  }

  lemma Writing(reached: Sys -> bool, s: Store, issued: set<Uuid>, l: Local, act: Act, l': Local, issued': set<Uuid>)
    requires Closed(reached) && reached(At(s, issued, l)) && Enabled(REG, s, l, act) && Effect(REG, l, act).Some?
    requires
      var step := Effect(REG, l, act).value;
      NIL !in Generated(step) && Generated(step) !! issued && issued' == issued + Generated(step)
    requires l' == After(REG, s, l, act, 1)
    ensures reached(At(Do(s, Effect(REG, l, act).value, 1), issued', l'))
  {
    assert SysNext(REG, At(s, issued, l), Coord(0, act), At(Do(s, Effect(REG, l, act).value, 1), issued', l'));
  }

  ghost predicate HoldingNone(s: Store) {
    s.executions == map[] && s.runs == map[1 := RUN0] && s.nodes == map[] && s.idempotent == map[]
  }

  lemma FreshRun(reached: Sys -> bool) returns (s: Store)
    requires Closed(reached)
    ensures reached(At(s, {1}, Idle)) && HoldingNone(s)
  {
    var start := Sys(World(EMPTY, 1, {}), map[]);
    assert SysNext(REG, start, Coord(0, Crash), At(EMPTY, {}, Idle));
    var step := NewRun(CreateRun("p", 1, "in", NoKey), 1);
    Outside(reached, EMPTY, {}, Idle, step, {1});
    s := Do(EMPTY, step, 1);
  }

  lemma ReadAndList(reached: Sys -> bool, s: Store, issued: set<Uuid>, snap: Snapshot)
    requires Closed(reached) && reached(At(s, issued, Idle)) && s.runs == map[1 := RUN0]
    requires Snap(s, 1) == snap && !AnyBroken(snap)
    ensures reached(At(s, issued, Walking(RUN0, snap, 0, false)))
  {
    ReadStep(s);
    Quiet(reached, s, issued, Idle, Read(1), GotRun(RUN0));
    ListStep(s, snap);
    Quiet(reached, s, issued, GotRun(RUN0), List(""), Walking(RUN0, snap, 0, false));
  }

  lemma ReadStep(s: Store)
    requires s.runs == map[1 := RUN0]
    ensures Enabled(REG, s, Idle, Read(1)) && Effect(REG, Idle, Read(1)).None? && After(REG, s, Idle, Read(1), 1) == GotRun(RUN0)
  {
  }

  lemma ListStep(s: Store, snap: Snapshot)
    requires s.runs == map[1 := RUN0] && Snap(s, 1) == snap && !AnyBroken(snap)
    ensures Enabled(REG, s, GotRun(RUN0), List("")) && Effect(REG, GotRun(RUN0), List("")).None?
    ensures After(REG, s, GotRun(RUN0), List(""), 1) == Walking(RUN0, snap, 0, false)
  {
  }

  lemma CreateFirst(reached: Sys -> bool, s: Store)
    requires Closed(reached) && reached(At(s, {1}, Walking(RUN0, map[], 0, false))) && HoldingNone(s)
    ensures reached(At(CreateRecord(s, NodeRequest(1, FIRST, "in"), 2, 1), {1, 2}, Idle))
  {
    assert Due(map[], FIRST);
    Writing(reached, s, {1}, Walking(RUN0, map[], 0, false), Walk(2, ""), Walking(RUN0, map[], 1, true), {1, 2});
    Quiet(reached, CreateRecord(s, NodeRequest(1, FIRST, "in"), 2, 1), {1, 2}, Walking(RUN0, map[], 1, true), Crash, Idle);
  }

  lemma FirstHeld(s: Store)
    requires HoldingNone(s)
    ensures Holding(CreateRecord(s, NodeRequest(1, FIRST, "in"), 2, 1), A0, RUN0)
  {
  }

  /** Node a has been created by an advance whose coordinator then crashed. */
  lemma FirstNodeCreated(reached: Sys -> bool) returns (s: Store)
    requires Closed(reached)
    ensures reached(At(s, {1, 2}, Idle)) && Holding(s, A0, RUN0)
  {
    var s0 := FreshRun(reached);
    NothingListed(s0);
    ReadAndList(reached, s0, {1}, map[]);
    CreateFirst(reached, s0);
    FirstHeld(s0);
    s := CreateRecord(s0, NodeRequest(1, FIRST, "in"), 2, 1);
  }

  lemma NothingListed(s: Store)
    requires s.nodes == map[]
    ensures Snap(s, 1) == map[] && !AnyBroken(Snap(s, 1))
  {
  }

  /** Node a has succeeded and a second advance has listed it. */
  lemma SucceededAndListed(reached: Sys -> bool) returns (s: Store)
    requires Closed(reached)
    ensures reached(At(s, {1, 2, 3}, Walking(RUN0, map["a" := A2], 0, false))) && Holding(s, A2, RUN0)
  {
    s := FirstNodeCreated(reached);
    Outside(reached, s, {1, 2}, Idle, Touch(2, Start("w", 3, 10)), {1, 2, 3});
    s := TouchRecord(s, 2, Start("w", 3, 10), 1);
    assert Holding(s, A1, RUN0);
    Outside(reached, s, {1, 2, 3}, Idle, Touch(2, Succeed(3, "out")), {1, 2, 3});
    s := TouchRecord(s, 2, Succeed(3, "out"), 1);
    assert Holding(s, A2, RUN0);
    ListedOne(s);
    ReadAndList(reached, s, {1, 2, 3}, map["a" := A2]);
  }

  lemma ListedOne(s: Store)
    requires Holding(s, A2, RUN0)
    ensures Snap(s, 1) == map["a" := A2] && !AnyBroken(Snap(s, 1))
  {
    assert (1, "a") in s.nodes;
    assert NodeKeys(s, 1) == {"a"};
  }

  lemma RestartReopens(s: Store)
    requires Holding(s, A2, RUN0)
    ensures Holding(RestartNodes(s, Q, 1), A3, RUN1)
  {
    QAllowed(s);
    ResetOfFirst();
    RestartOfOne(s, Q, 1, 2, A2, RUN0);
  }

  lemma RestartOfOne(s: Store, q: RestartSubgraph, now: Time, id: Uuid, e: Execution, run: PipelineRun)
    requires RestartAllowed(s, q) && s.executions == map[id := e] && s.runs == map[q.runId := run]
    ensures RestartNodes(s, q, now).executions == map[id := ResetRecord(e, q, now)]
    ensures RestartNodes(s, q, now).runs == map[q.runId := ReopenedRun(run, now)]
    ensures RestartNodes(s, q, now).nodes == s.nodes && RestartNodes(s, q, now).idempotent == s.idempotent
  {
  }

  lemma QAllowed(s: Store)
    requires s.executions == map[2 := A2] && 1 in s.runs
    ensures RestartAllowed(s, Q)
  {
    assert s.executions[2].nodeKey == Q.root && s.executions[2].runId == Some(1);
  }

  lemma ResetOfFirst()
    ensures ResetRecord(A2, Q, 1) == A3
  {
  }

  lemma CreateSecond(reached: Sys -> bool, s: Store)
    requires Closed(reached) && reached(At(s, {1, 2, 3}, Walking(RUN0, map["a" := A2], 0, false)))
    ensures reached(At(CreateRecord(s, NodeRequest(1, SECOND, "out"), 4, 1), {1, 2, 3, 4}, Walking(RUN0, map["a" := A2], 2, true)))
  {
    var snap: Snapshot := map["a" := A2];
    assert !Wanted(snap, FIRST);
    Quiet(reached, s, {1, 2, 3}, Walking(RUN0, snap, 0, false), Walk(0, ""), Walking(RUN0, snap, 1, false));
    assert Due(snap, SECOND) && Outputs(snap) == map["a" := "out"];
    Writing(reached, s, {1, 2, 3}, Walking(RUN0, snap, 1, false), Walk(4, ""), Walking(RUN0, snap, 2, true), {1, 2, 3, 4});
  }

  /** A store that holds the run and both nodes. */
  ghost predicate HoldingBoth(s: Store, a: Execution, b: Execution, run: PipelineRun) {
    && s.executions == map[2 := a, 4 := b] && s.runs == map[1 := run]
    && s.nodes == map[(1, "a") := 2, (1, "b") := 4]
  }

  lemma SecondCreated(s: Store, a: Execution, run: PipelineRun)
    requires Holding(s, a, run)
    ensures HoldingBoth(CreateRecord(s, NodeRequest(1, SECOND, "out"), 4, 1), a, B0, run)
  {
    assert Existing(s, NodeRequest(1, SECOND, "out")).None?;
    assert CreateRecord(s, NodeRequest(1, SECOND, "out"), 4, 1) == Insert(s, B0, 1);
  }

  /** If a has not succeeded and b is not waiting for it, the flow is broken. */
  lemma BrokenAtSecond(s: Store, a: Execution, b: Execution, run: PipelineRun)
    requires HoldingBoth(s, a, b, run) && run.id == 1 && !a.status.Succeeded? && !b.status.Blocked?
    ensures Node(s, 1, "a") == Some(a) && Node(s, 1, "b") == Some(b) && !Flows(s, run, NODES)
  {
    assert "a" in Deps(NODES[1]);
    assert !NodeFlows(s, run, NODES[1]);
  }

  ghost predicate Reachable(sys: Sys) {
    exists n: nat :: ReachedIn(n, sys)
  }

  lemma ReachableIsClosed()
    ensures Closed(Reachable)
  {
    forall sys | Initial(sys)
      ensures Reachable(sys)
    {
      assert ReachedIn(0, sys);
    }
    forall a, m, b | Reachable(a) && SysNext(REG, a, m, b)
      ensures Reachable(b)
    {
      var n: nat :| ReachedIn(n, a);
      assert ReachedIn(n + 1, b);
    }
  }

  lemma RunTo(sys: Sys) returns (ss: seq<Sys>, moves: seq<Move>)
    requires Reachable(sys)
    ensures IsRun(REG, ss, moves) && ss[|moves|] == sys
  {
    var n: nat :| ReachedIn(n, sys);
    ss, moves := RunOf(n, sys);
  }

  /** A reachable state in which the flow of a run is broken: a coordinator listed node a as
      succeeded, a was restarted, and the coordinator then created b from a's discarded output. The
      restart is of a node that is not blocked and names the right descendants: only its place
      inside the advance is wrong. */
  lemma RestartInsideAdvanceBreaksFlow() returns (ss: seq<Sys>, moves: seq<Move>, s: Store)
    ensures IsRun(REG, ss, moves) && ss[|moves|].world.store == s
    ensures 1 in s.runs && Registered(REG, s.runs[1]) && !Flows(s, s.runs[1], NodesOf(REG, s.runs[1]))
    ensures Node(s, 1, "a").Some? && Node(s, 1, "a").value.status.Pending?
    ensures Node(s, 1, "b").Some? && Node(s, 1, "b").value.status.Pending? && Node(s, 1, "b").value.input == "out"
  {
    ReachableIsClosed();
    s := SucceededAndListed(Reachable);
    Outside(Reachable, s, {1, 2, 3}, Walking(RUN0, map["a" := A2], 0, false), Subgraph(Q), {1, 2, 3});
    RestartReopens(s);
    s := RestartNodes(s, Q, 1);
    CreateSecond(Reachable, s);
    SecondCreated(s, A3, RUN1);
    s := CreateRecord(s, NodeRequest(1, SECOND, "out"), 4, 1);
    BrokenAtSecond(s, A3, B0, RUN1);
    ss, moves := RunTo(At(s, {1, 2, 3, 4}, Walking(RUN0, map["a" := A2], 2, true)));
  }

  // ---------------------------------------------------------------------------------------------
  // Blocked nodes

  const B1 := Started(B0, "w", 5, 1, 10)
  const B2 := Finished(B1, Succeeded, "", 1).(output := "end")
  const B3 := Reset(B2, Blocked, 1)
  const B4 := Finished(B3, Cancelled, "stop", 1)
  const B5 := Reset(B3, Pending, 1)
  const Q2 := RestartSubgraph(1, "b", [], ZERO_TIME)
  const ALL: set<Uuid> := {1, 2, 3, 4, 5}

  lemma TouchSecond(s: Store, a: Execution, b: Execution, run: PipelineRun, op: RecordOp, b': Execution)
    requires HoldingBoth(s, a, b, run) && Apply(b, op, 1).Done? && Apply(b, op, 1).record == b' && b'.id == 4
    ensures HoldingBoth(TouchRecord(s, 4, op, 1), a, b', run)
  {
  }

  lemma RestartBoth(s: Store, q: RestartSubgraph, a: Execution, b: Execution, run: PipelineRun)
    requires HoldingBoth(s, a, b, run) && q.runId == 1 && RestartAllowed(s, q)
    ensures HoldingBoth(RestartNodes(s, q, 1), ResetRecord(a, q, 1), ResetRecord(b, q, 1), ReopenedRun(run, 1))
  {
    ResetBoth(s.executions, q, a, b);
    ReopenOne(s.runs, run);
    RestartParts(s, q);
  }

  lemma RestartParts(s: Store, q: RestartSubgraph)
    requires RestartAllowed(s, q)
    ensures RestartNodes(s, q, 1).executions == map id | id in s.executions :: ResetRecord(s.executions[id], q, 1)
    ensures RestartNodes(s, q, 1).runs == s.runs[q.runId := ReopenedRun(s.runs[q.runId], 1)]
    ensures RestartNodes(s, q, 1).nodes == s.nodes
  {
  }

  lemma ReopenOne(runs: map<Uuid, PipelineRun>, run: PipelineRun)
    requires runs == map[1 := run]
    ensures runs[1] == run && runs[1 := ReopenedRun(run, 1)] == map[1 := ReopenedRun(run, 1)]
  {
  }

  lemma ResetBoth(es: map<Uuid, Execution>, q: RestartSubgraph, a: Execution, b: Execution)
    requires es == map[2 := a, 4 := b]
    ensures (map id | id in es :: ResetRecord(es[id], q, 1)) == map[2 := ResetRecord(a, q, 1), 4 := ResetRecord(b, q, 1)]
  {
    assert es.Keys == {2, 4} && es[2] == a && es[4] == b;
  }

  lemma AllowedBoth(s: Store, q: RestartSubgraph, a: Execution, b: Execution, run: PipelineRun)
    requires HoldingBoth(s, a, b, run) && q.runId == 1 && a.runId == Some(1) == b.runId
    requires a.nodeKey == q.root || b.nodeKey == q.root
    requires (ResetTo(a, q).Some? ==> !a.status.Active()) && (ResetTo(b, q).Some? ==> !b.status.Active())
    ensures RestartAllowed(s, q)
  {
    assert 2 in s.executions && 4 in s.executions;
  }

  lemma SecondOps()
    ensures Apply(B0, Start("w", 5, 10), 1).Done? && Apply(B0, Start("w", 5, 10), 1).record == B1
    ensures Apply(B1, Succeed(5, "end"), 1).Done? && Apply(B1, Succeed(5, "end"), 1).record == B2
    ensures Apply(B3, Cancel("stop"), 1).Done? && Apply(B3, Cancel("stop"), 1).record == B4
  {
  }

  lemma BlockedResets()
    ensures ResetRecord(A2, Q, 1) == A3 && ResetRecord(B2, Q, 1) == B3
    ensures ResetRecord(A3, Q2, 1) == A3 && ResetRecord(B3, Q2, 1) == B5
  {
  }

  lemma SecondStarted(reached: Sys -> bool) returns (s: Store)
    requires Closed(reached)
    ensures reached(At(s, ALL, Idle)) && HoldingBoth(s, A2, B1, RUN0)
  {
    s := SucceededAndListed(reached);
    CreateSecond(reached, s);
    SecondCreated(s, A2, RUN0);
    s := CreateRecord(s, NodeRequest(1, SECOND, "out"), 4, 1);
    Quiet(reached, s, {1, 2, 3, 4}, Walking(RUN0, map["a" := A2], 2, true), Crash, Idle);
    SecondOps();
    Outside(reached, s, {1, 2, 3, 4}, Idle, Touch(4, Start("w", 5, 10)), ALL);
    TouchSecond(s, A2, B0, RUN0, Start("w", 5, 10), B1);
    s := TouchRecord(s, 4, Start("w", 5, 10), 1);
  }

  /** Both nodes have succeeded. */
  lemma BothSucceeded(reached: Sys -> bool) returns (s: Store)
    requires Closed(reached)
    ensures reached(At(s, ALL, Idle)) && HoldingBoth(s, A2, B2, RUN0)
  {
    s := SecondStarted(reached);
    SecondOps();
    Outside(reached, s, ALL, Idle, Touch(4, Succeed(5, "end")), ALL);
    TouchSecond(s, A2, B1, RUN0, Succeed(5, "end"), B2);
    s := TouchRecord(s, 4, Succeed(5, "end"), 1);
  }

  /** Then a is restarted, which blocks b. */
  lemma SecondBlocked(reached: Sys -> bool) returns (s: Store)
    requires Closed(reached)
    ensures reached(At(s, ALL, Idle)) && HoldingBoth(s, A3, B3, RUN1)
  {
    s := BothSucceeded(reached);
    BlockedResets();
    AllowedBoth(s, Q, A2, B2, RUN0);
    Outside(reached, s, ALL, Idle, Subgraph(Q), ALL);
    RestartBoth(s, Q, A2, B2, RUN0);
    s := RestartNodes(s, Q, 1);
  }

  /** A reachable state in which a blocked node has been cancelled, and ended without the results it
      was waiting for. */
  lemma CancelOfBlockedBreaksFlow() returns (ss: seq<Sys>, moves: seq<Move>, s: Store)
    ensures IsRun(REG, ss, moves) && ss[|moves|].world.store == s
    ensures 1 in s.runs && Registered(REG, s.runs[1]) && !Flows(s, s.runs[1], NodesOf(REG, s.runs[1]))
    ensures Node(s, 1, "a").Some? && Node(s, 1, "a").value.status.Pending?
    ensures Node(s, 1, "b").Some? && Node(s, 1, "b").value.status.Cancelled?
  {
    ReachableIsClosed();
    s := SecondBlocked(Reachable);
    SecondOps();
    Outside(Reachable, s, ALL, Idle, Touch(4, Cancel("stop")), ALL);
    TouchSecond(s, A3, B3, RUN1, Cancel("stop"), B4);
    s := TouchRecord(s, 4, Cancel("stop"), 1);
    BrokenAtSecond(s, A3, B4, RUN1);
    ss, moves := RunTo(At(s, ALL, Idle));
  }

  /** A reachable state in which a blocked node has been restarted, and can be delivered with an input
      made of a discarded output. */
  lemma RestartOfBlockedBreaksFlow() returns (ss: seq<Sys>, moves: seq<Move>, s: Store)
    ensures IsRun(REG, ss, moves) && ss[|moves|].world.store == s
    ensures 1 in s.runs && Registered(REG, s.runs[1]) && !Flows(s, s.runs[1], NodesOf(REG, s.runs[1]))
    ensures Node(s, 1, "a").Some? && Node(s, 1, "a").value.status.Pending?
    ensures Node(s, 1, "b").Some? && Node(s, 1, "b").value.status.Pending? && Node(s, 1, "b").value.input == "out"
  {
    ReachableIsClosed();
    s := SecondBlocked(Reachable);
    BlockedResets();
    AllowedBoth(s, Q2, A3, B3, RUN1);
    Outside(Reachable, s, ALL, Idle, Subgraph(Q2), ALL);
    RestartBoth(s, Q2, A3, B3, RUN1);
    s := RestartNodes(s, Q2, 1);
    BrokenAtSecond(s, A3, B5, ReopenedRun(RUN1, 1));
    ss, moves := RunTo(At(s, ALL, Idle));
  }
}
