/** Why a run ends: every failure and every cancellation a run shows goes back to its cause. */
module Causes {
  import opened Model
  import opened Storage
  import opened Definitions
  import opened Engine
  import opened Histories
  import opened Coordination
  import opened CasSafety

  predicate HasBrokenNode(s: Store, r: Uuid) {
    exists p :: p in s.nodes && p.0 == r && s.nodes[p] in s.executions && s.executions[s.nodes[p]].status in {Failed, Cancelled}
  }

  /** A coordinator finds a node of the run failed or cancelled, or comes to a node that is due and has no
      input. */
  ghost predicate Finds(reg: Registry, sys: Sys, move: Move, r: Uuid, error: string) {
    && move.Coord? && Enabled(reg, sys.world.store, LocalOf(sys, move.c), move.act)
    && var l := LocalOf(sys, move.c);
       || (move.act == List(error) && l.run.id == r && HasBrokenNode(sys.world.store, r))
       || (move.act.Walk? && move.act.error == error && l.run.id == r
           && var n := NodesOf(reg, l.run)[l.i];
              Due(l.snap, n) && forall input :: !Makes(n, l.run.input, Outputs(l.snap), input))
  }

  /** Somebody asks for the run to be cancelled. */
  predicate Asks(move: Move, r: Uuid, reason: string) {
    move.Coord? && move.act == ReadToCancel(r, reason)
  }

  ghost predicate Caused(reg: Registry, ss: seq<Sys>, moves: seq<Move>, i: nat, r: Uuid, status: RunStatus, error: string)
    requires i <= |moves| < |ss|
  {
    && (status == RunFailed ==> exists j :: 0 <= j < i && Finds(reg, ss[j], moves[j], r, error))
    && (status == RunCancelled ==> exists j :: 0 <= j < i && Asks(moves[j], r, error))
  }

  ghost predicate LocalCaused(reg: Registry, ss: seq<Sys>, moves: seq<Move>, i: nat, l: Local)
    requires i <= |moves| < |ss|
  {
    l.Finishing? ==> Caused(reg, ss, moves, i, l.run.id, l.status, l.error)
  }

  ghost predicate AllCaused(reg: Registry, ss: seq<Sys>, moves: seq<Move>, i: nat)
    requires i <= |moves| < |ss|
  {
    && (forall r :: r in ss[i].world.store.runs ==>
          Caused(reg, ss, moves, i, r, ss[i].world.store.runs[r].status, ss[i].world.store.runs[r].error))
    && (forall c :: c in ss[i].locals ==> LocalCaused(reg, ss, moves, i, ss[i].locals[c]))
  }

  lemma CausedLater(reg: Registry, ss: seq<Sys>, moves: seq<Move>, i: nat, r: Uuid, status: RunStatus, error: string)
    requires i < |moves| < |ss| && Caused(reg, ss, moves, i, r, status, error)
    ensures Caused(reg, ss, moves, i + 1, r, status, error)
  {
    if status == RunFailed {
      var j :| 0 <= j < i && Finds(reg, ss[j], moves[j], r, error);
      assert 0 <= j < i + 1;
    }
    if status == RunCancelled {
      var j :| 0 <= j < i && Asks(moves[j], r, error);
      assert 0 <= j < i + 1;
    }
  }

  lemma BrokenIsNode(s: Store, r: Uuid)
    requires AnyBroken(Snap(s, r))
    ensures HasBrokenNode(s, r)
  {
    var k :| k in Snap(s, r) && Broken(Snap(s, r), k);
    assert k in NodeKeys(s, r);
    assert (r, k) in s.nodes;
  }

  lemma NoInput(snap: Snapshot, n: NodeDef, initial: Json)
    requires Ready(snap, n) && Built(snap, n, initial).None?
    ensures forall input :: !Makes(n, initial, Outputs(snap), input)
  {
    InputFromDependencies(n, initial, Outputs(snap), Outputs(snap));
  }

  /** A coordinator that has just decided on an end has just met its cause. */
  lemma DecisionHasCause(reg: Registry, ss: seq<Sys>, moves: seq<Move>, i: nat, c: nat, act: Act)
    requires IsRun(reg, ss, moves) && i < |moves| && moves[i] == Coord(c, act)
    requires LocalCaused(reg, ss, moves, i, LocalOf(ss[i], c)) && (forall r :: r in ss[i].world.store.runs ==> ss[i].world.store.runs[r].id == r)
    ensures c in ss[i + 1].locals && LocalCaused(reg, ss, moves, i + 1, ss[i + 1].locals[c])
  {
    var s, l := ss[i].world.store, LocalOf(ss[i], c);
    assert SysNext(reg, ss[i], moves[i], ss[i + 1]);
    match act
    case ReadToCancel(r, reason) => assert Asks(moves[i], r, reason);
    case List(error) =>
      if AnyBroken(Snap(s, l.run.id)) {
        BrokenIsNode(s, l.run.id);
        assert Finds(reg, ss[i], moves[i], l.run.id, error);
      }
    case Walk(_, error) =>
      var n := NodesOf(reg, l.run)[l.i];
      if Due(l.snap, n) && Built(l.snap, n, l.run.input).None? {
        NoInput(l.snap, n, l.run.input);
        assert Finds(reg, ss[i], moves[i], l.run.id, error);
      }
    case _ =>
  }

  lemma StatusAfter(s: Store, step: Step, now: Time, r: Uuid)
    requires RunNext(s, step, now, r).Some?
    ensures
      var run := RunNext(s, step, now, r).value;
      || (r in s.runs && run == s.runs[r])
      || run.status == RunPending || run.status == RunRunning
      || (step.SetStatus? && step.id == r && run.status == step.status && run.error == step.error)
  {
  }

  /** A step changes the status of a run only to an open one, or to what a coordinator has decided. */
  lemma StatusHasCause(reg: Registry, ss: seq<Sys>, moves: seq<Move>, i: nat, r: Uuid)
    requires IsRun(reg, ss, moves) && i < |moves| && Inv(ss[i].world) && AllCaused(reg, ss, moves, i) && r in ss[i + 1].world.store.runs
    ensures Caused(reg, ss, moves, i + 1, r, ss[i + 1].world.store.runs[r].status, ss[i + 1].world.store.runs[r].error)
  {
    var a, b := ss[i], ss[i + 1];
    assert SysNext(reg, a, moves[i], b);
    MoveIsStep(reg, a, moves[i], b);
    if r in a.world.store.runs {
      CausedLater(reg, ss, moves, i, r, a.world.store.runs[r].status, a.world.store.runs[r].error);
    }
    match StepOf(reg, a, moves[i])
    case None =>
    case Some(step) =>
      RunAfter(a.world.store, step, b.world.clock, r);
      StatusAfter(a.world.store, step, b.world.clock, r);
      if step.SetStatus? && step.id == r {
        var l := LocalOf(a, moves[i].c);
        assert LocalCaused(reg, ss, moves, i, l);
        CausedLater(reg, ss, moves, i, l.run.id, l.status, l.error);
      }
  }

  lemma AllCausedNext(reg: Registry, ss: seq<Sys>, moves: seq<Move>, i: nat)
    requires IsRun(reg, ss, moves) && i < |moves| && Inv(ss[i].world) && AllCaused(reg, ss, moves, i)
    ensures AllCaused(reg, ss, moves, i + 1)
  {
    var b := ss[i + 1];
    assert SysNext(reg, ss[i], moves[i], b);
    forall r | r in b.world.store.runs
      ensures Caused(reg, ss, moves, i + 1, r, b.world.store.runs[r].status, b.world.store.runs[r].error)
    {
      StatusHasCause(reg, ss, moves, i, r);
    }
    forall c | c in b.locals
      ensures LocalCaused(reg, ss, moves, i + 1, b.locals[c])
    {
      if moves[i].Coord? && moves[i].c == c {
        DecisionHasCause(reg, ss, moves, i, c, moves[i].act);
      } else {
        var l := ss[i].locals[c];
        if l.Finishing? {
          CausedLater(reg, ss, moves, i, l.run.id, l.status, l.error);
        }
      }
    }
  }

  lemma {:induction false} RunIsCaused(reg: Registry, ss: seq<Sys>, moves: seq<Move>, i: nat)
    requires ValidRegistry(reg) && IsRun(reg, ss, moves) && i < |ss|
    ensures AllCaused(reg, ss, moves, i)
  {
    if i > 0 {
      RunIsCaused(reg, ss, moves, i - 1);
      RunKeepsCas(reg, ss, moves, i - 1);
      AllCausedNext(reg, ss, moves, i - 1);
    }
  }

  /** In every reachable state of any number of coordinators, a run shows failed only if a coordinator
      before found one of its nodes failed or cancelled, or a due node without an input, and reported the
      error the run shows; and it shows cancelled only if somebody asked for that, for the reason it shows. */
  lemma EndsHaveCauses(reg: Registry, ss: seq<Sys>, moves: seq<Move>, i: nat, r: Uuid)
    requires ValidRegistry(reg) && IsRun(reg, ss, moves) && i < |ss| && r in ss[i].world.store.runs
    ensures
      var run := ss[i].world.store.runs[r];
      && (run.status == RunFailed ==> exists j :: 0 <= j < i && Finds(reg, ss[j], moves[j], r, run.error))
      && (run.status == RunCancelled ==> exists j :: 0 <= j < i && Asks(moves[j], r, run.error))
  {
    RunIsCaused(reg, ss, moves, i);
  }
}
