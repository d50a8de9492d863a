/** Any number of coordinators advancing, cancelling and crashing, interleaved at single store calls
    with each other and with workers, operators and retention. */
module Coordination {
  import opened Model
  import opened Storage
  import opened Engine
  import opened Histories

  /** Where a coordinator stands between two of its store calls. */
  datatype Local =
    | Idle
    | GotRun(run: PipelineRun)
    | Walking(run: PipelineRun, snap: Snapshot, i: nat, created: bool)
    | Finishing(run: PipelineRun, status: RunStatus, error: string)

  datatype Act =
    | Read(r: Uuid)
    | ReadToCancel(r: Uuid, reason: string)
    | List(error: string)
    | Walk(newId: Uuid, error: string)
    | Conclude
    | Commit
    | Crash

  datatype Move =
    | Env(step: Step)
    | Coord(c: nat, act: Act)

  datatype Sys = Sys(world: World, locals: map<nat, Local>)

  function LocalOf(sys: Sys, c: nat): Local {
    if c in sys.locals then sys.locals[c] else Idle
  }

  predicate Enabled(reg: Registry, s: Store, l: Local, act: Act) {
    match act
    case Read(r) => l.Idle? && r in s.runs && !s.runs[r].status.Terminal() && Registered(reg, s.runs[r])
    case ReadToCancel(r, _) => l.Idle? && r in s.runs
    case List(_) => l.GotRun? && Registered(reg, l.run)
    case Walk(_, _) => l.Walking? && Registered(reg, l.run) && l.i < |NodesOf(reg, l.run)|
    case Conclude => l.Walking? && Registered(reg, l.run) && l.i == |NodesOf(reg, l.run)|
    case Commit => l.Finishing?
    case Crash => true
  }

  /** The store call of an act, if it writes. */
  function Effect(reg: Registry, l: Local, act: Act): Option<Step>
    requires act.Walk? ==> l.Walking? && Registered(reg, l.run) && l.i < |NodesOf(reg, l.run)|
    requires act.Commit? ==> l.Finishing?
  {
    match act
    case Walk(newId, _) =>
      var n := NodesOf(reg, l.run)[l.i];
      if Due(l.snap, n) && Built(l.snap, n, l.run.input).Some? then
        Some(StartNode(l.snap, l.run.id, n, Built(l.snap, n, l.run.input).value, newId))
      else None
    case Commit => Some(SetStatus(l.run.id, l.run.revision, l.status, l.error))
    case _ => None
  }

  function After(reg: Registry, s: Store, l: Local, act: Act, now: Time): Local
    requires Enabled(reg, s, l, act)
  {
    match act
    case Read(r) => GotRun(s.runs[r])
    case ReadToCancel(r, reason) => Finishing(s.runs[r], RunCancelled, reason)
    case List(error) =>
      var snap := Snap(s, l.run.id);
      if AnyBroken(snap) then Finishing(l.run, RunFailed, error) else Walking(l.run, snap, 0, false)
    case Walk(newId, error) =>
      var n := NodesOf(reg, l.run)[l.i];
      if !Due(l.snap, n) then l.(i := l.i + 1)
      else
        (match Built(l.snap, n, l.run.input)
         case None => Finishing(l.run, RunFailed, error)
         case Some(input) =>
           var step := StartNode(l.snap, l.run.id, n, input, newId);
           if step.Touch? && TouchReply(s, step.id, step.op, now).Err? then Idle
           else l.(i := l.i + 1, created := true))
    case Conclude =>
      (match Conclusion(l.run, l.snap, NodesOf(reg, l.run), l.created)
       case None => Idle
       case Some(status) => Finishing(l.run, status, ""))
    case Commit => Idle
    case Crash => Idle
  }

  ghost predicate CoordNext(reg: Registry, sys: Sys, c: nat, act: Act, sys': Sys) {
    var l := LocalOf(sys, c);
    && Enabled(reg, sys.world.store, l, act)
    && (match Effect(reg, l, act)
        case None => sys'.world == sys.world
        case Some(step) => Next(sys.world, step, sys'.world))
    && sys'.locals == sys.locals[c := After(reg, sys.world.store, l, act, sys'.world.clock)]
  }

  /** What the rest of the program does: pipeline executions are created and released, and run
      statuses written, by coordinators only; retention removes an execution of a run only
      together with the run. */
  predicate EnvStep(s: Store, step: Step) {
    match step
    case Create(q, _) => q.runId.None? && !q.idempotencyKey.NodeRef?
    case Touch(_, op) => !op.Release?
    case SetStatus(_, _, _, _) => false
    case DropExecution(id) => id in s.executions ==> s.executions[id].runId.None?
    case _ => true
  }

  ghost predicate SysNext(reg: Registry, sys: Sys, move: Move, sys': Sys) {
    match move
    case Env(step) => EnvStep(sys.world.store, step) && Next(sys.world, step, sys'.world) && sys'.locals == sys.locals
    case Coord(c, act) => CoordNext(reg, sys, c, act, sys')
  }

  ghost predicate Initial(sys: Sys) {
    sys.world.store == EMPTY && sys.locals == map[]
  }

  ghost predicate IsRun(reg: Registry, ss: seq<Sys>, moves: seq<Move>) {
    && |ss| == |moves| + 1
    && Initial(ss[0])
    && (forall i :: 0 <= i < |moves| ==> SysNext(reg, ss[i], moves[i], ss[i + 1]))
  }

  /** The store step a move makes, if any. */
  function StepOf(reg: Registry, sys: Sys, move: Move): Option<Step>
    requires move.Coord? ==> Enabled(reg, sys.world.store, LocalOf(sys, move.c), move.act)
  {
    match move
    case Env(step) => Some(step)
    case Coord(c, act) => Effect(reg, LocalOf(sys, c), act)
  }

  lemma MoveIsStep(reg: Registry, sys: Sys, move: Move, sys': Sys)
    requires SysNext(reg, sys, move, sys')
    ensures match StepOf(reg, sys, move)
            case None => sys'.world == sys.world
            case Some(step) => Next(sys.world, step, sys'.world)
  {
  }
}
