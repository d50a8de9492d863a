/** The store as a value, and its operations as functions from one value to the next. */
module Storage {
  import opened Model
  import opened Records
  import opened EventLog

  datatype Store = Store(
    executions: map<Uuid, Execution>,
    runs: map<Uuid, PipelineRun>,
    events: map<Uuid, seq<Event>>,
    idempotent: map<(string, IdemKey), Uuid>,
    nodes: map<(Uuid, string), Uuid>,
    runIdempotent: map<(string, IdemKey), Uuid>)

  const EMPTY := Store(map[], map[], map[], map[], map[], map[])

  /** The single store writes that all operations are made of. A claim, a reap or a purge is a
      sequence of such steps. */
  datatype Step =
    | Create(request: CreateExecution, newId: Uuid)
    | Touch(id: Uuid, op: RecordOp)
    | Subgraph(restart: RestartSubgraph)
    | NewRun(create: CreateRun, newId: Uuid)
    | SetStatus(id: Uuid, expected: nat, status: RunStatus, error: string)
    | DropExecution(id: Uuid)
    | DropRun(id: Uuid)

  // ---------------------------------------------------------------------------------------------
  // Invariant

  predicate Indexed(e: Execution) { e.runId.Some? && e.nodeKey != "" }

  function IdemOf(e: Execution): (string, IdemKey) { (e.taskName, e.idempotencyKey) }

  function NodeOf(e: Execution): (Uuid, string)
    requires e.runId.Some?
  {
    (e.runId.value, e.nodeKey)
  }

  function RunIdemOf(r: PipelineRun): (string, IdemKey) { (r.pipelineName, r.idempotencyKey) }

  /** The idempotency index and the records are inverses of each other. */
  ghost predicate IdemExact(es: map<Uuid, Execution>, index: map<(string, IdemKey), Uuid>) {
    && (forall k :: k in index ==> index[k] in es && k.1 != NoKey && IdemOf(es[index[k]]) == k)
    && (forall id :: id in es && es[id].idempotencyKey != NoKey ==>
          IdemOf(es[id]) in index && index[IdemOf(es[id])] == id)
  }

  /** The node index and the records of pipeline nodes are inverses of each other. */
  ghost predicate NodesExact(es: map<Uuid, Execution>, index: map<(Uuid, string), Uuid>) {
    && (forall k :: k in index ==> index[k] in es && Indexed(es[index[k]]) && NodeOf(es[index[k]]) == k)
    && (forall id :: id in es && Indexed(es[id]) ==> NodeOf(es[id]) in index && index[NodeOf(es[id])] == id)
  }

  /** Likewise for runs. */
  ghost predicate RunsExact(runs: map<Uuid, PipelineRun>, index: map<(string, IdemKey), Uuid>) {
    && (forall id :: id in runs ==> runs[id].id == id && id != NIL)
    && (forall k :: k in index ==> index[k] in runs && k.1 != NoKey && RunIdemOf(runs[index[k]]) == k)
    && (forall id :: id in runs && runs[id].idempotencyKey != NoKey ==>
          RunIdemOf(runs[id]) in index && index[RunIdemOf(runs[id])] == id)
  }

  /** A record is running exactly while it holds a lease token, finished exactly while it has a
      finish time, and within its attempt budget. */
  predicate Sound(e: Execution) {
    && (e.status.Running? <==> e.leaseToken != NIL)
    && (e.status.Terminal() <==> e.finishedAt.Some?)
    && 0 <= e.attempt <= e.maxAttempts
    && 1 <= e.maxAttempts
    && (e.status.Retry? ==> e.attempt < e.maxAttempts)
    && (e.status.Blocked? ==> e.runId.Some?)
  }

  ghost predicate RecordsSound(es: map<Uuid, Execution>, logs: map<Uuid, seq<Event>>) {
    && logs.Keys == es.Keys
    && (forall id :: id in es ==> es[id].id == id && id != NIL && Sound(es[id]))
    && (forall id :: id in es ==> Describes(logs[id], es[id]))
  }

  /** The unique indexes are exact, so removal by key removes what removal by record would. */
  ghost predicate IndexesExact(s: Store) {
    && IdemExact(s.executions, s.idempotent)
    && NodesExact(s.executions, s.nodes)
    && RunsExact(s.runs, s.runIdempotent)
  }

  ghost predicate Valid(s: Store) {
    RecordsSound(s.executions, s.events) && IndexesExact(s)
  }

  // ---------------------------------------------------------------------------------------------
  // Operations

  /** An execution without a log has the empty one. */
  function LogOf(s: Store, id: Uuid): seq<Event> {
    if id in s.events then s.events[id] else []
  }

  function Put(s: Store, e: Execution, event: Option<Event>): Store {
    s.(executions := s.executions[e.id := e],
       events := if event.None? then s.events else s.events[e.id := LogOf(s, e.id) + [event.value]])
  }

  function TouchRecord(s: Store, id: Uuid, op: RecordOp, now: Time): Store {
    if id !in s.executions then s
    else match Apply(s.executions[id], op, now)
         case Refused(_) => s
         case Done(e, event) => Put(s, e, event)
  }

  function TouchReply(s: Store, id: Uuid, op: RecordOp, now: Time): Result<Execution> {
    if id !in s.executions then Err(ErrNotFound)
    else match Apply(s.executions[id], op, now)
         case Refused(error) => Err(error)
         case Done(e, _) => Ok(e)
  }

  /** The execution an earlier request with the same idempotency key, or for the same node of the
      same run, has created. The idempotency key is looked up first. */
  function Existing(s: Store, request: CreateExecution): Option<Uuid> {
    var idem := (request.taskName, request.idempotencyKey);
    if request.idempotencyKey != NoKey && idem in s.idempotent then Some(s.idempotent[idem])
    else if request.runId.Some? && request.nodeKey != "" && (request.runId.value, request.nodeKey) in s.nodes then
      Some(s.nodes[(request.runId.value, request.nodeKey)])
    else None
  }

  function NewExecution(request: CreateExecution, newId: Uuid, now: Time): Execution {
    Execution(newId, request.taskName, request.taskVersion, request.input, "", Pending, 0,
              if request.maxAttempts <= 0 then 1 else request.maxAttempts,
              OrNow(request.availableAt, now), "", NIL, ZERO_TIME, "", request.idempotencyKey,
              request.runId, request.nodeKey, now, None, None)
  }

  /** What a request for an execution is turned into. */
  predicate MadeFor(e: Execution, q: CreateExecution, newId: Uuid, now: Time) {
    && e.id == newId && e.taskName == q.taskName && e.taskVersion == q.taskVersion && e.input == q.input
    && e.maxAttempts == (if q.maxAttempts <= 0 then 1 else q.maxAttempts)
    && e.availableAt == (if q.availableAt == ZERO_TIME then now else q.availableAt)
    && e.idempotencyKey == q.idempotencyKey && e.runId == q.runId && e.nodeKey == q.nodeKey
    && e.status.Pending? && e.attempt == 0 && e.createdAt == now
  }

  function CreateRecord(s: Store, request: CreateExecution, newId: Uuid, now: Time): Store {
    if request.taskName == "" || Existing(s, request).Some? then s
    else Insert(s, NewExecution(request, newId, now), now)
  }

  function Insert(s: Store, e: Execution, now: Time): Store {
    s.(executions := s.executions[e.id := e],
       events := s.events[e.id := [Event(EventCreated, 0, "", now)]],
       idempotent := if e.idempotencyKey == NoKey then s.idempotent else s.idempotent[IdemOf(e) := e.id],
       nodes := if Indexed(e) then s.nodes[NodeOf(e) := e.id] else s.nodes)
  }

  function CreateReply(s: Store, request: CreateExecution, newId: Uuid, now: Time): Result<Execution>
    requires Existing(s, request).Some? ==> Existing(s, request).value in s.executions
  {
    if request.taskName == "" then Err(ErrEmptyName)
    else match Existing(s, request)
         case Some(id) => Ok(s.executions[id])
         case None => Ok(NewExecution(request, newId, now))
  }

  /** The status a subgraph restart gives a record, if the record belongs to the subgraph. */
  function ResetTo(e: Execution, q: RestartSubgraph): Option<Status> {
    if e.runId != Some(q.runId) then None
    else if e.nodeKey == q.root then Some(Pending)
    else if e.nodeKey in q.descendants then Some(Blocked)
    else None
  }

  ghost predicate RestartFound(s: Store, q: RestartSubgraph) {
    exists id :: id in s.executions && s.executions[id].runId == Some(q.runId) && s.executions[id].nodeKey == q.root
  }

  ghost predicate RestartBusy(s: Store, q: RestartSubgraph) {
    exists id :: id in s.executions && ResetTo(s.executions[id], q).Some? && s.executions[id].status.Active()
  }

  ghost predicate RestartAllowed(s: Store, q: RestartSubgraph) {
    q.runId in s.runs && !RestartBusy(s, q) && RestartFound(s, q)
  }

  function ResetRecord(e: Execution, q: RestartSubgraph, now: Time): Execution {
    match ResetTo(e, q)
    case None => e
    case Some(status) => Reset(e, status, OrNow(q.availableAt, now))
  }

  function ResetLog(e: Execution, log: seq<Event>, q: RestartSubgraph, now: Time): seq<Event> {
    if ResetTo(e, q).None? then log else log + [Event(EventRestarted, 0, "", now)]
  }

  function ReopenedRun(r: PipelineRun, now: Time): PipelineRun {
    r.(status := RunRunning, error := "", finishedAt := None, updatedAt := now, revision := r.revision + 1)
  }

  ghost function RestartNodes(s: Store, q: RestartSubgraph, now: Time): Store {
    if !RestartAllowed(s, q) then s
    else s.(executions := map id | id in s.executions :: ResetRecord(s.executions[id], q, now),
            events := map id | id in s.executions :: ResetLog(s.executions[id], LogOf(s, id), q, now),
            runs := s.runs[q.runId := ReopenedRun(s.runs[q.runId], now)])
  }

  function NewPipelineRun(q: CreateRun, newId: Uuid, now: Time): PipelineRun {
    PipelineRun(newId, q.pipelineName, q.pipelineVersion, q.input, RunPending, "", q.idempotencyKey, 0, now, now, None)
  }

  function CreateRunRecord(s: Store, q: CreateRun, newId: Uuid, now: Time): Store {
    var key := (q.pipelineName, q.idempotencyKey);
    if q.idempotencyKey != NoKey && key in s.runIdempotent then s
    else s.(runs := s.runs[newId := NewPipelineRun(q, newId, now)],
            runIdempotent := if q.idempotencyKey == NoKey then s.runIdempotent else s.runIdempotent[key := newId])
  }

  /** MemoryStore sets a finish time for a terminal status and otherwise leaves the old one. */
  function StampedRun(r: PipelineRun, status: RunStatus, error: string, now: Time): PipelineRun {
    r.(status := status, error := error, updatedAt := now, revision := r.revision + 1,
       finishedAt := if status.Terminal() then Some(now) else r.finishedAt)
  }

  /** A run has a finish time exactly when it has finished. */
  predicate Timed(run: PipelineRun) {
    run.status.Terminal() <==> run.finishedAt.Some?
  }

  ghost predicate AllTimed(runs: map<Uuid, PipelineRun>) {
    forall r :: r in runs ==> Timed(runs[r])
  }

  function StatusReply(s: Store, id: Uuid, expected: nat): Result<()> {
    if id !in s.runs then Err(ErrNotFound)
    else if s.runs[id].revision != expected then Err(ErrConflict)
    else Ok(())
  }

  function SetRunStatus(s: Store, id: Uuid, expected: nat, status: RunStatus, error: string, now: Time): Store {
    if StatusReply(s, id, expected).Err? then s
    else s.(runs := s.runs[id := StampedRun(s.runs[id], status, error, now)])
  }

  /** Deletes executions together with their logs and index entries. */
  function DropExecutions(s: Store, dead: set<Uuid>): Store {
    s.(executions := s.executions - dead,
       events := s.events - dead,
       idempotent := map k | k in s.idempotent && s.idempotent[k] !in dead :: s.idempotent[k],
       nodes := map k | k in s.nodes && s.nodes[k] !in dead :: s.nodes[k])
  }

  function ExecutionsOf(s: Store, run: Uuid): set<Uuid> {
    set id | id in s.executions && s.executions[id].runId == Some(run)
  }

  function DropPipelineRun(s: Store, run: Uuid): Store {
    DropExecutions(s, ExecutionsOf(s, run))
      .(runs := s.runs - {run},
        runIdempotent := map k | k in s.runIdempotent && s.runIdempotent[k] != run :: s.runIdempotent[k])
  }

  ghost function Do(s: Store, step: Step, now: Time): Store {
    match step
    case Create(request, newId) => CreateRecord(s, request, newId, now)
    case Touch(id, op) => TouchRecord(s, id, op, now)
    case Subgraph(q) => RestartNodes(s, q, now)
    case NewRun(q, newId) => CreateRunRecord(s, q, newId, now)
    case SetStatus(id, expected, status, error) => SetRunStatus(s, id, expected, status, error, now)
    case DropExecution(id) => DropExecutions(s, {id})
    case DropRun(id) => DropPipelineRun(s, id)
  }

  /** Generated UUIDs are neither nil nor in use. */
  predicate Fresh(s: Store, step: Step) {
    match step
    case Create(_, newId) => newId != NIL && newId !in s.executions
    case NewRun(_, newId) => newId != NIL && newId !in s.runs
    case Touch(_, op) => op.Start? ==> op.token != NIL
    case _ => true
  }

  // ---------------------------------------------------------------------------------------------
  // Every step keeps the invariant

  lemma ApplyKeepsRecord(e: Execution, log: seq<Event>, op: RecordOp, now: Time)
    requires Sound(e) && Describes(log, e)
    requires Apply(e, op, now).Done?
    requires op.Start? ==> op.token != NIL
    ensures
      var reply := Apply(e, op, now);
      && Sound(reply.record)
      && SameIdentity(e, reply.record)
      && Describes(if reply.event.None? then log else log + [reply.event.value], reply.record)
  {
    var reply := Apply(e, op, now);
    if reply.event.Some? {
      ReplayAppend(log, reply.event.value);
    }
  }

  /** Records rewritten in place, each keeping its identity. */
  ghost predicate Rewritten(es: map<Uuid, Execution>, es': map<Uuid, Execution>) {
    && es'.Keys == es.Keys
    && (forall id :: id in es ==> SameIdentity(es[id], es'[id]))
  }

  lemma RewriteKeepsIdem(es: map<Uuid, Execution>, es': map<Uuid, Execution>, index: map<(string, IdemKey), Uuid>)
    requires IdemExact(es, index) && Rewritten(es, es')
    ensures IdemExact(es', index)
  {
  }

  lemma RewriteKeepsNodes(es: map<Uuid, Execution>, es': map<Uuid, Execution>, index: map<(Uuid, string), Uuid>)
    requires NodesExact(es, index) && Rewritten(es, es')
    ensures NodesExact(es', index)
  {
  }

  lemma PutKeepsRecords(es: map<Uuid, Execution>, logs: map<Uuid, seq<Event>>, e: Execution, log: seq<Event>)
    requires RecordsSound(es, logs) && e.id != NIL
    requires Sound(e) && Describes(log, e)
    ensures RecordsSound(es[e.id := e], logs[e.id := log])
  {
  }

  lemma PutKeepsValid(s: Store, e: Execution, event: Option<Event>)
    requires Valid(s) && e.id in s.executions && SameIdentity(s.executions[e.id], e) && Sound(e)
    requires Describes(if event.None? then s.events[e.id] else s.events[e.id] + [event.value], e)
    ensures Valid(Put(s, e, event))
  {
    RewriteKeepsIdem(s.executions, s.executions[e.id := e], s.idempotent);
    RewriteKeepsNodes(s.executions, s.executions[e.id := e], s.nodes);
    if event.None? {
      assert s.events[e.id := s.events[e.id]] == s.events;
      PutKeepsRecords(s.executions, s.events, e, s.events[e.id]);
    } else {
      PutKeepsRecords(s.executions, s.events, e, s.events[e.id] + [event.value]);
    }
  }

  lemma TouchKeepsValid(s: Store, id: Uuid, op: RecordOp, now: Time)
    requires Valid(s)
    requires op.Start? ==> op.token != NIL
    ensures Valid(TouchRecord(s, id, op, now))
  {
    if id in s.executions {
      match Apply(s.executions[id], op, now)
      case Refused(_) =>
      case Done(e, event) =>
        ApplyKeepsRecord(s.executions[id], s.events[id], op, now);
        PutKeepsValid(s, e, event);
    }
  }

  lemma InsertKeepsIdem(es: map<Uuid, Execution>, index: map<(string, IdemKey), Uuid>, e: Execution)
    requires IdemExact(es, index) && e.id !in es
    requires e.idempotencyKey != NoKey ==> IdemOf(e) !in index
    ensures IdemExact(es[e.id := e], if e.idempotencyKey == NoKey then index else index[IdemOf(e) := e.id])
  {
  }

  lemma InsertKeepsNodes(es: map<Uuid, Execution>, index: map<(Uuid, string), Uuid>, e: Execution)
    requires NodesExact(es, index) && e.id !in es
    requires Indexed(e) ==> NodeOf(e) !in index
    ensures NodesExact(es[e.id := e], if Indexed(e) then index[NodeOf(e) := e.id] else index)
  {
  }

  lemma CreatedLog(log: seq<Event>)
    requires |log| == 1 && log[0].kind == EventCreated
    ensures Replay(log) == Waiting
  {
    assert log[..0] == [];
    assert Replay(log[..0]) == Empty;
  }

  lemma CreateKeepsValid(s: Store, request: CreateExecution, newId: Uuid, now: Time)
    requires Valid(s)
    requires newId != NIL && newId !in s.executions
    ensures Valid(CreateRecord(s, request, newId, now))
  {
    if request.taskName != "" && Existing(s, request).None? {
      var e := NewExecution(request, newId, now);
      InsertKeepsIdem(s.executions, s.idempotent, e);
      InsertKeepsNodes(s.executions, s.nodes, e);
      var log := [Event(EventCreated, 0, "", now)];
      CreatedLog(log);
      PutKeepsRecords(s.executions, s.events, e, log);
    }
  }

  lemma ResetKeepsRecord(e: Execution, log: seq<Event>, q: RestartSubgraph, now: Time)
    requires Sound(e) && Describes(log, e)
    requires ResetTo(e, q).Some? ==> !e.status.Active()
    ensures Sound(ResetRecord(e, q, now))
    ensures SameIdentity(e, ResetRecord(e, q, now))
    ensures Describes(ResetLog(e, log, q, now), ResetRecord(e, q, now))
  {
    ReplayAppend(log, Event(EventRestarted, 0, "", now));
  }

  lemma ResetKeepsRecords(s: Store, q: RestartSubgraph, now: Time)
    requires RecordsSound(s.executions, s.events) && RestartAllowed(s, q)
    ensures Rewritten(s.executions, RestartNodes(s, q, now).executions)
    ensures RecordsSound(RestartNodes(s, q, now).executions, RestartNodes(s, q, now).events)
  {
    forall id | id in s.executions
      ensures
        var e' := ResetRecord(s.executions[id], q, now);
        && Sound(e') && SameIdentity(s.executions[id], e')
        && Describes(ResetLog(s.executions[id], LogOf(s, id), q, now), e')
    {
      assert ResetTo(s.executions[id], q).Some? ==> !s.executions[id].status.Active();
      ResetKeepsRecord(s.executions[id], s.events[id], q, now);
    }
  }

  lemma ReopenKeepsRuns(runs: map<Uuid, PipelineRun>, index: map<(string, IdemKey), Uuid>, r: PipelineRun)
    requires RunsExact(runs, index) && r.id in runs && RunIdemOf(r) == RunIdemOf(runs[r.id])
    ensures RunsExact(runs[r.id := r], index)
  {
  }

  lemma SubgraphKeepsValid(s: Store, q: RestartSubgraph, now: Time)
    requires Valid(s)
    ensures Valid(RestartNodes(s, q, now))
  {
    if RestartAllowed(s, q) {
      var s' := RestartNodes(s, q, now);
      ResetKeepsRecords(s, q, now);
      RewriteKeepsIdem(s.executions, s'.executions, s.idempotent);
      RewriteKeepsNodes(s.executions, s'.executions, s.nodes);
      ReopenKeepsRuns(s.runs, s.runIdempotent, ReopenedRun(s.runs[q.runId], now));
    }
  }

  lemma InsertKeepsRuns(runs: map<Uuid, PipelineRun>, index: map<(string, IdemKey), Uuid>, r: PipelineRun)
    requires RunsExact(runs, index) && r.id !in runs && r.id != NIL
    requires r.idempotencyKey != NoKey ==> RunIdemOf(r) !in index
    ensures RunsExact(runs[r.id := r], if r.idempotencyKey == NoKey then index else index[RunIdemOf(r) := r.id])
  {
  }

  lemma NewRunKeepsValid(s: Store, q: CreateRun, newId: Uuid, now: Time)
    requires Valid(s) && newId != NIL && newId !in s.runs
    ensures Valid(CreateRunRecord(s, q, newId, now))
  {
    if q.idempotencyKey == NoKey || (q.pipelineName, q.idempotencyKey) !in s.runIdempotent {
      InsertKeepsRuns(s.runs, s.runIdempotent, NewPipelineRun(q, newId, now));
    }
  }

  lemma StatusKeepsValid(s: Store, id: Uuid, expected: nat, status: RunStatus, error: string, now: Time)
    requires Valid(s)
    ensures Valid(SetRunStatus(s, id, expected, status, error, now))
  {
    if StatusReply(s, id, expected).Ok? {
      ReopenKeepsRuns(s.runs, s.runIdempotent, StampedRun(s.runs[id], status, error, now));
    }
  }

  lemma DropKeepsIndexes(s: Store, dead: set<Uuid>)
    requires IdemExact(s.executions, s.idempotent) && NodesExact(s.executions, s.nodes)
    ensures IdemExact(DropExecutions(s, dead).executions, DropExecutions(s, dead).idempotent)
    ensures NodesExact(DropExecutions(s, dead).executions, DropExecutions(s, dead).nodes)
  {
  }

  lemma DropKeepsValid(s: Store, dead: set<Uuid>)
    requires Valid(s)
    ensures Valid(DropExecutions(s, dead))
  {
    DropKeepsIndexes(s, dead);
  }

  lemma DropRunKeepsValid(s: Store, run: Uuid)
    requires Valid(s)
    ensures Valid(DropPipelineRun(s, run))
  {
    DropKeepsValid(s, ExecutionsOf(s, run));
  }

  /** Both unique indexes stay exact inverses of the records, every record stays sound, and every
      log keeps describing its record, whatever the step. */
  lemma StepKeepsValid(s: Store, step: Step, now: Time)
    requires Valid(s) && Fresh(s, step)
    ensures Valid(Do(s, step, now))
  {
    match step
    case Create(request, newId) => CreateKeepsValid(s, request, newId, now);
    case Touch(id, op) => TouchKeepsValid(s, id, op, now);
    case Subgraph(q) => SubgraphKeepsValid(s, q, now);
    case NewRun(q, newId) => NewRunKeepsValid(s, q, newId, now);
    case SetStatus(id, expected, status, error) => StatusKeepsValid(s, id, expected, status, error, now);
    case DropExecution(id) => DropKeepsValid(s, {id});
    case DropRun(id) => DropRunKeepsValid(s, id);
  }

  /** The execution has the request's idempotency key. */
  predicate KeyedAs(e: Execution, q: CreateExecution) {
    q.idempotencyKey != NoKey && e.taskName == q.taskName && e.idempotencyKey == q.idempotencyKey
  }

  /** The execution is the node the request is for. */
  predicate NodeAs(e: Execution, q: CreateExecution) {
    q.runId.Some? && q.nodeKey != "" && e.runId == q.runId && e.nodeKey == q.nodeKey
  }

  /** Creation is idempotent: a request is answered with the execution that has its key, or else with the
      one for its node, and nothing changes; a new execution is made only if there is neither. */
  lemma CreateMeans(s: Store, q: CreateExecution, newId: Uuid, now: Time, id: Uuid)
    requires Valid(s) && q.taskName != "" && newId !in s.executions
    ensures
      var s', reply := CreateRecord(s, q, newId, now), CreateReply(s, q, newId, now);
      && (id in s.executions && KeyedAs(s.executions[id], q) ==> s' == s && reply == Ok(s.executions[id]))
      && (id in s.executions && NodeAs(s.executions[id], q) ==>
            s' == s && reply.Ok? && (reply == Ok(s.executions[id]) || KeyedAs(reply.value, q)))
      && (reply.Ok? && reply.value.id !in s.executions ==>
            MadeFor(reply.value, q, newId, now) && s'.executions == s.executions[newId := reply.value])
      && (reply.Ok? && reply.value.id in s.executions ==>
            s' == s && s.executions[reply.value.id] == reply.value && (KeyedAs(reply.value, q) || NodeAs(reply.value, q)))
  {
    match Existing(s, q)
    case Some(x) =>
      assert x in s.executions && s.executions[x].id == x && (KeyedAs(s.executions[x], q) || NodeAs(s.executions[x], q));
    case None =>
      assert id in s.executions ==> !KeyedAs(s.executions[id], q) && !NodeAs(s.executions[id], q);
  }

  /** Creating a run is idempotent by pipeline and key. */
  lemma CreateRunMeans(s: Store, q: CreateRun, newId: Uuid, now: Time, r: Uuid)
    requires Valid(s) && newId !in s.runs
    ensures
      var s' := CreateRunRecord(s, q, newId, now);
      && (r in s.runs && q.idempotencyKey != NoKey && RunIdemOf(s.runs[r]) == (q.pipelineName, q.idempotencyKey) ==> s' == s)
      && (s' != s ==> s'.runs == s.runs[newId := PipelineRun(newId, q.pipelineName, q.pipelineVersion, q.input, RunPending, "",
                                                            q.idempotencyKey, 0, now, now, None)])
      && (s' == s ==> q.idempotencyKey != NoKey && exists x :: x in s.runs && RunIdemOf(s.runs[x]) == (q.pipelineName, q.idempotencyKey))
  {
    var key := (q.pipelineName, q.idempotencyKey);
    if q.idempotencyKey != NoKey && key in s.runIdempotent {
      assert s.runIdempotent[key] in s.runs && RunIdemOf(s.runs[s.runIdempotent[key]]) == key;
    } else {
      assert newId in CreateRunRecord(s, q, newId, now).runs;
    }
  }

  /** At most one execution exists per task and idempotency key, per node of a run, and at most one
      run per pipeline and idempotency key. */
  lemma UniqueKeys(s: Store, a: Uuid, b: Uuid)
    requires Valid(s)
    ensures a in s.executions && b in s.executions ==>
              && (s.executions[a].idempotencyKey != NoKey && IdemOf(s.executions[a]) == IdemOf(s.executions[b]) ==> a == b)
              && (Indexed(s.executions[a]) && Indexed(s.executions[b]) ==>
                    (NodeOf(s.executions[a]) == NodeOf(s.executions[b]) ==> a == b))
    ensures a in s.runs && b in s.runs ==>
              (s.runs[a].idempotencyKey != NoKey && RunIdemOf(s.runs[a]) == RunIdemOf(s.runs[b]) ==> a == b)
  {
  }
}
