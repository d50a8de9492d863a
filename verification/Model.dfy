/** The records of a durable task queue: executions, pipeline runs and events. */
module Model {

  datatype Option<+T> = None | Some(value: T)

  /** A UUID; only its identity and its (textual) order matter. NIL is the all-zero UUID. */
  type Uuid = nat
  const NIL: Uuid := 0

  /** An instant, in nanoseconds since the Unix epoch; ZERO_TIME is the zero value of a Go time. */
  type Time = int
  const ZERO_TIME: Time := -62_135_596_800_000_000_000

  /** An encoded value; the empty string stands for an absent one. */
  type Json = string

  datatype Status = Pending | Blocked | Running | Retry | Succeeded | Failed | Cancelled {
    predicate Active() { Pending? || Retry? || Running? }
    predicate Terminal() { Succeeded? || Failed? || Cancelled? }
  }

  datatype RunStatus = RunPending | RunRunning | RunSucceeded | RunFailed | RunCancelled {
    predicate Terminal() { RunSucceeded? || RunFailed? || RunCancelled? }
  }

  datatype Error =
    | ErrNotFound
    | ErrLeaseLost
    | ErrActive
    | ErrPipelineExecution
    | ErrConflict
    | ErrEmptyName
    | ErrNotClaimable
    | ErrNotRegistered
    | ErrMapper

  datatype Result<+T> = Ok(value: T) | Err(error: Error)

  /** The texts used as idempotency keys, with the shapes the program itself generates kept apart:
      a pipeline node's key is built from its run and node key, a cron tick's from its schedule and
      instant. */
  datatype IdemKey =
    | NoKey
    | UserKey(text: string)
    | NodeRef(run: Uuid, node: string)
    | TickRef(schedule: string, at: Time)

  datatype TaskKey = TaskKey(name: string, version: int)

  datatype Execution = Execution(
    id: Uuid,
    taskName: string,
    taskVersion: int,
    input: Json,
    output: Json,
    status: Status,
    attempt: int,
    maxAttempts: int,
    availableAt: Time,
    leaseOwner: string,
    leaseToken: Uuid,
    leaseUntil: Time,
    lastError: string,
    idempotencyKey: IdemKey,
    runId: Option<Uuid>,
    nodeKey: string,
    createdAt: Time,
    startedAt: Option<Time>,
    finishedAt: Option<Time>)

  type Table = map<Uuid, Execution>

  datatype CreateExecution = CreateExecution(
    taskName: string,
    taskVersion: int,
    input: Json,
    maxAttempts: int,
    availableAt: Time,
    idempotencyKey: IdemKey,
    runId: Option<Uuid>,
    nodeKey: string)

  datatype PipelineRun = PipelineRun(
    id: Uuid,
    pipelineName: string,
    pipelineVersion: int,
    input: Json,
    status: RunStatus,
    error: string,
    idempotencyKey: IdemKey,
    revision: nat,
    createdAt: Time,
    updatedAt: Time,
    finishedAt: Option<Time>)

  datatype CreateRun = CreateRun(
    pipelineName: string,
    pipelineVersion: int,
    input: Json,
    idempotencyKey: IdemKey)

  datatype RestartSubgraph = RestartSubgraph(
    runId: Uuid,
    root: string,
    descendants: seq<string>,
    availableAt: Time)

  datatype EventType =
    | EventCreated
    | EventStarted
    | EventRetried
    | EventSucceeded
    | EventFailed
    | EventCancelled
    | EventRestarted

  datatype Event = Event(kind: EventType, attempt: int, error: string, at: Time)

  /** A zero instant in a request means "now". */
  function OrNow(at: Time, now: Time): Time {
    if at == ZERO_TIME then now else at
  }
}
