/** What each store operation does to a single execution record. */
module Records {
  import opened Model

  /** An operation on one existing execution. `Start` is one delivery of a claim. */
  datatype RecordOp =
    | Start(owner: string, token: Uuid, lease: int)
    | Beat(token: Uuid, lease: int)
    | Succeed(token: Uuid, output: Json)
    | RetryLater(token: Uuid, error: string, delay: int)
    | Fail(token: Uuid, error: string)
    | Cancel(reason: string)
    | Reap
    | Restart(at: Time)
    | Release(input: Json, at: Time)

  datatype Reply =
    | Done(record: Execution, event: Option<Event>)
    | Refused(error: Error)

  const REAPED := "lease expired after maximum attempts"

  predicate Claimable(e: Execution, now: Time) {
    && e.availableAt <= now
    && (e.status.Pending? || e.status.Retry? || (e.status.Running? && e.leaseUntil <= now))
    && e.attempt < e.maxAttempts
  }

  predicate Reapable(e: Execution, now: Time) {
    e.status.Running? && e.leaseUntil <= now && e.maxAttempts <= e.attempt
  }

  predicate Owned(e: Execution, token: Uuid) {
    e.status.Running? && token != NIL && e.leaseToken == token
  }

  function ClearLease(e: Execution): Execution {
    e.(leaseToken := NIL, leaseOwner := "", leaseUntil := ZERO_TIME)
  }

  function Started(e: Execution, owner: string, token: Uuid, now: Time, lease: int): Execution {
    e.(status := Running, attempt := e.attempt + 1,
       leaseOwner := owner, leaseToken := token, leaseUntil := now + lease,
       startedAt := if e.startedAt.None? then Some(now) else e.startedAt)
  }

  /** A record that reaches a terminal status: its lease is gone and its finish time set. */
  function Finished(e: Execution, status: Status, error: string, now: Time): Execution {
    ClearLease(e.(status := status, lastError := error, finishedAt := Some(now)))
  }

  /** Restarting keeps the identity and the input and forgets every result. */
  function Reset(e: Execution, status: Status, at: Time): Execution {
    ClearLease(e.(status := status, attempt := 0, availableAt := at, output := "", lastError := "",
                  startedAt := None, finishedAt := None))
  }

  function Logged(e: Execution, kind: EventType, error: string, now: Time): Reply {
    Done(e, Some(Event(kind, e.attempt, error, now)))
  }

  function Apply(e: Execution, op: RecordOp, now: Time): Reply {
    match op
    case Start(owner, token, lease) =>
      if !Claimable(e, now) then Refused(ErrNotClaimable)
      else Logged(Started(e, owner, token, now, lease), EventStarted, "", now)
    case Beat(token, lease) =>
      if !Owned(e, token) then Refused(ErrLeaseLost)
      else Done(e.(leaseUntil := now + lease), None)
    case Succeed(token, output) =>
      if !Owned(e, token) then Refused(ErrLeaseLost)
      else Logged(Finished(e, Succeeded, e.lastError, now).(output := output), EventSucceeded, "", now)
    case RetryLater(token, error, delay) =>
      if !Owned(e, token) then Refused(ErrLeaseLost)
      else if e.maxAttempts <= e.attempt then
        Logged(Finished(e, Failed, error, now), EventFailed, error, now)
      else
        Logged(ClearLease(e.(status := Retry, lastError := error, availableAt := now + delay)), EventRetried, error, now)
    case Fail(token, error) =>
      if !Owned(e, token) then Refused(ErrLeaseLost)
      else Logged(Finished(e, Failed, error, now), EventFailed, error, now)
    case Cancel(reason) =>
      if e.status.Terminal() then Refused(ErrNotFound)
      else Logged(Finished(e, Cancelled, reason, now), EventCancelled, reason, now)
    case Reap =>
      if !Reapable(e, now) then Refused(ErrNotClaimable)
      else Logged(Finished(e, Failed, REAPED, now), EventFailed, REAPED, now)
    case Restart(at) =>
      if e.runId.Some? then Refused(ErrPipelineExecution)
      else if e.status.Active() then Refused(ErrActive)
      else Logged(Reset(e, Pending, OrNow(at, now)), EventRestarted, "", now)
    case Release(input, at) =>
      if !e.status.Blocked? then Refused(ErrActive)
      else Done(e.(status := Pending, input := input, availableAt := OrNow(at, now)), None)
  }

  /** The fields no operation on an existing record changes. */
  predicate SameIdentity(e: Execution, e': Execution) {
    && e'.id == e.id
    && e'.taskName == e.taskName && e'.taskVersion == e.taskVersion
    && e'.maxAttempts == e.maxAttempts
    && e'.idempotencyKey == e.idempotencyKey
    && e'.runId == e.runId && e'.nodeKey == e.nodeKey
    && e'.createdAt == e.createdAt
  }

  lemma ApplyKeepsIdentity(e: Execution, op: RecordOp, now: Time)
    requires Apply(e, op, now).Done?
    ensures SameIdentity(e, Apply(e, op, now).record)
  {
  }
}
