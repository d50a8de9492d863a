/** What a worker does with a delivery once its handler has answered. */
module Worker {
  import opened Model
  import opened Records
  import opened Storage
  import M = Memory

  /** How a handler ends: with an output, with an error that must not be retried, or with one that may
      be, after a delay of the handler's own or the policy's. */
  datatype Answer =
    | Output(output: Json)
    | Permanent(error: string)
    | RetryAfter(error: string, delay: int)
    | Ordinary(error: string)

  type Policy = int -> int

  /** The store operation an answer leads to. */
  function Decision(item: Execution, answer: Answer, registered: bool, policy: Policy): RecordOp {
    match answer
    case Output(output) => RecordOp.Succeed(item.leaseToken, output)
    case Permanent(error) => RecordOp.Fail(item.leaseToken, error)
    case RetryAfter(error, delay) =>
      if registered then RetryLater(item.leaseToken, error, delay) else RecordOp.Fail(item.leaseToken, error)
    case Ordinary(error) =>
      if registered then RetryLater(item.leaseToken, error, policy(item.attempt)) else RecordOp.Fail(item.leaseToken, error)
  }

  /** Resolves a delivery and says which run to advance, if any. */
  method Resolve(store: M.MemoryStore, item: Execution, answer: Answer, registered: bool, policy: Policy, now: Time)
    returns (advance: Option<Uuid>)
    requires store.Keyed()
    modifies store
    ensures store.Keyed() && store.View() == TouchRecord(old(store.View()), item.id, Decision(item, answer, registered, policy), now)
    ensures advance == ToAdvance(old(store.View()), item, Decision(item, answer, registered, policy), now)
  {
    advance := None;
    if answer.Output? {
      var done := store.Succeed(item.id, item.leaseToken, answer.output, now);
      if done.Ok? {
        advance := item.runId;
      }
      return;
    }
    if !registered || answer.Permanent? {
      var done := store.Fail(item.id, item.leaseToken, answer.error, now);
      if done.Ok? {
        advance := item.runId;
      }
      return;
    }
    var delay := if answer.RetryAfter? then answer.delay else policy(item.attempt);
    advance := ResolveRetry(store, item, answer.error, delay, now);
  }

  /** A retry that found the budget exhausted has ended the execution. */
  method ResolveRetry(store: M.MemoryStore, item: Execution, error: string, delay: int, now: Time) returns (advance: Option<Uuid>)
    requires store.Keyed()
    modifies store
    ensures store.Keyed() && store.View() == TouchRecord(old(store.View()), item.id, RetryLater(item.leaseToken, error, delay), now)
    ensures advance == ToAdvance(old(store.View()), item, RetryLater(item.leaseToken, error, delay), now)
  {
    advance := None;
    var retried := store.Retry(item.id, item.leaseToken, error, delay, now);
    if retried.Ok? {
      var updated := store.GetExecution(item.id);
      if updated.Ok? && updated.value.status == Failed {
        advance := updated.value.runId;
      }
    }
  }

  /** A run is advanced after a write that was accepted and ended the execution. */
  function ToAdvance(s: Store, item: Execution, op: RecordOp, now: Time): Option<Uuid> {
    match TouchReply(s, item.id, op, now)
    case Err(_) => None
    case Ok(e) => if !e.status.Terminal() then None else if op.RetryLater? then e.runId else item.runId
  }

  /** What an answer makes of the record. */
  predicate Answered(item: Execution, e: Execution, answer: Answer, registered: bool, policy: Policy, now: Time) {
    && e.leaseToken == NIL && SameIdentity(item, e) && e.attempt == item.attempt
    && (answer.Output? ==> e.status.Succeeded? && e.output == answer.output)
    && (!answer.Output? ==> e.lastError == answer.error && e.output == item.output)
    && (e.status.Retry? <==> registered && (answer.RetryAfter? || answer.Ordinary?) && item.attempt < item.maxAttempts)
    && (e.status.Retry? ==> e.availableAt == now + (if answer.RetryAfter? then answer.delay else policy(item.attempt)))
    && (!answer.Output? && !e.status.Retry? ==> e.status.Failed?)
  }

  lemma AnswerOnRecord(item: Execution, answer: Answer, registered: bool, policy: Policy, now: Time)
    requires Owned(item, item.leaseToken)
    ensures
      var reply := Apply(item, Decision(item, answer, registered, policy), now);
      reply.Done? && Answered(item, reply.record, answer, registered, policy, now)
  {
  }

  /** While the worker still holds the lease its answer decides: success keeps the output; an error
      that may be retried leads to another attempt after the delay if the budget allows one; anything
      else fails the execution. The lease is given up in every case, no other record changes, and the
      run is advanced exactly when the execution has ended. */
  lemma AnswerDecides(s: Store, item: Execution, answer: Answer, registered: bool, policy: Policy, now: Time)
    requires item.id in s.executions && s.executions[item.id] == item && Owned(item, item.leaseToken)
    ensures
      var op := Decision(item, answer, registered, policy);
      var s' := TouchRecord(s, item.id, op, now);
      && s'.executions.Keys == s.executions.Keys
      && (forall id :: id in s.executions && id != item.id ==> s'.executions[id] == s.executions[id])
      && Answered(item, s'.executions[item.id], answer, registered, policy, now)
      && ToAdvance(s, item, op, now) == (if s'.executions[item.id].status.Terminal() then item.runId else None)
  {
    AnswerOnRecord(item, answer, registered, policy, now);
  }

  /** An answer that comes after the lease was lost changes nothing and advances nothing. */
  lemma LateAnswerIgnored(s: Store, item: Execution, answer: Answer, registered: bool, policy: Policy, now: Time)
    requires item.id in s.executions ==> !Owned(s.executions[item.id], item.leaseToken)
    ensures TouchRecord(s, item.id, Decision(item, answer, registered, policy), now) == s
    ensures ToAdvance(s, item, Decision(item, answer, registered, policy), now) == None
  {
  }
}
