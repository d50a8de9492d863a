/** The life of one execution through any history: how long a lease protects a delivery, and how
    long an execution waits. */
module Lifetimes {
  import opened Model
  import opened Records
  import opened Storage
  import opened Histories

  // ---------------------------------------------------------------------------------------------
  // One record through one step

  ghost predicate Kept(s: Store, s': Store, id: Uuid) {
    && id in s.executions && id in s'.executions && s'.executions[id] == s.executions[id]
    && LogOf(s', id) == LogOf(s, id)
  }

  ghost predicate Applied(s: Store, step: Step, now: Time, s': Store, id: Uuid) {
    && step.Touch? && step.id == id && id in s.executions && id in s'.executions
    && var reply := Apply(s.executions[id], step.op, now);
       && reply.Done? && s'.executions[id] == reply.record
       && LogOf(s', id) == if reply.event.None? then LogOf(s, id) else LogOf(s, id) + [reply.event.value]
  }

  ghost predicate WasReset(s: Store, step: Step, now: Time, s': Store, id: Uuid) {
    && step.Subgraph? && id in s.executions && id in s'.executions && ResetTo(s.executions[id], step.restart).Some?
    && RestartAllowed(s, step.restart)
    && s'.executions[id] == ResetRecord(s.executions[id], step.restart, now)
    && LogOf(s', id) == LogOf(s, id) + [Event(EventRestarted, 0, "", now)]
  }

  ghost predicate WasCreated(s: Store, step: Step, now: Time, s': Store, id: Uuid) {
    && step.Create? && step.newId == id && id in s'.executions && step.request.taskName != "" && Existing(s, step.request).None?
    && s'.executions[id] == NewExecution(step.request, id, now) && LogOf(s', id) == [Event(EventCreated, 0, "", now)]
  }

  lemma TouchedRecord(s: Store, step: Step, now: Time, id: Uuid)
    requires Valid(s) && step.Touch? && id in s.executions
    ensures Kept(s, Do(s, step, now), id) || Applied(s, step, now, Do(s, step, now), id)
  {
    if step.id in s.executions && Apply(s.executions[step.id], step.op, now).Done? {
      ApplyKeepsIdentity(s.executions[step.id], step.op, now);
    }
  }

  lemma ResetRecords(s: Store, step: Step, now: Time, id: Uuid)
    requires Valid(s) && step.Subgraph? && id in s.executions
    ensures Kept(s, Do(s, step, now), id) || WasReset(s, step, now, Do(s, step, now), id)
  {
  }

  lemma CreatedRecord(s: Store, step: Step, now: Time, id: Uuid)
    requires Valid(s) && step.Create? && id in Do(s, step, now).executions
    ensures Kept(s, Do(s, step, now), id) || WasCreated(s, step, now, Do(s, step, now), id)
  {
  }

  lemma SurvivingRecord(s: Store, step: Step, now: Time, id: Uuid)
    requires Valid(s) && !step.Touch? && !step.Subgraph? && !step.Create? && id in Do(s, step, now).executions
    ensures Kept(s, Do(s, step, now), id)
  {
  }

  /** A step leaves a record and its log alone, applies an operation to it, resets it or creates it. */
  lemma RecordAfter(s: Store, step: Step, now: Time, id: Uuid)
    requires Valid(s) && id in Do(s, step, now).executions
    ensures
      var s' := Do(s, step, now);
      || Kept(s, s', id) || Applied(s, step, now, s', id) || WasReset(s, step, now, s', id) || WasCreated(s, step, now, s', id)
  {
    match step
    case Touch(x, op) =>
      TouchKeepsKeys(s, x, op, now);
      TouchedRecord(s, step, now, id);
    case Subgraph(_) => ResetRecords(s, step, now, id);
    case Create(_, _) => CreatedRecord(s, step, now, id);
    case _ => SurvivingRecord(s, step, now, id);
  }

  // ---------------------------------------------------------------------------------------------
  // Leases

  /** The steps that may end a delivery before its deadline: the report of its holder, a cancellation,
      and the removal of the record. */
  predicate EndsDelivery(s: Store, step: Step, id: Uuid, token: Uuid) {
    match step
    case Touch(x, op) =>
      x == id && (op.Cancel? || ((op.Succeed? || op.RetryLater? || op.Fail?) && Presented(op) == Some(token)))
    case DropExecution(x) => x == id
    case DropRun(r) => id in s.executions && s.executions[id].runId == Some(r)
    case _ => false
  }

  /** The holder asks for a deadline before this time. */
  predicate Shortens(step: Step, now: Time, id: Uuid, token: Uuid, until: Time) {
    step.Touch? && step.id == id && step.op.Beat? && step.op.token == token && now + step.op.lease < until
  }

  /** The record is delivered under this token until this time at least. */
  predicate LeasedUntil(s: Store, id: Uuid, token: Uuid, until: Time) {
    && id in s.executions && s.executions[id].status.Running?
    && s.executions[id].leaseToken == token && until <= s.executions[id].leaseUntil
  }

  lemma StaysStored(s: Store, step: Step, now: Time, id: Uuid, token: Uuid)
    requires Valid(s) && id in s.executions && !EndsDelivery(s, step, id, token)
    ensures id in Do(s, step, now).executions
  {
    if step.Touch? {
      TouchKeepsKeys(s, step.id, step.op, now);
    }
  }

  lemma LeasedApplied(e: Execution, op: RecordOp, now: Time, token: Uuid)
    requires Sound(e) && e.status.Running? && e.leaseToken == token && now < e.leaseUntil && Apply(e, op, now).Done?
    requires !op.Cancel? && ((op.Succeed? || op.RetryLater? || op.Fail?) ==> Presented(op) != Some(token))
    ensures op.Beat? && op.token == token
  {
  }

  /** Before its deadline a lease goes only to its holder's report, a cancellation or a removal, and
      only its holder's heartbeat brings the deadline forward. */
  lemma LeaseThroughStep(w: World, step: Step, w': World, id: Uuid, token: Uuid, until: Time)
    requires Inv(w) && Next(w, step, w') && LeasedUntil(w.store, id, token, until) && w'.clock < until
    requires !EndsDelivery(w.store, step, id, token) && !Shortens(step, w'.clock, id, token, until)
    ensures LeasedUntil(w'.store, id, token, until)
  {
    StaysStored(w.store, step, w'.clock, id, token);
    RecordAfter(w.store, step, w'.clock, id);
    if Applied(w.store, step, w'.clock, w'.store, id) {
      LeasedApplied(w.store.executions[id], step.op, w'.clock, token);
    }
  }

  ghost predicate Undisturbed(ws: seq<World>, steps: seq<Step>, i: nat, j: nat, id: Uuid, token: Uuid, until: Time)
    requires j < |ws| == |steps| + 1
  {
    forall k :: i <= k < j ==>
      !EndsDelivery(ws[k].store, steps[k], id, token) && !Shortens(steps[k], ws[k + 1].clock, id, token, until)
  }

  lemma {:induction false} ClockGrows(ws: seq<World>, steps: seq<Step>, i: nat, j: nat)
    requires IsHistory(ws, steps) && i <= j < |ws|
    ensures ws[i].clock <= ws[j].clock
  {
    if i < j {
      ClockGrows(ws, steps, i, j - 1);
      assert Next(ws[j - 1], steps[j - 1], ws[j]);
    }
  }

  lemma {:induction false} LeaseLasts(ws: seq<World>, steps: seq<Step>, i: nat, j: nat, id: Uuid, token: Uuid, until: Time)
    requires IsHistory(ws, steps) && i <= j < |ws| && Undisturbed(ws, steps, i, j, id, token, until)
    requires LeasedUntil(ws[i].store, id, token, until) && ws[j].clock < until
    ensures LeasedUntil(ws[j].store, id, token, until)
  {
    if i < j {
      ClockGrows(ws, steps, j - 1, j);
      LeaseLasts(ws, steps, i, j - 1, id, token, until);
      LeaseLastsStep(ws, steps, j - 1, id, token, until);
    }
  }

  lemma LeaseLastsStep(ws: seq<World>, steps: seq<Step>, i: nat, id: Uuid, token: Uuid, until: Time)
    requires IsHistory(ws, steps) && i < |steps| && LeasedUntil(ws[i].store, id, token, until) && ws[i + 1].clock < until
    requires !EndsDelivery(ws[i].store, steps[i], id, token) && !Shortens(steps[i], ws[i + 1].clock, id, token, until)
    ensures LeasedUntil(ws[i + 1].store, id, token, until)
  {
    HistoryKeepsInv(ws, steps, i);
    LeaseThroughStep(ws[i], steps[i], ws[i + 1], id, token, until);
  }

  /** A claim delivers under its own token, and an accepted heartbeat keeps the token: both until the
      time of the call plus the lease. */
  lemma Granted(w: World, step: Step, w': World, id: Uuid, token: Uuid, lease: int)
    requires Inv(w) && Next(w, step, w') && step.Touch? && step.id == id && token != NIL
    requires (step.op == Beat(token, lease) && Holds(w, id, token)) || (step.op.Start? && step.op.token == token && step.op.lease == lease)
    requires Holds(w', id, token)
    ensures LeasedUntil(w'.store, id, token, w'.clock + lease) && w'.store.executions[id].leaseUntil == w'.clock + lease
  {
    RecordAfter(w.store, step, w'.clock, id);
  }

  /** A heartbeat is accepted from the holder of the lease. */
  lemma HolderBeats(w: World, w': World, id: Uuid, token: Uuid, lease: int)
    requires Inv(w) && Next(w, Touch(id, Beat(token, lease)), w') && token != NIL && Holds(w, id, token)
    ensures Holds(w', id, token)
  {
  }

  /** What a lease is worth, over whole runs: after a claim or an accepted heartbeat, up to the time of
      that call plus its lease, whatever else happens the execution stays delivered under the same token.
      No claim gives it another, no reaper fails it and no restart resets it, unless its holder reports or
      asks for an earlier deadline, somebody cancels it or it is removed. */
  lemma LeaseProtects(ws: seq<World>, steps: seq<Step>, i: nat, j: nat, id: Uuid, token: Uuid, lease: int)
    requires IsHistory(ws, steps) && i < |steps| && i < j < |ws| && token != NIL
    requires steps[i].Touch? && steps[i].id == id
    requires
      || (steps[i].op == Beat(token, lease) && Holds(ws[i], id, token))
      || (steps[i].op.Start? && steps[i].op.token == token && steps[i].op.lease == lease && Holds(ws[i + 1], id, token))
    requires Undisturbed(ws, steps, i + 1, j, id, token, ws[i + 1].clock + lease)
    requires ws[j].clock < ws[i + 1].clock + lease
    ensures LeasedUntil(ws[j].store, id, token, ws[i + 1].clock + lease)
  {
    assert Next(ws[i], steps[i], ws[i + 1]);
    HistoryKeepsInv(ws, steps, i);
    if steps[i].op.Beat? {
      HolderBeats(ws[i], ws[i + 1], id, token, lease);
    }
    Granted(ws[i], steps[i], ws[i + 1], id, token, lease);
    LeaseLasts(ws, steps, i + 1, j, id, token, ws[i + 1].clock + lease);
  }

  // ---------------------------------------------------------------------------------------------
  // Waiting

  /** The time from which a step says an execution may be delivered, if it schedules it. */
  ghost function Asked(s: Store, step: Step, now: Time, id: Uuid): Option<Time> {
    match step
    case Create(q, newId) =>
      if newId == id && q.taskName != "" && Existing(s, q).None? then Some(OrNow(q.availableAt, now)) else None
    case Touch(x, op) => if x == id && id in s.executions then AskedOf(s.executions[id], op, now) else None
    case Subgraph(q) =>
      if RestartAllowed(s, q) && id in s.executions && ResetTo(s.executions[id], q).Some? then Some(OrNow(q.availableAt, now)) else None
    case _ => None
  }

  function AskedOf(e: Execution, op: RecordOp, now: Time): Option<Time> {
    match op
    case RetryLater(token, _, delay) => if Owned(e, token) && e.attempt < e.maxAttempts then Some(now + delay) else None
    case Restart(at) => if e.runId.None? && !e.status.Active() then Some(OrNow(at, now)) else None
    case Release(_, at) => if e.status.Blocked? then Some(OrNow(at, now)) else None
    case _ => None
  }

  lemma ScheduledByApply(e: Execution, op: RecordOp, now: Time)
    requires Apply(e, op, now).Done?
    ensures Apply(e, op, now).record.availableAt == if AskedOf(e, op, now).Some? then AskedOf(e, op, now).value else e.availableAt
  {
  }

  lemma RefusedAsksNothing(e: Execution, op: RecordOp, now: Time)
    requires Apply(e, op, now).Refused?
    ensures AskedOf(e, op, now).None?
  {
  }

  lemma AskedIsSet(s: Store, step: Step, now: Time, id: Uuid)
    requires Valid(s) && Fresh(s, step) && id in s.executions && Asked(s, step, now, id).Some?
    ensures id in Do(s, step, now).executions && Do(s, step, now).executions[id].availableAt == Asked(s, step, now, id).value
  {
    if step.Touch? {
      TouchKeepsKeys(s, step.id, step.op, now);
      TouchedRecord(s, step, now, id);
      if Apply(s.executions[id], step.op, now).Refused? {
        RefusedAsksNothing(s.executions[id], step.op, now);
      } else {
        ScheduledByApply(s.executions[id], step.op, now);
        ApplyKeepsIdentity(s.executions[id], step.op, now);
      }
    }
  }

  /** A step that leaves the record in the store sets its time as it asks, or leaves it. */
  lemma Scheduled(w: World, step: Step, w': World, id: Uuid)
    requires Inv(w) && Next(w, step, w') && id in w'.store.executions
    ensures
      var asked, e' := Asked(w.store, step, w'.clock, id), w'.store.executions[id];
      && (asked.Some? ==> e'.availableAt == asked.value)
      && (asked.None? ==> id in w.store.executions && e'.availableAt == w.store.executions[id].availableAt)
  {
    RecordAfter(w.store, step, w'.clock, id);
    if id in w.store.executions && Asked(w.store, step, w'.clock, id).Some? {
      AskedIsSet(w.store, step, w'.clock, id);
    } else if Applied(w.store, step, w'.clock, w'.store, id) {
      ScheduledByApply(w.store.executions[id], step.op, w'.clock);
    }
  }

  /** The execution stays in the store and no step schedules it anew. */
  ghost predicate LeftWaiting(ws: seq<World>, steps: seq<Step>, i: nat, j: nat, id: Uuid)
    requires j < |ws| == |steps| + 1
  {
    && (forall k :: i <= k <= j ==> id in ws[k].store.executions)
    && (forall k :: i <= k < j ==> Asked(ws[k].store, steps[k], ws[k + 1].clock, id).None?)
  }

  lemma {:induction false} TimeStands(ws: seq<World>, steps: seq<Step>, i: nat, j: nat, id: Uuid)
    requires IsHistory(ws, steps) && i <= j < |ws| && LeftWaiting(ws, steps, i, j, id)
    ensures ws[j].store.executions[id].availableAt == ws[i].store.executions[id].availableAt
  {
    if i < j {
      TimeStands(ws, steps, i, j - 1, id);
      TimeStandsStep(ws, steps, j - 1, id);
    }
  }

  lemma TimeStandsStep(ws: seq<World>, steps: seq<Step>, i: nat, id: Uuid)
    requires IsHistory(ws, steps) && i < |steps| && id in ws[i + 1].store.executions
    requires Asked(ws[i].store, steps[i], ws[i + 1].clock, id).None?
    ensures id in ws[i].store.executions && ws[i + 1].store.executions[id].availableAt == ws[i].store.executions[id].availableAt
  {
    HistoryKeepsInv(ws, steps, i);
    Scheduled(ws[i], steps[i], ws[i + 1], id);
  }

  /** Nothing is delivered early, over whole runs: once a creation, a retry, a restart or a release has
      set a time, the execution is not running before that time, and while it is pending or waiting for
      its retry it can be claimed at exactly the times from then on. */
  lemma NotDeliveredEarly(ws: seq<World>, steps: seq<Step>, i: nat, j: nat, id: Uuid, at: Time, now: Time)
    requires IsHistory(ws, steps) && i < |steps| && i < j < |ws| && ws[j].clock <= now
    requires Asked(ws[i].store, steps[i], ws[i + 1].clock, id) == Some(at) && LeftWaiting(ws, steps, i + 1, j, id)
    ensures
      var e := ws[j].store.executions[id];
      && (ws[j].clock < at ==> !e.status.Running?)
      && (e.status.Pending? || e.status.Retry? ==> (Claimable(e, now) <==> at <= now))
  {
    assert Next(ws[i], steps[i], ws[i + 1]);
    HistoryKeepsInv(ws, steps, i);
    Scheduled(ws[i], steps[i], ws[i + 1], id);
    TimeStands(ws, steps, i + 1, j, id);
    HistoryKeepsInv(ws, steps, j);
    assert Traced(ws[j].store.executions[id], ws[j].clock, ws[j].issued);
  }
  /** A request for an execution is kept to: before the time it names the execution is not delivered,
      and it can be claimed from that time on, or at once if it names none. */
  lemma CreatedWaits(ws: seq<World>, steps: seq<Step>, i: nat, j: nat, q: CreateExecution, id: Uuid, now: Time)
    requires IsHistory(ws, steps) && i < |steps| && i < j < |ws| && ws[j].clock <= now
    requires steps[i] == Create(q, id) && q.taskName != "" && Existing(ws[i].store, q).None? && LeftWaiting(ws, steps, i + 1, j, id)
    ensures
      var e := ws[j].store.executions[id];
      && (q.availableAt != ZERO_TIME && ws[j].clock < q.availableAt ==> !e.status.Running?)
      && (e.status.Pending? ==> (Claimable(e, now) <==> q.availableAt == ZERO_TIME || q.availableAt <= now))
  {
    NotDeliveredEarly(ws, steps, i, j, id, OrNow(q.availableAt, ws[i + 1].clock), now);
    ClockGrows(ws, steps, i + 1, j);
  }

  /** A retry waits out its delay. */
  lemma RetryWaits(ws: seq<World>, steps: seq<Step>, i: nat, j: nat, id: Uuid, token: Uuid, error: string, delay: int, now: Time)
    requires IsHistory(ws, steps) && i < |steps| && i < j < |ws| && ws[j].clock <= now
    requires steps[i] == Touch(id, RetryLater(token, error, delay)) && token != NIL && Holds(ws[i], id, token)
    requires ws[i].store.executions[id].attempt < ws[i].store.executions[id].maxAttempts && LeftWaiting(ws, steps, i + 1, j, id)
    ensures
      var e := ws[j].store.executions[id];
      && (ws[j].clock < ws[i + 1].clock + delay ==> !e.status.Running?)
      && (e.status.Retry? ==> (Claimable(e, now) <==> ws[i + 1].clock + delay <= now))
  {
    HistoryKeepsInv(ws, steps, i);
    NotDeliveredEarly(ws, steps, i, j, id, ws[i + 1].clock + delay, now);
  }
}
