/** The event log as the history of a record: the times and the error a record shows are those its
    log tells. */
module Chronicle {
  import opened Model
  import opened Records
  import opened EventLog
  import opened Storage
  import opened Histories
  import opened Lifetimes

  /** When the current generation was first delivered, when it ended, and its last error. */
  datatype Telling = Telling(startedAt: Option<Time>, finishedAt: Option<Time>, lastError: string)

  const NOTHING := Telling(None, None, "")

  function Tell(t: Telling, ev: Event): Telling {
    match ev.kind
    case EventCreated => NOTHING
    case EventStarted => if t.startedAt.None? then t.(startedAt := Some(ev.at)) else t
    case EventRetried => t.(lastError := ev.error)
    case EventSucceeded => t.(finishedAt := Some(ev.at))
    case EventFailed => t.(finishedAt := Some(ev.at), lastError := ev.error)
    case EventCancelled => t.(finishedAt := Some(ev.at), lastError := ev.error)
    case EventRestarted => NOTHING
  }

  function Told(log: seq<Event>): Telling {
    if log == [] then NOTHING else Tell(Told(log[..|log| - 1]), log[|log| - 1])
  }

  function Shown(e: Execution): Telling { Telling(e.startedAt, e.finishedAt, e.lastError) }

  /** Every event bears the attempt it belongs to. */
  ghost predicate Numbered(log: seq<Event>) {
    forall i :: 0 <= i < |log| ==> log[i].attempt == PhaseAttempt(Replay(log[..i + 1]))
  }

  /** Events are in the order of the clock. */
  ghost predicate Ordered(log: seq<Event>, clock: Time) {
    && (forall i, j :: 0 <= i < j < |log| ==> log[i].at <= log[j].at)
    && (forall i :: 0 <= i < |log| ==> log[i].at <= clock)
  }

  /** Only a succeeded record has an output, and only a delivered one an owner and a deadline. */
  predicate Tidy(e: Execution) {
    && (!e.status.Succeeded? ==> e.output == "")
    && (!e.status.Running? ==> e.leaseToken == NIL && e.leaseOwner == "" && e.leaseUntil == ZERO_TIME)
  }

  ghost predicate Tells(log: seq<Event>, e: Execution, clock: Time) {
    && log != [] && log[0].at == e.createdAt && Told(log) == Shown(e) && Numbered(log) && Ordered(log, clock)
    && Tidy(e)
  }

  lemma ToldAppend(log: seq<Event>, ev: Event)
    ensures Told(log + [ev]) == Tell(Told(log), ev)
  {
    assert (log + [ev])[..|log|] == log;
  }

  lemma NumberedAppend(log: seq<Event>, ev: Event)
    requires Numbered(log) && ev.attempt == PhaseAttempt(Replay(log + [ev]))
    ensures Numbered(log + [ev])
  {
    var more := log + [ev];
    forall i | 0 <= i < |more|
      ensures more[i].attempt == PhaseAttempt(Replay(more[..i + 1]))
    {
      assert i < |log| ==> more[..i + 1] == log[..i + 1];
      assert i == |log| ==> more[..i + 1] == more;
    }
  }

  lemma OrderedAppend(log: seq<Event>, clock: Time, ev: Event)
    requires Ordered(log, clock) && clock <= ev.at
    ensures Ordered(log + [ev], ev.at)
  {
  }

  /** One more event, logged now. */
  lemma TellsAppend(log: seq<Event>, e: Execution, clock: Time, ev: Event, e': Execution)
    requires Tells(log, e, clock) && clock <= ev.at && e'.createdAt == e.createdAt
    requires Tell(Shown(e), ev) == Shown(e') && ev.attempt == e'.attempt && Describes(log + [ev], e') && Tidy(e')
    ensures Tells(log + [ev], e', ev.at)
  {
    ToldAppend(log, ev);
    NumberedAppend(log, ev);
    OrderedAppend(log, clock, ev);
  }

  lemma ApplyShows(e: Execution, op: RecordOp, now: Time)
    requires Sound(e) && Tidy(e) && Apply(e, op, now).Done?
    ensures Tidy(Apply(e, op, now).record)
    ensures
      var reply := Apply(e, op, now);
      if reply.event.None? then Shown(reply.record) == Shown(e)
      else
        && Tell(Shown(e), reply.event.value) == Shown(reply.record)
        && reply.event.value.attempt == reply.record.attempt && reply.event.value.at == now
  {
  }

  lemma AppliedTells(log: seq<Event>, e: Execution, op: RecordOp, clock: Time, now: Time)
    requires Sound(e) && Describes(log, e) && Tells(log, e, clock) && clock <= now && Apply(e, op, now).Done?
    requires op.Start? ==> op.token != NIL
    ensures
      var reply := Apply(e, op, now);
      Tells(if reply.event.None? then log else log + [reply.event.value], reply.record, now)
  {
    var reply := Apply(e, op, now);
    ApplyKeepsRecord(e, log, op, now);
    ApplyShows(e, op, now);
    if reply.event.Some? {
      TellsAppend(log, e, clock, reply.event.value, reply.record);
    }
  }

  lemma ResetTells(log: seq<Event>, e: Execution, status: Status, at: Time, clock: Time, now: Time)
    requires Describes(log, e) && Tells(log, e, clock) && clock <= now && !e.status.Active() && status in {Pending, Blocked}
    ensures Tells(log + [Event(EventRestarted, 0, "", now)], Reset(e, status, at), now)
  {
    var ev := Event(EventRestarted, 0, "", now);
    ReplayAppend(log, ev);
    TellsAppend(log, e, clock, ev, Reset(e, status, at));
  }

  lemma NewTells(q: CreateExecution, id: Uuid, now: Time)
    ensures Tells([Event(EventCreated, 0, "", now)], NewExecution(q, id, now), now)
  {
    var log := [Event(EventCreated, 0, "", now)];
    assert log[..1] == log && log[..0] == [];
  }

  ghost predicate AllTell(w: World) {
    forall id :: id in w.store.executions ==> Tells(LogOf(w.store, id), w.store.executions[id], w.clock)
  }

  lemma LaterTells(log: seq<Event>, e: Execution, clock: Time, now: Time)
    requires Tells(log, e, clock) && clock <= now
    ensures Tells(log, e, now)
  {
  }

  lemma WasResetTells(s: Store, step: Step, clock: Time, now: Time, s': Store, id: Uuid)
    requires WasReset(s, step, now, s', id) && clock <= now
    requires Describes(LogOf(s, id), s.executions[id]) && Tells(LogOf(s, id), s.executions[id], clock)
    ensures Tells(LogOf(s', id), s'.executions[id], now)
  {
    var e, q := s.executions[id], step.restart;
    assert !RestartBusy(s, q) && !e.status.Active();
    ResetTells(LogOf(s, id), e, ResetTo(e, q).value, OrNow(q.availableAt, now), clock, now);
  }

  lemma WasAppliedTells(s: Store, step: Step, clock: Time, now: Time, s': Store, id: Uuid)
    requires Applied(s, step, now, s', id) && clock <= now && (step.op.Start? ==> step.op.token != NIL)
    requires Sound(s.executions[id]) && Describes(LogOf(s, id), s.executions[id]) && Tells(LogOf(s, id), s.executions[id], clock)
    ensures Tells(LogOf(s', id), s'.executions[id], now)
  {
    AppliedTells(LogOf(s, id), s.executions[id], step.op, clock, now);
  }

  lemma WasCreatedTells(s: Store, step: Step, now: Time, s': Store, id: Uuid)
    requires WasCreated(s, step, now, s', id)
    ensures Tells(LogOf(s', id), s'.executions[id], now)
  {
    NewTells(step.request, id, now);
  }

  lemma StepTells(w: World, step: Step, w': World, id: Uuid)
    requires Inv(w) && Next(w, step, w') && AllTell(w) && id in w'.store.executions
    ensures Tells(LogOf(w'.store, id), w'.store.executions[id], w'.clock)
  {
    var s, s' := w.store, w'.store;
    RecordAfter(s, step, w'.clock, id);
    if Kept(s, s', id) {
      LaterTells(LogOf(s, id), s.executions[id], w.clock, w'.clock);
    } else if Applied(s, step, w'.clock, s', id) {
      WasAppliedTells(s, step, w.clock, w'.clock, s', id);
    } else if WasReset(s, step, w'.clock, s', id) {
      WasResetTells(s, step, w.clock, w'.clock, s', id);
    } else {
      WasCreatedTells(s, step, w'.clock, s', id);
    }
  }

  lemma {:induction false} HistoryTells(ws: seq<World>, steps: seq<Step>, i: nat)
    requires IsHistory(ws, steps) && i < |ws|
    ensures AllTell(ws[i])
  {
    if i > 0 {
      HistoryTells(ws, steps, i - 1);
      HistoryKeepsInv(ws, steps, i - 1);
      assert Next(ws[i - 1], steps[i - 1], ws[i]);
      forall id | id in ws[i].store.executions
        ensures Tells(LogOf(ws[i].store, id), ws[i].store.executions[id], ws[i].clock)
      {
        StepTells(ws[i - 1], steps[i - 1], ws[i], id);
      }
    }
  }

  lemma EndTold(log: seq<Event>, e: Execution)
    requires log != [] && Describes(log, e) && Told(log) == Shown(e) && e.status.Terminal()
    ensures e.finishedAt == Some(log[|log| - 1].at)
    ensures !e.status.Succeeded? ==> e.lastError == log[|log| - 1].error
  {
  }

  /** In every reachable state a record shows what its log tells: it was created when its log begins,
      its start, finish and error are those of the events since its last opening, and a finished record
      finished when its last event was logged, with that event's error if it did not succeed. Every
      event bears the number of deliveries up to it, and the log is in the order of time. An output is
      shown by succeeded records only, and a lease by running ones. */
  lemma LogTellsRecord(ws: seq<World>, steps: seq<Step>, i: nat, id: Uuid, n: nat)
    requires IsHistory(ws, steps) && i < |ws| && id in ws[i].store.executions
    requires id in ws[i].store.events && n < |ws[i].store.events[id]|
    ensures
      var e, log := ws[i].store.executions[id], ws[i].store.events[id];
      && e.createdAt == log[0].at && Told(log) == Telling(e.startedAt, e.finishedAt, e.lastError)
      && (e.status.Terminal() ==> e.finishedAt == Some(log[|log| - 1].at))
      && (e.status.Failed? || e.status.Cancelled? ==> e.lastError == log[|log| - 1].error)
      && log[n].attempt == StartedSinceOpening(log[..n + 1])
      && log[n].at <= log[|log| - 1].at <= ws[i].clock
      && (!e.status.Succeeded? ==> e.output == "")
      && (!e.status.Running? ==> e.leaseToken == NIL && e.leaseOwner == "" && e.leaseUntil == ZERO_TIME)
  {
    HistoryKeepsInv(ws, steps, i);
    HistoryTells(ws, steps, i);
    var e, log := ws[i].store.executions[id], ws[i].store.events[id];
    assert Tells(log, e, ws[i].clock);
    PrefixReplay(log, n);
    AttemptCountsDeliveries(log[..n + 1]);
    if e.status.Terminal() {
      EndTold(log, e);
    }
  }
}
