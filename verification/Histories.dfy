/** Whole runs of the store: any sequence of steps by any number of workers, coordinators and
    operators, under a clock that never goes back and a generator that never repeats a UUID. */
module Histories {
  import opened Model
  import opened Records
  import opened EventLog
  import opened Storage

  /** `issued` holds every UUID generated so far: execution ids, run ids and lease tokens. */
  datatype World = World(store: Store, clock: Time, issued: set<Uuid>)

  function Generated(step: Step): set<Uuid> {
    match step
    case Create(_, newId) => {newId}
    case NewRun(_, newId) => {newId}
    case Touch(_, op) => if op.Start? then {op.token} else {}
    case _ => {}
  }

  ghost predicate Next(w: World, step: Step, w': World) {
    && w.clock <= w'.clock
    && NIL !in Generated(step) && Generated(step) !! w.issued
    && w'.issued == w.issued + Generated(step)
    && w'.store == Do(w.store, step, w'.clock)
  }

  /** A lease token in use has been issued, and its delivery was due when it started. */
  predicate Traced(e: Execution, clock: Time, issued: set<Uuid>) {
    && e.id in issued
    && (e.leaseToken != NIL ==> e.leaseToken in issued && e.availableAt <= clock)
  }

  ghost predicate Known(w: World) {
    && (forall id :: id in w.store.runs ==> id in w.issued)
    && (forall id :: id in w.store.executions ==> Traced(w.store.executions[id], w.clock, w.issued))
  }

  ghost predicate Inv(w: World) {
    Valid(w.store) && Known(w)
  }

  ghost predicate IsHistory(ws: seq<World>, steps: seq<Step>) {
    && |ws| == |steps| + 1
    && ws[0].store == EMPTY
    && (forall i :: 0 <= i < |steps| ==> Next(ws[i], steps[i], ws[i + 1]))
  }

  /** How an operation can leave a record running: by keeping its lease, or by a claim, which
      needs the record due and any earlier lease expired. */
  lemma RunningAfter(e: Execution, op: RecordOp, now: Time)
    requires Sound(e)
    requires Apply(e, op, now).Done? && Apply(e, op, now).record.leaseToken != NIL
    ensures
      var e' := Apply(e, op, now).record;
      || (!op.Start? && e'.leaseToken == e.leaseToken && e.status.Running? && e'.availableAt == e.availableAt)
      || (op.Start? && e'.leaseToken == op.token && e'.availableAt <= now
          && (e.leaseToken != NIL ==> e.leaseUntil <= now))
  {
  }

  lemma TouchKeepsKnown(w: World, id: Uuid, op: RecordOp, w': World)
    requires Known(w) && RecordsSound(w.store.executions, w.store.events)
    requires w.clock <= w'.clock && w.issued <= w'.issued
    requires op.Start? ==> op.token in w'.issued
    requires w'.store == TouchRecord(w.store, id, op, w'.clock)
    ensures Known(w')
  {
    if id in w.store.executions && Apply(w.store.executions[id], op, w'.clock).Done? {
      var e' := Apply(w.store.executions[id], op, w'.clock).record;
      if e'.leaseToken != NIL {
        RunningAfter(w.store.executions[id], op, w'.clock);
      }
      ApplyKeepsIdentity(w.store.executions[id], op, w'.clock);
      assert w'.store.executions == w.store.executions[id := e'];
      assert Traced(e', w'.clock, w'.issued);
    }
  }

  lemma SubgraphKeepsKnown(w: World, q: RestartSubgraph, w': World)
    requires Known(w) && w.clock <= w'.clock && w.issued <= w'.issued
    requires w'.store == RestartNodes(w.store, q, w'.clock)
    ensures Known(w')
  {
  }

  lemma StepKeepsInv(w: World, step: Step, w': World)
    requires Inv(w) && Next(w, step, w')
    ensures Inv(w')
  {
    StepKeepsValid(w.store, step, w'.clock);
    match step
    case Touch(id, op) => TouchKeepsKnown(w, id, op, w');
    case Subgraph(q) => SubgraphKeepsKnown(w, q, w');
    case _ =>
  }

  /** In every state the store can reach, both unique indexes are exact inverses of the records,
      every record is sound and is the one its event log describes. */
  lemma {:induction false} HistoryKeepsInv(ws: seq<World>, steps: seq<Step>, i: nat)
    requires IsHistory(ws, steps) && i < |ws|
    ensures Inv(ws[i])
  {
    if i > 0 {
      HistoryKeepsInv(ws, steps, i - 1);
      StepKeepsInv(ws[i - 1], steps[i - 1], ws[i]);
    }
  }

  // ---------------------------------------------------------------------------------------------
  // Lease fencing

  ghost predicate Holds(w: World, id: Uuid, token: Uuid) {
    id in w.store.executions && w.store.executions[id].leaseToken == token
  }

  /** The token an operation presents, if it is one that a lease guards. */
  function Presented(op: RecordOp): Option<Uuid> {
    match op
    case Beat(token, _) => Some(token)
    case Succeed(token, _) => Some(token)
    case RetryLater(token, _, _) => Some(token)
    case Fail(token, _) => Some(token)
    case _ => None
  }

  lemma TouchReplacesToken(s: Store, id': Uuid, op: RecordOp, now: Time, id: Uuid)
    requires Valid(s) && id in s.executions
    requires TouchRecord(s, id', op, now).executions[id].leaseToken !in {NIL, s.executions[id].leaseToken}
    ensures id' == id && op.Start? && op.token == TouchRecord(s, id', op, now).executions[id].leaseToken
    ensures s.executions[id].leaseToken != NIL ==> s.executions[id].leaseUntil <= now
  {
    if id' in s.executions && Apply(s.executions[id'], op, now).Done? {
      assert Apply(s.executions[id'], op, now).record.id == id';
      if id' == id {
        RunningAfter(s.executions[id], op, now);
      }
    }
  }

  lemma SubgraphReplacesNoToken(s: Store, q: RestartSubgraph, now: Time, id: Uuid)
    requires id in s.executions
    ensures RestartNodes(s, q, now).executions[id].leaseToken in {NIL, s.executions[id].leaseToken}
  {
  }

  /** A step gives a record a new token only by a claim, at a time not before the deadline of the
      token it replaces. */
  lemma TokenReplacedOnlyAfterDeadline(w: World, step: Step, w': World, id: Uuid)
    requires Inv(w) && Next(w, step, w')
    requires id in w.store.executions && id in w'.store.executions
    requires w'.store.executions[id].leaseToken !in {NIL, w.store.executions[id].leaseToken}
    ensures step.Touch? && step.id == id && step.op.Start? && step.op.token == w'.store.executions[id].leaseToken
    ensures w.store.executions[id].leaseToken != NIL ==> w.store.executions[id].leaseUntil <= w'.clock
  {
    match step
    case Touch(id', op) => TouchReplacesToken(w.store, id', op, w'.clock, id);
    case Subgraph(q) => SubgraphReplacesNoToken(w.store, q, w'.clock, id);
    case _ =>
  }

  lemma AbsentGainsNoToken(w: World, step: Step, w': World, id: Uuid)
    requires Inv(w) && Next(w, step, w') && id !in w.store.executions && id in w'.store.executions
    ensures w'.store.executions[id].leaseToken == NIL
  {
    if step.Touch? {
      TouchKeepsKeys(w.store, step.id, step.op, w'.clock);
    }
  }

  lemma TouchKeepsKeys(s: Store, id: Uuid, op: RecordOp, now: Time)
    requires RecordsSound(s.executions, s.events)
    ensures TouchRecord(s, id, op, now).executions.Keys == s.executions.Keys
  {
    if id in s.executions && Apply(s.executions[id], op, now).Done? {
      ApplyKeepsIdentity(s.executions[id], op, now);
    }
  }

  lemma LostStaysLost(w: World, step: Step, w': World, id: Uuid, token: Uuid)
    requires Inv(w) && Next(w, step, w')
    requires token != NIL && token in w.issued && !Holds(w, id, token)
    ensures token in w'.issued && !Holds(w', id, token)
  {
    if id in w'.store.executions && w'.store.executions[id].leaseToken == token {
      if id in w.store.executions {
        TokenReplacedOnlyAfterDeadline(w, step, w', id);
      } else {
        AbsentGainsNoToken(w, step, w', id);
      }
    }
  }

  /** A lease-guarded operation changes nothing unless it presents the token the record holds. */
  lemma StaleTokenRefused(w: World, id: Uuid, op: RecordOp, now: Time)
    requires Inv(w) && Presented(op).Some? && !Holds(w, id, Presented(op).value)
    ensures TouchRecord(w.store, id, op, now) == w.store
    ensures TouchReply(w.store, id, op, now) == Err(if id in w.store.executions then ErrLeaseLost else ErrNotFound)
  {
  }

  /** Fencing over whole runs: once a record no longer holds a token it held at some point, then
      ever after a heartbeat, success, retry or failure presenting that token is refused and the
      store is left as it was. */
  lemma {:induction false} FencedForever(ws: seq<World>, steps: seq<Step>, i: nat, j: nat, k: nat, id: Uuid, token: Uuid, op: RecordOp, now: Time)
    requires IsHistory(ws, steps) && i <= j <= k < |ws|
    requires token != NIL && Holds(ws[i], id, token) && !Holds(ws[j], id, token)
    requires Presented(op) == Some(token)
    ensures TouchRecord(ws[k].store, id, op, now) == ws[k].store
    ensures TouchReply(ws[k].store, id, op, now) == Err(if id in ws[k].store.executions then ErrLeaseLost else ErrNotFound)
  {
    HistoryKeepsInv(ws, steps, i);
    assert ws[i].store.executions[id].status.Running?;
    IssuedGrows(ws, steps, i, j, token);
    LostForever(ws, steps, j, k, id, token);
    HistoryKeepsInv(ws, steps, k);
    StaleTokenRefused(ws[k], id, op, now);
  }

  lemma {:induction false} IssuedGrows(ws: seq<World>, steps: seq<Step>, i: nat, j: nat, u: Uuid)
    requires IsHistory(ws, steps) && i <= j < |ws| && u in ws[i].issued
    ensures u in ws[j].issued
  {
    if i < j {
      IssuedGrows(ws, steps, i, j - 1, u);
      assert Next(ws[j - 1], steps[j - 1], ws[j]);
    }
  }

  lemma {:induction false} LostForever(ws: seq<World>, steps: seq<Step>, j: nat, k: nat, id: Uuid, token: Uuid)
    requires IsHistory(ws, steps) && j <= k < |ws|
    requires token != NIL && token in ws[j].issued && !Holds(ws[j], id, token)
    ensures token in ws[k].issued && !Holds(ws[k], id, token)
  {
    if j < k {
      LostForever(ws, steps, j, k - 1, id, token);
      HistoryKeepsInv(ws, steps, k - 1);
      LostStaysLost(ws[k - 1], steps[k - 1], ws[k], id, token);
    }
  }

  // ---------------------------------------------------------------------------------------------
  // No stranded delivery

  /** In every reachable state, at any later time, an expired delivery is exactly one of claimable
      again and reapable; a delivery that has not expired is neither. */
  lemma NoStrandedDelivery(ws: seq<World>, steps: seq<Step>, i: nat, id: Uuid, now: Time)
    requires IsHistory(ws, steps) && i < |ws| && ws[i].clock <= now
    requires id in ws[i].store.executions && ws[i].store.executions[id].status.Running?
    ensures
      var e := ws[i].store.executions[id];
      && (e.leaseUntil <= now ==> (Claimable(e, now) <==> !Reapable(e, now)))
      && (now < e.leaseUntil ==> !Claimable(e, now) && !Reapable(e, now))
  {
    HistoryKeepsInv(ws, steps, i);
  }

  /** What the log of any execution says in any reachable state: the attempt number counts the
      deliveries since the last Created or Restarted event and stays within the budget, and only a
      Restarted event follows a terminal one. */
  lemma LogsInEveryState(ws: seq<World>, steps: seq<Step>, i: nat, id: Uuid, n: nat)
    requires IsHistory(ws, steps) && i < |ws| && id in ws[i].store.executions
    requires id in ws[i].store.events && n < |ws[i].store.events[id]|
    ensures
      var e, log := ws[i].store.executions[id], ws[i].store.events[id];
      && e.attempt == StartedSinceOpening(log) <= e.maxAttempts
      && (Ends(log[n].kind) && n + 1 < |log| ==> log[n + 1].kind.EventRestarted?)
      && (Ends(log[|log| - 1].kind) <==> e.status.Terminal())
  {
    HistoryKeepsInv(ws, steps, i);
    var log := ws[i].store.events[id];
    AttemptCountsDeliveries(log);
    TerminalIsLastOfGeneration(log, n);
    PrefixReplay(log, |log| - 1);
    assert log[..|log|] == log;
  }
}
