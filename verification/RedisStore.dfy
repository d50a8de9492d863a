/** The Redis store's operations, each carried out without interruption. */
module RedisStore {
  import opened Model
  import opened Records
  import opened Storage
  import opened Sorting
  import opened Delivery
  import opened RedisDelivery
  import opened RedisSubgraph
  import opened Redis
  import P = RedisPurge
  import C = Counting
  import R = Retention
  import M = Memory
  import S = Storage

  class Store {
    var db: Db

    constructor ()
      ensures db == EMPTY_DB && Coherent(db)
    {
      db := EMPTY_DB;
      new;
      EmptyIsCoherent();
    }

    method GetExecution(id: Uuid) returns (r: Result<Execution>)
      ensures r == if id in db.records then Ok(db.records[id]) else Err(ErrNotFound)
    {
      if id !in db.records {
        return Err(ErrNotFound);
      }
      r := Ok(db.records[id]);
    }

    method SaveTransition(item: Execution, previous: Status, kind: EventType, error: string, now: Time, keepInQueue: bool)
      modifies this
      ensures db == Redis.SaveTransition(old(db), item, previous, Event(kind, item.attempt, error, now), keepInQueue)
    {
      db := db.(records := db.records[item.id := item]);
      if previous != item.status {
        db := db.(counts := Incr(db.counts, (item.taskName, previous), -1));
        db := db.(counts := Incr(db.counts, (item.taskName, item.status), 1));
      }
      db := db.(statuses := db.statuses - {(previous, item.id)});
      db := db.(statuses := db.statuses[(item.status, item.id) := ScoreOf(item.createdAt)]);
      db := db.(leases := db.leases - {item.id});
      if keepInQueue {
        var queueAt := item.availableAt;
        if item.status == Running {
          queueAt := item.leaseUntil;
          db := db.(leases := db.leases[item.id := ScoreOf(item.leaseUntil)]);
        }
        db := db.(queues := db.queues[(item.taskName, item.id) := ScoreOf(queueAt)]);
      } else {
        db := db.(queues := db.queues - {(item.taskName, item.id)});
      }
      db := db.(events := Pushed(db.events, item.id, Event(kind, item.attempt, error, now)));
    }

    // -------------------------------------------------------------------------------------------
    // Transitions of one record

    method CreateExecution(request: CreateExecution, newId: Uuid, now: Time) returns (r: Result<Execution>)
      requires (forall k :: k in db.idempotent ==> db.idempotent[k] in db.records) && (forall k :: k in db.nodes ==> db.nodes[k] in db.records)
      modifies this
      ensures db == CommitCreate(old(db), request, newId, now) && r == CreateReply(View(old(db)), request, newId, now)
      ensures r.Ok? && Existing(View(old(db)), request).None? ==> IsStored(db, r.value) && MadeFor(r.value, request, newId, now)
    {
      if request.taskName == "" {
        return Err(ErrEmptyName);
      }
      var idem := (request.taskName, request.idempotencyKey);
      if request.idempotencyKey != NoKey && idem in db.idempotent {
        r := GetExecution(db.idempotent[idem]);
        return;
      }
      if request.runId.Some? && request.nodeKey != "" && (request.runId.value, request.nodeKey) in db.nodes {
        r := GetExecution(db.nodes[(request.runId.value, request.nodeKey)]);
        return;
      }
      var at := if request.availableAt == ZERO_TIME then now else request.availableAt;
      var max := if request.maxAttempts <= 0 then 1 else request.maxAttempts;
      var item := Execution(newId, request.taskName, request.taskVersion, request.input, "", Pending, 0, max, at,
                            "", NIL, ZERO_TIME, "", request.idempotencyKey, request.runId, request.nodeKey, now, None, None);
      assert item == NewExecution(request, newId, now);
      SaveNew(item, now);
      r := Ok(item);
    }

    method SaveNew(item: Execution, now: Time)
      modifies this
      ensures db == Redis.SaveNew(old(db), item, now)
    {
      db := db.(records := db.records[item.id := item]);
      db := db.(counts := Incr(db.counts, (item.taskName, item.status), 1));
      db := db.(created := db.created[item.id := ScoreOf(item.createdAt)]);
      db := db.(tasks := db.tasks[(item.taskName, item.id) := ScoreOf(item.createdAt)]);
      db := db.(statuses := db.statuses[(item.status, item.id) := ScoreOf(item.createdAt)]);
      db := db.(queues := db.queues[(item.taskName, item.id) := ScoreOf(item.availableAt)]);
      db := db.(events := Pushed(db.events, item.id, Event(EventCreated, item.attempt, "", now)));
      if item.idempotencyKey != NoKey {
        db := db.(idempotent := db.idempotent[(item.taskName, item.idempotencyKey) := item.id]);
      }
      if item.runId.Some? && item.nodeKey != "" {
        db := db.(nodes := db.nodes[(item.runId.value, item.nodeKey) := item.id]);
      }
      if item.runId.Some? {
        db := db.(members := db.members[(item.runId.value, item.id) := ScoreOf(item.createdAt)]);
      }
    }

    method GetOwned(id: Uuid, token: Uuid) returns (r: Result<Execution>)
      ensures r == if id !in db.records then Err(ErrNotFound)
                   else if !Owned(db.records[id], token) then Err(ErrLeaseLost) else Ok(db.records[id])
    {
      r := GetExecution(id);
      if r.Ok? && (r.value.status != Running || token == NIL || r.value.leaseToken != token) {
        r := Err(ErrLeaseLost);
      }
    }

    method Heartbeat(id: Uuid, token: Uuid, lease: int, now: Time) returns (r: Result<Execution>)
      requires id in db.records ==> db.records[id].id == id
      modifies this
      ensures Touched(old(db), db, id, Beat(token, lease), now, r)
      ensures r.Ok? ==> id in old(db).records && IsStored(db, r.value)
      ensures r.Ok? ==> r.value == old(db).records[id].(leaseUntil := now + lease)
    {
      r := GetOwned(id, token);
      if r.Err? {
        return;
      }
      var item := r.value.(leaseUntil := now + lease);
      db := db.(records := db.records[id := item]);
      db := db.(queues := db.queues[(item.taskName, id) := ScoreOf(item.leaseUntil)]);
      db := db.(leases := db.leases[id := ScoreOf(item.leaseUntil)]);
      r := Ok(item);
    }

    method Succeed(id: Uuid, token: Uuid, output: Json, now: Time) returns (r: Result<Execution>)
      modifies this
      ensures Touched(old(db), db, id, RecordOp.Succeed(token, output), now, r)
      ensures r.Ok? ==> id in old(db).records && IsStored(db, r.value)
      ensures r.Ok? ==> r.value == old(db).records[id].(status := Succeeded, output := output, finishedAt := Some(now),
                                                            leaseOwner := "", leaseToken := NIL, leaseUntil := ZERO_TIME)
    {
      r := GetOwned(id, token);
      if r.Err? {
        return;
      }
      var item := r.value.(status := Succeeded, output := output, finishedAt := Some(now));
      item := item.(leaseOwner := "", leaseToken := NIL, leaseUntil := ZERO_TIME);
      SaveTransition(item, r.value.status, EventSucceeded, "", now, false);
      r := Ok(item);
    }

    method Retry(id: Uuid, token: Uuid, error: string, delay: int, now: Time) returns (r: Result<Execution>)
      requires id in db.records ==> db.records[id].id == id
      modifies this
      ensures Touched(old(db), db, id, RetryLater(token, error, delay), now, r)
      ensures r.Ok? ==> id in old(db).records && IsStored(db, r.value)
      ensures r.Ok? ==> RetriedAs(old(db).records[id], error, delay, now, r.value)
    {
      r := GetOwned(id, token);
      if r.Err? {
        return;
      }
      r := RetryOwned(r.value, token, error, delay, now);
    }

    method RetryOwned(read: Execution, token: Uuid, error: string, delay: int, now: Time) returns (r: Result<Execution>)
      requires read.id in db.records && db.records[read.id] == read && Owned(read, token)
      modifies this
      ensures Touched(old(db), db, read.id, RetryLater(token, error, delay), now, r)
      ensures r.Ok? && RetriedAs(read, error, delay, now, r.value) && IsStored(db, r.value)
    {
      var item := read.(lastError := error, leaseOwner := "", leaseToken := NIL, leaseUntil := ZERO_TIME);
      if item.maxAttempts <= item.attempt {
        item := item.(status := Failed, finishedAt := Some(now));
        SaveTransition(item, read.status, EventFailed, error, now, false);
      } else {
        item := item.(status := Status.Retry, availableAt := now + delay);
        SaveTransition(item, read.status, EventRetried, error, now, true);
      }
      r := Ok(item);
    }

    method Fail(id: Uuid, token: Uuid, error: string, now: Time) returns (r: Result<Execution>)
      modifies this
      ensures Touched(old(db), db, id, RecordOp.Fail(token, error), now, r)
      ensures r.Ok? ==> id in old(db).records && IsStored(db, r.value)
      ensures r.Ok? ==> r.value == old(db).records[id].(status := Failed, lastError := error, finishedAt := Some(now),
                                                            leaseOwner := "", leaseToken := NIL, leaseUntil := ZERO_TIME)
    {
      r := GetOwned(id, token);
      if r.Err? {
        return;
      }
      var item := r.value.(status := Failed, lastError := error, finishedAt := Some(now));
      item := item.(leaseOwner := "", leaseToken := NIL, leaseUntil := ZERO_TIME);
      SaveTransition(item, r.value.status, EventFailed, error, now, false);
      r := Ok(item);
    }

    method CancelExecution(id: Uuid, reason: string, now: Time) returns (r: Result<Execution>)
      requires id in db.records ==> db.records[id].id == id
      modifies this
      ensures Touched(old(db), db, id, Cancel(reason), now, r)
      ensures r.Ok? ==> id in old(db).records && IsStored(db, r.value)
      ensures r.Ok? ==> r.value == old(db).records[id].(status := Cancelled, lastError := reason, finishedAt := Some(now),
                                                            leaseOwner := "", leaseToken := NIL, leaseUntil := ZERO_TIME)
    {
      r := GetExecution(id);
      if r.Err? {
        return;
      }
      var item := r.value;
      if item.status == Succeeded || item.status == Failed || item.status == Cancelled {
        return Err(ErrNotFound);
      }
      r := CancelUnfinished(item, reason, now);
    }

    method CancelUnfinished(read: Execution, reason: string, now: Time) returns (r: Result<Execution>)
      requires read.id in db.records && db.records[read.id] == read && !read.status.Terminal()
      modifies this
      ensures Touched(old(db), db, read.id, Cancel(reason), now, r) && r.Ok? && IsStored(db, r.value)
      ensures r.value == read.(status := Cancelled, lastError := reason, finishedAt := Some(now),
                               leaseOwner := "", leaseToken := NIL, leaseUntil := ZERO_TIME)
    {
      var item := read.(status := Cancelled, lastError := reason, finishedAt := Some(now));
      item := item.(leaseOwner := "", leaseToken := NIL, leaseUntil := ZERO_TIME);
      SaveTransition(item, read.status, EventCancelled, reason, now, false);
      r := Ok(item);
    }

    /** Checks for activity before it checks for a pipeline: an active node is reported active here,
        and as a pipeline execution by the in-memory store. */
    method RestartExecution(id: Uuid, availableAt: Time, now: Time) returns (r: Result<Execution>)
      requires id in db.records ==> db.records[id].id == id
      modifies this
      ensures db == (if id in old(db).records then CommitTouch(old(db), old(db).records[id], Restart(availableAt), now) else old(db))
      ensures r == if id in old(db).records && old(db).records[id].status.Active() then Err(ErrActive)
                   else TouchReply(View(old(db)), id, Restart(availableAt), now)
      ensures r.Ok? ==> id in old(db).records && IsStored(db, r.value)
      ensures r.Ok? ==>
                r.value == old(db).records[id].(status := Pending, attempt := 0, output := "", lastError := "",
                                                availableAt := if availableAt == ZERO_TIME then now else availableAt,
                                                startedAt := None, finishedAt := None,
                                                leaseOwner := "", leaseToken := NIL, leaseUntil := ZERO_TIME)
    {
      r := GetExecution(id);
      if r.Err? {
        return;
      }
      var item := r.value;
      if item.status == Pending || item.status == Status.Retry || item.status == Running {
        return Err(ErrActive);
      }
      if item.runId.Some? {
        return Err(ErrPipelineExecution);
      }
      r := RestartIdle(item, availableAt, now);
    }

    method RestartIdle(read: Execution, availableAt: Time, now: Time) returns (r: Result<Execution>)
      requires read.id in db.records && db.records[read.id] == read && !read.status.Active() && read.runId.None?
      modifies this
      ensures Touched(old(db), db, read.id, Restart(availableAt), now, r) && r.Ok? && IsStored(db, r.value)
      ensures r.value == read.(status := Pending, attempt := 0, output := "", lastError := "",
                               availableAt := if availableAt == ZERO_TIME then now else availableAt,
                               startedAt := None, finishedAt := None,
                               leaseOwner := "", leaseToken := NIL, leaseUntil := ZERO_TIME)
    {
      var item := read.(status := Pending, attempt := 0, availableAt := if availableAt == ZERO_TIME then now else availableAt);
      item := item.(output := "", lastError := "", startedAt := None, finishedAt := None);
      item := item.(leaseOwner := "", leaseToken := NIL, leaseUntil := ZERO_TIME);
      SaveRestart(item, read.status, now);
      r := Ok(item);
    }

    method SaveRestart(item: Execution, previous: Status, now: Time)
      modifies this
      ensures db == Redis.SaveRestart(old(db), item, previous, Event(EventRestarted, item.attempt, "", now))
    {
      db := db.(records := db.records[item.id := item]);
      db := db.(counts := Incr(db.counts, (item.taskName, previous), -1));
      db := db.(counts := Incr(db.counts, (item.taskName, item.status), 1));
      db := db.(statuses := db.statuses - {(previous, item.id)});
      db := db.(statuses := db.statuses[(item.status, item.id) := ScoreOf(item.createdAt)]);
      db := db.(leases := db.leases - {item.id});
      db := db.(queues := db.queues[(item.taskName, item.id) := ScoreOf(item.availableAt)]);
      db := db.(events := Pushed(db.events, item.id, Event(EventRestarted, item.attempt, "", now)));
    }

    method ReleaseExecution(id: Uuid, input: Json, availableAt: Time, now: Time) returns (r: Result<Execution>)
      requires id in db.records ==> db.records[id].id == id
      modifies this
      ensures Touched(old(db), db, id, Release(input, availableAt), now, r)
      ensures r.Ok? ==> id in old(db).records && IsStored(db, r.value)
      ensures r.Ok? ==>
                r.value == old(db).records[id].(status := Pending, input := input,
                                                availableAt := if availableAt == ZERO_TIME then now else availableAt)
    {
      r := GetExecution(id);
      if r.Err? {
        return;
      }
      var item := r.value;
      if item.status != Blocked {
        return Err(ErrActive);
      }
      r := ReleaseBlocked(item, input, availableAt, now);
    }

    method ReleaseBlocked(read: Execution, input: Json, availableAt: Time, now: Time) returns (r: Result<Execution>)
      requires read.id in db.records && db.records[read.id] == read && read.status.Blocked?
      modifies this
      ensures Touched(old(db), db, read.id, Release(input, availableAt), now, r) && r.Ok? && IsStored(db, r.value)
      ensures r.value == read.(status := Pending, input := input, availableAt := if availableAt == ZERO_TIME then now else availableAt)
    {
      var item := read.(status := Pending, input := input, availableAt := if availableAt == ZERO_TIME then now else availableAt);
      SaveRelease(item);
      r := Ok(item);
    }

    method SaveRelease(item: Execution)
      modifies this
      ensures db == Redis.SaveRelease(old(db), item)
    {
      db := db.(records := db.records[item.id := item]);
      db := db.(counts := Incr(db.counts, (item.taskName, Blocked), -1));
      db := db.(counts := Incr(db.counts, (item.taskName, Pending), 1));
      db := db.(statuses := db.statuses - {(Blocked, item.id)});
      db := db.(statuses := db.statuses[(Pending, item.id) := ScoreOf(item.createdAt)]);
      db := db.(queues := db.queues[(item.taskName, item.id) := ScoreOf(item.availableAt)]);
    }

    // -------------------------------------------------------------------------------------------
    // Runs

    method SetPipelineRunStatus(id: Uuid, expected: nat, status: RunStatus, error: string, now: Time) returns (r: Result<()>)
      requires id in db.runs ==> db.runs[id].id == id
      modifies this
      ensures r == StatusReply(View(old(db)), id, expected)
      ensures db == CommitStatus(old(db), id, ReadRun(old(db), id), expected, status, error, now)
      ensures r.Ok? ==> RunWritten(old(db), db, id, status, error, now)
    {
      ghost var after := CommitStatus(db, id, ReadRun(db, id), expected, status, error, now);
      StampIsWritten(db, id, expected, status, error, now);
      if id !in db.runs {
        r := Err(ErrNotFound);
      } else if db.runs[id].revision != expected {
        r := Err(ErrConflict);
      } else {
        assert after == Redis.SaveRun(db, Restamped(db.runs[id], status, error, now), db.runs[id].status);
        SaveStamped(db.runs[id], status, error, now);
        r := Ok(());
      }
      assert db == after;
    }

    method SaveStamped(read: PipelineRun, status: RunStatus, error: string, now: Time)
      modifies this
      ensures db == Redis.SaveRun(old(db), Restamped(read, status, error, now), read.status)
    {
      var run := Stamp(read, status, error, now);
      SaveRun(run, read.status);
    }

    static method Stamp(read: PipelineRun, status: RunStatus, error: string, now: Time) returns (run: PipelineRun)
      ensures run == Restamped(read, status, error, now)
    {
      run := read.(status := status, error := error, updatedAt := now, revision := read.revision + 1);
      if status == RunSucceeded || status == RunFailed || status == RunCancelled {
        run := run.(finishedAt := Some(now));
      } else {
        run := run.(finishedAt := None);
      }
    }

    method SaveRun(run: PipelineRun, previous: RunStatus)
      modifies this
      ensures db == Redis.SaveRun(old(db), run, previous)
    {
      db := db.(runs := db.runs[run.id := run]);
      if previous != run.status {
        db := db.(runCounts := Incr(db.runCounts, (run.pipelineName, previous), -1));
        db := db.(runCounts := Incr(db.runCounts, (run.pipelineName, run.status), 1));
      }
      db := db.(runStatuses := db.runStatuses - {(previous, run.id)});
      db := db.(runStatuses := db.runStatuses[(run.status, run.id) := ScoreOf(run.createdAt)]);
    }

    method CreatePipelineRun(q: CreateRun, newId: Uuid, now: Time) returns (run: PipelineRun)
      requires forall k :: k in db.runIdempotent ==> db.runIdempotent[k] in db.runs
      modifies this
      ensures db == CommitNewRun(old(db), q, newId, now)
      ensures run == (var key := (q.pipelineName, q.idempotencyKey);
                      if q.idempotencyKey != NoKey && key in old(db).runIdempotent then old(db).runs[old(db).runIdempotent[key]]
                      else PipelineRun(newId, q.pipelineName, q.pipelineVersion, q.input, RunPending, "", q.idempotencyKey, 0, now, now, None))
    {
      var key := (q.pipelineName, q.idempotencyKey);
      if q.idempotencyKey != NoKey && key in db.runIdempotent {
        return db.runs[db.runIdempotent[key]];
      }
      run := PipelineRun(newId, q.pipelineName, q.pipelineVersion, q.input, RunPending, "", q.idempotencyKey, 0, now, now, None);
      db := db.(runs := db.runs[newId := run]);
      db := db.(runCounts := Incr(db.runCounts, (run.pipelineName, run.status), 1));
      db := db.(runIndex := db.runIndex[newId := ScoreOf(now)]);
      db := db.(runStatuses := db.runStatuses[(run.status, newId) := ScoreOf(now)]);
      if q.idempotencyKey != NoKey {
        db := db.(runIdempotent := db.runIdempotent[key := newId]);
      }
    }

    /** Looks up the nodes, refuses if one is active or the root is missing, and otherwise rewrites
        them and the run in one transaction: the in-memory store's restart, if every node is named
        once and by its key. */
    method RestartPipelineSubgraph(q: RestartSubgraph, now: Time) returns (r: Result<Execution>)
      requires Coherent(db) && Valid(View(db))
      modifies this
      ensures db == CommitSubgraph(old(db), q, ReadRun(old(db), q.runId), LookedUp(old(db), q.runId, [q.root] + q.descendants), now)
      ensures r.Ok? <==>
              var items := LookedUp(old(db), q.runId, [q.root] + q.descendants);
              q.runId in old(db).runs && !AnyActive(items) && HasRoot(items, q)
      ensures NamesOnce(q) ==> Restarted(old(db), db, q, now, r)
      ensures Coherent(db) <==> r.Err? || RepeatsStand(LookedUp(old(db), q.runId, [q.root] + q.descendants), q)
    {
      var keys := [q.root] + q.descendants;
      var items := NodesFound(db, q.runId, keys);
      ghost var was := db;
      LookedUpIsCurrent(db, q.runId, keys);
      NodeNamedTwiceExactly(db, q, items, now);
      r := ResetFound(q, items, now);
      if NamesOnce(q) {
        LookedUpIsFound(was, q.runId, keys);
        RestartOfFound(was, q, items, now);
        if r.Ok? {
          RootIsWritten(was, items, q, now, r.value);
        }
      }
    }

    method ResetFound(q: RestartSubgraph, items: seq<Execution>, now: Time) returns (r: Result<Execution>)
      modifies this
      ensures db == CommitSubgraph(old(db), q, ReadRun(old(db), q.runId), items, now)
      ensures r.Ok? <==> q.runId in old(db).runs && !AnyActive(items) && HasRoot(items, q)
      ensures r.Ok? ==> exists i :: 0 <= i < |items| && items[i].nodeKey == q.root && r.value == ResetItem(items[i], q, now)
      ensures r.Ok? ==> db.records == SaveResets(old(db), items, q, now).records
    {
      if q.runId !in db.runs {
        return Err(ErrNotFound);
      }
      var active := SomeActive(items);
      if active {
        return Err(ErrActive);
      }
      var tx, root := QueueResets(db, items, q, now);
      if root.None? {
        return Err(ErrNotFound);
      }
      var run := db.runs[q.runId];
      var previous := run.status;
      run := run.(status := RunRunning, error := "", updatedAt := now, finishedAt := None, revision := run.revision + 1);
      db := tx;
      SaveRun(run, previous);
      r := Ok(root.value);
    }

    // -------------------------------------------------------------------------------------------
    // Reaping and counting

    method ReapCandidate(id: Uuid, now: Time) returns (run: Option<Uuid>)
      modifies this
      ensures db == CommitReap(old(db), id, Read(old(db), id), now)
      ensures run == if id in old(db).records && Reapable(old(db).records[id], now) then old(db).records[id].runId else None
    {
      var read := GetExecution(id);
      if read.Err? || read.value.status != Running {
        db := db.(leases := db.leases - {id});
        return None;
      }
      var item := read.value;
      if now < item.leaseUntil {
        return None;
      }
      if item.attempt < item.maxAttempts {
        db := db.(leases := db.leases - {id});
        return None;
      }
      var previous := item.status;
      item := item.(status := Failed, lastError := REAPED, finishedAt := Some(now));
      item := item.(leaseOwner := "", leaseToken := NIL, leaseUntil := ZERO_TIME);
      SaveTransition(item, previous, EventFailed, item.lastError, now, false);
      run := item.runId;
    }

    /** Fails exactly the deliveries a scan of all records would fail, and leaves among the leases that
        look due none that has expired. */
    method ReapExpired(now: Time) returns (found: set<Uuid>)
      requires Coherent(db) && db.events.Keys == db.records.Keys
      modifies this
      ensures Coherent(db)
      ensures View(db) == ReapAll(View(old(db)), DeadDeliveries(View(old(db)), now), now)
      ensures found == M.RunsOf(old(db).records, DeadDeliveries(View(old(db)), now))
      ensures forall id :: id in db.leases && db.leases[id] <= ScoreOf(now) ==> id in db.records && now < db.records[id].leaseUntil
    {
      ghost var was := db;
      var ids := Enumerate<Uuid>(set id: Uuid | id in db.leases && db.leases[id] <= ScoreOf(now));
      LeasesSweep(was, ids, now);
      found := ReapLeases(ids, now);
      NoneExpired(was, db, ids, now);
    }

    method ReapLeases(ids: seq<Uuid>, now: Time) returns (found: set<Uuid>)
      requires Coherent(db) && db.events.Keys == db.records.Keys && Distinct(ids) && Elements(ids) <= db.records.Keys
      modifies this
      ensures Reaping(old(db), db, ids, |ids|, now, found)
    {
      ghost var was := db;
      found := {};
      M.ReapNone(View(was), ids, now);
      for n := 0 to |ids|
        invariant Reaping(was, db, ids, n, now, found)
      {
        NextReaping(was, db, ids, n, now, found);
        var run := ReapCandidate(ids[n], now);
        if run.Some? {
          found := found + {run.value};
        }
      }
    }

    /** Reads the counters, leaves out those at zero and sorts the rest. */
    method ExecutionCounts() returns (rows: seq<C.Row>)
      requires Coherent(db)
      ensures C.AreRows(db.records, rows)
    {
      var counts: C.Counts := map[];
      var fields := Enumerate(db.counts.Keys);
      for n := 0 to |fields|
        invariant forall k :: k in counts <==> k in fields[..n] && k in db.counts && db.counts[k] > 0
        invariant forall k :: k in counts ==> counts[k] == db.counts[k]
      {
        assert fields[n] in Elements(fields);
        assert fields[..n + 1] == fields[..n] + [fields[n]];
        var count := db.counts[fields[n]];
        if count > 0 {
          counts := counts[fields[n] := count];
        }
      }
      CountsRead(db, fields, counts);
      rows := C.Tabulate(counts, db.records);
    }

    // -------------------------------------------------------------------------------------------
    // Retention

    method PurgeExecution(item: Execution)
      modifies this
      ensures db == P.SaveDrop(old(db), item)
    {
      db := db.(records := db.records - {item.id}, events := db.events - {item.id});
      db := db.(created := db.created - {item.id});
      db := db.(tasks := db.tasks - {(item.taskName, item.id)});
      db := db.(statuses := db.statuses - {(item.status, item.id)});
      db := db.(queues := db.queues - {(item.taskName, item.id)});
      db := db.(leases := db.leases - {item.id});
      db := db.(counts := Incr(db.counts, (item.taskName, item.status), -1));
      if item.idempotencyKey != NoKey {
        db := db.(idempotent := db.idempotent - {(item.taskName, item.idempotencyKey)});
      }
      if item.runId.Some? {
        db := db.(nodes := db.nodes - {(item.runId.value, item.nodeKey)});
        db := db.(members := db.members - {(item.runId.value, item.id)});
      }
    }

    method PurgeRun(run: PipelineRun, nodes: seq<Execution>)
      modifies this
      ensures db == P.CommitDropRun(old(db), run, nodes)
    {
      for i := 0 to |nodes|
        invariant db == P.DropEach(old(db), nodes[..i])
      {
        assert nodes[..i + 1][..i] == nodes[..i];
        PurgeExecution(nodes[i]);
      }
      assert nodes[..|nodes|] == nodes;
      db := db.(runs := db.runs - {run.id});
      db := db.(runIndex := db.runIndex - {run.id});
      db := db.(runStatuses := db.runStatuses - {(run.status, run.id)});
      db := db.(runCounts := Incr(db.runCounts, (run.pipelineName, run.status), -1));
      if run.idempotencyKey != NoKey {
        db := db.(runIdempotent := db.runIdempotent - {(run.pipelineName, run.idempotencyKey)});
      }
    }

    /** Finds the candidates through the status indexes, reads what belongs to the oldest of them and
        deletes that in one transaction: what the in-memory store removes by scanning everything. */
    method Purge(before: Time, limit: int) returns (removed: (nat, nat), ghost batch: seq<R.Item>)
      requires Coherent(db) && Valid(View(db)) && AllTimed(db.runs)
      modifies this
      ensures Coherent(db) && R.IsBatch(View(old(db)), before, if limit <= 0 then 1000 else limit, batch)
      ensures View(db) == R.DropAll(View(old(db)), batch)
      ensures P.Lost(View(old(db)), View(db), removed)
    {
      var victims;
      victims, batch := P.Plan(db, before, R.BatchLimit(limit));
      removed := PurgeVictims(victims, batch);
    }

    method PurgeVictims(victims: seq<P.Victim>, ghost batch: seq<R.Item>) returns (removed: (nat, nat))
      requires Coherent(db) && IndexesExact(View(db)) && P.Apart(View(db), batch) && P.AllRead(db, batch, victims)
      modifies this
      ensures Coherent(db) && View(db) == R.DropAll(View(old(db)), batch) && P.Lost(View(old(db)), View(db), removed)
    {
      ghost var was := db;
      removed := (0, 0);
      P.SweepBegins(was, batch);
      for i := 0 to |victims|
        invariant P.Sweeping(was, db, batch, i, removed)
      {
        P.SweepStep(was, db, batch, victims, i, removed);
        var size := PurgeVictim(victims[i], P.CommitDrop(db, victims[i]));
        removed := (removed.0 + size.0, removed.1 + size.1);
      }
      P.SweepEnds(was, db, batch, removed);
    }

    method PurgeVictim(v: P.Victim, ghost next: Db) returns (size: (nat, nat))
      requires next == P.CommitDrop(db, v)
      modifies this
      ensures db == next && size == P.SizeOf(v)
    {
      match v {
        case RunVictim(run, nodes) =>
          PurgeRun(run, nodes);
          size := (|nodes|, 1);
        case TaskVictim(item) =>
          PurgeExecution(item);
          size := (1, 0);
      }
    }

    // -------------------------------------------------------------------------------------------
    // Claiming

    /** A candidate that has gone or is no longer eligible is passed over. */
    method ClaimCandidate(id: Uuid, owner: string, accepted: set<TaskKey>, token: Uuid, lease: int, now: Time)
      returns (won: Option<Execution>)
      modifies this
      ensures if id in old(db).records && Eligible(old(db).records[id], accepted, now)
              then won.Some? && HandedTo(old(db).records[id], won.value, owner, token, lease, now)
                   && db == CommitTouch(old(db), old(db).records[id], Start(owner, token, lease), now)
              else won == None && db == old(db)
    {
      var read := GetExecution(id);
      if read.Err? {
        return None;
      }
      var item := read.value;
      var claimable := item.status == Pending || item.status == Status.Retry || (item.status == Running && item.leaseUntil <= now);
      if TaskKey(item.taskName, item.taskVersion) !in accepted || !claimable || now < item.availableAt || item.maxAttempts <= item.attempt {
        return None;
      }
      var started := HandOver(item, owner, token, lease, now);
      SaveTransition(started, item.status, EventStarted, "", now, true);
      won := Some(started);
    }

    static method HandOver(item: Execution, owner: string, token: Uuid, lease: int, now: Time) returns (started: Execution)
      ensures HandedTo(item, started, owner, token, lease, now) && started == Started(item, owner, token, now, lease)
    {
      started := item.(status := Running, attempt := item.attempt + 1, leaseOwner := owner, leaseToken := token, leaseUntil := now + lease);
      if started.startedAt.None? {
        started := started.(startedAt := Some(now));
      }
    }

    /** Claims the first candidates that are eligible; their order is by availability and age. When
        every named queue fits the window these are the executions the in-memory store delivers. */
    method Claim(owner: string, keys: seq<TaskKey>, limit: int, lease: int, tokens: seq<Uuid>, now: Time)
      returns (claimed: seq<Execution>, ghost picked: seq<Uuid>)
      requires Coherent(db) && (if limit <= 0 then 1 else limit) <= |tokens|
      modifies this
      ensures Coherent(db) && |claimed| == |picked| <= if limit <= 0 then 1 else limit
      ensures View(db) == ClaimAll(View(old(db)), picked, owner, tokens, lease, now)
      ensures forall i :: 0 <= i < |picked| ==>
                && picked[i] in old(db).records && Eligible(old(db).records[picked[i]], Elements(keys), now)
                && HandedTo(old(db).records[picked[i]], claimed[i], owner, tokens[i], lease, now)
      ensures (forall k :: k in keys ==>
                 || |DueMembers(old(db), k.name, now)| <= 128
                 || |DueMembers(old(db), k.name, now)| <= 8 * if limit <= 0 then 1 else limit) ==>
                IsPick(old(db).records, Elements(keys), now, if limit <= 0 then 1 else limit, picked)
      ensures |picked| < (if limit <= 0 then 1 else limit) ==>
                forall id :: id in old(db).records && Eligible(old(db).records[id], Elements(keys), now) && id !in picked ==>
                  CrowdedOut(old(db), Elements(keys), now, picked, if limit > 16 then 8 * limit else 128, id)
    {
      var max := if limit <= 0 then 1 else limit;
      var names := seq(|keys|, i requires 0 <= i < |keys| => keys[i].name);
      var ordered := LoadDueCandidates(db, names, max, now);
      ghost var was := db;
      claimed, picked := ClaimInOrder(ordered, owner, Elements(keys), max, lease, tokens, now);
      LoadedIsPick(was, keys, names, max, now, ordered);
      NoneLeftBehind(was, keys, names, max, now, ordered);
    }

    method ClaimInOrder(ordered: seq<Execution>, owner: string, accepted: set<TaskKey>, limit: nat, lease: int, tokens: seq<Uuid>, now: Time)
      returns (claimed: seq<Execution>, ghost picked: seq<Uuid>)
      requires Coherent(db) && limit <= |tokens| && P.Current(db, ordered)
      modifies this
      ensures Coherent(db) && picked == Firsts(ordered, |ordered|, accepted, now, limit) && |claimed| == |picked| <= limit
      ensures View(db) == ClaimAll(View(old(db)), picked, owner, tokens, lease, now)
      ensures forall i :: 0 <= i < |picked| ==>
                && picked[i] in old(db).records && Eligible(old(db).records[picked[i]], accepted, now)
                && HandedTo(old(db).records[picked[i]], claimed[i], owner, tokens[i], lease, now)
    {
      ghost var was := db;
      claimed, picked := [], [];
      var i := 0;
      while i < |ordered| && |claimed| != limit
        invariant 0 <= i <= |ordered| && |claimed| <= limit
        invariant InOrder(was, db, ordered, i, accepted, limit, picked, claimed, owner, tokens, lease, now)
      {
        claimed, picked := ClaimNext(was, ordered, i, accepted, limit, picked, claimed, owner, tokens, lease, now);
        i := i + 1;
      }
      if i < |ordered| {
        FirstsFull(ordered, i, accepted, now, limit);
      }
      FirstsAreCurrent(was, ordered, |ordered|, accepted, now, limit);
    }

    method ClaimNext(ghost was: Db, ordered: seq<Execution>, i: nat, accepted: set<TaskKey>, limit: nat,
                     ghost picked: seq<Uuid>, claimed: seq<Execution>, owner: string, tokens: seq<Uuid>, lease: int, now: Time)
      returns (more: seq<Execution>, ghost morePicked: seq<Uuid>)
      requires i < |ordered| && |claimed| < limit <= |tokens| && P.Current(was, ordered)
      requires InOrder(was, db, ordered, i, accepted, limit, picked, claimed, owner, tokens, lease, now)
      modifies this
      ensures |more| <= limit && InOrder(was, db, ordered, i + 1, accepted, limit, morePicked, more, owner, tokens, lease, now)
    {
      more, morePicked := claimed, picked;
      NextCandidate(was, db, ordered, i, accepted, owner, tokens, lease, now, limit);
      var won := ClaimCandidate(ordered[i].id, owner, accepted, tokens[|claimed|], lease, now);
      if won.Some? {
        OneMoreStarted(was, picked, claimed, ordered[i].id, won.value, owner, tokens, lease, now);
        more, morePicked := claimed + [won.value], picked + [ordered[i].id];
      }
    }
  }

  predicate IsStored(db: Db, e: Execution) {
    e.id in db.records && db.records[e.id] == e
  }

  /** What a retry leaves: a retry after the delay, or a failure once the attempts are used up. */
  predicate RetriedAs(e: Execution, error: string, delay: int, now: Time, e': Execution) {
    var freed := e.(lastError := error, leaseOwner := "", leaseToken := NIL, leaseUntil := ZERO_TIME);
    e' == if e.attempt < e.maxAttempts then freed.(status := Retry, availableAt := now + delay)
          else freed.(status := Failed, finishedAt := Some(now))
  }

  /** What an accepted status write leaves of a run. */
  predicate RunWritten(db: Db, db': Db, id: Uuid, status: RunStatus, error: string, now: Time) {
    && id in db.runs && id in db'.runs
    && db'.runs[id] == db.runs[id].(status := status, error := error, updatedAt := now, revision := db.runs[id].revision + 1,
                                    finishedAt := if status.Terminal() then Some(now) else None)
  }

  lemma StampIsWritten(db: Db, id: Uuid, expected: nat, status: RunStatus, error: string, now: Time)
    requires id in db.runs ==> db.runs[id].id == id
    ensures StatusReply(View(db), id, expected).Ok? ==>
              RunWritten(db, CommitStatus(db, id, ReadRun(db, id), expected, status, error, now), id, status, error, now)
  {
    if StatusReply(View(db), id, expected).Ok? {
      var run := Restamped(db.runs[id], status, error, now);
      assert ReadRun(db, id) == Some(db.runs[id]) && run.id == id;
      assert CommitStatus(db, id, ReadRun(db, id), expected, status, error, now).runs == db.runs[id := run];
    }
  }

  /** A record operation that read the current record. */
  ghost predicate Touched(db: Db, db': Db, id: Uuid, op: RecordOp, now: Time, r: Result<Execution>) {
    && db' == (if id in db.records then CommitTouch(db, db.records[id], op, now) else db)
    && r == TouchReply(View(db), id, op, now)
  }

  lemma LeasesSweep(db: Db, ids: seq<Uuid>, now: Time)
    requires ExecutionsCoherent(db) && Elements(ids) == set id: Uuid | id in db.leases && db.leases[id] <= ScoreOf(now)
    ensures Elements(ids) <= db.records.Keys
    ensures M.Swept(View(db), ids, 0, now) == View(db) && M.SweptRuns(View(db), ids, 0, now) == {}
    ensures M.Swept(View(db), ids, |ids|, now) == ReapAll(View(db), DeadDeliveries(View(db), now), now)
    ensures M.SweptRuns(View(db), ids, |ids|, now) == M.RunsOf(db.records, DeadDeliveries(View(db), now))
  {
    M.ReapNone(View(db), ids, now);
    forall id | id in Elements(ids)
      ensures id in db.records
    {
      LeasedIsRecord(db, id);
    }
    assert ids[..|ids|] == ids;
    forall id | id in DeadDeliveries(View(db), now)
      ensures id in ids
    {
      DeadIsLeased(db, id, now);
      assert id in Elements(ids);
    }
    assert M.DeadAmong(View(db), ids, now) == DeadDeliveries(View(db), now);
  }

  /** Leases have only been taken away, and of those visited only ones not expired are left. */
  ghost predicate LeasesLeft(was: Db, db: Db, ids: seq<Uuid>, n: nat, now: Time)
    requires n <= |ids|
  {
    && (forall id :: id in db.leases ==> id in was.leases && db.leases[id] == was.leases[id])
    && (forall j :: 0 <= j < n && ids[j] in db.leases ==> ids[j] in db.records && now < db.records[ids[j]].leaseUntil)
  }

  /** Where a reap stands after some of the leases that look due. */
  ghost predicate Reaping(was: Db, db: Db, ids: seq<Uuid>, n: nat, now: Time, found: set<Uuid>)
    requires n <= |ids|
  {
    && Coherent(db) && View(db) == M.Swept(View(was), ids, n, now) && found == M.SweptRuns(View(was), ids, n, now)
    && LeasesLeft(was, db, ids, n, now)
  }

  lemma NextReaping(was: Db, db: Db, ids: seq<Uuid>, n: nat, now: Time, found: set<Uuid>)
    requires ExecutionsCoherent(was) && was.events.Keys == was.records.Keys && Distinct(ids) && Elements(ids) <= was.records.Keys
    requires n < |ids| && Reaping(was, db, ids, n, now, found)
    ensures ids[n] in db.records
    ensures
      var e := db.records[ids[n]];
      Reaping(was, CommitReap(db, ids[n], Read(db, ids[n]), now), ids, n + 1, now,
              if Reapable(e, now) && e.runId.Some? then found + {e.runId.value} else found)
  {
    NextLease(was, db, ids, n, now);
    NextLeft(was, db, ids, n, now);
  }

  lemma NextLeft(was: Db, db: Db, ids: seq<Uuid>, n: nat, now: Time)
    requires n < |ids| && Distinct(ids) && LeasesLeft(was, db, ids, n, now)
    requires ids[n] in db.records && db.records[ids[n]].id == ids[n]
    ensures LeasesLeft(was, CommitReap(db, ids[n], Read(db, ids[n]), now), ids, n + 1, now)
  {
    var db' := CommitReap(db, ids[n], Read(db, ids[n]), now);
    ReapedLease(db, ids[n], now);
    forall j | 0 <= j < n + 1 && ids[j] in db'.leases
      ensures ids[j] in db'.records && now < db'.records[ids[j]].leaseUntil
    {
      assert j < n ==> ids[j] != ids[n];
    }
  }

  /** A reap of one candidate takes at most its lease, and leaves it only if it has not expired. */
  lemma ReapedLease(db: Db, id: Uuid, now: Time)
    requires id in db.records && db.records[id].id == id
    ensures LeaseTaken(db, CommitReap(db, id, Read(db, id), now), id, now)
  {
    var e := db.records[id];
    if Reapable(e, now) {
      ReapedRecord(db, e, now);
    } else if e.status.Running? && now < e.leaseUntil {
      KeptLease(db, id, now);
    } else {
      DroppedLease(db, id, now);
    }
  }

  lemma KeptLease(db: Db, id: Uuid, now: Time)
    requires id in db.records && now < db.records[id].leaseUntil
    ensures LeaseTaken(db, db, id, now)
  {
  }

  lemma DroppedLease(db: Db, id: Uuid, now: Time)
    ensures LeaseTaken(db, DropLease(db, id), id, now)
  {
  }

  predicate LeaseTaken(db: Db, db': Db, id: Uuid, now: Time) {
    && db'.leases.Keys <= db.leases.Keys && (forall x :: x in db'.leases ==> db'.leases[x] == db.leases[x])
    && (id in db'.leases ==> id in db'.records && now < db'.records[id].leaseUntil)
    && (forall x :: x != id && x in db.records ==> x in db'.records && db'.records[x] == db.records[x])
  }

  lemma ReapedRecord(db: Db, e: Execution, now: Time)
    requires Reapable(e, now)
    ensures LeaseTaken(db, CommitTouch(db, e, Reap, now), e.id, now)
  {
  }

  lemma NoneExpired(was: Db, db: Db, ids: seq<Uuid>, now: Time)
    requires LeasesLeft(was, db, ids, |ids|, now)
    requires Elements(ids) == set id: Uuid | id in was.leases && was.leases[id] <= ScoreOf(now)
    ensures forall id :: id in db.leases && db.leases[id] <= ScoreOf(now) ==> id in db.records && now < db.records[id].leaseUntil
  {
    forall id | id in db.leases && db.leases[id] <= ScoreOf(now)
      ensures id in db.records && now < db.records[id].leaseUntil
    {
      assert id in Elements(ids);
    }
  }

  lemma NextLease(was: Db, db: Db, ids: seq<Uuid>, n: nat, now: Time)
    requires ExecutionsCoherent(was) && was.events.Keys == was.records.Keys && Distinct(ids) && Elements(ids) <= was.records.Keys
    requires n < |ids| && Coherent(db) && View(db) == M.Swept(View(was), ids, n, now)
    ensures ids[n] in was.records && ids[n] in db.records && db.records[ids[n]] == was.records[ids[n]] && db.records[ids[n]].id == ids[n]
    ensures
      var db' := CommitReap(db, ids[n], Read(db, ids[n]), now);
      Coherent(db') && View(db') == M.Swept(View(was), ids, n + 1, now)
    ensures
      var e := was.records[ids[n]];
      M.SweptRuns(View(was), ids, n + 1, now) ==
        if Reapable(e, now) && e.runId.Some? then M.SweptRuns(View(was), ids, n, now) + {e.runId.value}
        else M.SweptRuns(View(was), ids, n, now)
  {
    forall x | x in was.records
      ensures was.records[x].id == x
    {
      assert IndexedAt(was, x);
    }
    M.ReapNext(View(was), ids, n, now);
    assert IndexedAt(db, ids[n]);
    ReapKeepsCoherent(db, ids[n], now);
    ReapRefines(db, ids[n], now);
  }

  lemma CountsRead(db: Db, fields: seq<(string, Status)>, counts: C.Counts)
    requires Coherent(db) && Elements(fields) == db.counts.Keys
    requires forall k :: k in counts <==> k in fields[..|fields|] && k in db.counts && db.counts[k] > 0
    requires forall k :: k in counts ==> counts[k] == db.counts[k]
    ensures C.AreCounts(db.records, counts)
  {
    assert fields[..|fields|] == fields;
    forall name, status
      ensures C.Reads(counts, name, status) == C.CountOf(db.records, name, status)
    {
      var k := (name, status);
      assert Count(db.counts, k) == C.CountOf(db.records, name, status);
      assert k in db.counts ==> k in Elements(fields);
    }
  }

  /** The executions the node references of a run lead to, for some node keys. */
  ghost predicate AreFound(db: Db, r: Uuid, keys: seq<string>, items: seq<Execution>) {
    && P.Current(db, items)
    && (forall i :: 0 <= i < |items| ==> items[i].runId == Some(r) && items[i].nodeKey in keys && items[i].nodeKey != "")
    && (forall k :: k in keys && (r, k) in db.nodes ==> db.nodes[(r, k)] in db.records && db.records[db.nodes[(r, k)]] in items)
  }

  /** The records behind the references of some node keys. */
  function LookedUp(db: Db, r: Uuid, keys: seq<string>): seq<Execution> {
    if keys == [] then []
    else
      var n := |keys| - 1;
      LookedUp(db, r, keys[..n]) +
      (if (r, keys[n]) in db.nodes && db.nodes[(r, keys[n])] in db.records then [db.records[db.nodes[(r, keys[n])]]] else [])
  }

  method NodesFound(db: Db, r: Uuid, keys: seq<string>) returns (items: seq<Execution>)
    requires NodesExact(db.records, db.nodes)
    ensures items == LookedUp(db, r, keys)
  {
    items := [];
    for i := 0 to |keys|
      invariant items == LookedUp(db, r, keys[..i])
    {
      assert keys[..i + 1][..i] == keys[..i];
      if (r, keys[i]) in db.nodes {
        items := items + [db.records[db.nodes[(r, keys[i])]]];
      }
    }
    assert keys[..|keys|] == keys;
  }

  lemma {:induction false} LookedUpIsCurrent(db: Db, r: Uuid, keys: seq<string>)
    requires forall id :: id in db.records ==> db.records[id].id == id
    ensures AllCurrent(db, LookedUp(db, r, keys))
  {
    if keys != [] {
      LookedUpIsCurrent(db, r, keys[..|keys| - 1]);
    }
  }

  /** Keys named once lead to records met once. */
  lemma {:induction false} LookedUpIsFound(db: Db, r: Uuid, keys: seq<string>)
    requires NodesExact(db.records, db.nodes) && Distinct(keys) && forall id :: id in db.records ==> db.records[id].id == id
    ensures AreFound(db, r, keys, LookedUp(db, r, keys))
  {
    if keys != [] {
      var n := |keys| - 1;
      LookedUpIsFound(db, r, keys[..n]);
      assert keys == keys[..n] + [keys[n]] && keys[n] !in keys[..n];
      if (r, keys[n]) in db.nodes {
        assert NodeOf(db.records[db.nodes[(r, keys[n])]]) == (r, keys[n]);
      }
    }
  }

  predicate NamesOnce(q: RestartSubgraph) {
    Distinct([q.root] + q.descendants) && "" !in [q.root] + q.descendants
  }

  /** The restart the in-memory store makes, with the new root record as the reply. */
  ghost predicate Restarted(db: Db, db': Db, q: RestartSubgraph, now: Time, r: Result<Execution>) {
    && Coherent(db') && View(db') == RestartNodes(View(db), q, now)
    && (r.Ok? <==> RestartAllowed(View(db), q))
    && (r.Ok? ==> M.IsRoot(r.value, q) && r.value.id in db'.records && db'.records[r.value.id] == r.value)
  }

  method SomeActive(items: seq<Execution>) returns (active: bool)
    ensures active == AnyActive(items)
  {
    for i := 0 to |items|
      invariant forall j :: 0 <= j < i ==> !items[j].status.Active()
    {
      if items[i].status == Pending || items[i].status == Status.Retry || items[i].status == Running {
        return true;
      }
    }
    active := false;
  }

  /** The commands of the transaction, queued one record at a time, and the new root record. */
  method QueueResets(db: Db, items: seq<Execution>, q: RestartSubgraph, now: Time) returns (tx: Db, root: Option<Execution>)
    ensures tx == SaveResets(db, items, q, now) && IsNewRoot(items, q, now, root)
  {
    tx, root := db, None;
    for i := 0 to |items|
      invariant tx == SaveResets(db, items[..i], q, now) && IsNewRoot(items[..i], q, now, root)
    {
      ResetsNext(db, items, i, q, now, root);
      var item := ResetOne(items[i], q, now);
      if item.nodeKey == q.root {
        root := Some(item);
      }
      tx := QueueReset(tx, item, items[i].status, now);
    }
    assert items[..|items|] == items;
  }

  /** The commands that rewrite one node. */
  method QueueReset(db: Db, item: Execution, previous: Status, now: Time) returns (tx: Db)
    requires item.status == Pending || item.status == Blocked
    ensures tx == Redis.SaveTransition(db, item, previous, Event(EventRestarted, item.attempt, "", now), item.status == Pending)
  {
    tx := db.(records := db.records[item.id := item]);
    if previous != item.status {
      tx := tx.(counts := Incr(tx.counts, (item.taskName, previous), -1));
      tx := tx.(counts := Incr(tx.counts, (item.taskName, item.status), 1));
    }
    tx := tx.(statuses := tx.statuses - {(previous, item.id)});
    tx := tx.(statuses := tx.statuses[(item.status, item.id) := ScoreOf(item.createdAt)]);
    tx := tx.(leases := tx.leases - {item.id});
    if item.status == Pending {
      tx := tx.(queues := tx.queues[(item.taskName, item.id) := ScoreOf(item.availableAt)]);
    } else {
      tx := tx.(queues := tx.queues - {(item.taskName, item.id)});
    }
    tx := tx.(events := Pushed(tx.events, item.id, Event(EventRestarted, item.attempt, "", now)));
  }

  method ResetOne(read: Execution, q: RestartSubgraph, now: Time) returns (item: Execution)
    ensures item == ResetItem(read, q, now)
  {
    var status := if read.nodeKey == q.root then Pending else Blocked;
    item := read.(status := status, attempt := 0, availableAt := if q.availableAt == ZERO_TIME then now else q.availableAt);
    item := item.(output := "", lastError := "", startedAt := None, finishedAt := None);
    item := item.(leaseOwner := "", leaseToken := NIL, leaseUntil := ZERO_TIME);
  }

  /** The new record of the last root among the items, if there is one. */
  ghost predicate IsNewRoot(items: seq<Execution>, q: RestartSubgraph, now: Time, root: Option<Execution>) {
    && (root.None? ==> !HasRoot(items, q))
    && (root.Some? ==> exists i :: 0 <= i < |items| && items[i].nodeKey == q.root && root.value == ResetItem(items[i], q, now))
  }

  lemma ResetsNext(db: Db, items: seq<Execution>, i: nat, q: RestartSubgraph, now: Time, root: Option<Execution>)
    requires i < |items| && IsNewRoot(items[..i], q, now, root)
    ensures SaveResets(db, items[..i + 1], q, now) == SaveReset(SaveResets(db, items[..i], q, now), items[i], q, now)
    ensures IsNewRoot(items[..i + 1], q, now, if items[i].nodeKey == q.root then Some(ResetItem(items[i], q, now)) else root)
  {
    assert items[..i + 1][..i] == items[..i] && items[..i + 1][i] == items[i];
    if root.Some? {
      var j :| 0 <= j < i && items[..i][j].nodeKey == q.root && root.value == ResetItem(items[..i][j], q, now);
      assert items[..i + 1][j] == items[j];
    } else {
      forall j | 0 <= j < i
        ensures items[j].nodeKey != q.root
      {
        assert items[..i][j].nodeKey != q.root;
      }
    }
  }

  lemma SameResets(db: Db, q: RestartSubgraph, items: seq<Execution>, id: Uuid)
    requires NodesExact(db.records, db.nodes) && AreFound(db, q.runId, [q.root] + q.descendants, items)
    requires "" !in [q.root] + q.descendants && id in db.records
    ensures ResetTo(db.records[id], q) == ResetTo(db.records[id], Found(q, items))
  {
    var e, keys, found := db.records[id], [q.root] + q.descendants, KeysFound(items);
    if e.runId == Some(q.runId) && e.nodeKey != q.root {
      if e.nodeKey in q.descendants {
        assert e.nodeKey in keys && NodeOf(e) in db.nodes;
        assert e in items;
        var i :| 0 <= i < |items| && items[i] == e;
        assert found[i] == e.nodeKey;
      }
      if e.nodeKey in found {
        var i :| 0 <= i < |items| && found[i] == e.nodeKey;
        assert items[i].nodeKey in keys;
      }
    }
  }

  /** Looked up without interruption, the nodes found are all there are. */
  lemma FoundIsAll(db: Db, q: RestartSubgraph, items: seq<Execution>)
    requires Valid(View(db)) && AreFound(db, q.runId, [q.root] + q.descendants, items) && "" !in [q.root] + q.descendants
    ensures AreNodes(q, items)
    ensures forall id :: id in db.records ==> ResetTo(db.records[id], q) == ResetTo(db.records[id], Found(q, items))
    ensures HasRoot(items, q) <==> RestartFound(View(db), q)
  {
    forall id | id in db.records
      ensures ResetTo(db.records[id], q) == ResetTo(db.records[id], Found(q, items))
    {
      SameResets(db, q, items, id);
    }
    RootAmongFound(db, q, items);
  }

  lemma RootAmongFound(db: Db, q: RestartSubgraph, items: seq<Execution>)
    requires NodesExact(db.records, db.nodes) && AreFound(db, q.runId, [q.root] + q.descendants, items) && q.root != ""
    ensures HasRoot(items, q) <==> RestartFound(View(db), q)
  {
    if RestartFound(View(db), q) {
      var id :| id in db.records && db.records[id].runId == Some(q.runId) && db.records[id].nodeKey == q.root;
      assert NodeOf(db.records[id]) == (q.runId, q.root) && q.root in [q.root] + q.descendants;
      assert db.records[id] in items;
    }
    if HasRoot(items, q) {
      var i :| 0 <= i < |items| && items[i].nodeKey == q.root;
      assert items[i].id in db.records;
    }
  }

  lemma SameRestart(s: S.Store, q: RestartSubgraph, q': RestartSubgraph, now: Time)
    requires q'.runId == q.runId && q'.root == q.root && q'.availableAt == q.availableAt
    requires forall id :: id in s.executions ==> ResetTo(s.executions[id], q) == ResetTo(s.executions[id], q')
    ensures RestartAllowed(s, q) <==> RestartAllowed(s, q')
    ensures RestartNodes(s, q, now) == RestartNodes(s, q', now)
  {
    assert RestartBusy(s, q) <==> RestartBusy(s, q');
    assert RestartFound(s, q) <==> RestartFound(s, q');
  }

  /** The transaction over the nodes found is the restart that was asked for. */
  lemma RestartOfFound(db: Db, q: RestartSubgraph, items: seq<Execution>, now: Time)
    requires Coherent(db) && Valid(View(db))
    requires AreFound(db, q.runId, [q.root] + q.descendants, items) && "" !in [q.root] + q.descendants
    ensures RestartAllowed(View(db), q) <==> q.runId in db.runs && !AnyActive(items) && HasRoot(items, q)
    ensures Coherent(CommitSubgraph(db, q, ReadRun(db, q.runId), items, now))
    ensures View(CommitSubgraph(db, q, ReadRun(db, q.runId), items, now)) == RestartNodes(View(db), q, now)
  {
    FoundIsAll(db, q, items);
    SameRestart(View(db), q, Found(q, items), now);
    SubgraphRefines(db, q, items, now);
    if HasRoot(items, q) {
      AllowedExactly(db, q, items);
    }
  }

  lemma RootIsWritten(db: Db, items: seq<Execution>, q: RestartSubgraph, now: Time, root: Execution)
    requires Coherent(db) && P.Current(db, items) && db.events.Keys == db.records.Keys
    requires exists i :: 0 <= i < |items| && items[i].nodeKey == q.root && items[i].runId == Some(q.runId) && root == ResetItem(items[i], q, now)
    ensures M.IsRoot(root, q)
    ensures root.id in SaveResets(db, items, q, now).records && SaveResets(db, items, q, now).records[root.id] == root
  {
    var i :| 0 <= i < |items| && items[i].nodeKey == q.root && items[i].runId == Some(q.runId) && root == ResetItem(items[i], q, now);
    SaveResetsMeans(db, items, q, now);
    assert ResetAt(db, SaveResets(db, items, q, now), items, q, now, items[i].id);
    assert Among(items, items[i].id);
  }

  /** Where a claim stands after the first i candidates. */
  ghost predicate InOrder(was: Db, db: Db, ordered: seq<Execution>, i: nat, accepted: set<TaskKey>, limit: nat,
                          picked: seq<Uuid>, claimed: seq<Execution>, owner: string, tokens: seq<Uuid>, lease: int, now: Time)
    requires i <= |ordered|
  {
    && Coherent(db) && picked == Firsts(ordered, i, accepted, now, limit)
    && AreStarted(was, picked, claimed, owner, tokens, lease, now)
    && View(db) == ClaimAll(View(was), picked, owner, tokens, lease, now)
  }

  ghost predicate AreStarted(was: Db, picked: seq<Uuid>, claimed: seq<Execution>, owner: string, tokens: seq<Uuid>, lease: int, now: Time) {
    && |claimed| == |picked| <= |tokens|
    && (forall i :: 0 <= i < |picked| ==>
          picked[i] in was.records && HandedTo(was.records[picked[i]], claimed[i], owner, tokens[i], lease, now))
  }

  lemma OneMoreStarted(was: Db, picked: seq<Uuid>, claimed: seq<Execution>, id: Uuid, won: Execution,
                       owner: string, tokens: seq<Uuid>, lease: int, now: Time)
    requires AreStarted(was, picked, claimed, owner, tokens, lease, now) && |picked| < |tokens|
    requires id in was.records && HandedTo(was.records[id], won, owner, tokens[|claimed|], lease, now)
    ensures AreStarted(was, picked + [id], claimed + [won], owner, tokens, lease, now)
  {
  }

  lemma FirstsAreCurrent(db: Db, ordered: seq<Execution>, n: nat, accepted: set<TaskKey>, now: Time, limit: nat)
    requires P.Current(db, ordered) && n <= |ordered|
    ensures
      var picked := Firsts(ordered, n, accepted, now, limit);
      && Distinct(picked)
      && (forall i :: 0 <= i < |picked| ==>
            picked[i] in db.records && db.records[picked[i]].id == picked[i] && Eligible(db.records[picked[i]], accepted, now))
      && (n < |ordered| ==> ordered[n].id !in picked)
  {
    var picked := Firsts(ordered, n, accepted, now, limit);
    FirstsAreEligible(ordered, n, accepted, now, limit);
    forall i | 0 <= i < |picked|
      ensures picked[i] in db.records && db.records[picked[i]].id == picked[i] && Eligible(db.records[picked[i]], accepted, now)
      ensures n < |ordered| ==> ordered[n].id != picked[i]
    {
      assert PickedAt(ordered, n, accepted, now, picked[i]);
    }
  }

  /** The next candidate is still as it was loaded, and claiming it is one more claim. */
  lemma NextCandidate(was: Db, db: Db, ordered: seq<Execution>, i: nat, accepted: set<TaskKey>,
                      owner: string, tokens: seq<Uuid>, lease: int, now: Time, limit: nat)
    requires P.Current(was, ordered) && i < |ordered| && Coherent(db)
    requires |Firsts(ordered, i, accepted, now, limit)| < limit <= |tokens|
    requires View(db) == ClaimAll(View(was), Firsts(ordered, i, accepted, now, limit), owner, tokens, lease, now)
    ensures ordered[i].id in db.records && db.records[ordered[i].id] == ordered[i]
    ensures
      var picked := Firsts(ordered, i, accepted, now, limit);
      var db' := CommitTouch(db, ordered[i], Start(owner, tokens[|picked|], lease), now);
      && Coherent(db')
      && View(db') == ClaimAll(View(was), picked + [ordered[i].id], owner, tokens, lease, now)
  {
    var picked := Firsts(ordered, i, accepted, now, limit);
    FirstsAreCurrent(was, ordered, i, accepted, now, limit);
    ClaimedRecords(View(was), picked, owner, tokens, lease, now);
    var id := ordered[i].id;
    TouchKeepsCoherent(db, id, Start(owner, tokens[|picked|], lease), now);
    TouchRefines(db, id, Start(owner, tokens[|picked|], lease), now);
    assert (picked + [id])[..|picked|] == picked;
  }

  lemma NameOf(keys: seq<TaskKey>, names: seq<string>, k: TaskKey)
    requires |names| == |keys| && (forall i :: 0 <= i < |keys| ==> names[i] == keys[i].name) && k in Elements(keys)
    ensures k.name in names
  {
    var i :| 0 <= i < |keys| && keys[i] == k;
    assert names[i] == k.name;
  }

  lemma LoadedIsPick(db: Db, keys: seq<TaskKey>, names: seq<string>, limit: nat, now: Time, ordered: seq<Execution>)
    requires ExecutionsCoherent(db) && |names| == |keys| && forall i :: 0 <= i < |keys| ==> names[i] == keys[i].name
    requires P.Current(db, ordered) && Sorted(Sooner, ordered)
    requires forall name, id :: name in names && QueuedDue(db, name, now, id) ==> Fits(db, name, limit, now) ==>
               id in db.records && db.records[id] in ordered
    ensures (forall k :: k in keys ==> Fits(db, k.name, limit, now)) ==>
              IsPick(db.records, Elements(keys), now, limit, Firsts(ordered, |ordered|, Elements(keys), now, limit))
  {
    if forall k :: k in keys ==> Fits(db, k.name, limit, now) {
      EligibleAreLoaded(db, keys, names, limit, now, ordered);
      FirstsIsPick(db, ordered, Elements(keys), now, limit);
    }
  }

  lemma NoneLeftBehind(db: Db, keys: seq<TaskKey>, names: seq<string>, limit: nat, now: Time, ordered: seq<Execution>)
    requires ExecutionsCoherent(db) && |names| == |keys| && forall i :: 0 <= i < |keys| ==> names[i] == keys[i].name
    requires P.Current(db, ordered) && AllLoaded(db, names, now, Loaded(ordered), if 8 * limit > 128 then 8 * limit else 128)
    ensures
      var picked := Firsts(ordered, |ordered|, Elements(keys), now, limit);
      |picked| < limit ==>
        forall id :: id in db.records && Eligible(db.records[id], Elements(keys), now) && id !in picked ==>
          CrowdedOut(db, Elements(keys), now, picked, if 8 * limit > 128 then 8 * limit else 128, id)
  {
    var picked, window := Firsts(ordered, |ordered|, Elements(keys), now, limit), if 8 * limit > 128 then 8 * limit else 128;
    if |picked| < limit {
      forall id | id in db.records && Eligible(db.records[id], Elements(keys), now) && id !in picked
        ensures CrowdedOut(db, Elements(keys), now, picked, window, id)
      {
        NameOf(keys, names, TaskKey(db.records[id].taskName, db.records[id].taskVersion));
        LeftBehind(db, names, ordered, Elements(keys), now, limit, window, id);
      }
    }
  }

  lemma EligibleAreLoaded(db: Db, keys: seq<TaskKey>, names: seq<string>, limit: nat, now: Time, ordered: seq<Execution>)
    requires ExecutionsCoherent(db) && |names| == |keys| && forall i :: 0 <= i < |keys| ==> names[i] == keys[i].name
    requires forall k :: k in keys ==> Fits(db, k.name, limit, now)
    requires forall name, id :: name in names && Fits(db, name, limit, now) && QueuedDue(db, name, now, id) ==>
               id in db.records && db.records[id] in ordered
    ensures forall id :: id in db.records && Eligible(db.records[id], Elements(keys), now) ==>
              db.records[id].id == id && db.records[id] in ordered
  {
    forall id | id in db.records && Eligible(db.records[id], Elements(keys), now)
      ensures db.records[id].id == id && db.records[id] in ordered
    {
      assert IndexedAt(db, id);
      NothingHidden(db, id, now);
      NameOf(keys, names, TaskKey(db.records[id].taskName, db.records[id].taskVersion));
    }
  }
}
