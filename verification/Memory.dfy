/** The in-memory store: six maps updated in place under one lock. */
module Memory {
  import opened Model
  import opened Records
  import opened Storage
  import opened Sorting
  import opened Delivery
  import L = Listing
  import R = Retention
  import C = Counting

  class MemoryStore {
    var executions: map<Uuid, Execution>
    var runs: map<Uuid, PipelineRun>
    var events: map<Uuid, seq<Event>>
    var idempotent: map<(string, IdemKey), Uuid>
    var nodes: map<(Uuid, string), Uuid>
    var runIdempotent: map<(string, IdemKey), Uuid>

    /** The contents as a value. */
    function View(): Store
      reads this
    {
      Store(executions, runs, events, idempotent, nodes, runIdempotent)
    }

    /** Records are stored under their ids, and the indexes lead to records. */
    ghost predicate Keyed()
      reads this
    {
      && (forall id :: id in executions ==> executions[id].id == id)
      && (forall k :: k in idempotent ==> idempotent[k] in executions)
      && (forall k :: k in nodes ==> nodes[k] in executions)
      && events.Keys == executions.Keys
    }

    constructor ()
      ensures View() == EMPTY && Keyed()
    {
      executions, runs, events, idempotent, nodes, runIdempotent := map[], map[], map[], map[], map[], map[];
    }

    method AppendEvent(item: Execution, kind: EventType, error: string, now: Time)
      modifies this`events
      ensures events == old(events)[item.id := (if item.id in old(events) then old(events)[item.id] else []) + [Event(kind, item.attempt, error, now)]]
    {
      var log := if item.id in events then events[item.id] else [];
      events := events[item.id := log + [Event(kind, item.attempt, error, now)]];
    }

    method CreateExecution(request: CreateExecution, newId: Uuid, now: Time) returns (r: Result<Execution>)
      requires Keyed() && newId != NIL && newId !in executions
      modifies this
      ensures View() == CreateRecord(old(View()), request, newId, now) && Keyed()
      ensures r == CreateReply(old(View()), request, newId, now)
      ensures r.Ok? && newId in executions ==> r.value == executions[newId] && MadeFor(r.value, request, newId, now)
    {
      if request.taskName == "" {
        return Err(ErrEmptyName);
      }
      var idem := (request.taskName, request.idempotencyKey);
      if request.idempotencyKey != NoKey && idem in idempotent {
        return Ok(executions[idempotent[idem]]);
      }
      if request.runId.Some? && request.nodeKey != "" && (request.runId.value, request.nodeKey) in nodes {
        return Ok(executions[nodes[(request.runId.value, request.nodeKey)]]);
      }
      var at := if request.availableAt == ZERO_TIME then now else request.availableAt;
      var max := if request.maxAttempts <= 0 then 1 else request.maxAttempts;
      var item := Execution(newId, request.taskName, request.taskVersion, request.input, "", Pending, 0, max, at,
                            "", NIL, ZERO_TIME, "", request.idempotencyKey, request.runId, request.nodeKey, now, None, None);
      assert item == NewExecution(request, newId, now);
      InsertExecution(item, now);
      r := Ok(item);
    }

    /** Stores a new record under its id and its unique keys. */
    method InsertExecution(item: Execution, now: Time)
      requires Keyed() && item.id !in executions && item.attempt == 0
      modifies this
      ensures View() == Insert(old(View()), item, now) && Keyed()
    {
      executions := executions[item.id := item];
      if item.idempotencyKey != NoKey {
        idempotent := idempotent[(item.taskName, item.idempotencyKey) := item.id];
      }
      if item.runId.Some? && item.nodeKey != "" {
        nodes := nodes[(item.runId.value, item.nodeKey) := item.id];
      }
      AppendEvent(item, EventCreated, "", now);
      assert events[item.id] == [Event(EventCreated, 0, "", now)];
    }

    method GetExecution(id: Uuid) returns (r: Result<Execution>)
      ensures r == if id in executions then Ok(executions[id]) else Err(ErrNotFound)
    {
      if id !in executions {
        return Err(ErrNotFound);
      }
      r := Ok(executions[id]);
    }

    // -------------------------------------------------------------------------------------------
    // Lease-guarded transitions

    method Owned(id: Uuid, token: Uuid) returns (r: Result<Execution>)
      ensures r == if id !in executions then Err(ErrNotFound)
                   else if !Records.Owned(executions[id], token) then Err(ErrLeaseLost) else Ok(executions[id])
    {
      if id !in executions {
        return Err(ErrNotFound);
      }
      var item := executions[id];
      if item.status != Running || token == NIL || item.leaseToken != token {
        return Err(ErrLeaseLost);
      }
      r := Ok(item);
    }

    method Heartbeat(id: Uuid, token: Uuid, lease: int, now: Time) returns (r: Result<Execution>)
      requires Keyed()
      modifies this
      ensures View() == TouchRecord(old(View()), id, Beat(token, lease), now) && Keyed()
      ensures r == TouchReply(old(View()), id, Beat(token, lease), now)
      ensures r.Ok? ==> id in old(executions) && executions == old(executions)[id := r.value]
      ensures r.Ok? ==> r.value == old(executions)[id].(leaseUntil := now + lease)
    {
      r := Owned(id, token);
      if r.Err? {
        return;
      }
      var item := r.value;
      item := item.(leaseUntil := now + lease);
      executions := executions[id := item];
      r := Ok(item);
    }

    method Succeed(id: Uuid, token: Uuid, output: Json, now: Time) returns (r: Result<Execution>)
      requires Keyed()
      modifies this
      ensures View() == TouchRecord(old(View()), id, RecordOp.Succeed(token, output), now) && Keyed()
      ensures r == TouchReply(old(View()), id, RecordOp.Succeed(token, output), now)
      ensures r.Ok? ==> id in old(executions) && executions == old(executions)[id := r.value]
      ensures r.Ok? ==> r.value == old(executions)[id].(status := Succeeded, output := output, finishedAt := Some(now),
                                                            leaseOwner := "", leaseToken := NIL, leaseUntil := ZERO_TIME)
    {
      r := Owned(id, token);
      if r.Err? {
        return;
      }
      var item := r.value;
      item := item.(status := Succeeded, output := output, finishedAt := Some(now));
      item := item.(leaseToken := NIL, leaseOwner := "", leaseUntil := ZERO_TIME);
      executions := executions[id := item];
      AppendEvent(item, EventSucceeded, "", now);
      r := Ok(item);
    }

    method Retry(id: Uuid, token: Uuid, error: string, delay: int, now: Time) returns (r: Result<Execution>)
      requires Keyed()
      modifies this
      ensures View() == TouchRecord(old(View()), id, RetryLater(token, error, delay), now) && Keyed()
      ensures r == TouchReply(old(View()), id, RetryLater(token, error, delay), now)
      ensures r.Ok? ==> id in old(executions) && executions == old(executions)[id := r.value]
      ensures r.Ok? && old(executions)[id].attempt < old(executions)[id].maxAttempts ==>
                r.value == old(executions)[id].(status := Status.Retry, lastError := error, availableAt := now + delay,
                                                leaseOwner := "", leaseToken := NIL, leaseUntil := ZERO_TIME)
      ensures r.Ok? && old(executions)[id].maxAttempts <= old(executions)[id].attempt ==>
                r.value == old(executions)[id].(status := Failed, lastError := error, finishedAt := Some(now),
                                                leaseOwner := "", leaseToken := NIL, leaseUntil := ZERO_TIME)
    {
      r := Owned(id, token);
      if r.Err? {
        return;
      }
      var item := r.value;
      item := item.(lastError := error, leaseToken := NIL, leaseOwner := "", leaseUntil := ZERO_TIME);
      if item.attempt >= item.maxAttempts {
        item := item.(status := Failed, finishedAt := Some(now));
        executions := executions[id := item];
        AppendEvent(item, EventFailed, error, now);
        return Ok(item);
      }
      item := item.(status := Status.Retry, availableAt := now + delay);
      executions := executions[id := item];
      AppendEvent(item, EventRetried, error, now);
      r := Ok(item);
    }

    method Fail(id: Uuid, token: Uuid, error: string, now: Time) returns (r: Result<Execution>)
      requires Keyed()
      modifies this
      ensures View() == TouchRecord(old(View()), id, RecordOp.Fail(token, error), now) && Keyed()
      ensures r == TouchReply(old(View()), id, RecordOp.Fail(token, error), now)
      ensures r.Ok? ==> id in old(executions) && executions == old(executions)[id := r.value]
      ensures r.Ok? ==> r.value == old(executions)[id].(status := Failed, lastError := error, finishedAt := Some(now),
                                                            leaseOwner := "", leaseToken := NIL, leaseUntil := ZERO_TIME)
    {
      r := Owned(id, token);
      if r.Err? {
        return;
      }
      var item := r.value;
      item := item.(status := Failed, lastError := error, finishedAt := Some(now));
      item := item.(leaseToken := NIL, leaseOwner := "", leaseUntil := ZERO_TIME);
      executions := executions[id := item];
      AppendEvent(item, EventFailed, error, now);
      r := Ok(item);
    }

    // -------------------------------------------------------------------------------------------
    // Operator and coordinator transitions

    method CancelExecution(id: Uuid, reason: string, now: Time) returns (r: Result<Execution>)
      requires Keyed()
      modifies this
      ensures View() == TouchRecord(old(View()), id, Cancel(reason), now) && Keyed()
      ensures r == TouchReply(old(View()), id, Cancel(reason), now)
      ensures r.Ok? ==> id in old(executions) && executions == old(executions)[id := r.value]
      ensures r.Ok? ==> r.value == old(executions)[id].(status := Cancelled, lastError := reason, finishedAt := Some(now),
                                                            leaseOwner := "", leaseToken := NIL, leaseUntil := ZERO_TIME)
    {
      if id !in executions {
        return Err(ErrNotFound);
      }
      var item := executions[id];
      if item.status == Succeeded || item.status == Failed || item.status == Cancelled {
        return Err(ErrNotFound);
      }
      item := item.(status := Cancelled, lastError := reason, finishedAt := Some(now));
      item := item.(leaseToken := NIL, leaseOwner := "", leaseUntil := ZERO_TIME);
      executions := executions[id := item];
      AppendEvent(item, EventCancelled, reason, now);
      r := Ok(item);
    }

    method RestartExecution(id: Uuid, availableAt: Time, now: Time) returns (r: Result<Execution>)
      requires Keyed()
      modifies this
      ensures View() == TouchRecord(old(View()), id, Restart(availableAt), now) && Keyed()
      ensures r == TouchReply(old(View()), id, Restart(availableAt), now)
      ensures r.Ok? ==> id in old(executions) && executions == old(executions)[id := r.value]
      ensures r.Ok? ==>
                r.value == old(executions)[id].(status := Pending, attempt := 0, output := "", lastError := "",
                                                availableAt := if availableAt == ZERO_TIME then now else availableAt,
                                                startedAt := None, finishedAt := None,
                                                leaseOwner := "", leaseToken := NIL, leaseUntil := ZERO_TIME)
    {
      if id !in executions {
        return Err(ErrNotFound);
      }
      var item := executions[id];
      if item.runId.Some? {
        return Err(ErrPipelineExecution);
      }
      if item.status == Pending || item.status == Status.Retry || item.status == Running {
        return Err(ErrActive);
      }
      var at := if availableAt == ZERO_TIME then now else availableAt;
      item := item.(status := Pending, attempt := 0, availableAt := at);
      item := item.(output := "", lastError := "", startedAt := None, finishedAt := None);
      item := item.(leaseToken := NIL, leaseOwner := "", leaseUntil := ZERO_TIME);
      executions := executions[id := item];
      AppendEvent(item, EventRestarted, "", now);
      r := Ok(item);
    }

    method ReleaseExecution(id: Uuid, input: Json, availableAt: Time, now: Time) returns (r: Result<Execution>)
      requires Keyed()
      modifies this
      ensures View() == TouchRecord(old(View()), id, Release(input, availableAt), now) && Keyed()
      ensures r == TouchReply(old(View()), id, Release(input, availableAt), now)
      ensures r.Ok? ==> id in old(executions) && executions == old(executions)[id := r.value]
      ensures r.Ok? ==>
                r.value == old(executions)[id].(status := Pending, input := input,
                                                availableAt := if availableAt == ZERO_TIME then now else availableAt)
    {
      if id !in executions {
        return Err(ErrNotFound);
      }
      var item := executions[id];
      if item.status != Blocked {
        return Err(ErrActive);
      }
      var at := if availableAt == ZERO_TIME then now else availableAt;
      item := item.(status := Pending, input := input, availableAt := at);
      executions := executions[id := item];
      r := Ok(item);
    }

    /** Looks for the root of a subgraph restart and for anything active in it. */
    method CheckSubgraph(q: RestartSubgraph) returns (r: Result<Uuid>)
      requires Keyed()
      ensures r.Err? && r.error == ErrActive <==> RestartBusy(View(), q)
      ensures r.Err? && r.error == ErrNotFound <==> !RestartBusy(View(), q) && !RestartFound(View(), q)
      ensures r.Err? ==> r.error in {ErrActive, ErrNotFound}
      ensures r.Ok? ==> r.value in executions && IsRoot(executions[r.value], q)
    {
      var root: Option<Uuid> := None;
      var ids := Enumerate(executions.Keys);
      for n := 0 to |ids|
        invariant forall j :: 0 <= j < n ==> ids[j] in executions && Quiet(executions[ids[j]], q)
        invariant root.None? ==> forall j :: 0 <= j < n ==> !IsRoot(executions[ids[j]], q)
        invariant root.Some? ==> root.value in executions && IsRoot(executions[root.value], q)
      {
        assert ids[n] in Elements(ids);
        var item := executions[ids[n]];
        if item.runId != Some(q.runId) || (item.nodeKey != q.root && item.nodeKey !in q.descendants) {
          continue;
        }
        if item.status == Pending || item.status == Status.Retry || item.status == Running {
          return Err(ErrActive);
        }
        if item.nodeKey == q.root {
          root := Some(ids[n]);
        }
      }
      NothingActive(View(), q, ids);
      if root.None? {
        return Err(ErrNotFound);
      }
      r := Ok(root.value);
    }

    /** Resets one record if it belongs to the subgraph. */
    method ResetOne(id: Uuid, q: RestartSubgraph, now: Time)
      requires Keyed() && id in executions
      modifies this
      ensures Keyed() && View() == ResetIn(old(View()), id, q, now)
    {
      var item := executions[id];
      assert events == events[id := events[id]] && executions == executions[id := item];
      if item.runId != Some(q.runId) {
        return;
      }
      var status;
      if item.nodeKey == q.root {
        status := Pending;
      } else if item.nodeKey in q.descendants {
        status := Blocked;
      } else {
        return;
      }
      item := item.(status := status, attempt := 0, availableAt := OrNow(q.availableAt, now));
      item := item.(output := "", lastError := "", startedAt := None, finishedAt := None);
      item := item.(leaseToken := NIL, leaseOwner := "", leaseUntil := ZERO_TIME);
      executions := executions[id := item];
      AppendEvent(item, EventRestarted, "", now);
    }

    method ResetAll(q: RestartSubgraph, now: Time)
      requires Keyed()
      modifies this
      ensures Keyed() && View() == ResetStore(old(View()), old(executions).Keys, q, now)
    {
      ghost var was := View();
      var ids := Enumerate(executions.Keys);
      for n := 0 to |ids|
        invariant Keyed() && executions.Keys == was.executions.Keys
        invariant View() == ResetEach(was, ids[..n], q, now)
      {
        assert ids[n] in Elements(ids);
        ResetEachNext(was, ids, n, q, now);
        ResetOne(ids[n], q, now);
      }
      assert ids[..|ids|] == ids;
      EachIsAll(was, ids, q, now);
    }

    /** Restarts a node and its descendants and reopens the run, or refuses and changes nothing. */
    method RestartPipelineSubgraph(q: RestartSubgraph, now: Time) returns (r: Result<Execution>)
      requires Keyed()
      modifies this
      ensures View() == RestartNodes(old(View()), q, now) && Keyed()
      ensures r.Ok? <==> RestartAllowed(old(View()), q)
      ensures r.Ok? ==> IsRoot(r.value, q) && r.value.id in executions && executions[r.value.id] == r.value
      ensures r.Err? ==> r.error == if q.runId in old(runs) && RestartBusy(old(View()), q) then ErrActive else ErrNotFound
    {
      if q.runId !in runs {
        return Err(ErrNotFound);
      }
      var run := runs[q.runId];
      var root := CheckSubgraph(q);
      if root.Err? {
        return Err(root.error);
      }
      RootFound(View(), q, root.value);
      ResetSubgraph(run, q, now);
      r := Ok(executions[root.value]);
    }

    method ResetSubgraph(read: PipelineRun, q: RestartSubgraph, now: Time)
      requires Keyed() && q.runId in runs && runs[q.runId] == read && RestartAllowed(View(), q)
      modifies this
      ensures View() == RestartNodes(old(View()), q, now) && Keyed()
    {
      ResetAll(q, now);
      var run := read.(status := RunRunning, error := "", finishedAt := None, updatedAt := now, revision := read.revision + 1);
      runs := runs[q.runId := run];
    }

    // -------------------------------------------------------------------------------------------
    // Runs

    method CreatePipelineRun(q: CreateRun, newId: Uuid, now: Time) returns (run: PipelineRun)
      requires Keyed() && (forall k :: k in runIdempotent ==> runIdempotent[k] in runs)
      modifies this
      ensures View() == CreateRunRecord(old(View()), q, newId, now) && Keyed()
      ensures run == (var key := (q.pipelineName, q.idempotencyKey);
                      if q.idempotencyKey != NoKey && key in old(runIdempotent) then old(runs)[old(runIdempotent)[key]]
                      else PipelineRun(newId, q.pipelineName, q.pipelineVersion, q.input, RunPending, "", q.idempotencyKey, 0, now, now, None))
    {
      var key := (q.pipelineName, q.idempotencyKey);
      if q.idempotencyKey != NoKey && key in runIdempotent {
        return runs[runIdempotent[key]];
      }
      run := PipelineRun(newId, q.pipelineName, q.pipelineVersion, q.input, RunPending, "", q.idempotencyKey, 0, now, now, None);
      runs := runs[newId := run];
      if q.idempotencyKey != NoKey {
        runIdempotent := runIdempotent[key := newId];
      }
    }

    method GetPipelineRun(id: Uuid) returns (r: Result<PipelineRun>)
      ensures r == if id in runs then Ok(runs[id]) else Err(ErrNotFound)
    {
      if id !in runs {
        return Err(ErrNotFound);
      }
      r := Ok(runs[id]);
    }

    method SetPipelineRunStatus(id: Uuid, expected: nat, status: RunStatus, error: string, now: Time) returns (r: Result<()>)
      requires Keyed()
      modifies this
      ensures View() == SetRunStatus(old(View()), id, expected, status, error, now) && Keyed()
      ensures r == StatusReply(old(View()), id, expected)
      ensures r.Ok? ==> id in old(runs) && runs == old(runs)[id :=
                old(runs)[id].(status := status, error := error, updatedAt := now, revision := old(runs)[id].revision + 1,
                               finishedAt := if status.Terminal() then Some(now) else old(runs)[id].finishedAt)]
    {
      if id !in runs {
        return Err(ErrNotFound);
      }
      var run := runs[id];
      if run.revision != expected {
        return Err(ErrConflict);
      }
      run := run.(status := status, error := error, updatedAt := now, revision := run.revision + 1);
      if status == RunSucceeded || status == RunFailed || status == RunCancelled {
        run := run.(finishedAt := Some(now));
      }
      runs := runs[id := run];
      r := Ok(());
    }

    // -------------------------------------------------------------------------------------------
    // Delivery

    method StartDelivery(candidate: Execution, owner: string, token: Uuid, lease: int, now: Time) returns (started: Execution)
      requires Keyed() && candidate.id in executions && executions[candidate.id] == candidate && Claimable(candidate, now)
      modifies this
      ensures View() == TouchRecord(old(View()), candidate.id, Start(owner, token, lease), now) && Keyed()
      ensures HandedTo(candidate, started, owner, token, lease, now)
    {
      started := candidate.(status := Running, attempt := candidate.attempt + 1, leaseOwner := owner,
                            leaseToken := token, leaseUntil := now + lease);
      if started.startedAt.None? {
        started := started.(startedAt := Some(now));
      }
      executions := executions[started.id := started];
      AppendEvent(started, EventStarted, "", now);
    }

    method StartAll(candidates: seq<Execution>, owner: string, tokens: seq<Uuid>, lease: int, now: Time) returns (claimed: seq<Execution>)
      requires Keyed() && |candidates| <= |tokens| && Distinct(Ids(candidates))
      requires forall j :: 0 <= j < |candidates| ==>
                 candidates[j].id in executions && executions[candidates[j].id] == candidates[j] && Claimable(candidates[j], now)
      modifies this
      ensures View() == ClaimAll(old(View()), Ids(candidates), owner, tokens, lease, now) && Keyed()
      ensures AllStarted(claimed, candidates, owner, tokens, now, lease)
    {
      ghost var was, picked := View(), Ids(candidates);
      claimed := [];
      for i := 0 to |candidates|
        invariant Keyed() && View() == ClaimAll(was, picked[..i], owner, tokens, lease, now)
        invariant AllStarted(claimed, candidates[..i], owner, tokens, now, lease)
      {
        ClaimedSoFar(was, candidates, i, owner, tokens, lease, now);
        var started := StartDelivery(candidates[i], owner, tokens[i], lease, now);
        OneMoreStarted(claimed, candidates, i, owner, tokens, now, lease);
        claimed := claimed + [started];
      }
      assert candidates[..|candidates|] == candidates && picked[..|candidates|] == picked;
    }

    /** Delivers the soonest eligible executions, each under a token of its own. */
    method Claim(owner: string, keys: seq<TaskKey>, limit: int, lease: int, tokens: seq<Uuid>, now: Time) returns (claimed: seq<Execution>)
      requires Keyed() && |executions| <= |tokens|
      modifies this
      ensures IsPick(old(executions), Elements(keys), now, if limit <= 0 then 1 else limit, Ids(claimed))
      ensures |claimed| <= |tokens| && View() == ClaimAll(old(View()), Ids(claimed), owner, tokens, lease, now) && Keyed()
      ensures forall i :: 0 <= i < |claimed| ==> claimed[i].id in executions && claimed[i] == executions[claimed[i].id]
      ensures forall i :: 0 <= i < |claimed| ==>
                claimed[i].id in old(executions) && HandedTo(old(executions)[claimed[i].id], claimed[i], owner, tokens[i], lease, now)
    {
      var max := if limit <= 0 then 1 else limit;
      var candidates := Candidates(executions, Elements(keys), now, max);
      ghost var was := View();
      claimed := StartAll(candidates, owner, tokens, lease, now);
      ClaimedMatch(was, candidates, claimed, owner, tokens, lease, now);
    }

    /** Fails one execution if its delivery is dead. */
    method ReapOne(id: Uuid, now: Time) returns (run: Option<Uuid>)
      requires Keyed() && id in executions
      modifies this
      ensures View() == TouchRecord(old(View()), id, Reap, now) && Keyed()
      ensures run == if Reapable(old(executions)[id], now) then old(executions)[id].runId else None
    {
      var item := executions[id];
      if item.status != Running || now < item.leaseUntil || item.attempt < item.maxAttempts {
        return None;
      }
      item := item.(status := Failed, lastError := REAPED, finishedAt := Some(now));
      item := item.(leaseToken := NIL, leaseOwner := "", leaseUntil := ZERO_TIME);
      executions := executions[id := item];
      AppendEvent(item, EventFailed, item.lastError, now);
      run := item.runId;
    }

    /** Fails every expired delivery without attempts left and names the runs concerned. */
    method ReapExpired(now: Time) returns (found: set<Uuid>)
      requires Keyed()
      modifies this
      ensures View() == ReapAll(old(View()), DeadDeliveries(old(View()), now), now) && Keyed()
      ensures found == RunsOf(old(executions), DeadDeliveries(old(View()), now))
    {
      ghost var was := View();
      var ids := Enumerate(executions.Keys);
      found := {};
      ReapNone(was, ids, now);
      for n := 0 to |ids|
        invariant Keyed() && View() == Swept(was, ids, n, now)
        invariant found == SweptRuns(was, ids, n, now)
      {
        ReapNext(was, ids, n, now);
        var run := ReapOne(ids[n], now);
        if run.Some? {
          found := found + {run.value};
        }
      }
      AllIds(was, ids, now);
    }

    // -------------------------------------------------------------------------------------------
    // Listing and counting

    method ListExecutions(filter: L.Filter) returns (page: seq<Execution>)
      requires Keyed()
      ensures L.IsPage(executions, filter, page)
    {
      page := Page(executions, filter);
    }

    /** A client that follows cursors until it meets an empty page has seen the whole listing. */
    method FollowCursors(filter: L.Filter) returns (items: seq<Execution>)
      requires Keyed()
      ensures L.IsPage(executions, L.Unpaged(filter), items)
    {
      ghost var all := L.WholeListing(executions, filter);
      items := [];
      var page := ListExecutions(filter.(before := None));
      while page != []
        invariant items <= all && L.IsPage(executions, L.PageFilter(filter, all, |items|), page)
        decreases |all| - |items|
      {
        L.FollowStep(executions, filter, all, items, page);
        items := items + page;
        page := ListExecutions(filter.(before := Some(L.CursorOf(page[|page| - 1]))));
      }
      L.FollowStep(executions, filter, all, items, page);
    }

    /** The executions of a run, oldest first. */
    method ListRunExecutions(run: Uuid) returns (items: seq<Execution>)
      requires Keyed()
      ensures AreExecutionsOf(executions, run, items)
      ensures forall i, j :: 0 <= i < j < |items| ==> items[i].createdAt <= items[j].createdAt
    {
      items := RunRecords(executions, run);
      EarlierIsPreorder();
      var sorted := Sort(Earlier, items);
      SortedList(executions, run, items, sorted);
      items := sorted;
    }

    method ExecutionCounts() returns (rows: seq<C.Row>)
      requires Keyed()
      ensures C.AreRows(executions, rows)
    {
      var counts := C.CountExecutions(executions);
      rows := C.Tabulate(counts, executions);
    }

    // -------------------------------------------------------------------------------------------
    // Retention

    /** Removes an execution by its own keys, which leaves no entry that leads to it and takes none
        that leads elsewhere. */
    method DeleteExecution(id: Uuid)
      requires IndexesExact(View()) && id in executions
      modifies this
      ensures View() == DropExecutions(old(View()), {id}) && IndexesExact(View())
    {
      ghost var was := View();
      R.DropKeyedIsDrop(was, id);
      DropKeepsIndexes(was, {id});
      var item := executions[id];
      executions := executions - {id};
      events := events - {id};
      if item.idempotencyKey != NoKey {
        idempotent := idempotent - {(item.taskName, item.idempotencyKey)};
      }
      if item.runId.Some? {
        nodes := nodes - {(item.runId.value, item.nodeKey)};
      }
      assert View() == R.DropKeyed(was, id);
    }

    /** Deletes the given executions and counts them. */
    method DeleteAll(ids: seq<Uuid>) returns (count: nat)
      requires IndexesExact(View()) && Distinct(ids) && forall j :: 0 <= j < |ids| ==> ids[j] in executions
      modifies this
      ensures View() == DropExecutions(old(View()), Elements(ids)) && count == |ids|
    {
      ghost var was := View();
      count := 0;
      DropNothing(was, ids);
      for n := 0 to |ids|
        invariant IndexesExact(View()) && View() == DropExecutions(was, Elements(ids[..n])) && count == n
      {
        DropNext(was, ids, n);
        DeleteExecution(ids[n]);
        count := count + 1;
      }
      assert ids[..|ids|] == ids;
    }

    method DeleteRun(id: Uuid)
      requires id in runs
      modifies this
      ensures View() == DropRunKeyed(old(View()), id)
    {
      var run := runs[id];
      runs := runs - {id};
      if run.idempotencyKey != NoKey {
        runIdempotent := runIdempotent - {(run.pipelineName, run.idempotencyKey)};
      }
    }

    /** Removes a run and its executions, and counts the executions. */
    method PurgeRun(id: Uuid) returns (count: nat)
      requires IndexesExact(View()) && id in runs
      modifies this
      ensures View() == DropPipelineRun(old(View()), id) && count == |ExecutionsOf(old(View()), id)|
    {
      ghost var was := View();
      var ids := NodesOfRun(executions, id, was);
      count := DeleteAll(ids);
      RunKeyDropped(was, id);
      DeleteRun(id);
    }

    /** Removes one item and says how many executions and runs went with it. */
    method PurgeItem(item: R.Item) returns (removed: (nat, nat))
      requires IndexesExact(View()) && R.Present(View(), item)
      modifies this
      ensures View() == R.DropItem(old(View()), item)
      ensures removed.0 == |old(executions)| - |executions| && removed.1 == |old(runs)| - |runs|
    {
      ghost var was := View();
      R.DropItemSizes(was, item);
      match item {
        case RunItem(id, _) =>
          var count := PurgeRun(id);
          removed := (count, 1);
        case TaskItem(id, _) =>
          DeleteExecution(id);
          removed := (1, 0);
      }
    }

    /** Removes the oldest finished runs and standalone executions, at most a batch. */
    method Purge(before: Time, limit: int) returns (removed: (nat, nat), ghost batch: seq<R.Item>)
      requires IndexesExact(View())
      modifies this
      ensures R.IsBatch(old(View()), before, if limit <= 0 then 1000 else limit, batch)
      ensures View() == R.DropAll(old(View()), batch)
      ensures removed.0 == |old(executions)| - |executions| && removed.1 == |old(runs)| - |runs|
    {
      ghost var was := View();
      var candidates := RemovableItems(executions, runs, before, was);
      var chosen := OldestItems(candidates, R.BatchLimit(limit), was, before);
      batch := chosen;
      removed := PurgeBatch(chosen, before, R.BatchLimit(limit));
    }

    method PurgeBatch(batch: seq<R.Item>, ghost before: Time, ghost limit: nat) returns (removed: (nat, nat))
      requires IndexesExact(View()) && R.IsBatch(View(), before, limit, batch)
      modifies this
      ensures View() == R.DropAll(old(View()), batch)
      ensures removed.0 == |old(executions)| - |executions| && removed.1 == |old(runs)| - |runs|
    {
      ghost var was := View();
      removed := (0, 0);
      for i := 0 to |batch|
        invariant View() == R.DropAll(was, batch[..i])
        invariant removed.0 == |was.executions| - |executions| && removed.1 == |was.runs| - |runs|
      {
        PurgeNext(was, before, limit, batch, i);
        removed := PurgeAnother(batch[i], removed, R.DropAll(was, batch[..i + 1]));
      }
      assert batch[..|batch|] == batch;
    }

    method PurgeAnother(item: R.Item, removed: (nat, nat), ghost next: Store) returns (more: (nat, nat))
      requires IndexesExact(View()) && R.Present(View(), item) && next == R.DropItem(View(), item)
      modifies this
      ensures View() == next
      ensures more.0 == removed.0 + |old(executions)| - |executions| && more.1 == removed.1 + |old(runs)| - |runs|
    {
      var one := PurgeItem(item);
      more := (removed.0 + one.0, removed.1 + one.1);
    }
  }

  predicate IsRoot(e: Execution, q: RestartSubgraph) {
    e.runId == Some(q.runId) && e.nodeKey == q.root
  }

  predicate Quiet(e: Execution, q: RestartSubgraph) {
    ResetTo(e, q).Some? ==> !e.status.Active()
  }

  lemma NothingActive(s: Store, q: RestartSubgraph, ids: seq<Uuid>)
    requires Elements(ids) == s.executions.Keys
    requires forall j :: 0 <= j < |ids| ==> ids[j] in s.executions && Quiet(s.executions[ids[j]], q)
    ensures !RestartBusy(s, q)
    ensures (forall j :: 0 <= j < |ids| ==> !IsRoot(s.executions[ids[j]], q)) ==> !RestartFound(s, q)
  {
    EveryIdListed(s, ids);
    forall id | id in s.executions
      ensures Quiet(s.executions[id], q)
    {
      var j :| 0 <= j < |ids| && ids[j] == id;
    }
    if RestartFound(s, q) {
      var id :| id in s.executions && s.executions[id].runId == Some(q.runId) && s.executions[id].nodeKey == q.root;
      var j :| 0 <= j < |ids| && ids[j] == id;
      assert IsRoot(s.executions[ids[j]], q);
    }
  }

  lemma RootFound(s: Store, q: RestartSubgraph, id: Uuid)
    requires id in s.executions && IsRoot(s.executions[id], q)
    ensures RestartFound(s, q)
  {
  }

  /** The records and logs of some ids reset. */
  ghost function ResetRecords(es: Table, done: set<Uuid>, q: RestartSubgraph, now: Time): Table {
    map id | id in es :: if id in done then ResetRecord(es[id], q, now) else es[id]
  }

  ghost function ResetLogs(s: Store, done: set<Uuid>, q: RestartSubgraph, now: Time): map<Uuid, seq<Event>> {
    map id | id in s.executions :: if id in done then ResetLog(s.executions[id], LogOf(s, id), q, now) else LogOf(s, id)
  }

  ghost function ResetStore(s: Store, done: set<Uuid>, q: RestartSubgraph, now: Time): Store {
    s.(executions := ResetRecords(s.executions, done, q, now), events := ResetLogs(s, done, q, now))
  }

  /** One record and its log reset. */
  ghost function ResetIn(s: Store, id: Uuid, q: RestartSubgraph, now: Time): Store
    requires id in s.executions
  {
    s.(executions := s.executions[id := ResetRecord(s.executions[id], q, now)],
       events := s.events[id := ResetLog(s.executions[id], LogOf(s, id), q, now)])
  }

  ghost function ResetEach(s: Store, ids: seq<Uuid>, q: RestartSubgraph, now: Time): Store {
    if ids == [] then s
    else
      var before := ResetEach(s, ids[..|ids| - 1], q, now);
      if ids[|ids| - 1] in before.executions then ResetIn(before, ids[|ids| - 1], q, now) else before
  }

  lemma ResetEachNext(s: Store, ids: seq<Uuid>, n: nat, q: RestartSubgraph, now: Time)
    requires n < |ids| && ids[n] in ResetEach(s, ids[..n], q, now).executions
    ensures ResetEach(s, ids[..n + 1], q, now) == ResetIn(ResetEach(s, ids[..n], q, now), ids[n], q, now)
  {
    assert ids[..n + 1][..n] == ids[..n];
  }

  lemma {:induction false} EachIsStore(s: Store, ids: seq<Uuid>, n: nat, q: RestartSubgraph, now: Time)
    requires s.events.Keys == s.executions.Keys && Distinct(ids) && Elements(ids) == s.executions.Keys && n <= |ids|
    ensures SameReset(s, ids, n, q, now)
  {
    if n == 0 {
      ResetNone(s, ids, q, now);
    } else {
      EachIsStore(s, ids, n - 1, q, now);
      SameResetNext(s, ids, n - 1, q, now);
    }
  }

  ghost predicate SameReset(s: Store, ids: seq<Uuid>, n: nat, q: RestartSubgraph, now: Time)
    requires n <= |ids|
  {
    ResetEach(s, ids[..n], q, now) == ResetStore(s, Elements(ids[..n]), q, now)
  }

  lemma SameResetNext(s: Store, ids: seq<Uuid>, n: nat, q: RestartSubgraph, now: Time)
    requires s.events.Keys == s.executions.Keys && Distinct(ids) && Elements(ids) == s.executions.Keys && n < |ids|
    requires SameReset(s, ids, n, q, now)
    ensures SameReset(s, ids, n + 1, q, now)
  {
    EachOneMore(s, ids, n, q, now);
    ResetNext(s, ids, n, q, now);
  }

  lemma EachOneMore(s: Store, ids: seq<Uuid>, n: nat, q: RestartSubgraph, now: Time)
    requires n < |ids|
    ensures
      var before := ResetEach(s, ids[..n], q, now);
      ResetEach(s, ids[..n + 1], q, now) == if ids[n] in before.executions then ResetIn(before, ids[n], q, now) else before
  {
    assert ids[..n + 1][..n] == ids[..n];
  }

  lemma EachIsAll(s: Store, ids: seq<Uuid>, q: RestartSubgraph, now: Time)
    requires s.events.Keys == s.executions.Keys && Distinct(ids) && Elements(ids) == s.executions.Keys
    ensures ResetEach(s, ids, q, now) == ResetStore(s, s.executions.Keys, q, now)
  {
    EachIsStore(s, ids, |ids|, q, now);
    assert ids[..|ids|] == ids;
  }

  lemma ResetNone(s: Store, ids: seq<Uuid>, q: RestartSubgraph, now: Time)
    requires s.events.Keys == s.executions.Keys
    ensures ResetStore(s, Elements(ids[..0]), q, now) == s
  {
    assert ids[..0] == [] && Elements(ids[..0]) == {};
    assert ResetRecords(s.executions, {}, q, now) == s.executions;
    assert ResetLogs(s, {}, q, now) == s.events;
  }

  lemma ResetOneRecord(es: Table, done: set<Uuid>, id: Uuid, q: RestartSubgraph, now: Time)
    requires id in es && id !in done
    ensures ResetRecords(es, done, q, now)[id] == es[id]
    ensures ResetRecords(es, done + {id}, q, now) == ResetRecords(es, done, q, now)[id := ResetRecord(es[id], q, now)]
  {
  }

  lemma ResetOneLog(s: Store, done: set<Uuid>, id: Uuid, q: RestartSubgraph, now: Time)
    requires id in s.executions && id in s.events && id !in done
    ensures ResetLogs(s, done, q, now)[id] == s.events[id]
    ensures ResetLogs(s, done + {id}, q, now) == ResetLogs(s, done, q, now)[id := ResetLog(s.executions[id], s.events[id], q, now)]
  {
  }

  lemma ResetNext(s: Store, ids: seq<Uuid>, n: nat, q: RestartSubgraph, now: Time)
    requires s.events.Keys == s.executions.Keys
    requires Distinct(ids) && Elements(ids) <= s.executions.Keys && n < |ids|
    ensures ids[n] in ResetStore(s, Elements(ids[..n]), q, now).executions
    ensures ResetStore(s, Elements(ids[..n + 1]), q, now) == ResetIn(ResetStore(s, Elements(ids[..n]), q, now), ids[n], q, now)
  {
    assert ids[n] in Elements(ids);
    assert ids[n] !in ids[..n];
    assert Elements(ids[..n + 1]) == Elements(ids[..n]) + {ids[n]};
    ResetOneRecord(s.executions, Elements(ids[..n]), ids[n], q, now);
    ResetOneLog(s, Elements(ids[..n]), ids[n], q, now);
  }

  /** The store after the first n ids have been looked at, and the runs found. */
  ghost function Swept(s: Store, ids: seq<Uuid>, n: nat, now: Time): Store
    requires n <= |ids|
  {
    ReapAll(s, DeadAmong(s, ids[..n], now), now)
  }

  ghost function SweptRuns(s: Store, ids: seq<Uuid>, n: nat, now: Time): set<Uuid>
    requires n <= |ids|
  {
    RunsOf(s.executions, DeadAmong(s, ids[..n], now))
  }

  lemma ReapNext(s: Store, ids: seq<Uuid>, n: nat, now: Time)
    requires s.events.Keys == s.executions.Keys && forall x :: x in s.executions ==> s.executions[x].id == x
    requires Distinct(ids) && Elements(ids) <= s.executions.Keys && n < |ids|
    ensures ids[n] in s.executions
    ensures ids[n] in Swept(s, ids, n, now).executions && Swept(s, ids, n, now).executions[ids[n]] == s.executions[ids[n]]
    ensures Swept(s, ids, n + 1, now) == TouchRecord(Swept(s, ids, n, now), ids[n], Reap, now)
    ensures
      var e := s.executions[ids[n]];
      SweptRuns(s, ids, n + 1, now) ==
        if Reapable(e, now) && e.runId.Some? then SweptRuns(s, ids, n, now) + {e.runId.value} else SweptRuns(s, ids, n, now)
  {
    OneMoreId(s, ids, n, now);
    var e, dead := s.executions[ids[n]], DeadAmong(s, ids[..n], now);
    if Reapable(e, now) {
      ReapOneMore(s, dead, ids[n], now);
      RunsOfOneMore(s.executions, dead, ids[n]);
    }
  }

  predicate AllStarted(claimed: seq<Execution>, candidates: seq<Execution>, owner: string, tokens: seq<Uuid>, now: Time, lease: int) {
    && |claimed| == |candidates| <= |tokens|
    && (forall j :: 0 <= j < |claimed| ==> HandedTo(candidates[j], claimed[j], owner, tokens[j], lease, now))
  }

  lemma OneMoreStarted(claimed: seq<Execution>, candidates: seq<Execution>, i: nat, owner: string, tokens: seq<Uuid>, now: Time, lease: int)
    requires i < |candidates| <= |tokens| && AllStarted(claimed, candidates[..i], owner, tokens, now, lease)
    ensures AllStarted(claimed + [Started(candidates[i], owner, tokens[i], now, lease)], candidates[..i + 1], owner, tokens, now, lease)
  {
  }

  lemma ClaimedMatch(was: Store, candidates: seq<Execution>, claimed: seq<Execution>, owner: string, tokens: seq<Uuid>, lease: int, now: Time)
    requires AllStarted(claimed, candidates, owner, tokens, now, lease) && Distinct(Ids(candidates))
    requires forall j :: 0 <= j < |candidates| ==>
               candidates[j].id in was.executions && was.executions[candidates[j].id] == candidates[j] && Claimable(candidates[j], now)
    ensures Ids(claimed) == Ids(candidates)
    ensures
      var s := ClaimAll(was, Ids(candidates), owner, tokens, lease, now);
      forall i :: 0 <= i < |claimed| ==> claimed[i].id in s.executions && claimed[i] == s.executions[claimed[i].id]
  {
    StartedKeepIds(claimed, candidates, owner, tokens, now, lease);
    ClaimedRecords(was, Ids(candidates), owner, tokens, lease, now);
    var s := ClaimAll(was, Ids(candidates), owner, tokens, lease, now);
    forall i | 0 <= i < |claimed|
      ensures claimed[i].id in s.executions && claimed[i] == s.executions[claimed[i].id]
    {
      assert Ids(claimed)[i] == claimed[i].id == candidates[i].id;
      HandedOnce(candidates[i], claimed[i], s.executions[candidates[i].id], owner, tokens[i], lease, now);
    }
  }

  lemma StartedKeepIds(claimed: seq<Execution>, candidates: seq<Execution>, owner: string, tokens: seq<Uuid>, now: Time, lease: int)
    requires AllStarted(claimed, candidates, owner, tokens, now, lease)
    ensures Ids(claimed) == Ids(candidates) && forall i :: 0 <= i < |claimed| ==> claimed[i].id == candidates[i].id
  {
  }

  lemma HandedOnce(e: Execution, a: Execution, b: Execution, owner: string, token: Uuid, lease: int, now: Time)
    requires HandedTo(e, a, owner, token, lease, now) && HandedTo(e, b, owner, token, lease, now)
    ensures a == b
  {
  }

  /** The next candidate is still as it was listed. */
  lemma ClaimedSoFar(was: Store, candidates: seq<Execution>, i: nat, owner: string, tokens: seq<Uuid>, lease: int, now: Time)
    requires i < |candidates| <= |tokens| && Distinct(Ids(candidates))
    requires forall j :: 0 <= j < |candidates| ==>
               candidates[j].id in was.executions && was.executions[candidates[j].id] == candidates[j] && Claimable(candidates[j], now)
    ensures
      var s, picked := ClaimAll(was, Ids(candidates)[..i], owner, tokens, lease, now), Ids(candidates);
      && candidates[i].id in s.executions && s.executions[candidates[i].id] == candidates[i]
      && picked[..i + 1][..i] == picked[..i] && picked[i] == candidates[i].id
  {
    var picked := Ids(candidates);
    ClaimedRecords(was, picked[..i], owner, tokens, lease, now);
    assert picked[i] !in picked[..i];
  }

  lemma RunsOfOneMore(es: Table, dead: set<Uuid>, id: Uuid)
    requires id in es
    ensures RunsOf(es, dead + {id}) == (if es[id].runId.Some? then RunsOf(es, dead) + {es[id].runId.value} else RunsOf(es, dead))
  {
  }

  /** The runs some executions belong to. */
  function RunsOf(es: Table, ids: set<Uuid>): set<Uuid> {
    set id | id in ids && id in es && es[id].runId.Some? :: es[id].runId.value
  }

  ghost function DeadAmong(s: Store, ids: seq<Uuid>, now: Time): set<Uuid> {
    set id | id in ids && id in s.executions && Reapable(s.executions[id], now)
  }

  lemma ReapNone(s: Store, ids: seq<Uuid>, now: Time)
    ensures Swept(s, ids, 0, now) == s && SweptRuns(s, ids, 0, now) == {}
  {
    assert DeadAmong(s, ids[..0], now) == {};
    assert ReapAll(s, {}, now).executions == s.executions;
    assert ReapAll(s, {}, now).events == s.events;
  }

  lemma OneMoreId(s: Store, ids: seq<Uuid>, n: nat, now: Time)
    requires Distinct(ids) && Elements(ids) <= s.executions.Keys && n < |ids|
    ensures ids[n] in s.executions && ids[n] !in DeadAmong(s, ids[..n], now)
    ensures DeadAmong(s, ids[..n + 1], now) ==
            (if Reapable(s.executions[ids[n]], now) then DeadAmong(s, ids[..n], now) + {ids[n]} else DeadAmong(s, ids[..n], now))
    ensures ReapAll(s, DeadAmong(s, ids[..n], now), now).executions[ids[n]] == s.executions[ids[n]]
  {
    assert ids[n] in Elements(ids);
    assert ids[..n + 1] == ids[..n] + [ids[n]];
  }

  lemma AllIds(s: Store, ids: seq<Uuid>, now: Time)
    requires Elements(ids) == s.executions.Keys
    ensures Swept(s, ids, |ids|, now) == ReapAll(s, DeadDeliveries(s, now), now)
    ensures SweptRuns(s, ids, |ids|, now) == RunsOf(s.executions, DeadDeliveries(s, now))
  {
    assert ids[..|ids|] == ids;
    assert DeadAmong(s, ids, now) == DeadDeliveries(s, now) by {
      EveryIdListed(s, ids);
    }
  }

  lemma EveryIdListed(s: Store, ids: seq<Uuid>)
    requires Elements(ids) == s.executions.Keys
    ensures forall id :: id in s.executions <==> id in ids
  {
    forall id | id in s.executions
      ensures id in ids
    {
      assert id in Elements(ids);
    }
  }

  /** Every eligible record once, in the order the map is iterated. */
  method DueRecords(es: Table, accepted: set<TaskKey>, now: Time) returns (due: seq<Execution>)
    requires forall id :: id in es ==> es[id].id == id
    ensures |due| <= |es| && IsDue(es, es.Keys, accepted, now, due)
  {
    due := [];
    var ids := Enumerate(es.Keys);
    for n := 0 to |ids|
      invariant |due| <= n && IsDue(es, Elements(ids[..n]), accepted, now, due)
    {
      assert ids[n] in Elements(ids);
      NextDue(es, ids, n, accepted, now, due);
      var item := es[ids[n]];
      var fit := IsFit(item, accepted, now);
      if fit {
        due := due + [item];
      }
    }
    assert ids[..|ids|] == ids;
  }

  method IsFit(item: Execution, accepted: set<TaskKey>, now: Time) returns (fit: bool)
    ensures fit == Eligible(item, accepted, now)
  {
    if TaskKey(item.taskName, item.taskVersion) !in accepted || now < item.availableAt {
      return false;
    }
    var claimable := item.status == Pending || item.status == Status.Retry || (item.status == Running && item.leaseUntil <= now);
    if !claimable {
      return false;
    }
    fit := item.attempt < item.maxAttempts;
  }

  lemma NextDue(es: Table, ids: seq<Uuid>, n: nat, accepted: set<TaskKey>, now: Time, due: seq<Execution>)
    requires Distinct(ids) && n < |ids| && ids[n] in es && es[ids[n]].id == ids[n]
    requires IsDue(es, Elements(ids[..n]), accepted, now, due)
    ensures
      var e := es[ids[n]];
      IsDue(es, Elements(ids[..n + 1]), accepted, now, if Eligible(e, accepted, now) then due + [e] else due)
  {
    assert ids[n] !in ids[..n];
    assert Elements(ids[..n + 1]) == Elements(ids[..n]) + {ids[n]};
    OneMoreDue(es, Elements(ids[..n]), ids[n], accepted, now, due);
  }

  lemma OneMoreDue(es: Table, ids: set<Uuid>, id: Uuid, accepted: set<TaskKey>, now: Time, due: seq<Execution>)
    requires id !in ids && id in es && es[id].id == id && IsDue(es, ids, accepted, now, due)
    ensures IsDue(es, ids + {id}, accepted, now, if Eligible(es[id], accepted, now) then due + [es[id]] else due)
  {
    if Eligible(es[id], accepted, now) {
      var more := due + [es[id]];
      assert more[|due|] == es[id];
      forall x | x in ids + {id} && x in es && Eligible(es[x], accepted, now)
        ensures es[x] in more
      {
        assert x != id ==> es[x] in due;
      }
    }
  }

  /** The eligible records among some ids, each once. */
  ghost predicate IsDue(es: Table, ids: set<Uuid>, accepted: set<TaskKey>, now: Time, due: seq<Execution>) {
    && (forall i :: 0 <= i < |due| ==>
          due[i].id in ids && due[i].id in es && es[due[i].id] == due[i] && Eligible(due[i], accepted, now))
    && (forall i, j :: 0 <= i < j < |due| ==> due[i].id != due[j].id)
    && (forall id :: id in ids && id in es && Eligible(es[id], accepted, now) ==> es[id] in due)
  }

  /** Filter, sort, cut at the limit. */
  method Candidates(es: Table, accepted: set<TaskKey>, now: Time, max: nat) returns (candidates: seq<Execution>)
    requires forall id :: id in es ==> es[id].id == id
    ensures forall i :: 0 <= i < |candidates| ==>
              candidates[i].id in es && es[candidates[i].id] == candidates[i] && Eligible(candidates[i], accepted, now)
    ensures |candidates| <= |es| && IsPick(es, accepted, now, max, Ids(candidates))
  {
    var due := DueRecords(es, accepted, now);
    SoonerIsPreorder();
    candidates := Sort(Sooner, due);
    SortedDue(es, accepted, now, max, due, candidates);
    if |candidates| > max {
      candidates := candidates[..max];
    }
  }

  function Ids(es: seq<Execution>): (ids: seq<Uuid>)
    ensures |ids| == |es|
  {
    seq(|es|, i requires 0 <= i < |es| => es[i].id)
  }

  function Take(es: seq<Execution>, max: nat): seq<Execution> {
    if |es| > max then es[..max] else es
  }

  /** Sorting what is due and cutting it at the limit is a pick. */
  lemma SortedDue(es: Table, accepted: set<TaskKey>, now: Time, max: nat, due: seq<Execution>, sorted: seq<Execution>)
    requires IsDue(es, es.Keys, accepted, now, due) && forall id :: id in es ==> es[id].id == id
    requires Sorted(Sooner, sorted) && multiset(sorted) == multiset(due)
    ensures forall i :: 0 <= i < |sorted| ==>
              sorted[i].id in es && es[sorted[i].id] == sorted[i] && Eligible(sorted[i], accepted, now)
    ensures IsPick(es, accepted, now, max, Ids(Take(sorted, max)))
  {
    SameMembers(due, sorted);
    forall i | 0 <= i < |sorted|
      ensures sorted[i].id in es && es[sorted[i].id] == sorted[i] && Eligible(sorted[i], accepted, now)
    {
      assert sorted[i] in due;
    }
    forall id | id in es && Eligible(es[id], accepted, now)
      ensures es[id] in sorted
    {
      assert es[id] in due;
    }
    SortedPick(es, accepted, now, max, sorted);
  }

  lemma SortedPick(es: Table, accepted: set<TaskKey>, now: Time, max: nat, sorted: seq<Execution>)
    requires Distinct(sorted) && Sorted(Sooner, sorted)
    requires forall i :: 0 <= i < |sorted| ==>
               sorted[i].id in es && es[sorted[i].id] == sorted[i] && Eligible(sorted[i], accepted, now)
    requires forall id :: id in es && Eligible(es[id], accepted, now) ==> es[id].id == id && es[id] in sorted
    ensures IsPick(es, accepted, now, max, Ids(Take(sorted, max)))
  {
    var picked := Ids(Take(sorted, max));
    forall id | id in es && Eligible(es[id], accepted, now) && id !in picked
      ensures |picked| == max && forall i :: 0 <= i < |picked| ==> Sooner(es[picked[i]], es[id])
    {
      var k :| 0 <= k < |sorted| && sorted[k] == es[id];
      BeyondPick(es, sorted, max, k);
    }
  }

  lemma BeyondPick(es: Table, sorted: seq<Execution>, max: nat, k: nat)
    requires k < |sorted| && sorted[k].id !in Ids(Take(sorted, max))
    ensures max <= k
  {
    var picked := Ids(Take(sorted, max));
    forall i | 0 <= i < |picked|
      ensures sorted[i].id == picked[i] && picked[i] in picked
    {
    }
  }

  // ---------------------------------------------------------------------------------------------
  // Listing

  predicate Earlier(a: Execution, b: Execution) { a.createdAt <= b.createdAt }

  lemma EarlierIsPreorder()
    ensures Preorder(Earlier)
  {
  }

  /** The executions of a run, each once. */
  ghost predicate AreExecutionsOf(es: Table, run: Uuid, items: seq<Execution>) {
    && (forall i :: 0 <= i < |items| ==> items[i].id in es && es[items[i].id] == items[i] && items[i].runId == Some(run))
    && (forall i, j :: 0 <= i < j < |items| ==> items[i].id != items[j].id)
    && (forall id :: id in es && es[id].runId == Some(run) ==> es[id] in items)
  }

  ghost predicate ListedAmong(es: Table, ids: set<Uuid>, run: Uuid, items: seq<Execution>) {
    && (forall i :: 0 <= i < |items| ==>
          items[i].id in ids && items[i].id in es && es[items[i].id] == items[i] && items[i].runId == Some(run))
    && (forall i, j :: 0 <= i < j < |items| ==> items[i].id != items[j].id)
    && (forall id :: id in ids && id in es && es[id].runId == Some(run) ==> es[id] in items)
  }

  method RunRecords(es: Table, run: Uuid) returns (items: seq<Execution>)
    requires forall id :: id in es ==> es[id].id == id
    ensures AreExecutionsOf(es, run, items)
  {
    items := [];
    var ids := Enumerate(es.Keys);
    for n := 0 to |ids|
      invariant ListedAmong(es, Elements(ids[..n]), run, items)
    {
      assert ids[n] in Elements(ids) && ids[n] !in ids[..n];
      assert Elements(ids[..n + 1]) == Elements(ids[..n]) + {ids[n]};
      OneMoreListed(es, Elements(ids[..n]), ids[n], run, items);
      var item := es[ids[n]];
      if item.runId == Some(run) {
        items := items + [item];
      }
    }
    assert ids[..|ids|] == ids;
  }

  lemma OneMoreListed(es: Table, ids: set<Uuid>, id: Uuid, run: Uuid, items: seq<Execution>)
    requires id !in ids && id in es && es[id].id == id && ListedAmong(es, ids, run, items)
    ensures ListedAmong(es, ids + {id}, run, if es[id].runId == Some(run) then items + [es[id]] else items)
  {
    if es[id].runId == Some(run) {
      var more := items + [es[id]];
      assert more[|items|] == es[id];
      forall x | x in ids + {id} && x in es && es[x].runId == Some(run)
        ensures es[x] in more
      {
        assert x != id ==> es[x] in items;
      }
    }
  }

  lemma SameMembers(items: seq<Execution>, sorted: seq<Execution>)
    requires Distinct(items) && multiset(sorted) == multiset(items)
    ensures Distinct(sorted)
    ensures forall e :: e in items ==> e in sorted
    ensures forall i :: 0 <= i < |sorted| ==> sorted[i] in items
  {
    PermutedDistinct(items, sorted);
    assert forall e :: e in items <==> e in Elements(items);
    assert forall e :: e in sorted <==> e in Elements(sorted);
  }

  lemma SortedList(es: Table, run: Uuid, items: seq<Execution>, sorted: seq<Execution>)
    requires AreExecutionsOf(es, run, items) && multiset(sorted) == multiset(items)
    ensures AreExecutionsOf(es, run, sorted)
  {
    SameMembers(items, sorted);
  }

  /** Every matching record once. */
  ghost predicate AreMatches(es: Table, ids: set<Uuid>, f: L.Filter, items: seq<Execution>) {
    && (forall i :: 0 <= i < |items| ==>
          items[i].id in ids && items[i].id in es && es[items[i].id] == items[i] && L.Matches(items[i], f))
    && (forall i, j :: 0 <= i < j < |items| ==> items[i].id != items[j].id)
    && (forall id :: id in ids && id in es && L.Matches(es[id], f) ==> es[id] in items)
  }

  method MatchingRecords(es: Table, f: L.Filter) returns (items: seq<Execution>)
    requires forall id :: id in es ==> es[id].id == id
    ensures AreMatches(es, es.Keys, f, items)
  {
    items := [];
    var ids := Enumerate(es.Keys);
    for n := 0 to |ids|
      invariant AreMatches(es, Elements(ids[..n]), f, items)
    {
      assert ids[n] in Elements(ids);
      NextMatch(es, ids, n, f, items);
      var item := es[ids[n]];
      var fits := IsMatch(item, f);
      if fits {
        items := items + [item];
      }
    }
    assert ids[..|ids|] == ids;
  }

  method IsMatch(item: Execution, f: L.Filter) returns (fits: bool)
    ensures fits == L.Matches(item, f)
  {
    if f.taskName != "" && item.taskName != f.taskName {
      return false;
    }
    if f.status.Some? && item.status != f.status.value {
      return false;
    }
    if f.runId.Some? && item.runId != f.runId {
      return false;
    }
    fits := f.before.None? || L.BeforeCursor(item, f.before.value);
  }

  lemma NextMatch(es: Table, ids: seq<Uuid>, n: nat, f: L.Filter, items: seq<Execution>)
    requires Distinct(ids) && n < |ids| && ids[n] in es && es[ids[n]].id == ids[n]
    requires AreMatches(es, Elements(ids[..n]), f, items)
    ensures
      var e := es[ids[n]];
      AreMatches(es, Elements(ids[..n + 1]), f, if L.Matches(e, f) then items + [e] else items)
  {
    assert ids[n] !in ids[..n];
    assert Elements(ids[..n + 1]) == Elements(ids[..n]) + {ids[n]};
    OneMoreMatch(es, Elements(ids[..n]), ids[n], f, items);
  }

  lemma OneMoreMatch(es: Table, ids: set<Uuid>, id: Uuid, f: L.Filter, items: seq<Execution>)
    requires id !in ids && id in es && es[id].id == id && AreMatches(es, ids, f, items)
    ensures AreMatches(es, ids + {id}, f, if L.Matches(es[id], f) then items + [es[id]] else items)
  {
    if L.Matches(es[id], f) {
      var more := items + [es[id]];
      assert more[|items|] == es[id];
      forall x | x in ids + {id} && x in es && L.Matches(es[x], f)
        ensures es[x] in more
      {
        assert x != id ==> es[x] in items;
      }
    }
  }

  /** Filter, sort newest first, cut at the limit. */
  method Page(es: Table, f: L.Filter) returns (page: seq<Execution>)
    requires forall id :: id in es ==> es[id].id == id
    ensures L.IsPage(es, f, page)
  {
    var items := MatchingRecords(es, f);
    L.NewerIsPreorder();
    page := Sort(L.Newer, items);
    SortedPage(es, f, items, page);
    if f.limit > 0 && |page| > f.limit {
      page := page[..f.limit];
    }
  }

  lemma SortedPage(es: Table, f: L.Filter, items: seq<Execution>, sorted: seq<Execution>)
    requires AreMatches(es, es.Keys, f, items) && multiset(sorted) == multiset(items) && Sorted(L.Newer, sorted)
    ensures L.IsPage(es, f, if f.limit > 0 && |sorted| > f.limit then sorted[..f.limit] else sorted)
  {
    SameMembers(items, sorted);
    var page := if f.limit > 0 && |sorted| > f.limit then sorted[..f.limit] else sorted;
    forall id | id in es && L.Matches(es[id], f) && es[id] !in page
      ensures L.Full(f, |page|) && forall i :: 0 <= i < |page| ==> L.Newer(page[i], es[id])
    {
      var k :| 0 <= k < |sorted| && sorted[k] == es[id];
      CutOff(sorted, |page|, k);
    }
  }

  lemma CutOff(sorted: seq<Execution>, n: nat, k: nat)
    requires n <= |sorted| && k < |sorted| && sorted[k] !in sorted[..n]
    ensures n <= k
  {
    assert forall j :: 0 <= j < n ==> sorted[j] == sorted[..n][j];
  }

  // ---------------------------------------------------------------------------------------------
  // Retention

  method NodesOfRun(es: Table, run: Uuid, ghost s: Store) returns (ids: seq<Uuid>)
    requires es == s.executions
    ensures Distinct(ids) && Elements(ids) == ExecutionsOf(s, run)
    ensures |ids| == |ExecutionsOf(s, run)| && forall j :: 0 <= j < |ids| ==> ids[j] in es
  {
    ids := Enumerate<Uuid>(set id: Uuid | id in es && es[id].runId == Some(run));
    assert forall j :: 0 <= j < |ids| ==> ids[j] in Elements(ids);
  }

  lemma DropNothing(s: Store, ids: seq<Uuid>)
    ensures DropExecutions(s, Elements(ids[..0])) == s
  {
    assert Elements(ids[..0]) == {};
    var d := DropExecutions(s, {});
    assert d.executions == s.executions && d.events == s.events && d.idempotent == s.idempotent && d.nodes == s.nodes;
  }

  lemma DropNext(s: Store, ids: seq<Uuid>, n: nat)
    requires Distinct(ids) && n < |ids| && ids[n] in s.executions
    ensures ids[n] in DropExecutions(s, Elements(ids[..n])).executions
    ensures DropExecutions(DropExecutions(s, Elements(ids[..n])), {ids[n]}) == DropExecutions(s, Elements(ids[..n + 1]))
  {
    assert ids[n] !in ids[..n];
    assert Elements(ids[..n + 1]) == Elements(ids[..n]) + {ids[n]};
    R.DropTwice(s, Elements(ids[..n]), ids[n]);
  }

  function DropRunKeyed(s: Store, id: Uuid): Store
    requires id in s.runs
  {
    var run := s.runs[id];
    s.(runs := s.runs - {id},
       runIdempotent := if run.idempotencyKey == NoKey then s.runIdempotent else s.runIdempotent - {RunIdemOf(run)})
  }

  lemma RunKeyDropped(s: Store, id: Uuid)
    requires RunsExact(s.runs, s.runIdempotent) && id in s.runs
    ensures id in DropExecutions(s, ExecutionsOf(s, id)).runs
    ensures DropRunKeyed(DropExecutions(s, ExecutionsOf(s, id)), id) == DropPipelineRun(s, id)
  {
    var a, b := DropRunKeyed(DropExecutions(s, ExecutionsOf(s, id)), id), DropPipelineRun(s, id);
    assert a.runIdempotent == b.runIdempotent;
  }

  method RemovableRuns(runs: map<Uuid, PipelineRun>, before: Time) returns (items: seq<R.Item>)
    ensures Distinct(items)
    ensures forall x :: x in items <==> x.RunItem? && R.RunRemovable(runs, before, x)
  {
    items := [];
    var ids := Enumerate(runs.Keys);
    for n := 0 to |ids|
      invariant Distinct(items)
      invariant forall x :: x in items <==> x.RunItem? && x.id in ids[..n] && R.RunRemovable(runs, before, x)
    {
      assert ids[n] in Elements(ids);
      assert ids[n] !in ids[..n] && ids[..n + 1] == ids[..n] + [ids[n]];
      var run := runs[ids[n]];
      if run.finishedAt.Some? && run.finishedAt.value < before {
        items := items + [R.RunItem(ids[n], run.finishedAt.value)];
      }
    }
    assert ids[..|ids|] == ids;
    assert forall id :: id in runs ==> id in Elements(ids);
  }

  method RemovableTasks(es: Table, before: Time) returns (items: seq<R.Item>)
    ensures Distinct(items)
    ensures forall x :: x in items <==> x.TaskItem? && R.TaskRemovable(es, before, x)
  {
    items := [];
    var ids := Enumerate(es.Keys);
    for n := 0 to |ids|
      invariant Distinct(items)
      invariant forall x :: x in items <==> x.TaskItem? && x.id in ids[..n] && R.TaskRemovable(es, before, x)
    {
      assert ids[n] in Elements(ids);
      assert ids[n] !in ids[..n] && ids[..n + 1] == ids[..n] + [ids[n]];
      var item := es[ids[n]];
      if item.runId.None? && item.finishedAt.Some? && item.finishedAt.value < before {
        items := items + [R.TaskItem(ids[n], item.finishedAt.value)];
      }
    }
    assert ids[..|ids|] == ids;
    assert forall id :: id in es ==> id in Elements(ids);
  }

  method RemovableItems(es: Table, runs: map<Uuid, PipelineRun>, before: Time, ghost s: Store) returns (items: seq<R.Item>)
    requires es == s.executions && runs == s.runs
    ensures Distinct(items) && forall x :: x in items <==> R.Removable(s, before, x)
  {
    var some := RemovableRuns(runs, before);
    var others := RemovableTasks(es, before);
    items := some + others;
    assert forall i :: 0 <= i < |some| ==> some[i] in some;
    assert forall i :: 0 <= i < |others| ==> others[i] in others;
  }

  method OldestItems(candidates: seq<R.Item>, limit: nat, ghost s: Store, ghost before: Time) returns (batch: seq<R.Item>)
    requires Distinct(candidates) && forall x :: x in candidates <==> R.Removable(s, before, x)
    ensures R.IsBatch(s, before, limit, batch)
  {
    R.OlderIsPreorder();
    var sorted := Sort(R.Older, candidates);
    PermutedDistinct(candidates, sorted);
    assert forall x :: x in candidates <==> x in Elements(candidates);
    assert forall x :: x in sorted <==> x in Elements(sorted);
    batch := if |sorted| > limit then sorted[..limit] else sorted;
    forall x | R.Removable(s, before, x) && x !in batch
      ensures |batch| == limit && forall i :: 0 <= i < |batch| ==> R.Older(batch[i], x)
    {
      var k :| 0 <= k < |sorted| && sorted[k] == x;
      assert forall j :: 0 <= j < |batch| ==> sorted[j] == batch[j];
    }
  }

  lemma PurgeNext(s: Store, before: Time, limit: nat, batch: seq<R.Item>, i: nat)
    requires IndexesExact(s) && R.IsBatch(s, before, limit, batch) && i < |batch|
    ensures IndexesExact(R.DropAll(s, batch[..i])) && R.Present(R.DropAll(s, batch[..i]), batch[i])
    ensures R.DropAll(s, batch[..i + 1]) == R.DropItem(R.DropAll(s, batch[..i]), batch[i])
  {
    DropAllKeepsIndexes(s, batch[..i]);
    R.StillPresent(s, before, limit, batch, i);
    assert batch[..i + 1][..i] == batch[..i];
  }

  lemma {:induction false} DropAllKeepsIndexes(s: Store, batch: seq<R.Item>)
    requires IndexesExact(s)
    ensures IndexesExact(R.DropAll(s, batch))
  {
    if batch != [] {
      var n := |batch| - 1;
      DropAllKeepsIndexes(s, batch[..n]);
      var d := R.DropAll(s, batch[..n]);
      match batch[n]
      case RunItem(id, _) => DropKeepsIndexes(d, ExecutionsOf(d, id));
      case TaskItem(id, _) => DropKeepsIndexes(d, {id});
    }
  }
}
