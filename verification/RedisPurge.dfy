/** Retention in the Redis store: one unguarded transaction built from what was read before. */
module RedisPurge {
  import opened Model
  import opened Records
  import opened Storage
  import opened Sorting
  import opened Redis
  import C = Counting
  import R = Retention
  import M = Memory

  /** Deletes an execution, given the record that was read. */
  function SaveDrop(db: Db, item: Execution): Db {
    db.(records := db.records - {item.id},
        events := db.events - {item.id},
        created := db.created - {item.id},
        tasks := db.tasks - {(item.taskName, item.id)},
        statuses := db.statuses - {(item.status, item.id)},
        queues := db.queues - {(item.taskName, item.id)},
        leases := db.leases - {item.id},
        counts := Incr(db.counts, (item.taskName, item.status), -1),
        idempotent := if item.idempotencyKey == NoKey then db.idempotent
                      else db.idempotent - {(item.taskName, item.idempotencyKey)},
        nodes := if item.runId.None? then db.nodes else db.nodes - {(item.runId.value, item.nodeKey)},
        members := if item.runId.None? then db.members else db.members - {(item.runId.value, item.id)})
  }

  lemma CountsShrink(es: map<Uuid, Execution>, counts: map<(string, Status), int>, e: Execution)
    requires Counted(es, counts) && e.id in es && C.Has(es[e.id], e.taskName, e.status)
    ensures Counted(es - {e.id}, Incr(counts, (e.taskName, e.status), -1))
  {
    forall name, status
      ensures C.CountOf(es - {e.id}, name, status) == C.CountOf(es, name, status) - C.One(C.Has(e, name, status))
    {
      C.CountAfterDrop(es, e.id, name, status);
    }
  }

  lemma DropElsewhere(db: Db, item: Execution, x: Uuid)
    requires x != item.id
    ensures SameAt(db, SaveDrop(db, item), x)
  {
  }

  lemma DropIsAbsent(db: Db, item: Execution)
    requires IndexedAs(db, item)
    ensures Absent(SaveDrop(db, item), item.id)
  {
  }

  lemma DropKeepsExecutions(db: Db, item: Execution)
    requires ExecutionsCoherent(db) && item.id in db.records
    requires SameIdentity(db.records[item.id], item) && db.records[item.id].status == item.status
    ensures ExecutionsCoherent(SaveDrop(db, item))
  {
    var db', e := SaveDrop(db, item), db.records[item.id];
    assert IndexedAt(db, item.id);
    CountsShrink(db.records, db.counts, item);
    assert SaveDrop(db, item) == SaveDrop(db, e);
    DropIsAbsent(db, e);
    forall x
      ensures IndexedAt(db', x)
    {
      if x != item.id {
        assert IndexedAt(db, x);
        DropElsewhere(db, item, x);
        SameStaysIndexed(db, db', x);
      }
    }
  }

  lemma DropRefines(db: Db, id: Uuid)
    requires id in db.records && db.records[id].id == id
    requires IdemExact(db.records, db.idempotent) && NodesExact(db.records, db.nodes)
    ensures View(SaveDrop(db, db.records[id])) == DropExecutions(View(db), {id})
  {
    R.DropKeyedIsDrop(View(db), id);
    assert View(SaveDrop(db, db.records[id])) == R.DropKeyed(View(db), id);
  }

  // ---------------------------------------------------------------------------------------------
  // Whole runs, read and deleted without interruption

  function DropEach(db: Db, items: seq<Execution>): Db {
    if items == [] then db else SaveDrop(DropEach(db, items[..|items| - 1]), items[|items| - 1])
  }

  function IdsOf(items: seq<Execution>): set<Uuid> {
    set e | e in items :: e.id
  }

  /** The record is still there with the status that was read. */
  predicate StillAs(db: Db, item: Execution) {
    item.id in db.records && db.records[item.id].status == item.status
  }

  ghost predicate ReadApart(db: Db, items: seq<Execution>) {
    && (forall i, j :: 0 <= i < j < |items| ==> items[i].id != items[j].id)
    && (forall i :: 0 <= i < |items| && items[i].id in db.records ==> SameIdentity(db.records[items[i].id], items[i]))
  }

  lemma {:induction false} DropEachRecords(db: Db, items: seq<Execution>)
    ensures DropEach(db, items).records == db.records - IdsOf(items)
  {
    if items == [] {
      assert IdsOf(items) == {};
    } else {
      var n := |items| - 1;
      DropEachRecords(db, items[..n]);
      IdsNext(items[..n], items[n]);
      assert items == items[..n] + [items[n]];
      MinusTwice(db.records, IdsOf(items[..n]), items[n].id);
    }
  }

  lemma IdsNext(items: seq<Execution>, e: Execution)
    ensures IdsOf(items + [e]) == IdsOf(items) + {e.id}
  {
    assert (items + [e])[|items|] == e;
    forall x | x in items
      ensures x in items + [e]
    {
    }
  }

  lemma MinusTwice(es: Table, dead: set<Uuid>, x: Uuid)
    ensures es - dead - {x} == es - (dead + {x})
  {
  }

  /** A status entry stays unless it is the one some item was read with. */
  lemma {:induction false} DropEachStatus(db: Db, items: seq<Execution>, st: Status, x: Uuid)
    requires (st, x) in db.statuses && forall i :: 0 <= i < |items| ==> (items[i].status, items[i].id) != (st, x)
    ensures (st, x) in DropEach(db, items).statuses
  {
    if items != [] {
      DropEachStatus(db, items[..|items| - 1], st, x);
    }
  }

  lemma {:induction false} CurrentDropsKeep(db: Db, items: seq<Execution>)
    requires ExecutionsCoherent(db) && ReadApart(db, items) && forall i :: 0 <= i < |items| ==> StillAs(db, items[i])
    ensures ExecutionsCoherent(DropEach(db, items))
  {
    if items != [] {
      var n := |items| - 1;
      CurrentDropsKeep(db, items[..n]);
      DropEachRecords(db, items[..n]);
      assert items[..n + 1] == items;
      NoneBefore(items, n);
      DropKeepsExecutions(DropEach(db, items[..n]), items[n]);
    }
  }

  /** How many of the items have this name and status but no record any more. */
  function Gone(db: Db, items: seq<Execution>, name: string, status: Status): nat {
    if items == [] then 0
    else
      var n := |items| - 1;
      Gone(db, items[..n], name, status) + C.One(items[n].id !in db.records && C.Has(items[n], name, status))
  }

  lemma CountLags(mid: Db, item: Execution, name: string, status: Status, gone: nat)
    requires Count(mid.counts, (name, status)) == C.CountOf(mid.records, name, status) - gone
    requires item.id in mid.records ==> C.Has(mid.records[item.id], name, status) == C.Has(item, name, status)
    ensures
      var db' := SaveDrop(mid, item);
      Count(db'.counts, (name, status)) ==
      C.CountOf(db'.records, name, status) - (gone + C.One(item.id !in mid.records && C.Has(item, name, status)))
  {
    C.CountAfterDrop(mid.records, item.id, name, status);
  }

  lemma {:induction false} CountsLag(db: Db, items: seq<Execution>, name: string, status: Status)
    requires Counted(db.records, db.counts) && ReadApart(db, items)
    requires forall i :: 0 <= i < |items| && items[i].id in db.records ==> StillAs(db, items[i])
    ensures
      var db' := DropEach(db, items);
      Count(db'.counts, (name, status)) == C.CountOf(db'.records, name, status) - Gone(db, items, name, status)
  {
    if items != [] {
      var n := |items| - 1;
      CountsLag(db, items[..n], name, status);
      DropEachRecords(db, items[..n]);
      assert items[..n + 1] == items;
      NoneBefore(items, n);
      CountLags(DropEach(db, items[..n]), items[n], name, status, Gone(db, items[..n], name, status));
    }
  }

  lemma {:induction false} GoneCounts(db: Db, items: seq<Execution>, i: nat)
    requires i < |items| && items[i].id !in db.records
    ensures Gone(db, items, items[i].taskName, items[i].status) > 0
  {
    if i < |items| - 1 {
      GoneCounts(db, items[..|items| - 1], i);
    }
  }

  lemma StaleDropBreaks(db: Db, items: seq<Execution>, i: nat)
    requires ExecutionsCoherent(db) && ReadApart(db, items) && i < |items|
    requires items[i].id in db.records && db.records[items[i].id].status != items[i].status
    ensures !ExecutionsCoherent(DropEach(db, items))
  {
    var x := items[i].id;
    StatusListed(db, x);
    DropEachRecords(db, items);
    assert items[i] in items;
    DropEachStatus(db, items, db.records[x].status, x);
    OrphanBreaks(DropEach(db, items), db.records[x].status, x);
  }

  lemma StatusListed(db: Db, x: Uuid)
    requires ExecutionsCoherent(db) && x in db.records
    ensures (db.records[x].status, x) in db.statuses
  {
    assert IndexedAt(db, x);
    assert Entry(db.statuses, (db.records[x].status, x)).Some?;
  }

  lemma OrphanBreaks(db: Db, st: Status, x: Uuid)
    requires x !in db.records && (st, x) in db.statuses
    ensures !ExecutionsCoherent(db)
  {
    assert Entry(db.statuses, (st, x)).Some?;
    assert !IndexedAt(db, x);
  }

  /** Deleting executions from records read earlier keeps the indexes and counters right exactly when
      each is still there with the status that was read: nothing two stale ones do wrong cancels. */
  lemma DropsKeepIndexesExactly(db: Db, items: seq<Execution>)
    requires ExecutionsCoherent(db) && ReadApart(db, items)
    ensures ExecutionsCoherent(DropEach(db, items)) <==> forall i :: 0 <= i < |items| ==> StillAs(db, items[i])
  {
    if i :| 0 <= i < |items| && items[i].id in db.records && !StillAs(db, items[i]) {
      StaleDropBreaks(db, items, i);
    } else if i :| 0 <= i < |items| && !StillAs(db, items[i]) {
      CountsLag(db, items, items[i].taskName, items[i].status);
      GoneCounts(db, items, i);
    } else {
      CurrentDropsKeep(db, items);
    }
  }

  function SaveDropRun(db: Db, run: PipelineRun): Db {
    db.(runs := db.runs - {run.id},
        runIndex := db.runIndex - {run.id},
        runStatuses := db.runStatuses - {(run.status, run.id)},
        runCounts := Incr(db.runCounts, (run.pipelineName, run.status), -1),
        runIdempotent := if run.idempotencyKey == NoKey then db.runIdempotent
                         else db.runIdempotent - {(run.pipelineName, run.idempotencyKey)})
  }

  /** Deletes a run and the executions listed for it, given what was read. */
  function CommitDropRun(db: Db, run: PipelineRun, nodes: seq<Execution>): Db {
    SaveDropRun(DropEach(db, nodes), run)
  }

  lemma RunCountsShrink(runs: map<Uuid, PipelineRun>, counts: map<(string, RunStatus), int>, r: PipelineRun)
    requires RunsCounted(runs, counts) && r.id in runs && runs[r.id] == r
    ensures RunsCounted(runs - {r.id}, Incr(counts, (r.pipelineName, r.status), -1))
  {
    forall name, status
      ensures C.RunCountOf(runs - {r.id}, name, status) == C.RunCountOf(runs, name, status) - C.One(C.RunHas(r, name, status))
    {
      C.RunCountAfterDrop(runs, r.id, name, status);
    }
  }

  lemma DropRunKeepsCoherent(db: Db, id: Uuid)
    requires Coherent(db) && id in db.runs
    ensures Coherent(SaveDropRun(db, db.runs[id]))
  {
    var db' := SaveDropRun(db, db.runs[id]);
    assert RunIndexedAt(db, id);
    RunCountsShrink(db.runs, db.runCounts, db.runs[id]);
    forall r
      ensures RunIndexedAt(db', r)
    {
      assert RunIndexedAt(db, r);
    }
    ExecutionsKept(db, db');
  }

  lemma DropOneMore(db: Db, id: Uuid)
    requires Coherent(db) && IndexesExact(View(db)) && id in db.records
    ensures
      var db' := SaveDrop(db, db.records[id]);
      Coherent(db') && IndexesExact(View(db')) && View(db') == DropExecutions(View(db), {id}) && db'.runs == db.runs
  {
    assert IndexedAt(db, id);
    DropKeepsExecutions(db, db.records[id]);
    RunsKept(db, SaveDrop(db, db.records[id]));
    DropRefines(db, id);
    DropKeepsIndexes(View(db), {id});
  }

  /** The listed records are the current ones, each once. */
  ghost predicate Current(db: Db, items: seq<Execution>) {
    && (forall i :: 0 <= i < |items| ==> items[i].id in db.records && db.records[items[i].id] == items[i])
    && (forall i, j :: 0 <= i < j < |items| ==> items[i].id != items[j].id)
  }

  lemma NoneBefore(items: seq<Execution>, n: nat)
    requires n < |items| && forall i, j :: 0 <= i < j < |items| ==> items[i].id != items[j].id
    ensures items[n].id !in IdsOf(items[..n])
    ensures IdsOf(items[..n + 1]) == IdsOf(items[..n]) + {items[n].id}
  {
    assert items[..n + 1] == items[..n] + [items[n]];
    IdsNext(items[..n], items[n]);
    forall e | e in items[..n]
      ensures e.id != items[n].id
    {
      var i :| 0 <= i < n && items[..n][i] == e;
      assert items[i] == e;
    }
  }

  ghost predicate Dropped(db: Db, db': Db, dead: set<Uuid>) {
    Coherent(db') && IndexesExact(View(db')) && View(db') == DropExecutions(View(db), dead) && db'.runs == db.runs
  }

  lemma DropNextMeans(db: Db, mid: Db, dead: set<Uuid>, item: Execution)
    requires Dropped(db, mid, dead) && item.id !in dead && StillAs(db, item) && SameIdentity(db.records[item.id], item)
    ensures Dropped(db, SaveDrop(mid, item), dead + {item.id})
  {
    assert View(mid).executions == db.records - dead;
    assert SaveDrop(mid, item) == SaveDrop(mid, mid.records[item.id]);
    DropOneMore(mid, item.id);
    R.DropTwice(View(db), dead, item.id);
  }

  /** The records are those that were read, each once, with the statuses that were read. */
  ghost predicate AllStill(db: Db, items: seq<Execution>) {
    ReadApart(db, items) && forall i :: 0 <= i < |items| ==> StillAs(db, items[i])
  }

  lemma StillBefore(db: Db, items: seq<Execution>, n: nat)
    requires AllStill(db, items) && n < |items|
    ensures AllStill(db, items[..n]) && StillAs(db, items[n]) && SameIdentity(db.records[items[n].id], items[n])
  {
  }

  lemma {:induction false} DropEachMeans(db: Db, items: seq<Execution>)
    requires Coherent(db) && IndexesExact(View(db)) && AllStill(db, items)
    ensures Dropped(db, DropEach(db, items), IdsOf(items))
  {
    if items == [] {
      DropNone(View(db));
    } else {
      var n := |items| - 1;
      assert items[..n + 1] == items;
      StillBefore(db, items, n);
      DropEachMeans(db, items[..n]);
      NoneBefore(items, n);
      DropNextMeans(db, DropEach(db, items[..n]), IdsOf(items[..n]), items[n]);
    }
  }

  lemma DropNone(s: Store)
    ensures DropExecutions(s, IdsOf([])) == s
  {
    var d := DropExecutions(s, IdsOf([]));
    assert d.executions == s.executions && d.events == s.events && d.idempotent == s.idempotent && d.nodes == s.nodes;
  }

  lemma DropRunRefines(db: Db, id: Uuid)
    requires id in db.runs && RunsExact(db.runs, db.runIdempotent)
    ensures View(SaveDropRun(db, db.runs[id])) ==
            View(db).(runs := db.runs - {id},
                      runIdempotent := map k | k in db.runIdempotent && db.runIdempotent[k] != id :: db.runIdempotent[k])
  {
    var run := db.runs[id];
    assert SaveDropRun(db, run).runIdempotent == map k | k in db.runIdempotent && db.runIdempotent[k] != id :: db.runIdempotent[k];
  }

  lemma ListedIds(db: Db, id: Uuid, listed: seq<Execution>)
    requires ExecutionsCoherent(db) && M.AreExecutionsOf(db.records, id, listed)
    ensures Current(db, listed) && IdsOf(listed) == ExecutionsOf(View(db), id)
  {
    forall x | x in ExecutionsOf(View(db), id)
      ensures x in IdsOf(listed)
    {
      assert IndexedAt(db, x);
      assert db.records[x] in listed;
    }
  }

  /** Deleting a run and the executions listed for it keeps indexes and counters right and is what
      the plain store does. */
  lemma CommitDropRunMeans(db: Db, id: Uuid, nodes: seq<Execution>)
    requires Coherent(db) && IndexesExact(View(db)) && id in db.runs && M.AreExecutionsOf(db.records, id, nodes)
    ensures Coherent(CommitDropRun(db, db.runs[id], nodes))
    ensures View(CommitDropRun(db, db.runs[id], nodes)) == DropPipelineRun(View(db), id)
  {
    ListedIds(db, id, nodes);
    DropEachMeans(db, nodes);
    var mid := DropEach(db, nodes);
    DropRunKeepsCoherent(mid, id);
    DropRunRefines(mid, id);
  }

  // ---------------------------------------------------------------------------------------------
  // A batch

  /** A candidate with everything that was read for it. */
  datatype Victim = RunVictim(run: PipelineRun, nodes: seq<Execution>) | TaskVictim(item: Execution)

  function CommitDrop(db: Db, v: Victim): Db {
    match v
    case RunVictim(run, nodes) => CommitDropRun(db, run, nodes)
    case TaskVictim(item) => SaveDrop(db, item)
  }

  /** The transaction for a whole batch. */
  function CommitPurge(db: Db, victims: seq<Victim>): Db {
    if victims == [] then db else CommitDrop(CommitPurge(db, victims[..|victims| - 1]), victims[|victims| - 1])
  }

  /** The keyspace holds for the item what was read for it. */
  ghost predicate ReadFor(db: Db, item: R.Item, v: Victim) {
    match item
    case RunItem(id, _) => v.RunVictim? && id in db.runs && v.run == db.runs[id] && M.AreExecutionsOf(db.records, id, v.nodes)
    case TaskItem(id, _) => v.TaskVictim? && id in db.records && v.item == db.records[id]
  }

  ghost predicate AllRead(db: Db, batch: seq<R.Item>, victims: seq<Victim>) {
    |victims| == |batch| && forall i :: 0 <= i < |batch| ==> ReadFor(db, batch[i], victims[i])
  }

  /** The items of a batch, and what they take with them, are disjoint. */
  ghost predicate Apart(s: Store, batch: seq<R.Item>) {
    && (forall i :: 0 <= i < |batch| ==> R.Present(s, batch[i]))
    && (forall i :: 0 <= i < |batch| && batch[i].TaskItem? ==> s.executions[batch[i].id].runId.None?)
    && (forall i, j :: 0 <= i < j < |batch| ==> batch[i].RunItem? != batch[j].RunItem? || batch[i].id != batch[j].id)
  }

  lemma BatchIsApart(s: Store, before: Time, limit: nat, batch: seq<R.Item>)
    requires R.IsBatch(s, before, limit, batch)
    ensures Apart(s, batch)
  {
    forall i | 0 <= i < |batch|
      ensures R.Present(s, batch[i]) && (batch[i].TaskItem? ==> s.executions[batch[i].id].runId.None?)
    {
      assert R.Removable(s, before, batch[i]);
    }
    forall i, j | 0 <= i < j < |batch|
      ensures batch[i].RunItem? != batch[j].RunItem? || batch[i].id != batch[j].id
    {
      assert R.Removable(s, before, batch[i]) && R.Removable(s, before, batch[j]) && batch[i] != batch[j];
    }
  }

  /** Earlier items leave the next one, and for a run its executions, in place. */
  lemma NextUntouched(s: Store, batch: seq<R.Item>, n: nat)
    requires Apart(s, batch) && n < |batch|
    ensures
      var mid := R.DropAll(s, batch[..n]);
      && R.Present(mid, batch[n])
      && (batch[n].RunItem? ==> forall id :: id in s.executions && s.executions[id].runId == Some(batch[n].id) ==>
            id in mid.executions && mid.executions[id] == s.executions[id])
      && (forall id :: id in mid.executions ==> id in s.executions && mid.executions[id] == s.executions[id])
      && (forall id :: id in mid.runs ==> id in s.runs && mid.runs[id] == s.runs[id])
  {
    var done := batch[..n];
    R.DropAllLeaves(s, done);
    assert forall i :: 0 <= i < n ==> done[i] == batch[i];
    assert R.Present(s, batch[n]);
    if batch[n].RunItem? {
      forall id | id in s.executions && s.executions[id].runId == Some(batch[n].id)
        ensures !R.Sentenced(s, done, id)
      {
        assert forall i :: 0 <= i < n ==> !R.TakesWith(s, done[i], id);
      }
    } else {
      assert forall i :: 0 <= i < n ==> !R.TakesWith(s, done[i], batch[n].id);
    }
  }

  ghost predicate Purged(db: Db, db': Db, batch: seq<R.Item>) {
    Coherent(db') && IndexesExact(View(db')) && View(db') == R.DropAll(View(db), batch)
  }

  lemma DropRunExact(s: Store, id: Uuid)
    requires IndexesExact(s)
    ensures IndexesExact(DropPipelineRun(s, id))
  {
    DropKeepsIndexes(s, ExecutionsOf(s, id));
  }

  lemma CommitDropMeans(db: Db, item: R.Item, v: Victim)
    requires Coherent(db) && IndexesExact(View(db)) && ReadFor(db, item, v)
    ensures Purged(db, CommitDrop(db, v), [item])
  {
    DropOnly(View(db), item);
    match item
    case RunItem(id, _) =>
      CommitDropRunMeans(db, id, v.nodes);
      DropRunExact(View(db), id);
    case TaskItem(id, _) => DropOneMore(db, id);
  }

  lemma StillRead(db: Db, mid: Db, batch: seq<R.Item>, n: nat, v: Victim)
    requires Apart(View(db), batch) && n < |batch| && ReadFor(db, batch[n], v) && View(mid) == R.DropAll(View(db), batch[..n])
    ensures ReadFor(mid, batch[n], v)
  {
    NextUntouched(View(db), batch, n);
  }

  lemma {:induction false} CommitPurgeMeans(db: Db, batch: seq<R.Item>, victims: seq<Victim>)
    requires Coherent(db) && IndexesExact(View(db)) && Apart(View(db), batch) && AllRead(db, batch, victims)
    ensures Purged(db, CommitPurge(db, victims), batch)
  {
    if batch != [] {
      var n := |batch| - 1;
      CommitPurgeMeans(db, batch[..n], victims[..n]);
      var mid := CommitPurge(db, victims[..n]);
      StillRead(db, mid, batch, n, victims[n]);
      CommitDropMeans(mid, batch[n], victims[n]);
      DropOnly(View(mid), batch[n]);
    }
  }

  /** A purge that meets what it read keeps indexes and counters right and removes what the plain
      store's does. */
  lemma PurgeRefines(db: Db, before: Time, limit: nat, batch: seq<R.Item>, victims: seq<Victim>)
    requires Coherent(db) && IndexesExact(View(db)) && R.IsBatch(View(db), before, limit, batch) && AllRead(db, batch, victims)
    ensures Coherent(CommitPurge(db, victims))
    ensures View(CommitPurge(db, victims)) == R.DropAll(View(db), batch)
  {
    BatchIsApart(View(db), before, limit, batch);
    CommitPurgeMeans(db, batch, victims);
  }

  // ---------------------------------------------------------------------------------------------
  // Finding the candidates through the status indexes

  predicate FinalRun(status: RunStatus) { status == RunSucceeded || status == RunFailed || status == RunCancelled }

  predicate Final(status: Status) { status == Succeeded || status == Failed || status == Cancelled }

  lemma RunListedExactly(db: Db, st: RunStatus, id: Uuid)
    requires RunsCoherent(db)
    ensures (st, id) in db.runStatuses <==> id in db.runs && db.runs[id].status == st
  {
    assert RunIndexedAt(db, id);
    assert Entry(db.runStatuses, (st, id)).Some? <==> (st, id) in db.runStatuses;
  }

  lemma ListedExactly(db: Db, st: Status, id: Uuid)
    requires ExecutionsCoherent(db)
    ensures (st, id) in db.statuses <==> id in db.records && db.records[id].status == st
  {
    assert IndexedAt(db, id);
    assert Entry(db.statuses, (st, id)).Some? <==> (st, id) in db.statuses;
  }

  lemma MemberExactly(db: Db, run: Uuid, id: Uuid)
    requires ExecutionsCoherent(db)
    ensures (run, id) in db.members <==> id in db.records && db.records[id].runId == Some(run)
  {
    assert IndexedAt(db, id);
    assert Entry(db.members, (run, id)).Some? <==> (run, id) in db.members;
  }

  /** The runs in the status sets of the final statuses. */
  method ListFinishedRuns(db: Db) returns (runs: map<Uuid, PipelineRun>)
    requires RunsCoherent(db)
    ensures forall id :: id in runs <==> id in db.runs && FinalRun(db.runs[id].status)
    ensures forall id :: id in runs ==> runs[id] == db.runs[id]
  {
    forall st, id
      ensures (st, id) in db.runStatuses <==> id in db.runs && db.runs[id].status == st
    {
      RunListedExactly(db, st, id);
    }
    var listed := set k | k in db.runStatuses.Keys && FinalRun(k.0) :: k.1;
    runs := map id | id in listed :: db.runs[id];
    forall id | id in db.runs && FinalRun(db.runs[id].status)
      ensures id in listed
    {
      assert (db.runs[id].status, id) in db.runStatuses.Keys;
    }
  }

  method ListFinished(db: Db) returns (items: Table)
    requires ExecutionsCoherent(db)
    ensures forall id :: id in items <==> id in db.records && Final(db.records[id].status)
    ensures forall id :: id in items ==> items[id] == db.records[id]
  {
    forall st, id
      ensures (st, id) in db.statuses <==> id in db.records && db.records[id].status == st
    {
      ListedExactly(db, st, id);
    }
    var listed := set k | k in db.statuses.Keys && Final(k.0) :: k.1;
    items := map id | id in listed :: db.records[id];
    forall id | id in db.records && Final(db.records[id].status)
      ensures id in listed
    {
      assert (db.records[id].status, id) in db.statuses.Keys;
    }
  }

  /** The status indexes lead to exactly the items a scan of all records and runs would find. */
  method FindCandidates(db: Db, before: Time) returns (items: seq<R.Item>)
    requires Coherent(db) && RecordsSound(db.records, db.events) && AllTimed(db.runs)
    ensures Distinct(items) && forall x :: x in items <==> R.Removable(View(db), before, x)
  {
    var runs := ListFinishedRuns(db);
    var finished := ListFinished(db);
    items := M.RemovableItems(finished, runs, before, View(db).(executions := finished, runs := runs));
    forall x
      ensures R.RunRemovable(runs, before, x) <==> R.RunRemovable(db.runs, before, x)
      ensures R.TaskRemovable(finished, before, x) <==> R.TaskRemovable(db.records, before, x)
    {
      assert x.id in db.runs ==> Timed(db.runs[x.id]);
      assert x.id in db.records ==> Sound(db.records[x.id]);
    }
  }

  method ListNodes(db: Db, run: Uuid) returns (nodes: seq<Execution>)
    requires ExecutionsCoherent(db)
    ensures M.AreExecutionsOf(db.records, run, nodes)
  {
    forall id
      ensures (run, id) in db.members <==> id in db.records && db.records[id].runId == Some(run)
      ensures id in db.records ==> db.records[id].id == id
    {
      MemberExactly(db, run, id);
      assert IndexedAt(db, id);
    }
    var ids := Enumerate(set k | k in db.members.Keys && k.0 == run :: k.1);
    forall id | id in ids
      ensures (run, id) in db.members
    {
      assert id in Elements(ids);
    }
    nodes := Loaded(db, ids, run);
    forall id | id in db.records && db.records[id].runId == Some(run)
      ensures db.records[id] in nodes
    {
      assert (run, id) in db.members.Keys;
      assert id in Elements(ids);
    }
  }

  /** The records behind some ids. */
  method Loaded(db: Db, ids: seq<Uuid>, ghost run: Uuid) returns (nodes: seq<Execution>)
    requires Distinct(ids)
    requires forall id :: id in ids ==> id in db.records && db.records[id].id == id && db.records[id].runId == Some(run)
    ensures forall i :: 0 <= i < |nodes| ==>
              nodes[i].id in db.records && db.records[nodes[i].id] == nodes[i] && nodes[i].runId == Some(run)
    ensures forall i, j :: 0 <= i < j < |nodes| ==> nodes[i].id != nodes[j].id
    ensures forall id :: id in ids ==> db.records[id] in nodes
  {
    nodes := seq(|ids|, i requires 0 <= i < |ids| && ids[i] in db.records => db.records[ids[i]]);
    forall i | 0 <= i < |ids|
      ensures nodes[i] == db.records[ids[i]] && nodes[i].id == ids[i] && nodes[i].runId == Some(run)
    {
      assert ids[i] in ids;
    }
  }

  /** Reads everything the batch will delete. */
  method ReadVictims(db: Db, batch: seq<R.Item>) returns (victims: seq<Victim>)
    requires ExecutionsCoherent(db) && forall i :: 0 <= i < |batch| ==> R.Present(View(db), batch[i])
    ensures AllRead(db, batch, victims)
  {
    victims := [];
    for i := 0 to |batch|
      invariant AllRead(db, batch[..i], victims)
    {
      assert batch[..i + 1] == batch[..i] + [batch[i]];
      assert R.Present(View(db), batch[i]);
      match batch[i] {
        case RunItem(id, _) =>
          var nodes := ListNodes(db, id);
          victims := victims + [RunVictim(db.runs[id], nodes)];
        case TaskItem(id, _) =>
          victims := victims + [TaskVictim(db.records[id])];
      }
    }
    assert batch[..|batch|] == batch;
  }

  /** How many executions and runs go with a victim. */
  function SizeOf(v: Victim): (nat, nat) {
    match v
    case RunVictim(_, nodes) => (|nodes|, 1)
    case TaskVictim(_) => (1, 0)
  }

  /** The two sizes are what the store has lost. */
  predicate Lost(s: Store, s': Store, removed: (nat, nat)) {
    |s.executions| == |s'.executions| + removed.0 && |s.runs| == |s'.runs| + removed.1
  }

  lemma {:induction false} IdsCount(items: seq<Execution>)
    requires forall i, j :: 0 <= i < j < |items| ==> items[i].id != items[j].id
    ensures |IdsOf(items)| == |items|
  {
    if items == [] {
      assert IdsOf(items) == {};
    } else {
      var n := |items| - 1;
      assert items[..n + 1] == items;
      NoneBefore(items, n);
      IdsCount(items[..n]);
    }
  }

  lemma SizeIsLoss(db: Db, item: R.Item, v: Victim)
    requires ExecutionsCoherent(db) && ReadFor(db, item, v)
    ensures Lost(View(db), R.DropItem(View(db), item), SizeOf(v))
  {
    R.DropItemSizes(View(db), item);
    if item.RunItem? {
      ListedIds(db, item.id, v.nodes);
      IdsCount(v.nodes);
    }
  }

  lemma DropOnly(s: Store, item: R.Item)
    ensures R.DropAll(s, [item]) == R.DropItem(s, item)
  {
    assert R.DropAll(s, [item][..0]) == s;
  }

  /** Where a purge stands after its first deletions. */
  ghost predicate Sweeping(was: Db, db: Db, batch: seq<R.Item>, i: nat, removed: (nat, nat))
    requires i <= |batch|
  {
    Purged(was, db, batch[..i]) && Lost(View(was), View(db), removed)
  }

  lemma DropNextItem(s: Store, batch: seq<R.Item>, i: nat)
    requires i < |batch|
    ensures R.DropAll(s, batch[..i + 1]) == R.DropItem(R.DropAll(s, batch[..i]), batch[i])
  {
    assert batch[..i + 1][..i] == batch[..i];
  }

  lemma SweepNext(was: Db, db: Db, batch: seq<R.Item>, victims: seq<Victim>, i: nat, removed: (nat, nat))
    requires Apart(View(was), batch) && AllRead(was, batch, victims) && i < |batch| && Sweeping(was, db, batch, i, removed)
    ensures
      var size := SizeOf(victims[i]);
      Sweeping(was, CommitDrop(db, victims[i]), batch, i + 1, (removed.0 + size.0, removed.1 + size.1))
  {
    StillRead(was, db, batch, i, victims[i]);
    CommitDropMeans(db, batch[i], victims[i]);
    DropOnly(View(db), batch[i]);
    SizeIsLoss(db, batch[i], victims[i]);
    DropNextItem(View(was), batch, i);
  }

  lemma SweepStep(was: Db, db: Db, batch: seq<R.Item>, victims: seq<Victim>, i: nat, removed: (nat, nat))
    requires i < |batch| == |victims|
    ensures Apart(View(was), batch) && AllRead(was, batch, victims) && Sweeping(was, db, batch, i, removed) ==>
              var size := SizeOf(victims[i]);
              Sweeping(was, CommitDrop(db, victims[i]), batch, i + 1, (removed.0 + size.0, removed.1 + size.1))
  {
    if Apart(View(was), batch) && AllRead(was, batch, victims) && Sweeping(was, db, batch, i, removed) {
      SweepNext(was, db, batch, victims, i, removed);
    }
  }

  lemma SweepBegins(db: Db, batch: seq<R.Item>)
    requires Coherent(db) && IndexesExact(View(db))
    ensures Sweeping(db, db, batch, 0, (0, 0))
  {
  }

  lemma SweepEnds(was: Db, db: Db, batch: seq<R.Item>, removed: (nat, nat))
    requires Sweeping(was, db, batch, |batch|, removed)
    ensures Coherent(db) && View(db) == R.DropAll(View(was), batch) && Lost(View(was), View(db), removed)
  {
    assert batch[..|batch|] == batch;
  }

  /** The oldest candidates, with what belongs to them. */
  method Plan(db: Db, before: Time, limit: nat) returns (victims: seq<Victim>, ghost batch: seq<R.Item>)
    requires Coherent(db) && RecordsSound(db.records, db.events) && AllTimed(db.runs)
    ensures R.IsBatch(View(db), before, limit, batch) && Apart(View(db), batch) && AllRead(db, batch, victims)
  {
    var candidates := FindCandidates(db, before);
    var chosen := M.OldestItems(candidates, limit, View(db), before);
    BatchIsApart(View(db), before, limit, chosen);
    victims := ReadVictims(db, chosen);
    batch := chosen;
  }
}
