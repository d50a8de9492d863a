/** The Redis store: the same records with sorted-set indexes and counters beside them, changed by
    one transaction at a time. */
module Redis {
  import opened Model
  import opened Records
  import opened Storage
  import C = Counting

  type Score = int

  /** Scores are whole milliseconds. */
  function ScoreOf(t: Time): Score { t / 1_000_000 }

  /** The keyspace. A family of sorted sets is one map, by set and member. */
  datatype Db = Db(
    records: map<Uuid, Execution>,
    events: map<Uuid, seq<Event>>,
    idempotent: map<(string, IdemKey), Uuid>,
    nodes: map<(Uuid, string), Uuid>,
    created: map<Uuid, Score>,
    tasks: map<(string, Uuid), Score>,
    statuses: map<(Status, Uuid), Score>,
    queues: map<(string, Uuid), Score>,
    leases: map<Uuid, Score>,
    members: map<(Uuid, Uuid), Score>,
    counts: map<(string, Status), int>,
    runs: map<Uuid, PipelineRun>,
    runIdempotent: map<(string, IdemKey), Uuid>,
    runIndex: map<Uuid, Score>,
    runStatuses: map<(RunStatus, Uuid), Score>,
    runCounts: map<(string, RunStatus), int>)

  const EMPTY_DB :=
    Db(map[], map[], map[], map[], map[], map[], map[], map[], map[], map[], map[], map[], map[], map[], map[], map[])

  /** The records without the indexes. */
  function View(db: Db): Store {
    Store(db.records, db.runs, db.events, db.idempotent, db.nodes, db.runIdempotent)
  }

  function Entry<K>(m: map<K, Score>, k: K): Option<Score> {
    if k in m then Some(m[k]) else None
  }

  function Count<K>(m: map<K, int>, k: K): int {
    if k in m then m[k] else 0
  }

  /** HINCRBY. */
  function Incr<K>(m: map<K, int>, k: K, step: int): map<K, int> {
    m[k := Count(m, k) + step]
  }

  function QueueAt(e: Execution): Time { if e.status.Running? then e.leaseUntil else e.availableAt }

  // ---------------------------------------------------------------------------------------------
  // Coherence

  /** The indexes hold exactly what the record says: its creation time under its task, run and
      status, a queue entry while it can be delivered, and a lease entry only while it runs and
      always while its last attempt runs. */
  ghost predicate IndexedAs(db: Db, e: Execution) {
    && Entry(db.created, e.id) == Some(ScoreOf(e.createdAt))
    && (forall n :: Entry(db.tasks, (n, e.id)) == if n == e.taskName then Some(ScoreOf(e.createdAt)) else None)
    && (forall r: Uuid :: Entry(db.members, (r, e.id)) == if e.runId == Some(r) then Some(ScoreOf(e.createdAt)) else None)
    && DeliveredAs(db, e)
  }

  ghost predicate DeliveredAs(db: Db, e: Execution) {
    StatusAs(db.statuses, e) && QueueAs(db.queues, e) && LeaseAs(db.leases, e)
  }

  ghost predicate StatusAs(statuses: map<(Status, Uuid), Score>, e: Execution) {
    forall st :: Entry(statuses, (st, e.id)) == if st == e.status then Some(ScoreOf(e.createdAt)) else None
  }

  ghost predicate QueueAs(queues: map<(string, Uuid), Score>, e: Execution) {
    forall n :: Entry(queues, (n, e.id)) == if n == e.taskName && e.status.Active() then Some(ScoreOf(QueueAt(e))) else None
  }

  predicate LeaseAs(leases: map<Uuid, Score>, e: Execution) {
    && (Entry(leases, e.id) == None || (e.status.Running? && Entry(leases, e.id) == Some(ScoreOf(e.leaseUntil))))
    && (e.status.Running? && e.maxAttempts <= e.attempt ==> Entry(leases, e.id).Some?)
  }

  /** No index mentions the id. */
  ghost predicate Absent(db: Db, id: Uuid) {
    && Entry(db.created, id) == None && Entry(db.leases, id) == None
    && (forall n :: Entry(db.tasks, (n, id)) == None)
    && (forall r: Uuid :: Entry(db.members, (r, id)) == None)
    && (forall st :: Entry(db.statuses, (st, id)) == None)
    && (forall n :: Entry(db.queues, (n, id)) == None)
  }

  ghost predicate IndexedAt(db: Db, id: Uuid) {
    if id in db.records then db.records[id].id == id && IndexedAs(db, db.records[id]) else Absent(db, id)
  }

  ghost predicate Counted(es: map<Uuid, Execution>, counts: map<(string, Status), int>) {
    forall name, status :: Count(counts, (name, status)) == C.CountOf(es, name, status)
  }

  ghost predicate RunIndexedAt(db: Db, r: Uuid) {
    if r in db.runs then
      && db.runs[r].id == r
      && Entry(db.runIndex, r) == Some(ScoreOf(db.runs[r].createdAt))
      && (forall st :: Entry(db.runStatuses, (st, r)) == if st == db.runs[r].status then Some(ScoreOf(db.runs[r].createdAt)) else None)
    else
      Entry(db.runIndex, r) == None && forall st :: Entry(db.runStatuses, (st, r)) == None
  }

  ghost predicate RunsCounted(runs: map<Uuid, PipelineRun>, counts: map<(string, RunStatus), int>) {
    forall name, status :: Count(counts, (name, status)) == C.RunCountOf(runs, name, status)
  }

  ghost predicate RunsCoherent(db: Db) {
    (forall r :: RunIndexedAt(db, r)) && RunsCounted(db.runs, db.runCounts)
  }

  ghost predicate ExecutionsCoherent(db: Db) {
    (forall id :: IndexedAt(db, id)) && Counted(db.records, db.counts)
  }

  ghost predicate Coherent(db: Db) {
    ExecutionsCoherent(db) && RunsCoherent(db)
  }

  lemma EmptyIsCoherent()
    ensures Coherent(EMPTY_DB) && Valid(View(EMPTY_DB)) && View(EMPTY_DB) == EMPTY
  {
    forall name, status
      ensures C.CountOf(EMPTY_DB.records, name, status) == 0
    {
      assert C.Tagged(EMPTY_DB.records, name, status) == {};
    }
    forall name, status
      ensures C.RunCountOf(EMPTY_DB.runs, name, status) == 0
    {
      assert C.RunsTagged(EMPTY_DB.runs, name, status) == {};
    }
  }

  // ---------------------------------------------------------------------------------------------
  // Transactions on one record

  function Pushed(events: map<Uuid, seq<Event>>, id: Uuid, event: Event): map<Uuid, seq<Event>> {
    events[id := (if id in events then events[id] else []) + [event]]
  }

  /** Record, counters, status set, leases, queue and event list in one transaction. */
  function SaveTransition(db: Db, item: Execution, previous: Status, event: Event, keepInQueue: bool): Db {
    db.(records := db.records[item.id := item],
        counts := if previous == item.status then db.counts
                  else Incr(Incr(db.counts, (item.taskName, previous), -1), (item.taskName, item.status), 1),
        statuses := (db.statuses - {(previous, item.id)})[(item.status, item.id) := ScoreOf(item.createdAt)],
        leases := if keepInQueue && item.status.Running? then (db.leases - {item.id})[item.id := ScoreOf(item.leaseUntil)]
                  else db.leases - {item.id},
        queues := if keepInQueue then db.queues[(item.taskName, item.id) := ScoreOf(QueueAt(item))]
                  else db.queues - {(item.taskName, item.id)},
        events := Pushed(db.events, item.id, event))
  }

  function SaveHeartbeat(db: Db, item: Execution): Db {
    db.(records := db.records[item.id := item],
        queues := db.queues[(item.taskName, item.id) := ScoreOf(item.leaseUntil)],
        leases := db.leases[item.id := ScoreOf(item.leaseUntil)])
  }

  function SaveRestart(db: Db, item: Execution, previous: Status, event: Event): Db {
    db.(records := db.records[item.id := item],
        counts := Incr(Incr(db.counts, (item.taskName, previous), -1), (item.taskName, item.status), 1),
        statuses := (db.statuses - {(previous, item.id)})[(item.status, item.id) := ScoreOf(item.createdAt)],
        leases := db.leases - {item.id},
        queues := db.queues[(item.taskName, item.id) := ScoreOf(item.availableAt)],
        events := Pushed(db.events, item.id, event))
  }

  function SaveRelease(db: Db, item: Execution): Db {
    db.(records := db.records[item.id := item],
        counts := Incr(Incr(db.counts, (item.taskName, Blocked), -1), (item.taskName, Pending), 1),
        statuses := (db.statuses - {(Blocked, item.id)})[(Pending, item.id) := ScoreOf(item.createdAt)],
        queues := db.queues[(item.taskName, item.id) := ScoreOf(item.availableAt)])
  }

  /** What a record operation writes, given the record it has read. */
  function CommitTouch(db: Db, read: Execution, op: RecordOp, now: Time): Db {
    match Apply(read, op, now)
    case Refused(_) => db
    case Done(item, event) =>
      match op
      case Beat(_, _) => SaveHeartbeat(db, item)
      case Release(_, _) => SaveRelease(db, item)
      case Restart(_) => SaveRestart(db, item, read.status, event.value)
      case Start(_, _, _) => SaveTransition(db, item, read.status, event.value, true)
      case RetryLater(_, _, _) => SaveTransition(db, item, read.status, event.value, item.status.Retry?)
      case _ => SaveTransition(db, item, read.status, event.value, false)
  }

  /** Everything about another id stays. */
  ghost predicate SameAt(db: Db, db': Db, x: Uuid) {
    && (x in db'.records <==> x in db.records) && (x in db.records ==> db'.records[x] == db.records[x])
    && Entry(db'.created, x) == Entry(db.created, x) && Entry(db'.leases, x) == Entry(db.leases, x)
    && SameFor(db.tasks, db'.tasks, x) && SameFor(db.members, db'.members, x)
    && SameFor(db.statuses, db'.statuses, x) && SameFor(db.queues, db'.queues, x)
  }

  /** The entries of one member are the same in every set of the family. */
  ghost predicate SameFor<K(!new)>(m: map<(K, Uuid), Score>, m': map<(K, Uuid), Score>, x: Uuid) {
    forall n: K :: Entry(m', (n, x)) == Entry(m, (n, x))
  }

  lemma SameStaysIndexed(db: Db, db': Db, x: Uuid)
    requires SameAt(db, db', x) && IndexedAt(db, x)
    ensures IndexedAt(db', x)
  {
  }

  /** Moving one record from one counter to another. */
  lemma CountsMove(es: map<Uuid, Execution>, counts: map<(string, Status), int>, e: Execution, e': Execution)
    requires Counted(es, counts) && e.id in es && es[e.id] == e && e'.id == e.id && e'.taskName == e.taskName
    ensures Counted(es[e.id := e'], Incr(Incr(counts, (e.taskName, e.status), -1), (e.taskName, e'.status), 1))
    ensures e.status == e'.status ==> Counted(es[e.id := e'], counts)
  {
    forall name, status
      ensures C.CountOf(es[e.id := e'], name, status) ==
              C.CountOf(es, name, status) - C.One(C.Has(e, name, status)) + C.One(C.Has(e', name, status))
    {
      C.CountAfterPut(es, e', name, status);
    }
  }

  /** Only entries of the one member may differ. */
  ghost predicate SameBut<K(!new)>(m: map<(K, Uuid), Score>, m': map<(K, Uuid), Score>, id: Uuid) {
    forall k: (K, Uuid) :: k.1 != id ==> Entry(m', k) == Entry(m, k)
  }

  /** A commit that rewrites one record. */
  ghost predicate Rewrites(db: Db, db': Db, e: Execution, e': Execution) {
    && e'.id == e.id && SameIdentity(e, e')
    && db'.records == db.records[e.id := e'] && DeliveredAs(db', e')
    && db'.created == db.created && db'.tasks == db.tasks && db'.members == db.members
    && SameBut(db.statuses, db'.statuses, e.id) && SameBut(db.queues, db'.queues, e.id)
    && (forall x: Uuid :: x != e.id ==> Entry(db'.leases, x) == Entry(db.leases, x))
    && Counted(db'.records, db'.counts)
    && db'.runs == db.runs && db'.runIndex == db.runIndex && db'.runStatuses == db.runStatuses && db'.runCounts == db.runCounts
  }

  lemma RewriteKeepsCoherent(db: Db, db': Db, e: Execution, e': Execution)
    requires Coherent(db) && e.id in db.records && db.records[e.id] == e && Rewrites(db, db', e, e')
    ensures Coherent(db')
  {
    assert IndexedAt(db, e.id);
    forall x
      ensures IndexedAt(db', x)
    {
      if x != e.id {
        assert IndexedAt(db, x);
        assert SameAt(db, db', x);
        SameStaysIndexed(db, db', x);
      }
    }
    forall r
      ensures RunIndexedAt(db', r)
    {
      assert RunIndexedAt(db, r);
    }
  }

  lemma StatusMoves(statuses: map<(Status, Uuid), Score>, e: Execution, e': Execution)
    requires StatusAs(statuses, e) && SameIdentity(e, e')
    ensures
      var moved := (statuses - {(e.status, e.id)})[(e'.status, e.id) := ScoreOf(e.createdAt)];
      StatusAs(moved, e') && SameBut(statuses, moved, e.id)
  {
  }

  lemma QueueMoves(queues: map<(string, Uuid), Score>, e: Execution, e': Execution)
    requires QueueAs(queues, e) && SameIdentity(e, e')
    ensures
      var moved := if e'.status.Active() then queues[(e.taskName, e.id) := ScoreOf(QueueAt(e'))] else queues - {(e.taskName, e.id)};
      QueueAs(moved, e') && SameBut(queues, moved, e.id)
  {
  }

  /** The record is there and indexed. */
  ghost predicate Holds(db: Db, e: Execution) {
    e.id in db.records && db.records[e.id] == e && DeliveredAs(db, e) && Counted(db.records, db.counts)
  }

  lemma SaveTransitionRewrites(db: Db, e: Execution, e': Execution, event: Event, keep: bool)
    requires Holds(db, e) && SameIdentity(e, e')
    requires keep == e'.status.Active()
    ensures Rewrites(db, SaveTransition(db, e', e.status, event, keep), e, e')
  {
    CountsMove(db.records, db.counts, e, e');
    StatusMoves(db.statuses, e, e');
    QueueMoves(db.queues, e, e');
  }

  lemma HeartbeatRewrites(db: Db, e: Execution, e': Execution)
    requires Holds(db, e) && SameIdentity(e, e')
    requires e.status.Running? && e'.status.Running?
    ensures Rewrites(db, SaveHeartbeat(db, e'), e, e')
  {
    CountsMove(db.records, db.counts, e, e');
    QueueMoves(db.queues, e, e');
  }

  lemma RestartRewrites(db: Db, e: Execution, e': Execution, event: Event)
    requires Holds(db, e) && SameIdentity(e, e')
    requires e'.status.Pending?
    ensures Rewrites(db, SaveRestart(db, e', e.status, event), e, e')
  {
    CountsMove(db.records, db.counts, e, e');
    StatusMoves(db.statuses, e, e');
    QueueMoves(db.queues, e, e');
  }

  lemma ReleaseRewrites(db: Db, e: Execution, e': Execution)
    requires Holds(db, e) && SameIdentity(e, e')
    requires e.status.Blocked? && e'.status.Pending?
    ensures Rewrites(db, SaveRelease(db, e'), e, e')
  {
    CountsMove(db.records, db.counts, e, e');
    StatusMoves(db.statuses, e, e');
    QueueMoves(db.queues, e, e');
  }

  /** Every operation on one record keeps the indexes and counters exact, provided the record it
      read is the one it overwrites. */
  lemma TouchKeepsCoherent(db: Db, id: Uuid, op: RecordOp, now: Time)
    requires Coherent(db) && id in db.records
    ensures Coherent(CommitTouch(db, db.records[id], op, now))
  {
    var e := db.records[id];
    assert IndexedAt(db, id);
    match Apply(e, op, now)
    case Refused(_) =>
    case Done(e', event) =>
      ApplyKeepsIdentity(e, op, now);
      match op {
        case Beat(_, _) => HeartbeatRewrites(db, e, e');
        case Release(_, _) => ReleaseRewrites(db, e, e');
        case Restart(_) => RestartRewrites(db, e, e', event.value);
        case Start(_, _, _) => SaveTransitionRewrites(db, e, e', event.value, true);
        case RetryLater(_, _, _) => SaveTransitionRewrites(db, e, e', event.value, e'.status.Retry?);
        case _ => SaveTransitionRewrites(db, e, e', event.value, false);
      }
      RewriteKeepsCoherent(db, CommitTouch(db, e, op, now), e, e');
  }

  /** Without the indexes it is the plain store's operation. */
  lemma TouchRefines(db: Db, id: Uuid, op: RecordOp, now: Time)
    requires id in db.records && db.records[id].id == id
    ensures View(CommitTouch(db, db.records[id], op, now)) == TouchRecord(View(db), id, op, now)
  {
  }

  // ---------------------------------------------------------------------------------------------
  // Creation

  function SaveNew(db: Db, item: Execution, now: Time): Db {
    db.(records := db.records[item.id := item],
        counts := Incr(db.counts, (item.taskName, item.status), 1),
        created := db.created[item.id := ScoreOf(item.createdAt)],
        tasks := db.tasks[(item.taskName, item.id) := ScoreOf(item.createdAt)],
        statuses := db.statuses[(item.status, item.id) := ScoreOf(item.createdAt)],
        queues := db.queues[(item.taskName, item.id) := ScoreOf(item.availableAt)],
        events := Pushed(db.events, item.id, Event(EventCreated, item.attempt, "", now)),
        idempotent := if item.idempotencyKey == NoKey then db.idempotent
                      else db.idempotent[(item.taskName, item.idempotencyKey) := item.id],
        nodes := if item.runId.Some? && item.nodeKey != "" then db.nodes[(item.runId.value, item.nodeKey) := item.id] else db.nodes,
        members := if item.runId.Some? then db.members[(item.runId.value, item.id) := ScoreOf(item.createdAt)] else db.members)
  }

  /** A reference that exists already makes the creation a lookup. */
  function CommitCreate(db: Db, request: CreateExecution, newId: Uuid, now: Time): Db {
    if request.taskName == "" || Existing(View(db), request).Some? then db
    else SaveNew(db, NewExecution(request, newId, now), now)
  }

  lemma CountsGrow(es: map<Uuid, Execution>, counts: map<(string, Status), int>, e: Execution)
    requires Counted(es, counts) && e.id !in es
    ensures Counted(es[e.id := e], Incr(counts, (e.taskName, e.status), 1))
  {
    forall name, status
      ensures C.CountOf(es[e.id := e], name, status) == C.CountOf(es, name, status) + C.One(C.Has(e, name, status))
    {
      C.CountAfterPut(es, e, name, status);
    }
  }

  lemma SaveNewIndexes(db: Db, e: Execution, now: Time)
    requires Absent(db, e.id) && e.status.Pending?
    ensures IndexedAs(SaveNew(db, e, now), e)
  {
  }

  lemma SaveNewElsewhere(db: Db, e: Execution, now: Time, x: Uuid)
    requires x != e.id
    ensures SameAt(db, SaveNew(db, e, now), x)
  {
  }

  lemma CreateKeepsCoherent(db: Db, request: CreateExecution, newId: Uuid, now: Time)
    requires Coherent(db) && newId !in db.records
    ensures Coherent(CommitCreate(db, request, newId, now))
  {
    var e := NewExecution(request, newId, now);
    var db' := SaveNew(db, e, now);
    CountsGrow(db.records, db.counts, e);
    assert IndexedAt(db, newId);
    SaveNewIndexes(db, e, now);
    forall x
      ensures IndexedAt(db', x)
    {
      if x != newId {
        assert IndexedAt(db, x);
        SaveNewElsewhere(db, e, now, x);
        SameStaysIndexed(db, db', x);
      }
    }
    RunsKept(db, db');
  }

  lemma RunsKept(db: Db, db': Db)
    requires RunsCoherent(db)
    requires db'.runs == db.runs && db'.runIndex == db.runIndex && db'.runStatuses == db.runStatuses && db'.runCounts == db.runCounts
    ensures RunsCoherent(db')
  {
    forall r
      ensures RunIndexedAt(db', r)
    {
      assert RunIndexedAt(db, r);
    }
  }

  lemma CreateRefines(db: Db, request: CreateExecution, newId: Uuid, now: Time)
    requires newId !in db.events
    ensures View(CommitCreate(db, request, newId, now)) == CreateRecord(View(db), request, newId, now)
  {
    var event := Event(EventCreated, 0, "", now);
    assert [] + [event] == [event];
  }

  // ---------------------------------------------------------------------------------------------
  // Reaping

  function DropLease(db: Db, id: Uuid): Db { db.(leases := db.leases - {id}) }

  /** An entry that is stale or recoverable loses its place among the leases; an expired last
      attempt fails. */
  function CommitReap(db: Db, id: Uuid, read: Option<Execution>, now: Time): Db {
    match read
    case None => DropLease(db, id)
    case Some(e) =>
      if !e.status.Running? then DropLease(db, id)
      else if now < e.leaseUntil then db
      else if e.attempt < e.maxAttempts then DropLease(db, id)
      else CommitTouch(db, e, Reap, now)
  }

  function Read(db: Db, id: Uuid): Option<Execution> {
    if id in db.records then Some(db.records[id]) else None
  }

  lemma DropLeaseKeepsCoherent(db: Db, id: Uuid)
    requires Coherent(db)
    requires id in db.records ==> !db.records[id].status.Running? || db.records[id].attempt < db.records[id].maxAttempts
    ensures Coherent(DropLease(db, id))
  {
    var db' := DropLease(db, id);
    assert IndexedAt(db, id);
    forall x
      ensures IndexedAt(db', x)
    {
      assert IndexedAt(db, x);
      if x != id {
        assert SameAt(db, db', x);
        SameStaysIndexed(db, db', x);
      }
    }
    RunsKept(db, db');
  }

  lemma ReapKeepsCoherent(db: Db, id: Uuid, now: Time)
    requires Coherent(db)
    ensures Coherent(CommitReap(db, id, Read(db, id), now))
  {
    match Read(db, id)
    case None => DropLeaseKeepsCoherent(db, id);
    case Some(e) =>
      if !e.status.Running? || e.attempt < e.maxAttempts {
        DropLeaseKeepsCoherent(db, id);
      } else {
        TouchKeepsCoherent(db, id, Reap, now);
      }
  }

  lemma ReapRefines(db: Db, id: Uuid, now: Time)
    requires id in db.records ==> db.records[id].id == id
    ensures View(CommitReap(db, id, Read(db, id), now)) == TouchRecord(View(db), id, Reap, now)
  {
    if id in db.records {
      assert Apply(db.records[id], Reap, now).Done? <==> Reapable(db.records[id], now);
      TouchRefines(db, id, Reap, now);
    }
    assert View(DropLease(db, id)) == View(db);
  }

  // ---------------------------------------------------------------------------------------------
  // Runs

  function SaveNewRun(db: Db, run: PipelineRun): Db {
    db.(runs := db.runs[run.id := run],
        runCounts := Incr(db.runCounts, (run.pipelineName, run.status), 1),
        runIndex := db.runIndex[run.id := ScoreOf(run.createdAt)],
        runStatuses := db.runStatuses[(run.status, run.id) := ScoreOf(run.createdAt)],
        runIdempotent := if run.idempotencyKey == NoKey then db.runIdempotent
                         else db.runIdempotent[(run.pipelineName, run.idempotencyKey) := run.id])
  }

  function CommitNewRun(db: Db, q: CreateRun, newId: Uuid, now: Time): Db {
    if q.idempotencyKey != NoKey && (q.pipelineName, q.idempotencyKey) in db.runIdempotent then db
    else SaveNewRun(db, NewPipelineRun(q, newId, now))
  }

  function SaveRun(db: Db, run: PipelineRun, previous: RunStatus): Db {
    db.(runs := db.runs[run.id := run],
        runCounts := if previous == run.status then db.runCounts
                     else Incr(Incr(db.runCounts, (run.pipelineName, previous), -1), (run.pipelineName, run.status), 1),
        runStatuses := (db.runStatuses - {(previous, run.id)})[(run.status, run.id) := ScoreOf(run.createdAt)])
  }

  /** Unlike the in-memory store, a status that is not final clears the finish time. */
  function Restamped(run: PipelineRun, status: RunStatus, error: string, now: Time): PipelineRun {
    StampedRun(run, status, error, now).(finishedAt := if status.Terminal() then Some(now) else None)
  }

  function CommitStatus(db: Db, id: Uuid, read: Option<PipelineRun>, expected: nat, status: RunStatus, error: string, now: Time): Db {
    if read.None? || read.value.revision != expected then db
    else SaveRun(db, Restamped(read.value, status, error, now), read.value.status)
  }

  function ReadRun(db: Db, id: Uuid): Option<PipelineRun> {
    if id in db.runs then Some(db.runs[id]) else None
  }

  lemma RunCountsMove(runs: map<Uuid, PipelineRun>, counts: map<(string, RunStatus), int>, r: PipelineRun, r': PipelineRun)
    requires RunsCounted(runs, counts) && r.id in runs && runs[r.id] == r && r'.id == r.id && r'.pipelineName == r.pipelineName
    ensures RunsCounted(runs[r.id := r'], Incr(Incr(counts, (r.pipelineName, r.status), -1), (r.pipelineName, r'.status), 1))
    ensures r.status == r'.status ==> RunsCounted(runs[r.id := r'], counts)
  {
    forall name, status
      ensures C.RunCountOf(runs[r.id := r'], name, status) ==
              C.RunCountOf(runs, name, status) - C.One(C.RunHas(r, name, status)) + C.One(C.RunHas(r', name, status))
    {
      C.RunCountAfterPut(runs, r', name, status);
    }
  }

  lemma RunCountsGrow(runs: map<Uuid, PipelineRun>, counts: map<(string, RunStatus), int>, r: PipelineRun)
    requires RunsCounted(runs, counts) && r.id !in runs
    ensures RunsCounted(runs[r.id := r], Incr(counts, (r.pipelineName, r.status), 1))
  {
    forall name, status
      ensures C.RunCountOf(runs[r.id := r], name, status) == C.RunCountOf(runs, name, status) + C.One(C.RunHas(r, name, status))
    {
      C.RunCountAfterPut(runs, r, name, status);
    }
  }

  lemma ExecutionsKept(db: Db, db': Db)
    requires ExecutionsCoherent(db)
    requires db'.records == db.records && db'.created == db.created && db'.tasks == db.tasks && db'.statuses == db.statuses
    requires db'.queues == db.queues && db'.leases == db.leases && db'.members == db.members && db'.counts == db.counts
    ensures ExecutionsCoherent(db')
  {
    forall x
      ensures IndexedAt(db', x)
    {
      assert IndexedAt(db, x);
      SameStaysIndexed(db, db', x);
    }
  }

  lemma SaveRunKeepsCoherent(db: Db, run: PipelineRun)
    requires Coherent(db) && run.id in db.runs && run.pipelineName == db.runs[run.id].pipelineName
    requires run.createdAt == db.runs[run.id].createdAt
    ensures Coherent(SaveRun(db, run, db.runs[run.id].status))
  {
    assert RunIndexedAt(db, run.id);
    var db' := SaveRun(db, run, db.runs[run.id].status);
    RunCountsMove(db.runs, db.runCounts, db.runs[run.id], run);
    forall r
      ensures RunIndexedAt(db', r)
    {
      assert RunIndexedAt(db, r);
    }
    ExecutionsKept(db, db');
  }

  lemma NewRunKeepsCoherent(db: Db, q: CreateRun, newId: Uuid, now: Time)
    requires Coherent(db) && newId !in db.runs
    ensures Coherent(CommitNewRun(db, q, newId, now))
  {
    var run := NewPipelineRun(q, newId, now);
    var db' := SaveNewRun(db, run);
    assert RunIndexedAt(db, newId);
    RunCountsGrow(db.runs, db.runCounts, run);
    forall r
      ensures RunIndexedAt(db', r)
    {
      assert RunIndexedAt(db, r);
    }
    ExecutionsKept(db, db');
  }

  lemma StatusKeepsCoherent(db: Db, id: Uuid, expected: nat, status: RunStatus, error: string, now: Time)
    requires Coherent(db)
    ensures Coherent(CommitStatus(db, id, ReadRun(db, id), expected, status, error, now))
  {
    if id in db.runs && db.runs[id].revision == expected {
      assert RunIndexedAt(db, id);
      SaveRunKeepsCoherent(db, Restamped(db.runs[id], status, error, now));
    }
  }

  lemma NewRunRefines(db: Db, q: CreateRun, newId: Uuid, now: Time)
    ensures View(CommitNewRun(db, q, newId, now)) == CreateRunRecord(View(db), q, newId, now)
  {
  }

  lemma StampsAgree(run: PipelineRun, status: RunStatus, error: string, now: Time)
    ensures Restamped(run, status, error, now) == StampedRun(run, status, error, now) <==> status.Terminal() || run.finishedAt.None?
  {
  }

  /** A status write is the plain store's exactly when the status is final or the run has no finish
      time: the Redis store clears the finish time otherwise, the in-memory store keeps it. */
  lemma StatusRefinesExactly(db: Db, id: Uuid, expected: nat, status: RunStatus, error: string, now: Time)
    requires id in db.runs && db.runs[id].id == id && db.runs[id].revision == expected
    ensures View(CommitStatus(db, id, ReadRun(db, id), expected, status, error, now)) ==
            SetRunStatus(View(db), id, expected, status, error, now)
            <==> status.Terminal() || db.runs[id].finishedAt.None?
  {
    var a, b := Restamped(db.runs[id], status, error, now), StampedRun(db.runs[id], status, error, now);
    var s := View(CommitStatus(db, id, ReadRun(db, id), expected, status, error, now));
    var s' := SetRunStatus(View(db), id, expected, status, error, now);
    StampsAgree(db.runs[id], status, error, now);
    assert s.runs[id] == a && s'.runs[id] == b;
    assert s == View(db).(runs := db.runs[id := a]);
    assert s' == View(db).(runs := db.runs[id := b]);
  }
}
