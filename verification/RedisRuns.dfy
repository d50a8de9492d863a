/** Many clients of one Redis server: each watches what it reads, and its transaction is carried out
    only if nothing it watched has changed. */
module RedisRuns {
  import opened Model
  import opened Records
  import opened Storage
  import opened Sorting
  import opened Redis
  import opened RedisSubgraph
  import P = RedisPurge
  import W = RedisSweep
  import Cas = CasSafety
  import Coord = Coordination
  import opened Engine

  /** A reference looked up: node key and execution. */
  type Ref = (string, Uuid)

  datatype Tx =
    | TouchTx(id: Uuid, op: RecordOp, now: Time)
    | ReapTx(id: Uuid, now: Time)
    | CreateTx(request: CreateExecution, newId: Uuid, now: Time)
    | NewRunTx(run: CreateRun, newId: Uuid, now: Time)
    | StatusTx(id: Uuid, expected: nat, status: RunStatus, error: string, now: Time)
    | SubgraphTx(q: RestartSubgraph, found: seq<Ref>, now: Time)

  /** Looking: node references are being read. Watching: the transaction is about to be submitted;
      `at` is the keyspace when its keys were read. Purging: the candidates have been read, in as many
      steps as it took. */
  datatype Client =
    | Idle
    | Looking(q: RestartSubgraph, keys: seq<string>, found: seq<Ref>, now: Time)
    | Watching(tx: Tx, at: Db)
    | Purging(victims: seq<P.Victim>)

  datatype Sys = Sys(db: Db, clients: seq<Client>, issued: set<Uuid>)

  datatype Move =
    | Begin(c: nat, tx: Tx)
    | Look(c: nat, q: RestartSubgraph, now: Time)
    | LookNext(c: nat)
    | WatchFound(c: nat)
    | Exec(c: nat)
    | Survey(c: nat, victims: seq<P.Victim>)
    | Sweep(c: nat)

  function IdemRef(db: Db, request: CreateExecution): Option<Uuid> {
    var k := (request.taskName, request.idempotencyKey);
    if request.idempotencyKey != NoKey && k in db.idempotent then Some(db.idempotent[k]) else None
  }

  function NodeRefOf(db: Db, r: Uuid, k: string): Option<Uuid> {
    if (r, k) in db.nodes then Some(db.nodes[(r, k)]) else None
  }

  function RunRef(db: Db, q: CreateRun): Option<Uuid> {
    var k := (q.pipelineName, q.idempotencyKey);
    if q.idempotencyKey != NoKey && k in db.runIdempotent then Some(db.runIdempotent[k]) else None
  }

  /** The watched keys hold what they held when they were read. */
  predicate Unchanged(tx: Tx, at: Db, db: Db) {
    match tx
    case TouchTx(id, _, _) => Read(at, id) == Read(db, id)
    case ReapTx(id, _) => Read(at, id) == Read(db, id)
    case CreateTx(request, _, _) =>
      && IdemRef(at, request) == IdemRef(db, request)
      && (request.runId.Some? && request.nodeKey != "" ==>
            NodeRefOf(at, request.runId.value, request.nodeKey) == NodeRefOf(db, request.runId.value, request.nodeKey))
    case NewRunTx(q, _, _) => RunRef(at, q) == RunRef(db, q)
    case StatusTx(id, _, _, _, _) => ReadRun(at, id) == ReadRun(db, id)
    case SubgraphTx(q, found, _) =>
      && ReadRun(at, q.runId) == ReadRun(db, q.runId)
      && (forall i :: 0 <= i < |found| ==> Read(at, found[i].1) == Read(db, found[i].1))
  }

  predicate AllThere(db: Db, found: seq<Ref>) {
    forall i :: 0 <= i < |found| ==> found[i].1 in db.records
  }

  function ItemsAt(db: Db, found: seq<Ref>): seq<Execution>
    requires AllThere(db, found)
  {
    seq(|found|, i requires 0 <= i < |found| => db.records[found[i].1])
  }

  /** The transaction: what is written depends on what was read, not on the keyspace it meets. */
  function CommitFrom(tx: Tx, at: Db, db: Db): Db {
    match tx
    case TouchTx(id, op, now) => if id in at.records then CommitTouch(db, at.records[id], op, now) else db
    case ReapTx(id, now) => CommitReap(db, id, Read(at, id), now)
    case CreateTx(request, newId, now) =>
      if request.taskName == "" || Existing(View(at), request).Some? then db
      else SaveNew(db, NewExecution(request, newId, now), now)
    case NewRunTx(q, newId, now) => if RunRef(at, q).Some? then db else SaveNewRun(db, NewPipelineRun(q, newId, now))
    case StatusTx(id, expected, status, error, now) => CommitStatus(db, id, ReadRun(at, id), expected, status, error, now)
    case SubgraphTx(q, found, now) =>
      if AllThere(at, found) then CommitSubgraph(db, q, ReadRun(at, q.runId), ItemsAt(at, found), now) else db
  }

  /** If the watched keys are unchanged, the transaction does what it would do if reading and writing
      were one step. */
  lemma WatchIsAtomic(tx: Tx, at: Db, db: Db)
    requires Unchanged(tx, at, db)
    ensures CommitFrom(tx, at, db) == CommitFrom(tx, db, db)
  {
    match tx
    case TouchTx(id, _, _) =>
      assert Read(at, id) == Read(db, id);
    case ReapTx(_, _) =>
    case CreateTx(request, _, _) =>
      assert Existing(View(at), request).Some? <==> Existing(View(db), request).Some?;
    case NewRunTx(_, _, _) =>
    case StatusTx(_, _, _, _, _) =>
    case SubgraphTx(q, found, _) =>
      assert forall i :: 0 <= i < |found| ==> Read(at, found[i].1) == Read(db, found[i].1);
      if AllThere(db, found) {
        assert ItemsAt(at, found) == ItemsAt(db, found);
      }
  }

  // ---------------------------------------------------------------------------------------------
  // One transaction

  /** References still lead to the nodes they were looked up for, unless those are gone. */
  ghost predicate FoundNodes(db: Db, issued: set<Uuid>, q: RestartSubgraph, found: seq<Ref>) {
    && (forall i :: 0 <= i < |found| ==> FoundNode(db, issued, q, found[i]))
    && (forall i, j :: 0 <= i < j < |found| ==> found[i].0 != found[j].0)
  }

  predicate FoundNode(db: Db, issued: set<Uuid>, q: RestartSubgraph, ref: Ref) {
    && ref.0 != "" && ref.1 in issued
    && (ref.1 in db.records ==> db.records[ref.1].runId == Some(q.runId) && db.records[ref.1].nodeKey == ref.0)
  }

  /** Generated UUIDs are not nil and not in use, nor were they ever. */
  ghost predicate TxFresh(db: Db, issued: set<Uuid>, tx: Tx) {
    match tx
    case TouchTx(_, op, _) => op.Start? ==> op.token != NIL
    case CreateTx(_, newId, _) => newId != NIL && newId !in issued
    case NewRunTx(_, newId, _) => newId != NIL && newId !in issued
    case _ => true
  }

  ghost predicate TxReady(db: Db, issued: set<Uuid>, tx: Tx) {
    tx.SubgraphTx? ==> FoundNodes(db, issued, tx.q, tx.found)
  }

  function RedisStatus(s: Store, id: Uuid, expected: nat, status: RunStatus, error: string, now: Time): Store {
    if StatusReply(s, id, expected).Err? then s
    else s.(runs := s.runs[id := Restamped(s.runs[id], status, error, now)])
  }

  /** What a transaction carries out on the records: the plain store's operation, except that a
      status write clears the finish time where the new status is not final. */
  ghost function Plain(tx: Tx, db: Db): Store {
    match tx
    case TouchTx(id, op, now) => TouchRecord(View(db), id, op, now)
    case ReapTx(id, now) => TouchRecord(View(db), id, Reap, now)
    case CreateTx(request, newId, now) => CreateRecord(View(db), request, newId, now)
    case NewRunTx(q, newId, now) => CreateRunRecord(View(db), q, newId, now)
    case StatusTx(id, expected, status, error, now) => RedisStatus(View(db), id, expected, status, error, now)
    case SubgraphTx(q, found, now) =>
      if AllThere(db, found) && HasRoot(ItemsAt(db, found), q) then RestartNodes(View(db), Found(q, ItemsAt(db, found)), now)
      else View(db)
  }

  lemma FoundAreCurrent(db: Db, issued: set<Uuid>, q: RestartSubgraph, found: seq<Ref>)
    requires Coherent(db) && FoundNodes(db, issued, q, found) && AllThere(db, found)
    ensures P.Current(db, ItemsAt(db, found)) && AreNodes(q, ItemsAt(db, found))
  {
    var items := ItemsAt(db, found);
    forall i | 0 <= i < |items|
      ensures items[i].id == found[i].1 && items[i].nodeKey == found[i].0 && items[i].runId == Some(q.runId) && items[i].nodeKey != ""
    {
      assert FoundNode(db, issued, q, found[i]);
      assert IndexedAt(db, found[i].1);
    }
  }

  /** Every guarded transaction that is carried out keeps indexes and counters exact, and does to the
      records what it stands for. */
  lemma CommitRefines(tx: Tx, db: Db, issued: set<Uuid>)
    requires Coherent(db) && Valid(View(db)) && db.records.Keys <= issued && db.runs.Keys <= issued
    requires TxFresh(db, issued, tx) && TxReady(db, issued, tx)
    ensures Coherent(CommitFrom(tx, db, db)) && View(CommitFrom(tx, db, db)) == Plain(tx, db)
  {
    match tx
    case TouchTx(id, op, now) =>
      if id in db.records {
        TouchKeepsCoherent(db, id, op, now);
        TouchRefines(db, id, op, now);
      }
    case ReapTx(id, now) =>
      ReapKeepsCoherent(db, id, now);
      ReapRefines(db, id, now);
    case CreateTx(request, newId, now) =>
      CreateKeepsCoherent(db, request, newId, now);
      CreateRefines(db, request, newId, now);
    case NewRunTx(q, newId, now) =>
      NewRunKeepsCoherent(db, q, newId, now);
      NewRunRefines(db, q, newId, now);
    case StatusTx(id, expected, status, error, now) =>
      StatusKeepsCoherent(db, id, expected, status, error, now);
    case SubgraphTx(q, found, now) =>
      if AllThere(db, found) {
        FoundAreCurrent(db, issued, q, found);
        SubgraphRefines(db, q, ItemsAt(db, found), now);
      }
  }

  lemma RestampKeepsValid(s: Store, id: Uuid, expected: nat, status: RunStatus, error: string, now: Time)
    requires Valid(s)
    ensures Valid(RedisStatus(s, id, expected, status, error, now))
  {
    if StatusReply(s, id, expected).Ok? {
      ReopenKeepsRuns(s.runs, s.runIdempotent, Restamped(s.runs[id], status, error, now));
    }
  }

  lemma PlainKeepsValid(tx: Tx, db: Db, issued: set<Uuid>)
    requires Coherent(db) && Valid(View(db)) && db.records.Keys <= issued && db.runs.Keys <= issued && TxFresh(db, issued, tx)
    ensures Valid(Plain(tx, db))
  {
    match tx
    case TouchTx(id, op, now) => StepKeepsValid(View(db), Touch(id, op), now);
    case ReapTx(id, now) => StepKeepsValid(View(db), Touch(id, Reap), now);
    case CreateTx(request, newId, now) => StepKeepsValid(View(db), Create(request, newId), now);
    case NewRunTx(q, newId, now) => StepKeepsValid(View(db), NewRun(q, newId), now);
    case StatusTx(id, expected, status, error, now) => RestampKeepsValid(View(db), id, expected, status, error, now);
    case SubgraphTx(q, found, now) =>
      if AllThere(db, found) && HasRoot(ItemsAt(db, found), q) {
        StepKeepsValid(View(db), Subgraph(Found(q, ItemsAt(db, found))), now);
      }
  }

  // ---------------------------------------------------------------------------------------------
  // Runs

  function NewIds(tx: Tx): set<Uuid> {
    if tx.CreateTx? || tx.NewRunTx? then {tx.newId} else {}
  }

  /** The references found so far, after looking up one more key. */
  function Looked(db: Db, q: RestartSubgraph, found: seq<Ref>, k: string): seq<Ref> {
    match NodeRefOf(db, q.runId, k)
    case None => found
    case Some(id) => found + [(k, id)]
  }

  ghost predicate Initial(s: Sys) {
    s.db == EMPTY_DB && s.issued == {} && forall c :: 0 <= c < |s.clients| ==> s.clients[c] == Idle
  }

  function With(s: Sys, c: nat, client: Client): Sys
    requires c < |s.clients|
  {
    s.(clients := s.clients[c := client])
  }

  /** A purge is not guarded: it deletes what was read for it, whatever it meets. */
  ghost predicate SysNext(s: Sys, move: Move, s': Sys) {
    match move
    case Begin(c, tx) => c < |s.clients| && s.clients[c].Idle? && !tx.SubgraphTx? && s' == With(s, c, Watching(tx, s.db))
    case Look(c, q, now) =>
      && c < |s.clients| && s.clients[c].Idle? && Distinct([q.root] + q.descendants)
      && s' == With(s, c, Looking(q, [q.root] + q.descendants, [], now))
    case LookNext(c) =>
      && c < |s.clients| && s.clients[c].Looking? && s.clients[c].keys != []
      && var l := s.clients[c];
         s' == With(s, c, l.(keys := l.keys[1..], found := Looked(s.db, l.q, l.found, l.keys[0])))
    case WatchFound(c) =>
      && c < |s.clients| && s.clients[c].Looking? && s.clients[c].keys == []
      && var l := s.clients[c];
         s' == With(s, c, Watching(SubgraphTx(l.q, l.found, l.now), s.db))
    case Exec(c) =>
      && c < |s.clients| && s.clients[c].Watching?
      && var w := s.clients[c];
         if Unchanged(w.tx, w.at, s.db) then
           TxFresh(s.db, s.issued, w.tx) &&
           s' == Sys(CommitFrom(w.tx, w.at, s.db), s.clients[c := Idle], s.issued + NewIds(w.tx))
         else s' == With(s, c, Idle)
    case Survey(c, victims) =>
      c < |s.clients| && s.clients[c].Idle? && PurgeReady(s.db, s.issued, victims) && s' == With(s, c, Purging(victims))
    case Sweep(c) =>
      && c < |s.clients| && s.clients[c].Purging?
      && s' == Sys(P.CommitPurge(s.db, s.clients[c].victims), s.clients[c := Idle], s.issued)
  }

  /** What was read for a purge: records and runs that were issued, each once. */
  ghost predicate PurgeReady(db: Db, issued: set<Uuid>, victims: seq<P.Victim>) {
    && W.WereRead(db, victims)
    && (forall i :: 0 <= i < |W.ItemsOf(victims)| ==> W.ItemsOf(victims)[i].id in issued)
    && (forall i :: 0 <= i < |W.RunsOf(victims)| ==> W.RunsOf(victims)[i].id in issued)
  }

  /** A transaction that nothing comes between takes effect on what it read. */
  lemma QuietCommits(s: Sys, c: nat, tx: Tx, s1: Sys, s2: Sys)
    requires SysNext(s, Begin(c, tx), s1) && SysNext(s1, Exec(c), s2)
    ensures s2.db == CommitFrom(tx, s.db, s.db) && c < |s2.clients| && s2.clients[c] == Idle
  {
  }

  ghost predicate IsRun(ss: seq<Sys>, moves: seq<Move>) {
    && |ss| == |moves| + 1 && Initial(ss[0])
    && forall i :: 0 <= i < |moves| ==> SysNext(ss[i], moves[i], ss[i + 1])
  }

  ghost predicate ClientOk(db: Db, issued: set<Uuid>, client: Client) {
    match client
    case Idle => true
    case Looking(q, keys, found, _) =>
      && FoundNodes(db, issued, q, found) && Distinct(keys)
      && (forall i, j :: 0 <= i < |found| && 0 <= j < |keys| ==> found[i].0 != keys[j])
    case Watching(tx, _) => TxReady(db, issued, tx)
    case Purging(victims) => PurgeReady(db, issued, victims)
  }

  ghost predicate DbOk(db: Db, issued: set<Uuid>) {
    Coherent(db) && Valid(View(db)) && db.records.Keys <= issued && db.runs.Keys <= issued && AllTimed(db.runs)
  }

  lemma PlainKeepsTimed(tx: Tx, db: Db)
    requires AllTimed(db.runs)
    ensures AllTimed(Plain(tx, db).runs)
  {
    match tx
    case TouchTx(id, op, now) => assert TouchRecord(View(db), id, op, now).runs == db.runs;
    case ReapTx(id, now) => assert TouchRecord(View(db), id, Reap, now).runs == db.runs;
    case CreateTx(request, newId, now) => assert CreateRecord(View(db), request, newId, now).runs == db.runs;
    case NewRunTx(q, newId, now) => NewRunKeepsTimed(View(db), q, newId, now);
    case StatusTx(id, expected, status, error, now) => StatusKeepsTimed(View(db), id, expected, status, error, now);
    case SubgraphTx(q, found, now) =>
      if AllThere(db, found) {
        RestartKeepsTimed(View(db), Found(q, ItemsAt(db, found)), now);
      }
  }

  lemma NewRunKeepsTimed(s: Store, q: CreateRun, newId: Uuid, now: Time)
    requires AllTimed(s.runs)
    ensures AllTimed(CreateRunRecord(s, q, newId, now).runs)
  {
  }

  lemma StatusKeepsTimed(s: Store, id: Uuid, expected: nat, status: RunStatus, error: string, now: Time)
    requires AllTimed(s.runs)
    ensures AllTimed(RedisStatus(s, id, expected, status, error, now).runs)
  {
  }

  lemma RestartKeepsTimed(s: Store, q: RestartSubgraph, now: Time)
    requires AllTimed(s.runs)
    ensures AllTimed(RestartNodes(s, q, now).runs)
  {
  }

  ghost predicate SysInv(s: Sys) {
    DbOk(s.db, s.issued) && forall c :: 0 <= c < |s.clients| ==> ClientOk(s.db, s.issued, s.clients[c])
  }

  /** Old ids keep their records' identity or lose the record; they never get another one. */
  ghost predicate Lineage(db: Db, db': Db, issued: set<Uuid>) {
    && (forall id :: id in db'.records && id in issued ==> id in db.records && SameIdentity(db.records[id], db'.records[id]))
    && (forall r :: r in db'.runs && r in issued ==> r in db.runs && RunIdemOf(db'.runs[r]) == RunIdemOf(db.runs[r]))
  }

  lemma LineageKeepsFound(db: Db, db': Db, issued: set<Uuid>, issued': set<Uuid>, q: RestartSubgraph, found: seq<Ref>)
    requires Lineage(db, db', issued) && issued <= issued' && FoundNodes(db, issued, q, found)
    ensures FoundNodes(db', issued', q, found)
  {
    forall i | 0 <= i < |found|
      ensures FoundNode(db', issued', q, found[i])
    {
      assert FoundNode(db, issued, q, found[i]);
    }
  }

  lemma LineageKeepsPurge(db: Db, db': Db, issued: set<Uuid>, issued': set<Uuid>, victims: seq<P.Victim>)
    requires Lineage(db, db', issued) && issued <= issued' && PurgeReady(db, issued, victims)
    ensures PurgeReady(db', issued', victims)
  {
  }

  lemma LineageKeepsClient(db: Db, db': Db, issued: set<Uuid>, issued': set<Uuid>, client: Client)
    requires Lineage(db, db', issued) && issued <= issued' && ClientOk(db, issued, client)
    ensures ClientOk(db', issued', client)
  {
    match client
    case Idle =>
    case Looking(q, _, found, _) => LineageKeepsFound(db, db', issued, issued', q, found);
    case Watching(tx, _) =>
      if tx.SubgraphTx? {
        LineageKeepsFound(db, db', issued, issued', tx.q, tx.found);
      }
    case Purging(victims) => LineageKeepsPurge(db, db', issued, issued', victims);
  }

  lemma StepLineage(s: Store, step: Step, now: Time, id: Uuid)
    requires Valid(s) && Valid(Do(s, step, now)) && id in Do(s, step, now).executions
    ensures (id in s.executions && SameIdentity(s.executions[id], Do(s, step, now).executions[id]))
            || (step.Create? && id == step.newId)
  {
    Cas.ExecutionAfter(s, step, now, id);
  }

  /** The step of the plain store behind a transaction that changes executions. */
  ghost function StepFor(tx: Tx, db: Db): Step
    requires !tx.StatusTx? && (tx.SubgraphTx? ==> AllThere(db, tx.found))
  {
    match tx
    case TouchTx(id, op, _) => Touch(id, op)
    case ReapTx(id, _) => Touch(id, Reap)
    case CreateTx(request, newId, _) => Create(request, newId)
    case NewRunTx(q, newId, _) => NewRun(q, newId)
    case SubgraphTx(q, found, _) => Subgraph(Found(q, ItemsAt(db, found)))
  }

  ghost predicate Steps(tx: Tx, db: Db) {
    !tx.StatusTx? && (tx.SubgraphTx? ==> AllThere(db, tx.found) && HasRoot(ItemsAt(db, tx.found), tx.q))
  }

  lemma PlainIsStep(tx: Tx, db: Db)
    ensures if Steps(tx, db) then Plain(tx, db) == Do(View(db), StepFor(tx, db), tx.now) else Plain(tx, db).executions == db.records
  {
  }

  lemma PlainLineage(tx: Tx, db: Db, id: Uuid)
    requires Valid(View(db)) && Valid(Plain(tx, db)) && id in Plain(tx, db).executions
    ensures (id in db.records && SameIdentity(db.records[id], Plain(tx, db).executions[id])) || id in NewIds(tx)
  {
    PlainIsStep(tx, db);
    if Steps(tx, db) {
      StepLineage(View(db), StepFor(tx, db), tx.now, id);
    }
  }

  lemma PlainRunLineage(tx: Tx, db: Db, r: Uuid)
    requires r in Plain(tx, db).runs && forall x :: x in db.runs ==> db.runs[x].id == x
    ensures (r in db.runs && RunIdemOf(Plain(tx, db).runs[r]) == RunIdemOf(db.runs[r])) || r in NewIds(tx)
  {
    PlainIsStep(tx, db);
    if Steps(tx, db) {
      RunAfter(View(db), StepFor(tx, db), tx.now, r);
    }
  }

  lemma CommitLineage(tx: Tx, db: Db, issued: set<Uuid>)
    requires DbOk(db, issued) && TxFresh(db, issued, tx) && Valid(Plain(tx, db))
    ensures Plain(tx, db).executions.Keys <= issued + NewIds(tx) && Plain(tx, db).runs.Keys <= issued + NewIds(tx)
    ensures forall id :: id in Plain(tx, db).executions && id in issued ==>
              id in db.records && SameIdentity(db.records[id], Plain(tx, db).executions[id])
    ensures forall r :: r in Plain(tx, db).runs && r in issued ==> r in db.runs && RunIdemOf(Plain(tx, db).runs[r]) == RunIdemOf(db.runs[r])
  {
    assert NewIds(tx) !! issued;
    forall id | id in Plain(tx, db).executions
      ensures (id in db.records && SameIdentity(db.records[id], Plain(tx, db).executions[id])) || id in NewIds(tx)
    {
      PlainLineage(tx, db, id);
    }
    forall r | r in Plain(tx, db).runs
      ensures (r in db.runs && RunIdemOf(Plain(tx, db).runs[r]) == RunIdemOf(db.runs[r])) || r in NewIds(tx)
    {
      PlainRunLineage(tx, db, r);
    }
  }

  lemma CommitKeepsDb(tx: Tx, db: Db, issued: set<Uuid>)
    requires DbOk(db, issued) && TxFresh(db, issued, tx) && TxReady(db, issued, tx)
    ensures DbOk(CommitFrom(tx, db, db), issued + NewIds(tx)) && Lineage(db, CommitFrom(tx, db, db), issued)
  {
    CommitRefines(tx, db, issued);
    PlainKeepsValid(tx, db, issued);
    PlainKeepsTimed(tx, db);
    CommitLineage(tx, db, issued);
    var db' := CommitFrom(tx, db, db);
    assert View(db').executions == db'.records && View(db').runs == db'.runs;
  }

  lemma PurgeKeepsDb(db: Db, issued: set<Uuid>, victims: seq<P.Victim>)
    requires DbOk(db, issued) && W.WereRead(db, victims) && W.Met(db, victims)
    ensures DbOk(P.CommitPurge(db, victims), issued) && Lineage(db, P.CommitPurge(db, victims), issued)
    ensures View(P.CommitPurge(db, victims)) == W.Swept(View(db), P.IdsOf(W.ItemsOf(victims)), W.RunIds(W.RunsOf(victims)))
  {
    W.PurgeExactly(db, victims);
    W.MetPurgeMeans(db, victims);
    W.SweptKeepsValid(View(db), P.IdsOf(W.ItemsOf(victims)), W.RunIds(W.RunsOf(victims)));
    assert View(P.CommitPurge(db, victims)).executions == db.records - P.IdsOf(W.ItemsOf(victims));
    assert View(P.CommitPurge(db, victims)).runs == db.runs - W.RunIds(W.RunsOf(victims));
  }

  lemma LookKeepsClient(db: Db, issued: set<Uuid>, client: Client)
    requires DbOk(db, issued) && client.Looking? && client.keys != [] && ClientOk(db, issued, client)
    ensures ClientOk(db, issued, client.(keys := client.keys[1..], found := Looked(db, client.q, client.found, client.keys[0])))
  {
    var k := client.keys[0];
    if NodeRefOf(db, client.q.runId, k).Some? {
      assert NodeOf(db.records[db.nodes[(client.q.runId, k)]]) == (client.q.runId, k);
    }
  }

  /** The move, if it is a purge, meets what was read for it. */
  ghost predicate Timely(s: Sys, move: Move) {
    move.Sweep? && move.c < |s.clients| && s.clients[move.c].Purging? ==> W.Met(s.db, s.clients[move.c].victims)
  }

  lemma MoveKeepsInv(s: Sys, move: Move, s': Sys)
    requires SysInv(s) && SysNext(s, move, s') && Timely(s, move)
    ensures SysInv(s')
  {
    match move
    case Begin(_, _) =>
    case Look(_, _, _) =>
    case LookNext(c) => LookKeepsClient(s.db, s.issued, s.clients[c]);
    case WatchFound(_) =>
    case Exec(c) => ExecKeepsInv(s, c, s');
    case Survey(_, _) =>
    case Sweep(c) => SweepKeepsInv(s, c, s');
  }

  lemma ExecKeepsInv(s: Sys, c: nat, s': Sys)
    requires SysInv(s) && SysNext(s, Exec(c), s')
    ensures SysInv(s')
  {
    var w := s.clients[c];
    assert ClientOk(s.db, s.issued, w);
    if Unchanged(w.tx, w.at, s.db) {
      WatchIsAtomic(w.tx, w.at, s.db);
      CommitKeepsDb(w.tx, s.db, s.issued);
      LineageKeepsClients(s, s');
    }
  }

  lemma SweepKeepsInv(s: Sys, c: nat, s': Sys)
    requires SysInv(s) && SysNext(s, Sweep(c), s') && Timely(s, Sweep(c))
    ensures SysInv(s')
  {
    var p := s.clients[c];
    assert ClientOk(s.db, s.issued, p);
    PurgeKeepsDb(s.db, s.issued, p.victims);
    LineageKeepsClients(s, s');
  }

  lemma LineageKeepsClients(s: Sys, s': Sys)
    requires SysInv(s) && Lineage(s.db, s'.db, s.issued) && s.issued <= s'.issued && |s'.clients| == |s.clients|
    requires forall c :: 0 <= c < |s.clients| ==> s'.clients[c] == s.clients[c] || s'.clients[c] == Idle
    ensures forall c :: 0 <= c < |s'.clients| ==> ClientOk(s'.db, s'.issued, s'.clients[c])
  {
    forall c | 0 <= c < |s'.clients|
      ensures ClientOk(s'.db, s'.issued, s'.clients[c])
    {
      assert ClientOk(s.db, s.issued, s.clients[c]);
      LineageKeepsClient(s.db, s'.db, s.issued, s'.issued, s.clients[c]);
    }
  }

  lemma InitialKeepsInv(s: Sys)
    requires Initial(s)
    ensures SysInv(s)
  {
    EmptyIsCoherent();
  }

  ghost predicate AllTimely(ss: seq<Sys>, moves: seq<Move>, n: nat)
    requires n < |ss| == |moves| + 1
  {
    forall i :: 0 <= i < n ==> Timely(ss[i], moves[i])
  }

  lemma {:induction false} RunKeepsInv(ss: seq<Sys>, moves: seq<Move>, i: nat)
    requires IsRun(ss, moves) && i < |ss| && AllTimely(ss, moves, i)
    ensures SysInv(ss[i])
  {
    if i == 0 {
      InitialKeepsInv(ss[0]);
    } else {
      RunKeepsInv(ss, moves, i - 1);
      RunStepKeepsInv(ss, moves, i - 1);
    }
  }

  lemma RunStepKeepsInv(ss: seq<Sys>, moves: seq<Move>, i: nat)
    requires IsRun(ss, moves) && i < |moves| && SysInv(ss[i]) && Timely(ss[i], moves[i])
    ensures SysInv(ss[i + 1])
  {
    MoveKeepsInv(ss[i], moves[i], ss[i + 1]);
  }

  /** A purge that does not meet what was read for it leaves indexes or counters wrong. */
  lemma LateSweepBreaks(s: Sys, move: Move, s': Sys)
    requires SysInv(s) && SysNext(s, move, s') && !Timely(s, move)
    ensures !Coherent(s'.db)
  {
    assert ClientOk(s.db, s.issued, s.clients[move.c]);
    W.PurgeExactly(s.db, s.clients[move.c].victims);
  }

  lemma LateBreaks(ss: seq<Sys>, moves: seq<Move>, i: nat)
    requires IsRun(ss, moves) && i < |moves| && AllTimely(ss, moves, i) && !Timely(ss[i], moves[i])
    ensures !Coherent(ss[i + 1].db)
  {
    RunKeepsInv(ss, moves, i);
    LateSweepBreaks(ss[i], moves[i], ss[i + 1]);
  }

  ghost predicate AllCoherent(ss: seq<Sys>, n: nat)
    requires n < |ss|
  {
    forall i :: 0 <= i <= n ==> Coherent(ss[i].db)
  }

  /** Under every interleaving of any number of clients, with reading and committing as separate steps
      and purges unguarded: the indexes and counters agree with the records in every state up to a
      given one if and only if every purge on the way met what was read for it. */
  lemma {:induction false} CoherentExactly(ss: seq<Sys>, moves: seq<Move>, n: nat)
    requires IsRun(ss, moves) && n < |ss|
    ensures AllCoherent(ss, n) <==> AllTimely(ss, moves, n)
  {
    if n == 0 {
      InitialKeepsInv(ss[0]);
    } else {
      CoherentExactly(ss, moves, n - 1);
      CoherentNext(ss, moves, n);
    }
  }

  lemma CoherentNext(ss: seq<Sys>, moves: seq<Move>, n: nat)
    requires IsRun(ss, moves) && 0 < n < |ss| && (AllCoherent(ss, n - 1) <==> AllTimely(ss, moves, n - 1))
    ensures AllCoherent(ss, n) <==> AllTimely(ss, moves, n)
  {
    if AllTimely(ss, moves, n) {
      RunKeepsInv(ss, moves, n);
    } else if AllTimely(ss, moves, n - 1) {
      LateBreaks(ss, moves, n - 1);
    }
  }

  /** Then the records are sound as well, and a run has a finish time exactly when it has finished. */
  lemma CoherentInEveryState(ss: seq<Sys>, moves: seq<Move>, i: nat)
    requires IsRun(ss, moves) && i < |ss| && AllTimely(ss, moves, i)
    ensures Coherent(ss[i].db) && Valid(View(ss[i].db)) && AllTimed(ss[i].db.runs)
  {
    RunKeepsInv(ss, moves, i);
  }

  /** Until a purge comes late, every move either leaves the records alone or carries out one
      transaction on them. */
  lemma EveryMoveRefines(ss: seq<Sys>, moves: seq<Move>, i: nat)
    requires IsRun(ss, moves) && i < |moves| && AllTimely(ss, moves, i + 1)
    ensures
      var s, s' := ss[i], ss[i + 1];
      match moves[i]
      case Exec(c) =>
        && c < |s.clients| && s.clients[c].Watching?
        && View(s'.db) == (if Unchanged(s.clients[c].tx, s.clients[c].at, s.db) then Plain(s.clients[c].tx, s.db) else View(s.db))
      case Sweep(c) =>
        && c < |s.clients| && s.clients[c].Purging?
        && var victims := s.clients[c].victims;
           View(s'.db) == W.Swept(View(s.db), P.IdsOf(W.ItemsOf(victims)), W.RunIds(W.RunsOf(victims)))
      case _ => s'.db == s.db
  {
    RunKeepsInv(ss, moves, i);
    var s := ss[i];
    assert SysNext(ss[i], moves[i], ss[i + 1]) && Timely(ss[i], moves[i]);
    match moves[i]
    case Exec(c) =>
      var w := s.clients[c];
      assert ClientOk(s.db, s.issued, w);
      if Unchanged(w.tx, w.at, s.db) {
        WatchIsAtomic(w.tx, w.at, s.db);
        CommitRefines(w.tx, s.db, s.issued);
      }
    case Sweep(c) =>
      assert ClientOk(s.db, s.issued, s.clients[c]);
      PurgeKeepsDb(s.db, s.issued, s.clients[c].victims);
    case _ =>
  }

  /** A status write that is carried out is the plain store's exactly when the new status is final or
      the run is not: otherwise the plain store keeps the finish time that this store clears. */
  lemma StatusIsPlainExactly(ss: seq<Sys>, moves: seq<Move>, i: nat, c: nat, tx: Tx)
    requires IsRun(ss, moves) && i < |moves| && AllTimely(ss, moves, i)
    requires moves[i] == Exec(c) && c < |ss[i].clients| && ss[i].clients[c].Watching?
    requires tx == ss[i].clients[c].tx && tx.StatusTx? && Unchanged(tx, ss[i].clients[c].at, ss[i].db)
    requires StatusReply(View(ss[i].db), tx.id, tx.expected).Ok?
    ensures View(ss[i + 1].db) == SetRunStatus(View(ss[i].db), tx.id, tx.expected, tx.status, tx.error, tx.now)
            <==> tx.status.Terminal() || !ss[i].db.runs[tx.id].status.Terminal()
  {
    var db := ss[i].db;
    RunKeepsInv(ss, moves, i);
    assert SysNext(ss[i], moves[i], ss[i + 1]);
    WatchIsAtomic(tx, ss[i].clients[c].at, db);
    assert Timed(db.runs[tx.id]) && RunIndexedAt(db, tx.id);
    StatusRefinesExactly(db, tx.id, tx.expected, tx.status, tx.error, tx.now);
  }

  /** Every status write a coordinator gets through is the same in both stores. */
  lemma CoordinatorStatusIsPlain(reg: Registry, ss: seq<Coord.Sys>, moves: seq<Coord.Move>, i: nat, step: Step, db: Db)
    requires ValidRegistry(reg) && Coord.IsRun(reg, ss, moves) && i < |moves|
    requires Coord.SysNext(reg, ss[i], moves[i], ss[i + 1]) && Coord.StepOf(reg, ss[i], moves[i]) == Some(step)
    requires step.SetStatus? && View(db) == ss[i].world.store
    ensures View(CommitStatus(db, step.id, ReadRun(db, step.id), step.expected, step.status, step.error, ss[i + 1].world.clock)) ==
            ss[i + 1].world.store
  {
    var s, now := ss[i].world.store, ss[i + 1].world.clock;
    Cas.RunKeepsCas(reg, ss, moves, i);
    if StatusReply(s, step.id, step.expected).Ok? {
      Cas.StatusWriteIsDue(reg, ss[i], moves[i], ss[i + 1], step);
      Cas.FinishTimesInEveryState(reg, ss, moves, i, step.id);
      StatusRefinesExactly(db, step.id, step.expected, step.status, step.error, now);
    }
  }
}
