/** Restarting a subgraph in the Redis store: the node references are looked up first, then the
    records found and the run are rewritten in one transaction. */
module RedisSubgraph {
  import opened Model
  import opened Records
  import opened Storage
  import opened Redis
  import C = Counting
  import P = RedisPurge

  function StatusAfter(e: Execution, q: RestartSubgraph): Status {
    if e.nodeKey == q.root then Pending else Blocked
  }

  function ResetItem(e: Execution, q: RestartSubgraph, now: Time): Execution {
    Reset(e, StatusAfter(e, q), OrNow(q.availableAt, now))
  }

  function SaveReset(db: Db, e: Execution, q: RestartSubgraph, now: Time): Db {
    SaveTransition(db, ResetItem(e, q, now), e.status, Event(EventRestarted, 0, "", now), e.nodeKey == q.root)
  }

  function SaveResets(db: Db, items: seq<Execution>, q: RestartSubgraph, now: Time): Db {
    if items == [] then db
    else SaveReset(SaveResets(db, items[..|items| - 1], q, now), items[|items| - 1], q, now)
  }

  predicate HasRoot(items: seq<Execution>, q: RestartSubgraph) {
    exists i :: 0 <= i < |items| && items[i].nodeKey == q.root
  }

  predicate AnyActive(items: seq<Execution>) {
    exists i :: 0 <= i < |items| && items[i].status.Active()
  }

  /** What the transaction writes, given the run and the records it has read. */
  function CommitSubgraph(db: Db, q: RestartSubgraph, read: Option<PipelineRun>, items: seq<Execution>, now: Time): Db {
    if read.None? || AnyActive(items) || !HasRoot(items, q) then db
    else SaveRun(SaveResets(db, items, q, now), ReopenedRun(read.value, now), read.value.status)
  }

  predicate Among(items: seq<Execution>, id: Uuid) {
    exists i :: 0 <= i < |items| && items[i].id == id
  }

  ghost predicate ResetAt(db: Db, db': Db, items: seq<Execution>, q: RestartSubgraph, now: Time, id: Uuid) {
    && (id in db'.records <==> id in db.records)
    && (id in db.records ==> id in db'.records ==>
          && db'.records[id] == (if Among(items, id) then ResetItem(db.records[id], q, now) else db.records[id])
          && LogOf(View(db'), id) ==
             (if Among(items, id) then LogOf(View(db), id) + [Event(EventRestarted, 0, "", now)] else LogOf(View(db), id)))
  }

  ghost predicate SameRest(db: Db, db': Db) {
    && db'.idempotent == db.idempotent && db'.nodes == db.nodes
    && db'.runs == db.runs && db'.runIdempotent == db.runIdempotent
    && db'.events.Keys == db.events.Keys
  }

  lemma SaveResetKeepsCoherent(db: Db, e: Execution, q: RestartSubgraph, now: Time)
    requires Coherent(db) && e.id in db.records && db.records[e.id] == e
    ensures Coherent(SaveReset(db, e, q, now))
  {
    var e' := ResetItem(e, q, now);
    assert IndexedAt(db, e.id);
    SaveTransitionRewrites(db, e, e', Event(EventRestarted, 0, "", now), e.nodeKey == q.root);
    RewriteKeepsCoherent(db, SaveReset(db, e, q, now), e, e');
  }

  lemma AmongNext(items: seq<Execution>, id: Uuid)
    requires items != []
    ensures Among(items, id) <==> Among(items[..|items| - 1], id) || items[|items| - 1].id == id
  {
    var n := |items| - 1;
    if Among(items[..n], id) {
      var i :| 0 <= i < n && items[..n][i].id == id;
      assert items[i].id == id;
    }
    if Among(items, id) {
      var i :| 0 <= i < |items| && items[i].id == id;
      assert i < n ==> items[..n][i].id == id;
    }
  }

  lemma SaveResetMeans(db: Db, mid: Db, items: seq<Execution>, q: RestartSubgraph, now: Time, id: Uuid)
    requires items != [] && P.Current(db, items)
    requires ResetAt(db, mid, items[..|items| - 1], q, now, id)
    requires ResetAt(db, mid, items[..|items| - 1], q, now, items[|items| - 1].id)
    ensures items[|items| - 1].id in mid.records && mid.records[items[|items| - 1].id] == items[|items| - 1]
    ensures ResetAt(db, SaveReset(mid, items[|items| - 1], q, now), items, q, now, id)
  {
    var n := |items| - 1;
    AmongNext(items, id);
    assert !Among(items[..n], items[n].id);
    SaveResetAt(mid, items[n], q, now, id);
  }

  lemma SaveResetAt(mid: Db, e: Execution, q: RestartSubgraph, now: Time, id: Uuid)
    ensures
      var db' := SaveReset(mid, e, q, now);
      && (id in db'.records <==> id in mid.records || id == e.id)
      && (id in db'.records ==> db'.records[id] == if id == e.id then ResetItem(e, q, now) else mid.records[id])
      && LogOf(View(db'), id) == if id == e.id then LogOf(View(mid), id) + [Event(EventRestarted, 0, "", now)] else LogOf(View(mid), id)
  {
  }

  lemma {:induction false} SaveResetsMeans(db: Db, items: seq<Execution>, q: RestartSubgraph, now: Time)
    requires Coherent(db) && P.Current(db, items) && db.events.Keys == db.records.Keys
    ensures
      var db' := SaveResets(db, items, q, now);
      Coherent(db') && SameRest(db, db') && forall id :: ResetAt(db, db', items, q, now, id)
  {
    if items != [] {
      var n := |items| - 1;
      SaveResetsMeans(db, items[..n], q, now);
      var mid := SaveResets(db, items[..n], q, now);
      forall id
        ensures ResetAt(db, SaveResets(db, items, q, now), items, q, now, id)
      {
        assert ResetAt(db, mid, items[..n], q, now, items[n].id);
        SaveResetMeans(db, mid, items, q, now, id);
      }
      assert ResetAt(db, mid, items[..n], q, now, items[n].id);
      SaveResetMeans(db, mid, items, q, now, items[n].id);
      SaveResetKeepsCoherent(mid, items[n], q, now);
    }
  }

  // ---------------------------------------------------------------------------------------------
  // Nodes named more than once

  /** The items without later repetitions. */
  function Unique(items: seq<Execution>): seq<Execution> {
    if items == [] then []
    else
      var n := |items| - 1;
      if Among(items[..n], items[n].id) then Unique(items[..n]) else Unique(items[..n]) + [items[n]]
  }

  /** Each item is the current record, however often it comes. */
  ghost predicate AllCurrent(db: Db, items: seq<Execution>) {
    forall i :: 0 <= i < |items| ==> items[i].id in db.records && db.records[items[i].id] == items[i]
  }

  lemma AmongAppended(items: seq<Execution>, e: Execution, id: Uuid)
    ensures Among(items + [e], id) <==> Among(items, id) || e.id == id
  {
    AmongNext(items + [e], id);
    assert (items + [e])[..|items|] == items;
  }

  lemma {:induction false} UniqueAmong(items: seq<Execution>, id: Uuid)
    ensures Among(Unique(items), id) <==> Among(items, id)
  {
    if items != [] {
      var n := |items| - 1;
      UniqueAmong(items[..n], id);
      AmongNext(items, id);
      AmongAppended(Unique(items[..n]), items[n], id);
    }
  }

  lemma {:induction false} UniqueIsCurrent(db: Db, items: seq<Execution>)
    requires AllCurrent(db, items)
    ensures P.Current(db, Unique(items))
  {
    if items != [] {
      var n := |items| - 1;
      UniqueIsCurrent(db, items[..n]);
      UniqueAmong(items[..n], items[n].id);
    }
  }

  /** Everything about executions is the same but the counters and the logs. */
  predicate SameSets(a: Db, b: Db) {
    && a.records == b.records && a.created == b.created && a.tasks == b.tasks && a.members == b.members
    && a.statuses == b.statuses && a.queues == b.queues && a.leases == b.leases
  }

  lemma SameResetSameSets(a: Db, b: Db, e: Execution, q: RestartSubgraph, now: Time)
    requires SameSets(a, b)
    ensures SameSets(SaveReset(a, e, q, now), SaveReset(b, e, q, now))
  {
  }

  /** Rewriting what has been rewritten moves counters only. */
  lemma ResetAgain(a: Db, b: Db, e: Execution, q: RestartSubgraph, now: Time)
    requires SameSets(a, b) && e.id in b.records && b.records[e.id] == ResetItem(e, q, now)
    requires StatusAs(b.statuses, ResetItem(e, q, now)) && QueueAs(b.queues, ResetItem(e, q, now)) && e.id !in b.leases
    ensures SameSets(SaveReset(a, e, q, now), b)
  {
    TransitionAgain(a, e, ResetItem(e, q, now), Event(EventRestarted, 0, "", now), e.nodeKey == q.root);
  }

  lemma TransitionAgain(a: Db, e: Execution, e': Execution, event: Event, keep: bool)
    requires SameIdentity(e, e') && keep == e'.status.Active() && !e'.status.Running?
    requires e.id in a.records && a.records[e.id] == e'
    requires StatusAs(a.statuses, e') && QueueAs(a.queues, e') && e.id !in a.leases
    ensures SameSets(SaveTransition(a, e', e.status, event, keep), a)
  {
    SameStatus(a.statuses, e, e');
    SameQueue(a.queues, e', keep);
  }

  lemma SameStatus(statuses: map<(Status, Uuid), Score>, e: Execution, e': Execution)
    requires StatusAs(statuses, e') && SameIdentity(e, e')
    ensures (statuses - {(e.status, e.id)})[(e'.status, e.id) := ScoreOf(e.createdAt)] == statuses
  {
    assert Entry(statuses, (e'.status, e.id)) == Some(ScoreOf(e.createdAt));
    assert e.status != e'.status ==> Entry(statuses, (e.status, e.id)) == None;
  }

  lemma SameQueue(queues: map<(string, Uuid), Score>, e: Execution, keep: bool)
    requires QueueAs(queues, e) && keep == e.status.Active()
    ensures (if keep then queues[(e.taskName, e.id) := ScoreOf(QueueAt(e))] else queues - {(e.taskName, e.id)}) == queues
  {
    assert Entry(queues, (e.taskName, e.id)) == if keep then Some(ScoreOf(QueueAt(e))) else None;
  }

  /** What one rewriting adds to a counter. */
  function Shift(e: Execution, q: RestartSubgraph, name: string, status: Status): int {
    C.One(e.taskName == name && StatusAfter(e, q) == status) - C.One(C.Has(e, name, status))
  }

  lemma CounterShifts(db: Db, e: Execution, q: RestartSubgraph, now: Time, name: string, status: Status)
    ensures Count(SaveReset(db, e, q, now).counts, (name, status)) == Count(db.counts, (name, status)) + Shift(e, q, name, status)
  {
  }

  /** What the repetitions add to a counter. */
  function Drift(items: seq<Execution>, q: RestartSubgraph, name: string, status: Status): int {
    if items == [] then 0
    else
      var n := |items| - 1;
      Drift(items[..n], q, name, status) + (if Among(items[..n], items[n].id) then Shift(items[n], q, name, status) else 0)
  }

  /** Repetitions move counters only, and by as much as they add up to. */
  ghost predicate Drifted(db: Db, items: seq<Execution>, q: RestartSubgraph, now: Time) {
    var a, b := SaveResets(db, items, q, now), SaveResets(db, Unique(items), q, now);
    && SameSets(a, b)
    && (forall name, status :: Count(a.counts, (name, status)) == Count(b.counts, (name, status)) + Drift(items, q, name, status))
  }

  /** What one more item adds. */
  lemma OneMoreItem(db: Db, items: seq<Execution>, e: Execution, q: RestartSubgraph, now: Time)
    ensures SaveResets(db, items + [e], q, now) == SaveReset(SaveResets(db, items, q, now), e, q, now)
    ensures Unique(items + [e]) == if Among(items, e.id) then Unique(items) else Unique(items) + [e]
    ensures forall name, status :: Drift(items + [e], q, name, status) ==
              Drift(items, q, name, status) + (if Among(items, e.id) then Shift(e, q, name, status) else 0)
  {
    assert (items + [e])[..|items + [e]| - 1] == items && (items + [e])[|items + [e]| - 1] == e;
  }

  lemma NewNodeDrifts(db: Db, items: seq<Execution>, e: Execution, q: RestartSubgraph, now: Time)
    requires Drifted(db, items, q, now) && !Among(items, e.id)
    ensures Drifted(db, items + [e], q, now)
  {
    var a, b := SaveResets(db, items, q, now), SaveResets(db, Unique(items), q, now);
    OneMoreItem(db, items, e, q, now);
    OneMoreItem(db, Unique(items), e, q, now);
    SameResetSameSets(a, b, e, q, now);
    forall name, status
      ensures Count(SaveReset(a, e, q, now).counts, (name, status)) ==
              Count(SaveReset(b, e, q, now).counts, (name, status)) + Drift(items, q, name, status)
    {
      CounterShifts(a, e, q, now, name, status);
      CounterShifts(b, e, q, now, name, status);
    }
  }

  /** After the first rewriting of a node the keyspace holds it as rewritten. */
  lemma UniqueHolds(db: Db, items: seq<Execution>, e: Execution, q: RestartSubgraph, now: Time)
    requires Coherent(db) && AllCurrent(db, items) && db.events.Keys == db.records.Keys
    requires e.id in db.records && db.records[e.id] == e && Among(items, e.id)
    ensures
      var b, e' := SaveResets(db, Unique(items), q, now), ResetItem(e, q, now);
      && e.id in b.records && b.records[e.id] == e'
      && StatusAs(b.statuses, e') && QueueAs(b.queues, e') && e.id !in b.leases
  {
    var b := SaveResets(db, Unique(items), q, now);
    UniqueIsCurrent(db, items);
    UniqueAmong(items, e.id);
    SaveResetsMeans(db, Unique(items), q, now);
    assert ResetAt(db, b, Unique(items), q, now, e.id) && IndexedAt(b, e.id);
    assert Entry(b.leases, e.id) == None;
  }

  /** One more repetition shifts the counters once more and changes nothing else. */
  lemma ShiftedAgain(a: Db, b: Db, e: Execution, q: RestartSubgraph, now: Time, name: string, status: Status, drift: int)
    requires Count(a.counts, (name, status)) == Count(b.counts, (name, status)) + drift
    ensures Count(SaveReset(a, e, q, now).counts, (name, status)) == Count(b.counts, (name, status)) + (drift + Shift(e, q, name, status))
  {
    CounterShifts(a, e, q, now, name, status);
  }

  lemma RepeatedNodeDrifts(db: Db, items: seq<Execution>, e: Execution, q: RestartSubgraph, now: Time)
    requires Coherent(db) && AllCurrent(db, items) && db.events.Keys == db.records.Keys
    requires e.id in db.records && db.records[e.id] == e && Drifted(db, items, q, now) && Among(items, e.id)
    ensures Drifted(db, items + [e], q, now)
  {
    var a, b := SaveResets(db, items, q, now), SaveResets(db, Unique(items), q, now);
    OneMoreItem(db, items, e, q, now);
    UniqueHolds(db, items, e, q, now);
    ResetAgain(a, b, e, q, now);
    forall name, status
      ensures Count(SaveReset(a, e, q, now).counts, (name, status)) == Count(b.counts, (name, status)) + Drift(items + [e], q, name, status)
    {
      ShiftedAgain(a, b, e, q, now, name, status, Drift(items, q, name, status));
    }
  }

  lemma {:induction false} RepetitionsDrift(db: Db, items: seq<Execution>, q: RestartSubgraph, now: Time)
    requires Coherent(db) && AllCurrent(db, items) && db.events.Keys == db.records.Keys
    ensures Drifted(db, items, q, now)
  {
    if items != [] {
      var n := |items| - 1;
      RepetitionsDrift(db, items[..n], q, now);
      assert items == items[..n] + [items[n]];
      if Among(items[..n], items[n].id) {
        RepeatedNodeDrifts(db, items[..n], items[n], q, now);
      } else {
        NewNodeDrifts(db, items[..n], items[n], q, now);
      }
    }
  }

  /** Every node named more than once already has the status it gets. */
  ghost predicate RepeatsStand(items: seq<Execution>, q: RestartSubgraph) {
    forall j :: 0 <= j < |items| && Among(items[..j], items[j].id) ==> items[j].status == StatusAfter(items[j], q)
  }

  lemma {:induction false} NoDrift(items: seq<Execution>, q: RestartSubgraph, name: string, status: Status)
    requires RepeatsStand(items, q)
    ensures Drift(items, q, name, status) == 0
  {
    if items != [] {
      PrefixStands(items, q, |items| - 1);
      NoDrift(items[..|items| - 1], q, name, status);
    }
  }

  lemma PrefixStands(items: seq<Execution>, q: RestartSubgraph, n: nat)
    requires RepeatsStand(items, q) && n <= |items|
    ensures RepeatsStand(items[..n], q)
  {
    forall j | 0 <= j < n && Among(items[..n][..j], items[..n][j].id)
      ensures items[..n][j].status == StatusAfter(items[..n][j], q)
    {
      assert items[..n][..j] == items[..j];
    }
  }

  /** Nothing active is rewritten, so no repetition takes from the pending counter of a task, and none
      adds to the counter of a final status. */
  lemma {:induction false} DriftOneWay(items: seq<Execution>, q: RestartSubgraph, name: string, status: Status)
    requires !AnyActive(items)
    ensures status.Pending? ==> Drift(items, q, name, status) >= 0
    ensures status.Terminal() ==> Drift(items, q, name, status) <= 0
  {
    if items != [] {
      var n := |items| - 1;
      QuietPrefix(items, n);
      DriftOneWay(items[..n], q, name, status);
      assert !items[n].status.Active();
    }
  }

  lemma QuietPrefix(items: seq<Execution>, n: nat)
    requires !AnyActive(items) && n <= |items|
    ensures !AnyActive(items[..n])
  {
    forall i | 0 <= i < n
      ensures !items[..n][i].status.Active()
    {
      assert items[..n][i] == items[i];
    }
  }

  /** The counter that shows a repetition which changed something. */
  function Telltale(e: Execution, q: RestartSubgraph): Status {
    if e.nodeKey == q.root then Pending else e.status
  }

  lemma {:induction false} RepeatDrifts(items: seq<Execution>, q: RestartSubgraph, j: nat)
    requires !AnyActive(items) && j < |items| && Among(items[..j], items[j].id) && items[j].status != StatusAfter(items[j], q)
    ensures Drift(items, q, items[j].taskName, Telltale(items[j], q)) != 0
    ensures Telltale(items[j], q).Pending? || Telltale(items[j], q).Terminal()
  {
    var n, name, status := |items| - 1, items[j].taskName, Telltale(items[j], q);
    assert !items[j].status.Active();
    QuietPrefix(items, n);
    if j == n {
      DriftOneWay(items[..n], q, name, status);
    } else {
      assert items[..n][..j] == items[..j];
      RepeatDrifts(items[..n], q, j);
      DriftOneWay(items[..n], q, name, status);
      assert !items[n].status.Active();
    }
  }

  lemma SetsDecide(a: Db, b: Db)
    requires ExecutionsCoherent(b) && SameSets(a, b)
    ensures ExecutionsCoherent(a) <==> forall name, status :: Count(a.counts, (name, status)) == Count(b.counts, (name, status))
  {
    forall x
      ensures IndexedAt(a, x)
    {
      assert IndexedAt(b, x);
    }
    forall name, status
      ensures Count(b.counts, (name, status)) == C.CountOf(b.records, name, status)
    {
    }
  }

  lemma DriftDecides(items: seq<Execution>, q: RestartSubgraph)
    requires !AnyActive(items)
    ensures (forall name, status :: Drift(items, q, name, status) == 0) <==> RepeatsStand(items, q)
  {
    if RepeatsStand(items, q) {
      forall name, status
        ensures Drift(items, q, name, status) == 0
      {
        NoDrift(items, q, name, status);
      }
    } else {
      var j :| 0 <= j < |items| && Among(items[..j], items[j].id) && items[j].status != StatusAfter(items[j], q);
      RepeatDrifts(items, q, j);
    }
  }

  /** Rewriting the records found, any of them any number of times, keeps the indexes and counters
      right exactly when every one that comes more than once already has the status it gets. */
  lemma RepeatedResetsExactly(db: Db, items: seq<Execution>, q: RestartSubgraph, now: Time)
    requires Coherent(db) && AllCurrent(db, items) && db.events.Keys == db.records.Keys && !AnyActive(items)
    ensures ExecutionsCoherent(SaveResets(db, items, q, now)) <==> RepeatsStand(items, q)
  {
    UniqueKeepsCoherent(db, items, q, now);
    RepetitionsDrift(db, items, q, now);
    CountersDecide(SaveResets(db, items, q, now), SaveResets(db, Unique(items), q, now), items, q);
  }

  lemma UniqueKeepsCoherent(db: Db, items: seq<Execution>, q: RestartSubgraph, now: Time)
    requires Coherent(db) && AllCurrent(db, items) && db.events.Keys == db.records.Keys
    ensures ExecutionsCoherent(SaveResets(db, Unique(items), q, now))
  {
    UniqueIsCurrent(db, items);
    SaveResetsMeans(db, Unique(items), q, now);
  }

  lemma CountersDecide(a: Db, b: Db, items: seq<Execution>, q: RestartSubgraph)
    requires ExecutionsCoherent(b) && SameSets(a, b) && !AnyActive(items)
    requires forall name, status :: Count(a.counts, (name, status)) == Count(b.counts, (name, status)) + Drift(items, q, name, status)
    ensures ExecutionsCoherent(a) <==> RepeatsStand(items, q)
  {
    SetsDecide(a, b);
    DriftDecides(items, q);
    if !RepeatsStand(items, q) {
      var name, status :| Drift(items, q, name, status) != 0;
      assert Count(a.counts, (name, status)) != Count(b.counts, (name, status));
    } else {
      forall name, status
        ensures Count(a.counts, (name, status)) == Count(b.counts, (name, status))
      {
        assert Drift(items, q, name, status) == 0;
      }
    }
  }

  lemma {:induction false} SaveResetsKeepsRuns(db: Db, items: seq<Execution>, q: RestartSubgraph, now: Time)
    ensures
      var db' := SaveResets(db, items, q, now);
      && db'.runs == db.runs && db'.runIndex == db.runIndex && db'.runStatuses == db.runStatuses && db'.runCounts == db.runCounts
  {
    if items != [] {
      SaveResetsKeepsRuns(db, items[..|items| - 1], q, now);
    }
  }

  /** A restart may name nodes any number of times. Its transaction keeps the indexes and counters
      right exactly when it is refused or every node named more than once already has the status it
      gets. */
  lemma NodeNamedTwiceExactly(db: Db, q: RestartSubgraph, items: seq<Execution>, now: Time)
    requires Coherent(db) && AllCurrent(db, items) && db.events.Keys == db.records.Keys
    ensures Coherent(CommitSubgraph(db, q, ReadRun(db, q.runId), items, now)) <==>
            q.runId !in db.runs || AnyActive(items) || !HasRoot(items, q) || RepeatsStand(items, q)
  {
    if q.runId in db.runs && !AnyActive(items) && HasRoot(items, q) {
      var mid := SaveResets(db, items, q, now);
      SaveResetsKeepsRuns(db, items, q, now);
      RepeatedResetsExactly(db, items, q, now);
      ReopenExactly(db, mid, q.runId, now);
    }
  }

  lemma ReopenExactly(db: Db, mid: Db, r: Uuid, now: Time)
    requires Coherent(db) && r in db.runs
    requires mid.runs == db.runs && mid.runIndex == db.runIndex && mid.runStatuses == db.runStatuses && mid.runCounts == db.runCounts
    ensures Coherent(SaveRun(mid, ReopenedRun(db.runs[r], now), db.runs[r].status)) <==> ExecutionsCoherent(mid)
  {
    var db' := SaveRun(mid, ReopenedRun(db.runs[r], now), db.runs[r].status);
    assert RunIndexedAt(db, r);
    if ExecutionsCoherent(mid) {
      RunsKept(db, mid);
      SaveRunKeepsCoherent(mid, ReopenedRun(db.runs[r], now));
    }
    if ExecutionsCoherent(db') {
      ExecutionsKept(db', mid);
    }
  }

  /** The records the references led to are nodes of the run. */
  predicate AreNodes(q: RestartSubgraph, items: seq<Execution>) {
    forall i :: 0 <= i < |items| ==> items[i].runId == Some(q.runId) && items[i].nodeKey != ""
  }

  function KeysFound(items: seq<Execution>): seq<string> {
    seq(|items|, i requires 0 <= i < |items| => items[i].nodeKey)
  }

  /** The restart of exactly the nodes found. */
  function Found(q: RestartSubgraph, items: seq<Execution>): RestartSubgraph {
    q.(descendants := KeysFound(items))
  }

  lemma AmongIsReset(db: Db, q: RestartSubgraph, items: seq<Execution>, id: Uuid)
    requires P.Current(db, items) && AreNodes(q, items) && NodesExact(db.records, db.nodes) && HasRoot(items, q)
    requires id in db.records && db.records[id].id == id
    ensures Among(items, id) <==> ResetTo(db.records[id], Found(q, items)).Some?
    ensures Among(items, id) ==> ResetTo(db.records[id], Found(q, items)) == Some(StatusAfter(db.records[id], q))
  {
    var e, keys := db.records[id], KeysFound(items);
    if Among(items, id) {
      var i :| 0 <= i < |items| && items[i].id == id;
      assert keys[i] == e.nodeKey;
    }
    if ResetTo(e, Found(q, items)).Some? {
      var i :| 0 <= i < |items| && items[i].nodeKey == e.nodeKey;
      assert NodeOf(e) == NodeOf(items[i]);
    }
  }

  lemma AllowedExactly(db: Db, q: RestartSubgraph, items: seq<Execution>)
    requires Coherent(db) && P.Current(db, items) && AreNodes(q, items) && NodesExact(db.records, db.nodes) && HasRoot(items, q)
    ensures RestartAllowed(View(db), Found(q, items)) <==> q.runId in db.runs && !AnyActive(items)
  {
    var q' := Found(q, items);
    var r :| 0 <= r < |items| && items[r].nodeKey == q.root;
    assert items[r].id in db.records;
    forall id | id in db.records
      ensures Among(items, id) <==> ResetTo(db.records[id], q').Some?
    {
      assert IndexedAt(db, id);
      AmongIsReset(db, q, items, id);
    }
    if AnyActive(items) {
      var i :| 0 <= i < |items| && items[i].status.Active();
      assert Among(items, items[i].id);
    }
  }

  lemma ResetIsRecord(db: Db, db': Db, q: RestartSubgraph, items: seq<Execution>, now: Time, id: Uuid)
    requires P.Current(db, items) && AreNodes(q, items) && NodesExact(db.records, db.nodes) && HasRoot(items, q)
    requires id in db.records && db.records[id].id == id && ResetAt(db, db', items, q, now, id)
    ensures db'.records[id] == ResetRecord(db.records[id], Found(q, items), now)
    ensures LogOf(View(db'), id) == ResetLog(db.records[id], LogOf(View(db), id), Found(q, items), now)
  {
    AmongIsReset(db, q, items, id);
  }

  lemma ResetsRefine(db: Db, db': Db, q: RestartSubgraph, items: seq<Execution>, now: Time)
    requires Coherent(db) && P.Current(db, items) && AreNodes(q, items) && NodesExact(db.records, db.nodes) && HasRoot(items, q)
    requires db.events.Keys == db.records.Keys && SameRest(db, db')
    requires forall id :: ResetAt(db, db', items, q, now, id)
    ensures db'.records == map id | id in db.records :: ResetRecord(db.records[id], Found(q, items), now)
    ensures db'.events == map id | id in db.records :: ResetLog(db.records[id], LogOf(View(db), id), Found(q, items), now)
  {
    forall id
      ensures id in db.records ==> ResetAs(db, db', Found(q, items), now, id)
      ensures id in db'.records ==> id in db.records
    {
      assert IndexedAt(db, id);
      assert ResetAt(db, db', items, q, now, id);
      if id in db.records {
        ResetIsRecord(db, db', q, items, now, id);
      }
    }
    ResetsAsMaps(db, db', Found(q, items), now);
  }

  predicate ResetAs(db: Db, db': Db, q: RestartSubgraph, now: Time, id: Uuid)
    requires id in db.records
  {
    && id in db'.records && db'.records[id] == ResetRecord(db.records[id], q, now)
    && id in db'.events && db'.events[id] == ResetLog(db.records[id], LogOf(View(db), id), q, now)
  }

  lemma ResetsAsMaps(db: Db, db': Db, q: RestartSubgraph, now: Time)
    requires db'.records.Keys <= db.records.Keys && db'.events.Keys <= db.records.Keys
    requires forall id :: id in db.records ==> ResetAs(db, db', q, now, id)
    ensures db'.records == map id | id in db.records :: ResetRecord(db.records[id], q, now)
    ensures db'.events == map id | id in db.records :: ResetLog(db.records[id], LogOf(View(db), id), q, now)
  {
    assert forall id :: id in db.records ==> id in db'.records && id in db'.events;
  }

  /** The transaction keeps indexes and counters right, and is the plain store's restart of the
      nodes that were found; it writes nothing if one of them is active or the root is not among
      them. */
  lemma SubgraphRefines(db: Db, q: RestartSubgraph, items: seq<Execution>, now: Time)
    requires Coherent(db) && P.Current(db, items) && AreNodes(q, items) && Valid(View(db))
    ensures Coherent(CommitSubgraph(db, q, ReadRun(db, q.runId), items, now))
    ensures View(CommitSubgraph(db, q, ReadRun(db, q.runId), items, now)) ==
            if HasRoot(items, q) then RestartNodes(View(db), Found(q, items), now) else View(db)
  {
    if HasRoot(items, q) {
      AllowedExactly(db, q, items);
      if q.runId in db.runs && !AnyActive(items) {
        SubgraphCommits(db, q, items, now);
      }
    }
  }

  lemma SubgraphCommits(db: Db, q: RestartSubgraph, items: seq<Execution>, now: Time)
    requires Coherent(db) && P.Current(db, items) && AreNodes(q, items) && NodesExact(db.records, db.nodes) && HasRoot(items, q)
    requires db.events.Keys == db.records.Keys && q.runId in db.runs && RestartAllowed(View(db), Found(q, items))
    ensures
      var db' := SaveRun(SaveResets(db, items, q, now), ReopenedRun(db.runs[q.runId], now), db.runs[q.runId].status);
      Coherent(db') && View(db') == RestartNodes(View(db), Found(q, items), now)
  {
    assert RunIndexedAt(db, q.runId);
    SaveResetsMeans(db, items, q, now);
    var mid := SaveResets(db, items, q, now);
    ResetsRefine(db, mid, q, items, now);
    SaveRunKeepsCoherent(mid, ReopenedRun(db.runs[q.runId], now));
    ViewOfReset(db, mid, Found(q, items), now);
  }

  lemma ViewOfReset(db: Db, mid: Db, q: RestartSubgraph, now: Time)
    requires SameRest(db, mid) && q.runId in db.runs && RestartAllowed(View(db), q) && db.runs[q.runId].id == q.runId
    requires mid.records == map id | id in db.records :: ResetRecord(db.records[id], q, now)
    requires mid.events == map id | id in db.records :: ResetLog(db.records[id], LogOf(View(db), id), q, now)
    ensures View(SaveRun(mid, ReopenedRun(db.runs[q.runId], now), db.runs[q.runId].status)) == RestartNodes(View(db), q, now)
  {
  }
}
