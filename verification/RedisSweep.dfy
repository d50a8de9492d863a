/** The purge transaction of the Redis store when it comes late: it is built from what was read
    before and watches nothing. */
module RedisSweep {
  import opened Model
  import opened Storage
  import opened Redis
  import opened RedisPurge
  import C = Counting

  // ---------------------------------------------------------------------------------------------
  // Executions and runs apart

  function ItemsOf(victims: seq<Victim>): seq<Execution> {
    if victims == [] then []
    else
      var before, v := ItemsOf(victims[..|victims| - 1]), victims[|victims| - 1];
      before + (if v.RunVictim? then v.nodes else [v.item])
  }

  function RunsOf(victims: seq<Victim>): seq<PipelineRun> {
    if victims == [] then []
    else
      var before, v := RunsOf(victims[..|victims| - 1]), victims[|victims| - 1];
      if v.RunVictim? then before + [v.run] else before
  }

  function DropRuns(db: Db, runs: seq<PipelineRun>): Db {
    if runs == [] then db else SaveDropRun(DropRuns(db, runs[..|runs| - 1]), runs[|runs| - 1])
  }

  lemma {:induction false} DropEachAppended(db: Db, a: seq<Execution>, b: seq<Execution>)
    ensures DropEach(db, a + b) == DropEach(DropEach(db, a), b)
  {
    if b == [] {
      assert a + b == a;
    } else {
      var n := |b| - 1;
      DropEachAppended(db, a, b[..n]);
      assert (a + b)[..|a + b| - 1] == a + b[..n] && (a + b)[|a + b| - 1] == b[n];
    }
  }

  /** The run part of one keyspace with the rest of another. */
  function Joined(d: Db, r: Db): Db {
    d.(runs := r.runs, runIndex := r.runIndex, runStatuses := r.runStatuses, runCounts := r.runCounts, runIdempotent := r.runIdempotent)
  }

  lemma RunPart(d: Db, db: Db, run: PipelineRun)
    requires Joined(d, db) == d
    ensures SaveDropRun(d, run) == Joined(d, SaveDropRun(db, run))
  {
  }

  lemma RecordPart(r: Db, db: Db, item: Execution)
    requires Joined(db, r) == r
    ensures SaveDrop(r, item) == Joined(SaveDrop(db, item), r)
  {
  }

  lemma DropsCommute(db: Db, item: Execution, run: PipelineRun)
    ensures SaveDrop(SaveDropRun(db, run), item) == SaveDropRun(SaveDrop(db, item), run)
  {
    RunPart(SaveDrop(db, item), db, run);
    RecordPart(SaveDropRun(db, run), db, item);
  }

  lemma {:induction false} ItemCommutes(db: Db, item: Execution, runs: seq<PipelineRun>)
    ensures SaveDrop(DropRuns(db, runs), item) == DropRuns(SaveDrop(db, item), runs)
  {
    if runs != [] {
      var n := |runs| - 1;
      ItemCommutes(db, item, runs[..n]);
      DropsCommute(DropRuns(db, runs[..n]), item, runs[n]);
    }
  }

  lemma {:induction false} ItemsCommute(db: Db, items: seq<Execution>, runs: seq<PipelineRun>)
    ensures DropEach(DropRuns(db, runs), items) == DropRuns(DropEach(db, items), runs)
  {
    if items != [] {
      var n := |items| - 1;
      ItemsCommute(db, items[..n], runs);
      ItemCommutes(DropEach(db, items[..n]), items[n], runs);
    }
  }

  /** The order of the commands does not matter: all executions, then all runs. */
  lemma {:induction false} PurgeSplits(db: Db, victims: seq<Victim>)
    ensures CommitPurge(db, victims) == DropRuns(DropEach(db, ItemsOf(victims)), RunsOf(victims))
  {
    if victims != [] {
      var n := |victims| - 1;
      var items, runs := ItemsOf(victims[..n]), RunsOf(victims[..n]);
      PurgeSplits(db, victims[..n]);
      match victims[n]
      case RunVictim(run, nodes) =>
        ItemsCommute(DropEach(db, items), nodes, runs);
        DropEachAppended(db, items, nodes);
        assert (runs + [run])[..|runs|] == runs;
      case TaskVictim(item) =>
        ItemsCommute(DropEach(db, items), [item], runs);
        DropEachAppended(db, items, [item]);
        DropEachOne(DropRuns(DropEach(db, items), runs), item);
    }
  }

  lemma DropEachOne(db: Db, item: Execution)
    ensures DropEach(db, [item]) == SaveDrop(db, item)
  {
    assert DropEach(db, [item][..0]) == db;
  }

  // ---------------------------------------------------------------------------------------------
  // Runs read earlier

  /** The run is still there with the status that was read. */
  predicate StillRun(db: Db, run: PipelineRun) {
    run.id in db.runs && db.runs[run.id].status == run.status
  }

  ghost predicate RunsApart(db: Db, runs: seq<PipelineRun>) {
    && (forall i, j :: 0 <= i < j < |runs| ==> runs[i].id != runs[j].id)
    && (forall i :: 0 <= i < |runs| && runs[i].id in db.runs ==> RunIdemOf(db.runs[runs[i].id]) == RunIdemOf(runs[i]))
  }

  function RunIds(runs: seq<PipelineRun>): set<Uuid> {
    set r | r in runs :: r.id
  }

  lemma RunIdsAppended(runs: seq<PipelineRun>, r: PipelineRun)
    ensures RunIds(runs + [r]) == RunIds(runs) + {r.id}
  {
    assert (runs + [r])[|runs|] == r;
    forall x | x in runs
      ensures x in runs + [r]
    {
    }
  }

  lemma RunIdsNext(runs: seq<PipelineRun>, n: nat)
    requires n < |runs| && forall i, j :: 0 <= i < j < |runs| ==> runs[i].id != runs[j].id
    ensures runs[n].id !in RunIds(runs[..n]) && RunIds(runs[..n + 1]) == RunIds(runs[..n]) + {runs[n].id}
  {
    assert runs[..n + 1] == runs[..n] + [runs[n]];
    RunIdsAppended(runs[..n], runs[n]);
    forall r | r in runs[..n]
      ensures r.id != runs[n].id
    {
      var i :| 0 <= i < n && runs[..n][i] == r;
      assert runs[i] == r;
    }
  }

  lemma {:induction false} DropRunsLeaves(db: Db, runs: seq<PipelineRun>)
    ensures DropRuns(db, runs).runs == db.runs - RunIds(runs)
  {
    if runs == [] {
      assert RunIds(runs) == {};
    } else {
      var n := |runs| - 1;
      DropRunsLeaves(db, runs[..n]);
      RunIdsAppended(runs[..n], runs[n]);
      assert runs == runs[..n] + [runs[n]];
      RunsMinus(db.runs, RunIds(runs[..n]), runs[n].id);
    }
  }

  lemma RunsMinus(runs: map<Uuid, PipelineRun>, gone: set<Uuid>, x: Uuid)
    ensures runs - gone - {x} == runs - (gone + {x})
  {
  }

  lemma SameRunDropped(db: Db, run: PipelineRun)
    requires StillRun(db, run) && db.runs[run.id].id == run.id && RunIdemOf(db.runs[run.id]) == RunIdemOf(run)
    ensures SaveDropRun(db, run) == SaveDropRun(db, db.runs[run.id])
  {
  }

  lemma DropRunKeepsRuns(db: Db, id: Uuid)
    requires RunsCoherent(db) && id in db.runs
    ensures RunsCoherent(SaveDropRun(db, db.runs[id]))
  {
    var db' := SaveDropRun(db, db.runs[id]);
    assert RunIndexedAt(db, id);
    RunCountsShrink(db.runs, db.runCounts, db.runs[id]);
    forall r
      ensures RunIndexedAt(db', r)
    {
      assert RunIndexedAt(db, r);
    }
  }

  lemma {:induction false} CurrentRunsKeep(db: Db, runs: seq<PipelineRun>)
    requires RunsCoherent(db) && RunsApart(db, runs) && forall i :: 0 <= i < |runs| ==> StillRun(db, runs[i])
    ensures RunsCoherent(DropRuns(db, runs))
  {
    if runs != [] {
      var n := |runs| - 1;
      CurrentRunsKeep(db, runs[..n]);
      DropRunsLeaves(db, runs[..n]);
      RunIdsNext(runs, n);
      var mid := DropRuns(db, runs[..n]);
      assert RunIndexedAt(mid, runs[n].id);
      SameRunDropped(mid, runs[n]);
      DropRunKeepsRuns(mid, runs[n].id);
    }
  }

  /** How many of the runs have this name and status but are not there any more. */
  function RunsGone(db: Db, runs: seq<PipelineRun>, name: string, status: RunStatus): nat {
    if runs == [] then 0
    else
      var n := |runs| - 1;
      RunsGone(db, runs[..n], name, status) + C.One(runs[n].id !in db.runs && C.RunHas(runs[n], name, status))
  }

  lemma RunCountLags(mid: Db, run: PipelineRun, name: string, status: RunStatus, gone: nat)
    requires Count(mid.runCounts, (name, status)) == C.RunCountOf(mid.runs, name, status) - gone
    requires run.id in mid.runs ==> C.RunHas(mid.runs[run.id], name, status) == C.RunHas(run, name, status)
    ensures
      var db' := SaveDropRun(mid, run);
      Count(db'.runCounts, (name, status)) ==
      C.RunCountOf(db'.runs, name, status) - (gone + C.One(run.id !in mid.runs && C.RunHas(run, name, status)))
  {
    C.RunCountAfterDrop(mid.runs, run.id, name, status);
  }

  lemma {:induction false} RunCountsLag(db: Db, runs: seq<PipelineRun>, name: string, status: RunStatus)
    requires RunsCounted(db.runs, db.runCounts) && RunsApart(db, runs)
    requires forall i :: 0 <= i < |runs| && runs[i].id in db.runs ==> StillRun(db, runs[i])
    ensures
      var db' := DropRuns(db, runs);
      Count(db'.runCounts, (name, status)) == C.RunCountOf(db'.runs, name, status) - RunsGone(db, runs, name, status)
  {
    if runs != [] {
      var n := |runs| - 1;
      RunCountsLag(db, runs[..n], name, status);
      DropRunsLeaves(db, runs[..n]);
      RunIdsNext(runs, n);
      RunCountLags(DropRuns(db, runs[..n]), runs[n], name, status, RunsGone(db, runs[..n], name, status));
    }
  }

  lemma {:induction false} RunsGoneCounts(db: Db, runs: seq<PipelineRun>, i: nat)
    requires i < |runs| && runs[i].id !in db.runs
    ensures RunsGone(db, runs, runs[i].pipelineName, runs[i].status) > 0
  {
    if i < |runs| - 1 {
      RunsGoneCounts(db, runs[..|runs| - 1], i);
    }
  }

  lemma {:induction false} RunStatusStays(db: Db, runs: seq<PipelineRun>, st: RunStatus, x: Uuid)
    requires (st, x) in db.runStatuses && forall i :: 0 <= i < |runs| ==> (runs[i].status, runs[i].id) != (st, x)
    ensures (st, x) in DropRuns(db, runs).runStatuses
  {
    if runs != [] {
      RunStatusStays(db, runs[..|runs| - 1], st, x);
    }
  }

  lemma StaleRunBreaks(db: Db, runs: seq<PipelineRun>, i: nat)
    requires RunsCoherent(db) && RunsApart(db, runs) && i < |runs| && runs[i].id in db.runs && !StillRun(db, runs[i])
    ensures !RunsCoherent(DropRuns(db, runs))
  {
    var x, db' := runs[i].id, DropRuns(db, runs);
    var st := db.runs[x].status;
    RunListedExactly(db, st, x);
    DropRunsLeaves(db, runs);
    assert runs[i] in runs;
    RunStatusStays(db, runs, st, x);
    if RunsCoherent(db') {
      RunListedExactly(db', st, x);
    }
  }

  lemma RunDropsExactly(db: Db, runs: seq<PipelineRun>)
    requires RunsCoherent(db) && RunsApart(db, runs)
    ensures RunsCoherent(DropRuns(db, runs)) <==> forall i :: 0 <= i < |runs| ==> StillRun(db, runs[i])
  {
    if i :| 0 <= i < |runs| && runs[i].id in db.runs && !StillRun(db, runs[i]) {
      StaleRunBreaks(db, runs, i);
    } else if i :| 0 <= i < |runs| && !StillRun(db, runs[i]) {
      RunCountsLag(db, runs, runs[i].pipelineName, runs[i].status);
      RunsGoneCounts(db, runs, i);
    } else {
      CurrentRunsKeep(db, runs);
    }
  }

  // ---------------------------------------------------------------------------------------------
  // The whole transaction

  /** Records that were read, each once; where they are still there, they are the same ones. */
  ghost predicate WereRead(db: Db, victims: seq<Victim>) {
    ReadApart(db, ItemsOf(victims)) && RunsApart(db, RunsOf(victims))
  }

  /** Everything to be deleted is still there with the status that was read. */
  ghost predicate Met(db: Db, victims: seq<Victim>) {
    && (forall i :: 0 <= i < |ItemsOf(victims)| ==> StillAs(db, ItemsOf(victims)[i]))
    && (forall i :: 0 <= i < |RunsOf(victims)| ==> StillRun(db, RunsOf(victims)[i]))
  }

  lemma {:induction false} DropRunsKeepsRecords(db: Db, runs: seq<PipelineRun>)
    ensures
      var db' := DropRuns(db, runs);
      && db'.records == db.records && db'.events == db.events && db'.idempotent == db.idempotent && db'.nodes == db.nodes
      && db'.created == db.created && db'.tasks == db.tasks && db'.statuses == db.statuses
      && db'.queues == db.queues && db'.leases == db.leases && db'.members == db.members && db'.counts == db.counts
  {
    if runs != [] {
      DropRunsKeepsRecords(db, runs[..|runs| - 1]);
    }
  }

  lemma {:induction false} DropEachKeepsRuns(db: Db, items: seq<Execution>)
    ensures
      var db' := DropEach(db, items);
      && db'.runs == db.runs && db'.runIndex == db.runIndex && db'.runStatuses == db.runStatuses
      && db'.runCounts == db.runCounts && db'.runIdempotent == db.runIdempotent
  {
    if items != [] {
      DropEachKeepsRuns(db, items[..|items| - 1]);
    }
  }

  lemma {:induction false} SameRunsDropped(a: Db, b: Db, runs: seq<PipelineRun>)
    requires a.runs == b.runs && a.runIndex == b.runIndex && a.runStatuses == b.runStatuses && a.runCounts == b.runCounts
    ensures
      var a', b' := DropRuns(a, runs), DropRuns(b, runs);
      a'.runs == b'.runs && a'.runIndex == b'.runIndex && a'.runStatuses == b'.runStatuses && a'.runCounts == b'.runCounts
  {
    if runs != [] {
      SameRunsDropped(a, b, runs[..|runs| - 1]);
    }
  }

  lemma ExecutionsAlike(a: Db, b: Db)
    requires a.records == b.records && a.created == b.created && a.tasks == b.tasks && a.statuses == b.statuses
    requires a.queues == b.queues && a.leases == b.leases && a.members == b.members && a.counts == b.counts
    ensures ExecutionsCoherent(a) <==> ExecutionsCoherent(b)
  {
    if ExecutionsCoherent(a) {
      ExecutionsKept(a, b);
    }
    if ExecutionsCoherent(b) {
      ExecutionsKept(b, a);
    }
  }

  lemma RunsAlike(a: Db, b: Db)
    requires a.runs == b.runs && a.runIndex == b.runIndex && a.runStatuses == b.runStatuses && a.runCounts == b.runCounts
    ensures RunsCoherent(a) <==> RunsCoherent(b)
  {
    if RunsCoherent(a) {
      RunsKept(a, b);
    }
    if RunsCoherent(b) {
      RunsKept(b, a);
    }
  }

  /** A purge, whenever it comes, leaves the indexes and counters of executions and runs right exactly
      when everything it deletes is still there with the status that was read. */
  lemma PurgeExactly(db: Db, victims: seq<Victim>)
    requires Coherent(db) && WereRead(db, victims)
    ensures Coherent(CommitPurge(db, victims)) <==> Met(db, victims)
  {
    var items, runs := ItemsOf(victims), RunsOf(victims);
    var mid := DropEach(db, items);
    PurgeSplits(db, victims);
    DropRunsKeepsRecords(mid, runs);
    ExecutionsAlike(DropRuns(mid, runs), mid);
    DropEachKeepsRuns(db, items);
    SameRunsDropped(mid, db, runs);
    RunsAlike(DropRuns(mid, runs), DropRuns(db, runs));
    DropsKeepIndexesExactly(db, items);
    RunDropsExactly(db, runs);
  }

  /** The store without some executions and some runs. */
  function Swept(s: Store, dead: set<Uuid>, gone: set<Uuid>): Store {
    WithoutRuns(DropExecutions(s, dead), gone)
  }

  function WithoutRuns(s: Store, gone: set<Uuid>): Store {
    s.(runs := s.runs - gone,
       runIdempotent := map k | k in s.runIdempotent && s.runIdempotent[k] !in gone :: s.runIdempotent[k])
  }

  lemma WithoutKeepsRuns(s: Store, gone: set<Uuid>)
    requires RunsExact(s.runs, s.runIdempotent)
    ensures RunsExact(WithoutRuns(s, gone).runs, WithoutRuns(s, gone).runIdempotent)
  {
  }

  lemma SweptKeepsValid(s: Store, dead: set<Uuid>, gone: set<Uuid>)
    requires Valid(s)
    ensures Valid(Swept(s, dead, gone))
  {
    DropKeepsValid(s, dead);
    WithoutKeepsRuns(DropExecutions(s, dead), gone);
  }

  lemma WithoutOneMore(s: Store, gone: set<Uuid>, x: Uuid)
    ensures WithoutRuns(WithoutRuns(s, gone), {x}) == WithoutRuns(s, gone + {x})
  {
    var a, b := WithoutRuns(WithoutRuns(s, gone), {x}), WithoutRuns(s, gone + {x});
    assert a.runs == b.runs && a.runIdempotent == b.runIdempotent;
  }

  lemma WithoutNone(s: Store)
    ensures WithoutRuns(s, {}) == s
  {
    assert WithoutRuns(s, {}).runs == s.runs && WithoutRuns(s, {}).runIdempotent == s.runIdempotent;
  }

  lemma DropRunIsWithout(db: Db, run: PipelineRun)
    requires RunsExact(db.runs, db.runIdempotent) && StillRun(db, run) && RunIdemOf(db.runs[run.id]) == RunIdemOf(run)
    ensures View(SaveDropRun(db, run)) == WithoutRuns(View(db), {run.id})
  {
    SameRunDropped(db, run);
    DropRunRefines(db, run.id);
    assert View(SaveDropRun(db, run)).runIdempotent == WithoutRuns(View(db), {run.id}).runIdempotent;
  }

  lemma WithoutNext(db: Db, mid: Db, gone: set<Uuid>, run: PipelineRun)
    requires View(mid) == WithoutRuns(View(db), gone) && RunsExact(db.runs, db.runIdempotent)
    requires run.id !in gone && StillRun(db, run) && RunIdemOf(db.runs[run.id]) == RunIdemOf(run)
    ensures View(SaveDropRun(mid, run)) == WithoutRuns(View(db), gone + {run.id})
  {
    assert View(mid).runs == db.runs - gone;
    WithoutKeepsRuns(View(db), gone);
    DropRunIsWithout(mid, run);
    WithoutOneMore(View(db), gone, run.id);
  }

  ghost predicate AllStillRuns(db: Db, runs: seq<PipelineRun>) {
    RunsApart(db, runs) && forall i :: 0 <= i < |runs| ==> StillRun(db, runs[i])
  }

  lemma StillRunsBefore(db: Db, runs: seq<PipelineRun>, n: nat)
    requires AllStillRuns(db, runs) && n < |runs|
    ensures AllStillRuns(db, runs[..n]) && StillRun(db, runs[n]) && RunIdemOf(db.runs[runs[n].id]) == RunIdemOf(runs[n])
  {
  }

  lemma {:induction false} DropRunsIsWithout(db: Db, runs: seq<PipelineRun>)
    requires RunsExact(db.runs, db.runIdempotent) && AllStillRuns(db, runs)
    ensures View(DropRuns(db, runs)) == WithoutRuns(View(db), RunIds(runs))
  {
    if runs == [] {
      assert RunIds(runs) == {};
      WithoutNone(View(db));
    } else {
      var n := |runs| - 1;
      StillRunsBefore(db, runs, n);
      DropRunsIsWithout(db, runs[..n]);
      assert runs[..n + 1] == runs;
      RunIdsNext(runs, n);
      WithoutNext(db, DropRuns(db, runs[..n]), RunIds(runs[..n]), runs[n]);
    }
  }

  /** A purge that meets what it read removes exactly that. */
  lemma MetPurgeMeans(db: Db, victims: seq<Victim>)
    requires Coherent(db) && IndexesExact(View(db)) && WereRead(db, victims) && Met(db, victims)
    ensures View(CommitPurge(db, victims)) == Swept(View(db), IdsOf(ItemsOf(victims)), RunIds(RunsOf(victims)))
  {
    var items, runs := ItemsOf(victims), RunsOf(victims);
    PurgeSplits(db, victims);
    MetParts(db, victims);
    DropEachMeans(db, items);
    DropEachKeepsRuns(db, items);
    DropAllRuns(db, DropEach(db, items), IdsOf(items), runs);
  }

  lemma MetParts(db: Db, victims: seq<Victim>)
    requires WereRead(db, victims) && Met(db, victims)
    ensures AllStill(db, ItemsOf(victims)) && AllStillRuns(db, RunsOf(victims))
  {
  }

  lemma DropAllRuns(db: Db, mid: Db, dead: set<Uuid>, runs: seq<PipelineRun>)
    requires View(mid) == DropExecutions(View(db), dead) && RunsExact(db.runs, db.runIdempotent) && AllStillRuns(db, runs)
    ensures View(DropRuns(mid, runs)) == Swept(View(db), dead, RunIds(runs))
  {
    assert mid.runs == View(db).runs && mid.runIdempotent == View(db).runIdempotent;
    DropRunsIsWithout(mid, runs);
  }
}
