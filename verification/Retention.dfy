/** Retention: finished standalone executions and finished runs are removed in bounded batches,
    oldest first. */
module Retention {
  import opened Model
  import opened Records
  import opened Storage
  import opened Sorting

  datatype Item = RunItem(id: Uuid, finished: Time) | TaskItem(id: Uuid, finished: Time)

  predicate Removable(s: Store, before: Time, item: Item) {
    if item.RunItem? then RunRemovable(s.runs, before, item) else TaskRemovable(s.executions, before, item)
  }

  predicate RunRemovable(runs: map<Uuid, PipelineRun>, before: Time, item: Item) {
    item.id in runs && runs[item.id].finishedAt == Some(item.finished) && item.finished < before
  }

  predicate TaskRemovable(es: map<Uuid, Execution>, before: Time, item: Item) {
    item.id in es && es[item.id].runId.None? && es[item.id].finishedAt == Some(item.finished) && item.finished < before
  }

  predicate Present(s: Store, item: Item) {
    if item.RunItem? then item.id in s.runs else item.id in s.executions
  }

  function BatchLimit(limit: int): nat { if limit <= 0 then 1000 else limit }

  predicate Older(a: Item, b: Item) { a.finished <= b.finished }

  lemma OlderIsPreorder()
    ensures Preorder(Older)
  {
  }

  /** A batch: the removable items finished longest ago, up to the limit. */
  ghost predicate IsBatch(s: Store, before: Time, limit: nat, batch: seq<Item>) {
    && Distinct(batch)
    && (forall i :: 0 <= i < |batch| ==> Removable(s, before, batch[i]))
    && |batch| <= limit
    && Sorted(Older, batch)
    && (forall x :: Removable(s, before, x) && x !in batch ==>
          |batch| == limit && forall i :: 0 <= i < |batch| ==> Older(batch[i], x))
  }

  predicate Sentenced(s: Store, batch: seq<Item>, id: Uuid) {
    id in s.executions &&
    exists i :: 0 <= i < |batch| && TakesWith(s, batch[i], id)
  }

  /** The item is this execution or its run. */
  predicate TakesWith(s: Store, item: Item, id: Uuid)
    requires id in s.executions
  {
    match item
    case RunItem(r, _) => s.executions[id].runId == Some(r)
    case TaskItem(t, _) => t == id
  }

  function DropItem(s: Store, item: Item): Store {
    match item
    case RunItem(id, _) => DropPipelineRun(s, id)
    case TaskItem(id, _) => DropExecutions(s, {id})
  }

  function DropAll(s: Store, batch: seq<Item>): Store {
    if batch == [] then s else DropItem(DropAll(s, batch[..|batch| - 1]), batch[|batch| - 1])
  }

  /** What is left after a batch: exactly the executions that are neither in it nor nodes of a run
      in it, and exactly the other runs, unchanged. */
  lemma {:induction false} DropAllLeaves(s: Store, batch: seq<Item>)
    ensures
      var s' := DropAll(s, batch);
      && (forall id :: id in s'.executions <==> id in s.executions && !Sentenced(s, batch, id))
      && (forall id :: id in s'.executions ==> s'.executions[id] == s.executions[id])
      && (forall r :: r in s'.runs <==> r in s.runs && !exists i :: 0 <= i < |batch| && batch[i].RunItem? && batch[i].id == r)
      && (forall r :: r in s'.runs ==> s'.runs[r] == s.runs[r])
  {
    if batch != [] {
      var n := |batch| - 1;
      var s1, s' := DropAll(s, batch[..n]), DropAll(s, batch);
      DropAllLeaves(s, batch[..n]);
      forall id
        ensures id in s'.executions <==> id in s.executions && !Sentenced(s, batch, id)
      {
        if id in s.executions {
          SentencedNext(s, batch, id);
        }
      }
      forall r
        ensures r in s'.runs <==> r in s.runs && !exists i :: 0 <= i < |batch| && batch[i].RunItem? && batch[i].id == r
      {
        if exists i :: 0 <= i < n && batch[..n][i].RunItem? && batch[..n][i].id == r {
          var i :| 0 <= i < n && batch[..n][i].RunItem? && batch[..n][i].id == r;
          assert batch[i].RunItem? && batch[i].id == r;
        }
        if exists i :: 0 <= i < |batch| && batch[i].RunItem? && batch[i].id == r {
          var i :| 0 <= i < |batch| && batch[i].RunItem? && batch[i].id == r;
          assert i < n ==> batch[..n][i].RunItem? && batch[..n][i].id == r;
        }
      }
    }
  }

  /** No item of a batch goes with an earlier one. */
  lemma StillPresent(s: Store, before: Time, limit: nat, batch: seq<Item>, i: nat)
    requires IsBatch(s, before, limit, batch) && i < |batch|
    ensures Present(DropAll(s, batch[..i]), batch[i])
  {
    var done := batch[..i];
    DropAllLeaves(s, done);
    assert forall j :: 0 <= j < i ==> done[j] == batch[j] && batch[j] != batch[i];
    assert Removable(s, before, batch[i]);
    assert forall j :: 0 <= j < i ==> Removable(s, before, batch[j]);
  }

  lemma DropItemSizes(s: Store, item: Item)
    requires Present(s, item)
    ensures
      var s' := DropItem(s, item);
      if item.RunItem?
      then |s'.runs| == |s.runs| - 1 && |s'.executions| == |s.executions| - |ExecutionsOf(s, item.id)|
      else |s'.runs| == |s.runs| && |s'.executions| == |s.executions| - 1
  {
    var s' := DropItem(s, item);
    var dead := if item.RunItem? then ExecutionsOf(s, item.id) else {item.id};
    assert s'.executions.Keys == s.executions.Keys - dead;
    assert dead <= s.executions.Keys;
    assert item.RunItem? ==> s'.runs.Keys == s.runs.Keys - {item.id};
  }

  lemma SentencedNext(s: Store, batch: seq<Item>, id: Uuid)
    requires batch != [] && id in s.executions
    ensures Sentenced(s, batch, id) <==> Sentenced(s, batch[..|batch| - 1], id) || TakesWith(s, batch[|batch| - 1], id)
  {
    var n := |batch| - 1;
    if Sentenced(s, batch[..n], id) {
      var i :| 0 <= i < n && TakesWith(s, batch[..n][i], id);
      assert TakesWith(s, batch[i], id);
    }
    if Sentenced(s, batch, id) {
      var i :| 0 <= i < |batch| && TakesWith(s, batch[i], id);
      assert i < n ==> TakesWith(s, batch[..n][i], id);
    }
  }

  lemma {:induction false} DropAllKeepsValid(s: Store, batch: seq<Item>)
    requires Valid(s)
    ensures Valid(DropAll(s, batch))
  {
    if batch != [] {
      var n := |batch| - 1;
      DropAllKeepsValid(s, batch[..n]);
      match batch[n]
      case RunItem(id, _) => DropRunKeepsValid(DropAll(s, batch[..n]), id);
      case TaskItem(id, _) => DropKeepsValid(DropAll(s, batch[..n]), {id});
    }
  }

  /** What retention preserves. A standalone execution that is not finished stays; a node of a run
      that is not finished stays whatever its own status. */
  lemma UnfinishedStays(s: Store, before: Time, limit: nat, batch: seq<Item>, id: Uuid)
    requires Valid(s) && IsBatch(s, before, limit, batch) && id in s.executions
    requires if s.executions[id].runId.None? then !s.executions[id].status.Terminal()
             else s.executions[id].runId.value in s.runs && s.runs[s.executions[id].runId.value].finishedAt.None?
    ensures id in DropAll(s, batch).executions && DropAll(s, batch).executions[id] == s.executions[id]
  {
    DropAllLeaves(s, batch);
    assert Sound(s.executions[id]);
    forall i | 0 <= i < |batch|
      ensures !TakesWith(s, batch[i], id)
    {
      assert Removable(s, before, batch[i]);
    }
  }

  /** An unfinished execution goes exactly with its run. */
  lemma ActiveGoesWithRun(s: Store, before: Time, limit: nat, batch: seq<Item>, id: Uuid)
    requires Valid(s) && IsBatch(s, before, limit, batch) && id in s.executions && !s.executions[id].status.Terminal()
    ensures id !in DropAll(s, batch).executions <==> Doomed(s, before, id) && RunItemOf(s, id) in batch
  {
    DropAllLeaves(s, batch);
    if Sentenced(s, batch, id) {
      var i :| 0 <= i < |batch| && TakesWith(s, batch[i], id);
      assert Removable(s, before, batch[i]);
      TakenWithRun(s, before, batch[i], id);
    }
    if Doomed(s, before, id) && RunItemOf(s, id) in batch {
      var i :| 0 <= i < |batch| && batch[i] == RunItemOf(s, id);
      assert TakesWith(s, batch[i], id);
    }
  }

  lemma TakenWithRun(s: Store, before: Time, item: Item, id: Uuid)
    requires RecordsSound(s.executions, s.events) && id in s.executions && !s.executions[id].status.Terminal()
    requires Removable(s, before, item) && TakesWith(s, item, id)
    ensures Doomed(s, before, id) && item == RunItemOf(s, id)
  {
    assert Sound(s.executions[id]);
  }

  // ---------------------------------------------------------------------------------------------
  // What a purge removes, from the store, the cutoff and the limit

  /** Everything a purge could remove. */
  function Candidates(s: Store, before: Time): set<Item> {
    (set r | r in s.runs && s.runs[r].finishedAt.Some? && s.runs[r].finishedAt.value < before :: RunItem(r, s.runs[r].finishedAt.value)) +
    (set e | e in s.executions && s.executions[e].runId.None? && s.executions[e].finishedAt.Some? && s.executions[e].finishedAt.value < before
       :: TaskItem(e, s.executions[e].finishedAt.value))
  }

  lemma CandidatesAreRemovable(s: Store, before: Time, x: Item)
    ensures x in Candidates(s, before) <==> Removable(s, before, x)
  {
  }

  function FinishedBy(s: Store, before: Time, t: Time): set<Item> {
    set x | x in Candidates(s, before) && x.finished <= t
  }

  function FinishedBefore(s: Store, before: Time, t: Time): set<Item> {
    set x | x in Candidates(s, before) && x.finished < t
  }

  /** The start of any order by finish time is a batch. */
  lemma StartIsBatch(s: Store, before: Time, limit: nat, sorted: seq<Item>)
    requires Sorted(Older, sorted) && Distinct(sorted) && Elements(sorted) == Candidates(s, before)
    ensures IsBatch(s, before, limit, if |sorted| > limit then sorted[..limit] else sorted)
  {
    var batch := if |sorted| > limit then sorted[..limit] else sorted;
    forall i | 0 <= i < |batch|
      ensures Removable(s, before, batch[i])
    {
      assert sorted[i] in Elements(sorted);
      CandidatesAreRemovable(s, before, batch[i]);
    }
    forall x | Removable(s, before, x) && x !in batch
      ensures |batch| == limit && forall i :: 0 <= i < |batch| ==> Older(batch[i], x)
    {
      CandidatesAreRemovable(s, before, x);
      assert x in Elements(sorted);
      var k :| 0 <= k < |sorted| && sorted[k] == x;
      assert forall j :: 0 <= j < |batch| ==> sorted[j] == batch[j];
    }
  }

  /** Order by finish time with one item behind, or ahead of, those that finished with it. */
  function Behind(x: Item): (Item, Item) -> bool {
    (a: Item, b: Item) => a.finished < b.finished || (a.finished == b.finished && (b == x || a != x))
  }

  function Ahead(x: Item): (Item, Item) -> bool {
    (a: Item, b: Item) => a.finished < b.finished || (a.finished == b.finished && (a == x || b != x))
  }

  lemma BatchWithout(s: Store, before: Time, limit: nat, x: Item) returns (batch: seq<Item>)
    requires Removable(s, before, x) && limit < |FinishedBy(s, before, x.finished)|
    ensures IsBatch(s, before, limit, batch) && x !in batch
  {
    assert Preorder(Behind(x));
    var sorted := SortedElements(Behind(x), Candidates(s, before));
    StartIsBatch(s, before, limit, sorted);
    batch := if |sorted| > limit then sorted[..limit] else sorted;
    if x in batch {
      var k :| 0 <= k < |batch| && batch[k] == x;
      var head := sorted[..k + 1];
      forall y | y in FinishedBy(s, before, x.finished)
        ensures y in Elements(head)
      {
        assert y in Elements(sorted);
        var j :| 0 <= j < |sorted| && sorted[j] == y;
        assert j <= k && head[j] == y;
      }
      DistinctSize(head);
      SubsetSize(FinishedBy(s, before, x.finished), Elements(head));
    }
  }

  lemma BatchWith(s: Store, before: Time, limit: nat, x: Item) returns (batch: seq<Item>)
    requires Removable(s, before, x) && |FinishedBefore(s, before, x.finished)| < limit
    ensures IsBatch(s, before, limit, batch) && x in batch
  {
    assert Preorder(Ahead(x));
    var sorted := SortedElements(Ahead(x), Candidates(s, before));
    StartIsBatch(s, before, limit, sorted);
    batch := if |sorted| > limit then sorted[..limit] else sorted;
    CandidatesAreRemovable(s, before, x);
    assert x in Elements(sorted);
    var k :| 0 <= k < |sorted| && sorted[k] == x;
    var head := sorted[..k];
    forall y | y in Elements(head)
      ensures y in FinishedBefore(s, before, x.finished)
    {
      var j :| 0 <= j < k && sorted[j] == y;
      assert y in Elements(sorted) && Ahead(x)(sorted[j], sorted[k]);
    }
    DistinctSize(head);
    SubsetSize(Elements(head), FinishedBefore(s, before, x.finished));
    assert batch[k] == x;
  }

  lemma AlwaysTaken(s: Store, before: Time, limit: nat, x: Item, batch: seq<Item>)
    requires Removable(s, before, x) && |FinishedBy(s, before, x.finished)| <= limit && IsBatch(s, before, limit, batch)
    ensures x in batch
  {
    if x !in batch {
      forall y | y in Elements(batch)
        ensures y in FinishedBy(s, before, x.finished) - {x}
      {
        CandidatesAreRemovable(s, before, y);
      }
      CandidatesAreRemovable(s, before, x);
      DistinctSize(batch);
      SubsetSize(Elements(batch), FinishedBy(s, before, x.finished) - {x});
    }
  }

  lemma NeverTaken(s: Store, before: Time, limit: nat, x: Item, batch: seq<Item>)
    requires limit <= |FinishedBefore(s, before, x.finished)| && IsBatch(s, before, limit, batch)
    ensures x !in batch
  {
    if x in batch {
      forall y | y in FinishedBefore(s, before, x.finished)
        ensures y in Elements(batch) - {x}
      {
        CandidatesAreRemovable(s, before, y);
      }
      DistinctSize(batch);
      SubsetSize(FinishedBefore(s, before, x.finished), Elements(batch) - {x});
    }
  }

  /** The node's run has finished and is old enough. */
  predicate Doomed(s: Store, before: Time, id: Uuid)
    requires id in s.executions
  {
    var r := s.executions[id].runId;
    r.Some? && r.value in s.runs && s.runs[r.value].finishedAt.Some? && s.runs[r.value].finishedAt.value < before
  }

  function RunItemOf(s: Store, id: Uuid): Item
    requires id in s.executions
  {
    var r := s.executions[id].runId;
    if r.Some? && r.value in s.runs && s.runs[r.value].finishedAt.Some? then RunItem(r.value, s.runs[r.value].finishedAt.value)
    else TaskItem(id, ZERO_TIME)
  }

  /** Whatever the order of items that finished together, the purge removes it. */
  ghost predicate SurelyRemoved(s: Store, before: Time, limit: nat, id: Uuid) {
    forall batch :: IsBatch(s, before, limit, batch) ==> id !in DropAll(s, batch).executions
  }

  ghost predicate SurelyKept(s: Store, before: Time, limit: nat, id: Uuid) {
    forall batch :: IsBatch(s, before, limit, batch) ==> id in DropAll(s, batch).executions
  }

  /** Exactly when active or blocked work is removed, against what the maintenance contract says, from
      what the caller of a purge knows. It is removed if its run has finished before the cutoff and
      no more removable items finished up to then than the limit allows. It is kept if its run has
      not, or as many as the limit allows finished earlier. In between, its run finished together
      with others of which only some fit, and either can happen. */
  lemma ActiveRemovedExactly(s: Store, before: Time, limit: nat, id: Uuid)
    requires Valid(s) && id in s.executions && !s.executions[id].status.Terminal()
    ensures SurelyRemoved(s, before, limit, id) <==>
            Doomed(s, before, id) && |FinishedBy(s, before, RunItemOf(s, id).finished)| <= limit
    ensures SurelyKept(s, before, limit, id) <==>
            (Doomed(s, before, id) ==> limit <= |FinishedBefore(s, before, RunItemOf(s, id).finished)|)
  {
    forall batch | IsBatch(s, before, limit, batch)
      ensures id !in DropAll(s, batch).executions <==> Doomed(s, before, id) && RunItemOf(s, id) in batch
    {
      ActiveGoesWithRun(s, before, limit, batch, id);
    }
    if Doomed(s, before, id) {
      DoomedDecided(s, before, limit, RunItemOf(s, id));
    } else {
      var batch := SomeBatch(s, before, limit);
    }
  }

  lemma SomeBatch(s: Store, before: Time, limit: nat) returns (batch: seq<Item>)
    ensures IsBatch(s, before, limit, batch)
  {
    OlderIsPreorder();
    var sorted := SortedElements(Older, Candidates(s, before));
    StartIsBatch(s, before, limit, sorted);
    batch := if |sorted| > limit then sorted[..limit] else sorted;
  }

  lemma DoomedDecided(s: Store, before: Time, limit: nat, x: Item)
    requires Removable(s, before, x)
    ensures (forall batch :: IsBatch(s, before, limit, batch) ==> x in batch) <==> |FinishedBy(s, before, x.finished)| <= limit
    ensures (forall batch :: IsBatch(s, before, limit, batch) ==> x !in batch) <==> limit <= |FinishedBefore(s, before, x.finished)|
  {
    if |FinishedBy(s, before, x.finished)| <= limit {
      forall batch | IsBatch(s, before, limit, batch)
        ensures x in batch
      {
        AlwaysTaken(s, before, limit, x, batch);
      }
    } else {
      var batch := BatchWithout(s, before, limit, x);
    }
    if limit <= |FinishedBefore(s, before, x.finished)| {
      forall batch | IsBatch(s, before, limit, batch)
        ensures x !in batch
      {
        NeverTaken(s, before, limit, x, batch);
      }
    } else {
      var batch := BatchWith(s, before, limit, x);
    }
  }

  /** Removal by key, as the store does it, is removal by record while the indexes are exact. */
  function DropKeyed(s: Store, id: Uuid): Store
    requires id in s.executions
  {
    var e := s.executions[id];
    s.(executions := s.executions - {id},
       events := s.events - {id},
       idempotent := if e.idempotencyKey == NoKey then s.idempotent else s.idempotent - {IdemOf(e)},
       nodes := if e.runId.None? then s.nodes else s.nodes - {(e.runId.value, e.nodeKey)})
  }

  lemma DropKeyedIsDrop(s: Store, id: Uuid)
    requires IdemExact(s.executions, s.idempotent) && NodesExact(s.executions, s.nodes) && id in s.executions
    ensures DropKeyed(s, id) == DropExecutions(s, {id})
  {
    var a, b := DropKeyed(s, id), DropExecutions(s, {id});
    forall k
      ensures k in a.idempotent <==> k in b.idempotent
    {
    }
    forall k
      ensures k in a.nodes <==> k in b.nodes
    {
    }
    assert a.idempotent == b.idempotent;
    assert a.nodes == b.nodes;
  }

  lemma DropTwice(s: Store, dead: set<Uuid>, id: Uuid)
    ensures DropExecutions(DropExecutions(s, dead), {id}) == DropExecutions(s, dead + {id})
  {
    var a, b := DropExecutions(DropExecutions(s, dead), {id}), DropExecutions(s, dead + {id});
    assert a.idempotent == b.idempotent;
    assert a.nodes == b.nodes;
    assert a.executions == b.executions;
    assert a.events == b.events;
  }

  const NODE_A := CreateExecution("t", 1, "", 1, ZERO_TIME, NodeRef(1, "a"), Some(1), "a")

  lemma RunWithNode() returns (s: Store)
    ensures Valid(s) && s.executions == map[2 := NewExecution(NODE_A, 2, 1)]
    ensures s.runs == map[1 := NewPipelineRun(CreateRun("p", 1, "", NoKey), 1, 1)]
  {
    NewRunKeepsValid(EMPTY, CreateRun("p", 1, "", NoKey), 1, 1);
    var s1 := CreateRunRecord(EMPTY, CreateRun("p", 1, "", NoKey), 1, 1);
    CreateKeepsValid(s1, NODE_A, 2, 1);
    s := CreateRecord(s1, NODE_A, 2, 1);
    assert Existing(s1, NODE_A).None?;
  }

  lemma RunWithRunningNode() returns (s: Store)
    ensures Valid(s)
    ensures s.executions.Keys == {2} && s.executions[2].status.Running? && s.executions[2].runId == Some(1)
    ensures s.runs == map[1 := NewPipelineRun(CreateRun("p", 1, "", NoKey), 1, 1)]
  {
    var s2 := RunWithNode();
    var op := Start("w", 3, 100);
    TouchKeepsValid(s2, 2, op, 1);
    StartOf(s2.executions[2], op);
    s := TouchRecord(s2, 2, op, 1);
  }

  lemma StartOf(e: Execution, op: RecordOp)
    requires e == NewExecution(NODE_A, 2, 1) && op == Start("w", 3, 100)
    ensures Apply(e, op, 1) == Done(Started(e, "w", 3, 1, 100), Some(Event(EventStarted, 1, "", 1)))
  {
  }

  lemma FailedRunWithRunningNode() returns (s: Store)
    ensures Valid(s)
    ensures s.executions.Keys == {2} && s.executions[2].status.Running? && s.executions[2].runId == Some(1)
    ensures s.runs.Keys == {1} && s.runs[1].finishedAt == Some(5)
  {
    var s3 := RunWithRunningNode();
    StatusKeepsValid(s3, 1, 0, RunFailed, "node b: error", 5);
    s := SetRunStatus(s3, 1, 0, RunFailed, "node b: error", 5);
  }

  /** Concretely: a run that failed while one of its nodes is still running is removed with that
      node. */
  lemma RunningNodeCanBeRemoved() returns (s: Store, batch: seq<Item>)
    ensures Valid(s) && IsBatch(s, 10, 1, batch)
    ensures 2 in s.executions && s.executions[2].status.Running? && 2 !in DropAll(s, batch).executions
  {
    s := FailedRunWithRunningNode();
    batch := [RunItem(1, 5)];
    DropAllLeaves(s, batch);
    assert TakesWith(s, batch[0], 2);
  }
}
