/** One uninterrupted advance of a run: what it does, that repeating it does nothing, that it can be
    resumed after a crash at any point, and that it never leaves a run without work. */
module Advance {
  import opened Model
  import opened Records
  import opened Storage
  import opened Definitions
  import opened Engine
  import opened CasSafety

  datatype WalkEnd = Clean | MapperFailed | ReleaseFailed(error: Error)

  datatype Walked = Walked(store: Store, created: bool, end: WalkEnd)

  /** The UUIDs generated along the way, by node. */
  type Ids = seq<Uuid>

  function StartIn(s: Store, snap: Snapshot, r: Uuid, n: NodeDef, input: Json, newId: Uuid, now: Time): Store {
    if n.key in snap then TouchRecord(s, snap[n.key].id, Release(input, snap[n.key].availableAt), now)
    else CreateRecord(s, NodeRequest(r, n, input), newId, now)
  }

  function StartReply(s: Store, snap: Snapshot, n: NodeDef, input: Json, now: Time): Result<()> {
    if n.key !in snap then Ok(())
    else match TouchReply(s, snap[n.key].id, Release(input, snap[n.key].availableAt), now)
         case Ok(_) => Ok(())
         case Err(error) => Err(error)
  }

  /** Starting the due nodes among nodes[i..hi], in declaration order. */
  function Walk(s: Store, run: PipelineRun, snap: Snapshot, nodes: seq<NodeDef>, i: nat, hi: nat, ids: Ids, now: Time): Walked
    requires i <= hi <= |nodes| && hi <= |ids|
    decreases hi - i
  {
    if i == hi then Walked(s, false, Clean)
    else
      var n := nodes[i];
      if !Due(snap, n) then Walk(s, run, snap, nodes, i + 1, hi, ids, now)
      else
        match Built(snap, n, run.input)
        case None => Walked(s, false, MapperFailed)
        case Some(input) =>
          (match StartReply(s, snap, n, input, now)
           case Err(error) => Walked(s, false, ReleaseFailed(error))
           case Ok(_) =>
             Walk(StartIn(s, snap, run.id, n, input, ids[i], now), run, snap, nodes, i + 1, hi, ids, now).(created := true))
  }

  datatype Advanced = Advanced(store: Store, reply: Result<()>)

  function Stamp(s: Store, run: PipelineRun, status: RunStatus, error: string, now: Time): Advanced {
    Advanced(SetRunStatus(s, run.id, run.revision, status, error, now), StatusReply(s, run.id, run.revision))
  }

  /** One pass of the engine over a run; `error` is the text of a failure it records. */
  function AdvanceOnce(reg: Registry, s: Store, r: Uuid, ids: Ids, error: string, now: Time): Advanced
    requires r in s.runs && Registered(reg, s.runs[r]) ==> |NodesOf(reg, s.runs[r])| <= |ids|
  {
    if r !in s.runs then Advanced(s, Err(ErrNotFound))
    else if s.runs[r].status.Terminal() then Advanced(s, Ok(()))
    else if !Registered(reg, s.runs[r]) then Advanced(s, Err(ErrNotRegistered))
    else
      var run, snap := s.runs[r], Snap(s, r);
      if AnyBroken(snap) then Stamp(s, run, RunFailed, error, now)
      else
        var nodes := NodesOf(reg, run);
        Finish(run, snap, nodes, Walk(s, run, snap, nodes, 0, |nodes|, ids, now), error, now)
  }

  /** The status write after a walk, if any. */
  function Finish(run: PipelineRun, snap: Snapshot, nodes: seq<NodeDef>, w: Walked, error: string, now: Time): Advanced {
    match w.end
    case MapperFailed => Stamp(w.store, run, RunFailed, error, now).(reply := Err(ErrMapper))
    case ReleaseFailed(e) => Advanced(w.store, Err(e))
    case Clean =>
      match Conclusion(run, snap, nodes, w.created)
      case None => Advanced(w.store, Ok(()))
      case Some(status) => Stamp(w.store, run, status, "", now)
  }

  // ---------------------------------------------------------------------------------------------
  // One start

  ghost predicate ShapedStore(reg: Registry, s: Store) {
    forall id :: id in s.executions ==> Shaped(reg, s, s.executions[id])
  }

  /** Generated UUIDs are distinct, not nil and not in use. */
  ghost predicate FreshIds(s: Store, ids: Ids, i: nat, hi: nat) {
    && hi <= |ids|
    && (forall j :: i <= j < hi ==> ids[j] != NIL && ids[j] !in s.executions)
    && (forall j, k :: i <= j < k < hi ==> ids[j] != ids[k])
  }

  /** A registered run in a store that holds pipeline executions of the shape the engine makes. */
  ghost predicate Runnable(reg: Registry, s: Store, r: Uuid) {
    && Valid(s) && ShapedStore(reg, s) && ValidRegistry(reg)
    && r in s.runs && Registered(reg, s.runs[r])
  }

  function NodesIn(reg: Registry, s: Store, r: Uuid): seq<NodeDef>
    requires r in s.runs && Registered(reg, s.runs[r])
  {
    NodesOf(reg, s.runs[r])
  }

  lemma NodeIsNew(reg: Registry, s: Store, r: Uuid, n: NodeDef, input: Json)
    requires Valid(s) && ShapedStore(reg, s) && n.key != "" && Node(s, r, n.key).None?
    ensures Existing(s, NodeRequest(r, n, input)).None?
  {
    var q := NodeRequest(r, n, input);
    var idem := (q.taskName, q.idempotencyKey);
    if idem in s.idempotent {
      assert Shaped(reg, s, s.executions[s.idempotent[idem]]);
    }
  }

  lemma StartIsStep(s: Store, snap: Snapshot, r: Uuid, n: NodeDef, input: Json, newId: Uuid, now: Time)
    ensures StartIn(s, snap, r, n, input, newId, now) == Do(s, StartNode(snap, r, n, input, newId), now)
  {
  }

  predicate Begun(n: Option<Execution>, input: Json) {
    n.Some? && n.value.status.Pending? && n.value.input == input
  }

  /** The store still holds node n as the engine listed it. */
  predicate AsListed(s: Store, snap: Snapshot, r: Uuid, k: string) {
    Node(s, r, k) == if k in snap then Some(snap[k]) else None
  }

  lemma StartKeepsShape(reg: Registry, s: Store, snap: Snapshot, r: Uuid, i: nat, input: Json, newId: Uuid, now: Time)
    requires Runnable(reg, s, r) && i < |NodesIn(reg, s, r)|
    requires newId != NIL && newId !in s.executions
    ensures
      var s' := StartIn(s, snap, r, NodesIn(reg, s, r)[i], input, newId, now);
      && Runnable(reg, s', r) && s'.runs == s.runs
      && s'.executions.Keys <= s.executions.Keys + {newId}
  {
    var nodes := NodesIn(reg, s, r);
    var n, step := nodes[i], StartNode(snap, r, nodes[i], input, newId);
    var s' := StartIn(s, snap, r, n, input, newId, now);
    StartIsStep(s, snap, r, n, input, newId, now);
    StepKeepsValid(s, step, now);
    assert s'.runs == s.runs;
    forall id | id in s'.executions
      ensures Shaped(reg, s', s'.executions[id]) && id in s.executions.Keys + {newId}
    {
      StartKeepsOne(reg, s, snap, r, i, input, newId, now, id);
    }
  }

  lemma RequestIsShaped(reg: Registry, s: Store, r: Uuid, i: nat, input: Json, newId: Uuid, now: Time)
    requires ValidRegistry(reg) && r in s.runs && Registered(reg, s.runs[r]) && i < |NodesIn(reg, s, r)|
    ensures Shaped(reg, s, NewExecution(NodeRequest(r, NodesIn(reg, s, r)[i], input), newId, now))
  {
    var nodes := NodesIn(reg, s, r);
    KeyAt(nodes, i);
    DistinctKeys(nodes);
    assert Placed(nodes, i);
  }

  lemma StartKeepsOne(reg: Registry, s: Store, snap: Snapshot, r: Uuid, i: nat, input: Json, newId: Uuid, now: Time, id: Uuid)
    requires Runnable(reg, s, r) && i < |NodesIn(reg, s, r)|
    requires id in StartIn(s, snap, r, NodesIn(reg, s, r)[i], input, newId, now).executions
    ensures
      var s' := StartIn(s, snap, r, NodesIn(reg, s, r)[i], input, newId, now);
      s'.runs == s.runs && Shaped(reg, s', s'.executions[id]) && id in s.executions.Keys + {newId}
  {
    var n := NodesIn(reg, s, r)[i];
    StartIsStep(s, snap, r, n, input, newId, now);
    ExecutionAfter(s, StartNode(snap, r, n, input, newId), now, id);
    RequestIsShaped(reg, s, r, i, input, newId, now);
  }

  lemma ReleaseStarts(s: Store, id: Uuid, input: Json, at: Time, now: Time, r: Uuid, k: string)
    requires Valid(s) && Node(s, r, k).Some? && Node(s, r, k).value.id == id && Node(s, r, k).value.status.Blocked?
    ensures TouchReply(s, id, Release(input, at), now).Ok?
    ensures Begun(NodeNext(s, Touch(id, Release(input, at)), now, r, k), input)
  {
    NodeIdentity(s, r, k);
  }

  lemma StartedNode(reg: Registry, s: Store, snap: Snapshot, r: Uuid, n: NodeDef, input: Json, newId: Uuid, now: Time)
    requires Valid(s) && ShapedStore(reg, s) && n.key != "" && n.taskName != ""
    requires newId != NIL && newId !in s.executions
    requires AsListed(s, snap, r, n.key) && Wanted(snap, n)
    ensures StartReply(s, snap, n, input, now).Ok?
    ensures Begun(Node(StartIn(s, snap, r, n, input, newId, now), r, n.key), input)
  {
    var step := StartNode(snap, r, n, input, newId);
    StartIsStep(s, snap, r, n, input, newId, now);
    NodeAfter(s, step, now, r, n.key);
    if n.key in snap {
      ReleaseStarts(s, snap[n.key].id, input, snap[n.key].availableAt, now, r, n.key);
    } else {
      NodeIsNew(reg, s, r, n, input);
    }
  }

  /** What starting a wanted node leaves: a blocked execution is released with the input at the time it
      was reset for, and otherwise one is made as the node declares, to be delivered at once. */
  lemma StartMeans(reg: Registry, s: Store, snap: Snapshot, r: Uuid, n: NodeDef, input: Json, newId: Uuid, now: Time)
    requires Valid(s) && ShapedStore(reg, s) && n.key != "" && n.taskName != ""
    requires newId != NIL && newId !in s.executions
    requires AsListed(s, snap, r, n.key) && Wanted(snap, n)
    ensures
      var e, e' := Node(s, r, n.key), Node(StartIn(s, snap, r, n, input, newId, now), r, n.key);
      && e'.Some?
      && (e.Some? ==> e'.value == e.value.(status := Pending, input := input,
                                           availableAt := if e.value.availableAt == ZERO_TIME then now else e.value.availableAt))
      && (e.None? ==> MadeFor(e'.value, CreateExecution(n.taskName, n.taskVersion, input, n.maxAttempts, ZERO_TIME,
                                                        NodeRef(r, n.key), Some(r), n.key), newId, now))
  {
    var step := StartNode(snap, r, n, input, newId);
    StartIsStep(s, snap, r, n, input, newId, now);
    NodeAfter(s, step, now, r, n.key);
    if n.key in snap {
      ReleasedNode(s, snap[n.key], input, now, r, n.key);
    } else {
      NodeIsNew(reg, s, r, n, input);
      assert NodeNext(s, step, now, r, n.key) == Some(NewExecution(NodeRequest(r, n, input), newId, now));
    }
  }

  lemma ReleasedNode(s: Store, e: Execution, input: Json, now: Time, r: Uuid, k: string)
    requires Valid(s) && Node(s, r, k) == Some(e) && e.status.Blocked?
    ensures NodeNext(s, Touch(e.id, Release(input, e.availableAt)), now, r, k) ==
            Some(e.(status := Pending, input := input, availableAt := if e.availableAt == ZERO_TIME then now else e.availableAt))
  {
    NodeIdentity(s, r, k);
  }

  lemma OtherNode(s: Store, snap: Snapshot, r: Uuid, n: NodeDef, input: Json, newId: Uuid, now: Time, k: string)
    requires Valid(s) && n.key != "" && k != "" && k != n.key
    requires newId != NIL && newId !in s.executions && AsListed(s, snap, r, n.key)
    ensures Node(StartIn(s, snap, r, n, input, newId, now), r, k) == Node(s, r, k)
  {
    StartIsStep(s, snap, r, n, input, newId, now);
    if n.key in snap {
      NodeIdentity(s, r, n.key);
    }
    if Node(s, r, k).Some? {
      NodeIdentity(s, r, k);
    }
    NodeAfter(s, StartNode(snap, r, n, input, newId), now, r, k);
  }

  /** Everything one start does, seen from the nodes of the run. */
  ghost predicate StartedOne(reg: Registry, s: Store, s1: Store, r: Uuid, nodes: seq<NodeDef>, i: nat, input: Json, newId: Uuid)
    requires i < |nodes|
  {
    && Runnable(reg, s1, r) && s1.runs == s.runs && s1.executions.Keys <= s.executions.Keys + {newId}
    && Begun(Node(s1, r, nodes[i].key), input)
    && (forall j :: 0 <= j < |nodes| && j != i ==> Node(s1, r, nodes[j].key) == Node(s, r, nodes[j].key))
  }

  lemma StartWorks(reg: Registry, s: Store, snap: Snapshot, r: Uuid, i: nat, input: Json, newId: Uuid, now: Time)
    requires Runnable(reg, s, r) && i < |NodesIn(reg, s, r)|
    requires newId != NIL && newId !in s.executions
    requires AsListed(s, snap, r, NodesIn(reg, s, r)[i].key) && Wanted(snap, NodesIn(reg, s, r)[i])
    ensures StartReply(s, snap, NodesIn(reg, s, r)[i], input, now).Ok?
    ensures
      var nodes := NodesIn(reg, s, r);
      StartedOne(reg, s, StartIn(s, snap, r, nodes[i], input, newId, now), r, nodes, i, input, newId)
  {
    var nodes := NodesIn(reg, s, r);
    assert Placed(nodes, i);
    DistinctKeys(nodes);
    StartKeepsShape(reg, s, snap, r, i, input, newId, now);
    StartedNode(reg, s, snap, r, nodes[i], input, newId, now);
    forall j | 0 <= j < |nodes| && j != i
      ensures Node(StartIn(s, snap, r, nodes[i], input, newId, now), r, nodes[j].key) == Node(s, r, nodes[j].key)
    {
      assert Placed(nodes, j);
      OtherNode(s, snap, r, nodes[i], input, newId, now, nodes[j].key);
    }
  }

  // ---------------------------------------------------------------------------------------------
  // The whole walk

  /** The first node from i on that is due but whose mapper fails. */
  function Stop(snap: Snapshot, nodes: seq<NodeDef>, initial: Json, i: nat, hi: nat): (j: nat)
    requires i <= hi <= |nodes|
    ensures i <= j <= hi
    ensures forall x :: i <= x < j && Due(snap, nodes[x]) ==> Built(snap, nodes[x], initial).Some?
    ensures j < hi ==> Due(snap, nodes[j]) && Built(snap, nodes[j], initial).None?
    decreases hi - i
  {
    if i == hi || (Due(snap, nodes[i]) && Built(snap, nodes[i], initial).None?) then i
    else Stop(snap, nodes, initial, i + 1, hi)
  }

  /** Which nodes a walk over nodes[i..hi] starts. */
  predicate Starts(snap: Snapshot, nodes: seq<NodeDef>, initial: Json, i: nat, hi: nat, j: nat)
    requires i <= hi <= |nodes|
  {
    i <= j < Stop(snap, nodes, initial, i, hi) && Due(snap, nodes[j])
  }

  ghost predicate ListedFrom(s: Store, snap: Snapshot, r: Uuid, nodes: seq<NodeDef>, i: nat) {
    forall j :: i <= j < |nodes| ==> AsListed(s, snap, r, nodes[j].key)
  }

  /** What a walk does to each node. */
  ghost predicate WalkedAt(s: Store, s': Store, run: PipelineRun, snap: Snapshot, nodes: seq<NodeDef>, i: nat, hi: nat, j: nat)
    requires i <= hi <= |nodes| && j < |nodes|
  {
    if Starts(snap, nodes, run.input, i, hi, j) then
      Built(snap, nodes[j], run.input).Some? && Begun(Node(s', run.id, nodes[j].key), Built(snap, nodes[j], run.input).value)
    else Node(s', run.id, nodes[j].key) == Node(s, run.id, nodes[j].key)
  }

  ghost predicate WalkDid(s: Store, w: Walked, run: PipelineRun, snap: Snapshot, nodes: seq<NodeDef>, i: nat, hi: nat)
    requires i <= hi <= |nodes|
  {
    && w.end == (if Stop(snap, nodes, run.input, i, hi) < hi then MapperFailed else Clean)
    && (forall j :: 0 <= j < |nodes| ==> WalkedAt(s, w.store, run, snap, nodes, i, hi, j))
    && (w.created <==> exists j :: Starts(snap, nodes, run.input, i, hi, j))
  }

  lemma SkipOne(s: Store, w: Walked, run: PipelineRun, snap: Snapshot, nodes: seq<NodeDef>, i: nat, hi: nat)
    requires i < hi <= |nodes| && !Due(snap, nodes[i]) && WalkDid(s, w, run, snap, nodes, i + 1, hi)
    ensures WalkDid(s, w, run, snap, nodes, i, hi)
  {
    forall j | 0 <= j < |nodes|
      ensures WalkedAt(s, w.store, run, snap, nodes, i, hi, j)
    {
      assert WalkedAt(s, w.store, run, snap, nodes, i + 1, hi, j);
    }
    if w.created {
      var j :| Starts(snap, nodes, run.input, i + 1, hi, j);
      assert Starts(snap, nodes, run.input, i, hi, j);
    }
    if exists j :: Starts(snap, nodes, run.input, i, hi, j) {
      var j :| Starts(snap, nodes, run.input, i, hi, j);
      assert Starts(snap, nodes, run.input, i + 1, hi, j);
    }
  }

  lemma StartOne(s: Store, s1: Store, w: Walked, run: PipelineRun, snap: Snapshot, nodes: seq<NodeDef>, i: nat, hi: nat)
    requires i < hi <= |nodes| && Due(snap, nodes[i]) && Built(snap, nodes[i], run.input).Some?
    requires Begun(Node(s1, run.id, nodes[i].key), Built(snap, nodes[i], run.input).value)
    requires forall j :: 0 <= j < |nodes| && j != i ==> Node(s1, run.id, nodes[j].key) == Node(s, run.id, nodes[j].key)
    requires WalkDid(s1, w, run, snap, nodes, i + 1, hi)
    ensures WalkDid(s, w.(created := true), run, snap, nodes, i, hi)
  {
    assert Starts(snap, nodes, run.input, i, hi, i);
    forall j | 0 <= j < |nodes|
      ensures WalkedAt(s, w.store, run, snap, nodes, i, hi, j)
    {
      assert WalkedAt(s1, w.store, run, snap, nodes, i + 1, hi, j);
    }
  }

  /** What is left for the rest of the walk after one start. */
  lemma RestIsFresh(reg: Registry, s: Store, s1: Store, snap: Snapshot, r: Uuid, nodes: seq<NodeDef>, i: nat, hi: nat, ids: Ids, input: Json)
    requires i < hi <= |nodes| && FreshIds(s, ids, i, hi) && ListedFrom(s, snap, r, nodes, i)
    requires StartedOne(reg, s, s1, r, nodes, i, input, ids[i])
    ensures FreshIds(s1, ids, i + 1, hi) && ListedFrom(s1, snap, r, nodes, i + 1)
  {
  }

  lemma {:induction false} WalkStarts(reg: Registry, s: Store, run: PipelineRun, snap: Snapshot, i: nat, hi: nat, ids: Ids, now: Time)
    requires Runnable(reg, s, run.id)
    requires i <= hi <= |NodesIn(reg, s, run.id)|
    requires FreshIds(s, ids, i, hi) && ListedFrom(s, snap, run.id, NodesIn(reg, s, run.id), i)
    ensures
      var nodes := NodesIn(reg, s, run.id);
      var w := Walk(s, run, snap, nodes, i, hi, ids, now);
      WalkDid(s, w, run, snap, nodes, i, hi) && Runnable(reg, w.store, run.id) && w.store.runs == s.runs
    decreases hi - i
  {
    var nodes := NodesIn(reg, s, run.id);
    if i < hi {
      if !Due(snap, nodes[i]) {
        WalkStarts(reg, s, run, snap, i + 1, hi, ids, now);
        SkipOne(s, Walk(s, run, snap, nodes, i + 1, hi, ids, now), run, snap, nodes, i, hi);
      } else if Built(snap, nodes[i], run.input).Some? {
        WalkStartsOne(reg, s, run, snap, i, hi, ids, now);
      }
    }
  }

  lemma {:induction false} WalkStartsOne(reg: Registry, s: Store, run: PipelineRun, snap: Snapshot, i: nat, hi: nat, ids: Ids, now: Time)
    requires Runnable(reg, s, run.id)
    requires i < hi <= |NodesIn(reg, s, run.id)|
    requires FreshIds(s, ids, i, hi) && ListedFrom(s, snap, run.id, NodesIn(reg, s, run.id), i)
    requires Due(snap, NodesIn(reg, s, run.id)[i]) && Built(snap, NodesIn(reg, s, run.id)[i], run.input).Some?
    ensures
      var nodes := NodesIn(reg, s, run.id);
      var w := Walk(s, run, snap, nodes, i, hi, ids, now);
      WalkDid(s, w, run, snap, nodes, i, hi) && Runnable(reg, w.store, run.id) && w.store.runs == s.runs
    decreases hi - i, 0
  {
    var nodes := NodesIn(reg, s, run.id);
    var input := Built(snap, nodes[i], run.input).value;
    var s1 := StartIn(s, snap, run.id, nodes[i], input, ids[i], now);
    StartWorks(reg, s, snap, run.id, i, input, ids[i], now);
    RestIsFresh(reg, s, s1, snap, run.id, nodes, i, hi, ids, input);
    WalkStarts(reg, s1, run, snap, i + 1, hi, ids, now);
    StartOne(s, s1, Walk(s1, run, snap, nodes, i + 1, hi, ids, now), run, snap, nodes, i, hi);
  }

  // ---------------------------------------------------------------------------------------------
  // What an advance means

  lemma SnapListed(s: Store, r: Uuid, nodes: seq<NodeDef>)
    requires Topological(nodes)
    ensures ListedFrom(s, Snap(s, r), r, nodes, 0)
  {
    forall j | 0 <= j < |nodes|
      ensures AsListed(s, Snap(s, r), r, nodes[j].key)
    {
      assert Placed(nodes, j);
      SnapIsNodes(s, r, nodes[j].key);
    }
  }

  lemma SnapWithin(reg: Registry, s: Store, r: Uuid)
    requires Runnable(reg, s, r)
    ensures Snap(s, r).Keys <= KeysOf(NodesIn(reg, s, r))
  {
    forall k | k in Snap(s, r)
      ensures k in KeysOf(NodesIn(reg, s, r))
    {
      SnapIsNodes(s, r, k);
      NodeIdentity(s, r, k);
      assert Shaped(reg, s, Snap(s, r)[k]);
    }
  }

  predicate AllNodesSucceeded(s: Store, r: Uuid, nodes: seq<NodeDef>) {
    forall j :: 0 <= j < |nodes| ==> Node(s, r, nodes[j].key).Some? && Node(s, r, nodes[j].key).value.status.Succeeded?
  }

  /** The status of a run after an advance, from the nodes alone. */
  function Outcome(s: Store, run: PipelineRun, nodes: seq<NodeDef>): RunStatus {
    var snap := Snap(s, run.id);
    if AnyBroken(snap) || Stop(snap, nodes, run.input, 0, |nodes|) < |nodes| then RunFailed
    else if AllNodesSucceeded(s, run.id, nodes) then RunSucceeded
    else RunRunning
  }

  /** The nodes an advance starts. */
  predicate Begins(s: Store, run: PipelineRun, nodes: seq<NodeDef>, j: nat) {
    !AnyBroken(Snap(s, run.id)) && Starts(Snap(s, run.id), nodes, run.input, 0, |nodes|, j)
  }

  ghost predicate AdvancedAt(s: Store, s': Store, run: PipelineRun, nodes: seq<NodeDef>, j: nat)
    requires j < |nodes|
  {
    var snap, k := Snap(s, run.id), nodes[j].key;
    if Begins(s, run, nodes, j) then
      Built(snap, nodes[j], run.input).Some? && Begun(Node(s', run.id, k), Built(snap, nodes[j], run.input).value)
    else Node(s', run.id, k) == Node(s, run.id, k)
  }

  lemma CompletionMatches(s: Store, run: PipelineRun, snap: Snapshot, nodes: seq<NodeDef>, created: bool)
    requires Topological(nodes) && snap.Keys <= KeysOf(nodes) && ListedFrom(s, snap, run.id, nodes, 0)
    ensures Conclusion(run, snap, nodes, created) == Some(RunSucceeded) <==> AllNodesSucceeded(s, run.id, nodes)
  {
    CountDecidesCompletion(run, snap, nodes, created);
    if AllNodesSucceeded(s, run.id, nodes) {
      forall k | k in KeysOf(nodes)
        ensures k in snap && snap[k].status.Succeeded?
      {
        assert AsListed(s, snap, run.id, nodes[Position(nodes, k)].key);
      }
    } else {
      var j :| 0 <= j < |nodes| && !(Node(s, run.id, nodes[j].key).Some? && Node(s, run.id, nodes[j].key).value.status.Succeeded?);
      KeyAt(nodes, j);
      assert AsListed(s, snap, run.id, nodes[j].key);
    }
  }

  lemma FinishNodes(run: PipelineRun, snap: Snapshot, nodes: seq<NodeDef>, w: Walked, error: string, now: Time)
    ensures forall k :: Node(Finish(run, snap, nodes, w, error, now).store, run.id, k) == Node(w.store, run.id, k)
  {
  }

  lemma FinishDecides(s: Store, run: PipelineRun, snap: Snapshot, nodes: seq<NodeDef>, w: Walked, error: string, now: Time)
    requires run.id in w.store.runs && w.store.runs[run.id] == run && !run.status.Terminal()
    requires Topological(nodes) && snap.Keys <= KeysOf(nodes) && ListedFrom(s, snap, run.id, nodes, 0)
    requires !w.end.ReleaseFailed?
    ensures
      var a := Finish(run, snap, nodes, w, error, now);
      && run.id in a.store.runs
      && a.store.runs[run.id].status ==
           (if w.end.MapperFailed? then RunFailed else if AllNodesSucceeded(s, run.id, nodes) then RunSucceeded else RunRunning)
      && (a.reply.Ok? <==> w.end.Clean?)
  {
    CompletionMatches(s, run, snap, nodes, w.created);
  }

  /** An advance of an unfinished run starts exactly the nodes that are due and come before any
      failing mapper, leaves every other node as it was, and decides the run's status from the
      nodes alone. */
  lemma AdvanceMeans(reg: Registry, s: Store, r: Uuid, ids: Ids, error: string, now: Time)
    requires Runnable(reg, s, r) && !s.runs[r].status.Terminal() && FreshIds(s, ids, 0, |NodesIn(reg, s, r)|)
    ensures
      var nodes, a := NodesIn(reg, s, r), AdvanceOnce(reg, s, r, ids, error, now);
      && (forall j :: 0 <= j < |nodes| ==> AdvancedAt(s, a.store, s.runs[r], nodes, j))
      && (forall j :: 0 <= j < |nodes| && Begins(s, s.runs[r], nodes, j) ==> StartedOn(s, a.store, s.runs[r], nodes[j]))
      && r in a.store.runs && a.store.runs[r].status == Outcome(s, s.runs[r], nodes)
  {
    var run, nodes, snap := s.runs[r], NodesIn(reg, s, r), Snap(s, r);
    assert run.id == r;
    if AnyBroken(snap) {
      BrokenAdvance(s, run, nodes, error, now);
    } else {
      UnbrokenAdvance(reg, s, r, ids, error, now);
    }
    var s' := AdvanceOnce(reg, s, r, ids, error, now).store;
    forall j | 0 <= j < |nodes| && Begins(s, run, nodes, j)
      ensures StartedOn(s, s', run, nodes[j])
    {
      assert AdvancedAt(s, s', run, nodes, j);
      BegunOnOutputs(s, s', run, nodes, j);
    }
  }

  /** The node is pending on what its mapper makes of the run input and the outputs stored before. */
  predicate StartedOn(s: Store, s': Store, run: PipelineRun, n: NodeDef) {
    var e := Node(s', run.id, n.key);
    e.Some? && e.value.status.Pending? && Maps(s, run.id, n, run.input, e.value.input)
  }

  lemma BegunOnOutputs(s: Store, s': Store, run: PipelineRun, nodes: seq<NodeDef>, j: nat)
    requires j < |nodes| && Begins(s, run, nodes, j) && AdvancedAt(s, s', run, nodes, j)
    ensures StartedOn(s, s', run, nodes[j])
  {
    BuiltMaps(s, run.id, nodes[j], run.input);
  }

  lemma BrokenAdvance(s: Store, run: PipelineRun, nodes: seq<NodeDef>, error: string, now: Time)
    requires AnyBroken(Snap(s, run.id)) && run.id in s.runs && s.runs[run.id] == run
    ensures
      var s' := Stamp(s, run, RunFailed, error, now).store;
      && (forall j :: 0 <= j < |nodes| ==> AdvancedAt(s, s', run, nodes, j))
      && run.id in s'.runs && s'.runs[run.id].status == Outcome(s, run, nodes)
  {
  }

  lemma UnbrokenAdvance(reg: Registry, s: Store, r: Uuid, ids: Ids, error: string, now: Time)
    requires Runnable(reg, s, r) && !s.runs[r].status.Terminal() && FreshIds(s, ids, 0, |NodesIn(reg, s, r)|)
    requires !AnyBroken(Snap(s, r)) && s.runs[r].id == r
    ensures
      var run, nodes, snap := s.runs[r], NodesIn(reg, s, r), Snap(s, r);
      var s' := Finish(run, snap, nodes, Walk(s, run, snap, nodes, 0, |nodes|, ids, now), error, now).store;
      && (forall j :: 0 <= j < |nodes| ==> AdvancedAt(s, s', run, nodes, j))
      && r in s'.runs && s'.runs[r].status == Outcome(s, run, nodes)
  {
    var run, nodes, snap := s.runs[r], NodesIn(reg, s, r), Snap(s, r);
    SnapListed(s, r, nodes);
    SnapWithin(reg, s, r);
    WalkStarts(reg, s, run, snap, 0, |nodes|, ids, now);
    var w := Walk(s, run, snap, nodes, 0, |nodes|, ids, now);
    FinishDecides(s, run, snap, nodes, w, error, now);
    FinishNodes(run, snap, nodes, w, error, now);
    AdvancedByWalk(s, run, nodes, w, Finish(run, snap, nodes, w, error, now).store);
  }

  lemma AdvancedByWalk(s: Store, run: PipelineRun, nodes: seq<NodeDef>, w: Walked, s': Store)
    requires !AnyBroken(Snap(s, run.id))
    requires forall j :: 0 <= j < |nodes| ==> WalkedAt(s, w.store, run, Snap(s, run.id), nodes, 0, |nodes|, j)
    requires forall k :: Node(s', run.id, k) == Node(w.store, run.id, k)
    ensures forall j :: 0 <= j < |nodes| ==> AdvancedAt(s, s', run, nodes, j)
  {
    forall j | 0 <= j < |nodes|
      ensures AdvancedAt(s, s', run, nodes, j)
    {
      assert WalkedAt(s, w.store, run, Snap(s, run.id), nodes, 0, |nodes|, j);
    }
  }

  // ---------------------------------------------------------------------------------------------
  // Before and after

  /** Some waiting nodes have been made pending, nothing else has happened to the run's nodes. */
  ghost predicate Progressed(s: Store, s': Store, r: Uuid, nodes: seq<NodeDef>) {
    forall j :: 0 <= j < |nodes| ==> Progress(Node(s, r, nodes[j].key), Node(s', r, nodes[j].key))
  }

  predicate Progress(n: Option<Execution>, n': Option<Execution>) {
    n' == n || (Unstarted(n) && n'.Some? && n'.value.status.Pending?)
  }

  predicate SameResult(snap: Snapshot, snap': Snapshot, k: string) {
    && ((k in snap && snap[k].status.Succeeded?) <==> (k in snap' && snap'[k].status.Succeeded?))
    && (k in snap && snap[k].status.Succeeded? ==> snap[k].output == snap'[k].output)
  }

  lemma ResultsStand(s: Store, s': Store, r: Uuid, nodes: seq<NodeDef>, k: string)
    requires Topological(nodes) && Progressed(s, s', r, nodes) && k in KeysOf(nodes)
    ensures SameResult(Snap(s, r), Snap(s', r), k) && (Broken(Snap(s, r), k) <==> Broken(Snap(s', r), k))
  {
    var j := Position(nodes, k);
    assert Placed(nodes, j);
    SnapIsNodes(s, r, k);
    SnapIsNodes(s', r, k);
    ProgressKeepsResult(Snap(s, r), Snap(s', r), Node(s, r, k), Node(s', r, k), k);
  }

  lemma ProgressKeepsResult(snap: Snapshot, snap': Snapshot, n: Option<Execution>, n': Option<Execution>, k: string)
    requires Progress(n, n')
    requires (k in snap <==> n.Some?) && (k in snap ==> snap[k] == n.value)
    requires (k in snap' <==> n'.Some?) && (k in snap' ==> snap'[k] == n'.value)
    ensures SameResult(snap, snap', k) && (Broken(snap, k) <==> Broken(snap', k))
  {
  }

  lemma SameResultsSameInput(snap: Snapshot, snap': Snapshot, n: NodeDef, initial: Json)
    requires forall d :: d in Deps(n) ==> SameResult(snap, snap', d)
    ensures Ready(snap, n) <==> Ready(snap', n)
    ensures Ready(snap, n) ==> Built(snap, n, initial) == Built(snap', n, initial)
  {
    if Ready(snap, n) {
      InputFromDependencies(n, initial, Outputs(snap), Outputs(snap'));
    }
  }

  lemma DependencyIsKey(nodes: seq<NodeDef>, j: nat, d: string)
    requires Topological(nodes) && j < |nodes| && d in Deps(nodes[j])
    ensures d in KeysOf(nodes)
  {
    assert Placed(nodes, j);
    KeysGrow(nodes, j, |nodes|);
    assert nodes[..|nodes|] == nodes;
  }

  lemma ReadinessStands(s: Store, s': Store, run: PipelineRun, nodes: seq<NodeDef>, j: nat)
    requires Topological(nodes) && Progressed(s, s', run.id, nodes) && j < |nodes|
    ensures Ready(Snap(s, run.id), nodes[j]) <==> Ready(Snap(s', run.id), nodes[j])
    ensures Ready(Snap(s, run.id), nodes[j]) ==>
              Built(Snap(s, run.id), nodes[j], run.input) == Built(Snap(s', run.id), nodes[j], run.input)
  {
    forall d | d in Deps(nodes[j])
      ensures SameResult(Snap(s, run.id), Snap(s', run.id), d)
    {
      DependencyIsKey(nodes, j, d);
      ResultsStand(s, s', run.id, nodes, d);
    }
    SameResultsSameInput(Snap(s, run.id), Snap(s', run.id), nodes[j], run.input);
  }

  lemma BrokenStands(s: Store, s': Store, r: Uuid, nodes: seq<NodeDef>)
    requires Topological(nodes) && Progressed(s, s', r, nodes)
    requires Snap(s, r).Keys <= KeysOf(nodes) && Snap(s', r).Keys <= KeysOf(nodes)
    ensures AnyBroken(Snap(s, r)) <==> AnyBroken(Snap(s', r))
  {
    forall k | k in KeysOf(nodes)
      ensures Broken(Snap(s, r), k) <==> Broken(Snap(s', r), k)
    {
      ResultsStand(s, s', r, nodes, k);
    }
  }

  lemma CompletionStands(s: Store, s': Store, r: Uuid, nodes: seq<NodeDef>)
    requires Progressed(s, s', r, nodes)
    ensures AllNodesSucceeded(s, r, nodes) <==> AllNodesSucceeded(s', r, nodes)
  {
    forall j | 0 <= j < |nodes|
      ensures (Node(s, r, nodes[j].key).Some? && Node(s, r, nodes[j].key).value.status.Succeeded?)
              <==> (Node(s', r, nodes[j].key).Some? && Node(s', r, nodes[j].key).value.status.Succeeded?)
    {
    }
  }

  /** A node is due afterwards exactly if it was due before and has not been started. */
  lemma DueAfter(s: Store, s': Store, run: PipelineRun, nodes: seq<NodeDef>, j: nat)
    requires Topological(nodes) && Progressed(s, s', run.id, nodes) && j < |nodes|
    ensures Due(Snap(s', run.id), nodes[j]) <==>
              Due(Snap(s, run.id), nodes[j]) && Node(s', run.id, nodes[j].key) == Node(s, run.id, nodes[j].key)
    ensures Due(Snap(s', run.id), nodes[j]) ==>
              Built(Snap(s', run.id), nodes[j], run.input) == Built(Snap(s, run.id), nodes[j], run.input)
  {
    SnapListed(s, run.id, nodes);
    SnapListed(s', run.id, nodes);
    assert AsListed(s, Snap(s, run.id), run.id, nodes[j].key) && AsListed(s', Snap(s', run.id), run.id, nodes[j].key);
    ReadinessStands(s, s', run, nodes, j);
  }

  lemma WalkProgresses(s: Store, s': Store, run: PipelineRun, nodes: seq<NodeDef>, hi: nat)
    requires Topological(nodes) && hi <= |nodes|
    requires forall j :: 0 <= j < |nodes| ==> WalkedAt(s, s', run, Snap(s, run.id), nodes, 0, hi, j)
    ensures Progressed(s, s', run.id, nodes)
  {
    SnapListed(s, run.id, nodes);
    forall j | 0 <= j < |nodes|
      ensures Node(s', run.id, nodes[j].key) == Node(s, run.id, nodes[j].key)
              || (Unstarted(Node(s, run.id, nodes[j].key)) && Node(s', run.id, nodes[j].key).Some?
                  && Node(s', run.id, nodes[j].key).value.status.Pending?)
    {
      assert WalkedAt(s, s', run, Snap(s, run.id), nodes, 0, hi, j);
      assert AsListed(s, Snap(s, run.id), run.id, nodes[j].key);
    }
  }

  lemma AdvanceProgresses(s: Store, s': Store, run: PipelineRun, nodes: seq<NodeDef>)
    requires Topological(nodes)
    requires forall j :: 0 <= j < |nodes| ==> AdvancedAt(s, s', run, nodes, j)
    ensures Progressed(s, s', run.id, nodes)
  {
    SnapListed(s, run.id, nodes);
    forall j | 0 <= j < |nodes|
      ensures Node(s', run.id, nodes[j].key) == Node(s, run.id, nodes[j].key)
              || (Unstarted(Node(s, run.id, nodes[j].key)) && Node(s', run.id, nodes[j].key).Some?
                  && Node(s', run.id, nodes[j].key).value.status.Pending?)
    {
      assert AdvancedAt(s, s', run, nodes, j);
      assert AsListed(s, Snap(s, run.id), run.id, nodes[j].key);
    }
  }

  // ---------------------------------------------------------------------------------------------
  // Repeating an advance

  predicate SameDefinition(run: PipelineRun, run': PipelineRun) {
    run'.pipelineName == run.pipelineName && run'.pipelineVersion == run.pipelineVersion && run'.input == run.input
  }

  lemma ShapeByDefinitions(reg: Registry, s: Store, s': Store)
    requires ShapedStore(reg, s) && s'.executions == s.executions
    requires forall r :: r in s'.runs ==> r in s.runs && SameDefinition(s.runs[r], s'.runs[r])
    ensures ShapedStore(reg, s')
  {
    forall id | id in s'.executions
      ensures Shaped(reg, s', s'.executions[id])
    {
      assert Shaped(reg, s, s.executions[id]);
    }
  }

  lemma StatusKeepsShape(reg: Registry, s: Store, id: Uuid, expected: nat, status: RunStatus, error: string, now: Time, r: Uuid)
    requires ShapedStore(reg, s) && r in s.runs
    ensures
      var s' := SetRunStatus(s, id, expected, status, error, now);
      ShapedStore(reg, s') && r in s'.runs && SameDefinition(s.runs[r], s'.runs[r])
  {
    var s' := SetRunStatus(s, id, expected, status, error, now);
    forall x | x in s'.runs
      ensures x in s.runs && SameDefinition(s.runs[x], s'.runs[x])
    {
    }
    ShapeByDefinitions(reg, s, s');
  }

  lemma StampKeepsRunnable(reg: Registry, s: Store, r: Uuid, run: PipelineRun, status: RunStatus, error: string, now: Time)
    requires Runnable(reg, s, r)
    ensures
      var s' := Stamp(s, run, status, error, now).store;
      && Runnable(reg, s', r)
      && NodesIn(reg, s', r) == NodesIn(reg, s, r) && s'.runs[r].input == s.runs[r].input
  {
    StatusKeepsValid(s, run.id, run.revision, status, error, now);
    StatusKeepsShape(reg, s, run.id, run.revision, status, error, now, r);
  }

  lemma AdvanceKeepsRunnable(reg: Registry, s: Store, r: Uuid, ids: Ids, error: string, now: Time)
    requires Runnable(reg, s, r) && FreshIds(s, ids, 0, |NodesIn(reg, s, r)|)
    ensures
      var s' := AdvanceOnce(reg, s, r, ids, error, now).store;
      Runnable(reg, s', r) && NodesIn(reg, s', r) == NodesIn(reg, s, r) && s'.runs[r].input == s.runs[r].input
  {
    var run, nodes, snap := s.runs[r], NodesIn(reg, s, r), Snap(s, r);
    if !run.status.Terminal() {
      if AnyBroken(snap) {
        StampKeepsRunnable(reg, s, r, run, RunFailed, error, now);
      } else {
        SnapListed(s, r, nodes);
        WalkStarts(reg, s, run, snap, 0, |nodes|, ids, now);
        FinishKeepsRunnable(reg, run, snap, nodes, Walk(s, run, snap, nodes, 0, |nodes|, ids, now), error, now);
      }
    }
  }

  lemma FinishKeepsRunnable(reg: Registry, run: PipelineRun, snap: Snapshot, nodes: seq<NodeDef>, w: Walked, error: string, now: Time)
    requires Runnable(reg, w.store, run.id) && w.store.runs[run.id] == run
    ensures
      var s' := Finish(run, snap, nodes, w, error, now).store;
      Runnable(reg, s', run.id) && NodesIn(reg, s', run.id) == NodesIn(reg, w.store, run.id) && s'.runs[run.id].input == run.input
  {
    match w.end
    case MapperFailed => StampKeepsRunnable(reg, w.store, run.id, run, RunFailed, error, now);
    case ReleaseFailed(_) =>
    case Clean =>
      match Conclusion(run, snap, nodes, w.created)
      case None =>
      case Some(status) => StampKeepsRunnable(reg, w.store, run.id, run, status, "", now);
  }

  lemma {:induction false} WalkNothing(s: Store, run: PipelineRun, snap: Snapshot, nodes: seq<NodeDef>, i: nat, hi: nat, ids: Ids, now: Time)
    requires i <= hi <= |nodes| && hi <= |ids|
    requires forall j :: i <= j < hi ==> !Due(snap, nodes[j])
    ensures Walk(s, run, snap, nodes, i, hi, ids, now) == Walked(s, false, Clean)
    decreases hi - i
  {
    if i < hi {
      WalkNothing(s, run, snap, nodes, i + 1, hi, ids, now);
    }
  }

  lemma NothingDueAfter(s: Store, s': Store, run: PipelineRun, nodes: seq<NodeDef>, j: nat)
    requires Topological(nodes) && j < |nodes|
    requires Progressed(s, s', run.id, nodes) && AdvancedAt(s, s', run, nodes, j)
    requires Outcome(s, run, nodes) == RunRunning
    ensures !Due(Snap(s', run.id), nodes[j])
  {
    DueAfter(s, s', run, nodes, j);
    SnapListed(s, run.id, nodes);
    assert AsListed(s, Snap(s, run.id), run.id, nodes[j].key);
  }

  /** A second advance with no change in between writes nothing at all. */
  lemma AdvanceIsIdempotent(reg: Registry, s: Store, r: Uuid, ids: Ids, error: string, now: Time, ids': Ids, error': string, now': Time)
    requires Runnable(reg, s, r) && FreshIds(s, ids, 0, |NodesIn(reg, s, r)|) && |NodesIn(reg, s, r)| <= |ids'|
    ensures
      var s' := AdvanceOnce(reg, s, r, ids, error, now).store;
      && (r in s'.runs && Registered(reg, s'.runs[r]) ==> |NodesOf(reg, s'.runs[r])| <= |ids'|)
      && AdvanceOnce(reg, s', r, ids', error', now') == Advanced(s', Ok(()))
  {
    var s', nodes := AdvanceOnce(reg, s, r, ids, error, now).store, NodesIn(reg, s, r);
    AdvanceKeepsRunnable(reg, s, r, ids, error, now);
    if !s'.runs[r].status.Terminal() {
      assert !s.runs[r].status.Terminal();
      AdvanceMeans(reg, s, r, ids, error, now);
      SecondAdvance(reg, s, s', r, ids', error', now');
    }
  }

  lemma SecondAdvance(reg: Registry, s: Store, s': Store, r: Uuid, ids: Ids, error: string, now: Time)
    requires Runnable(reg, s, r) && Runnable(reg, s', r) && NodesIn(reg, s', r) == NodesIn(reg, s, r)
    requires |NodesIn(reg, s, r)| <= |ids|
    requires s'.runs[r].status == RunRunning == Outcome(s, s.runs[r], NodesIn(reg, s, r))
    requires forall j :: 0 <= j < |NodesIn(reg, s, r)| ==> AdvancedAt(s, s', s.runs[r], NodesIn(reg, s, r), j)
    ensures AdvanceOnce(reg, s', r, ids, error, now) == Advanced(s', Ok(()))
  {
    SnapWithin(reg, s, r);
    SnapWithin(reg, s', r);
    NothingLeft(s, s', s.runs[r], s'.runs[r], NodesIn(reg, s, r), ids, now);
  }

  lemma NothingLeft(s: Store, s': Store, run: PipelineRun, run': PipelineRun, nodes: seq<NodeDef>, ids: Ids, now: Time)
    requires Topological(nodes) && |nodes| <= |ids| && run'.id == run.id
    requires Snap(s, run.id).Keys <= KeysOf(nodes) && Snap(s', run.id).Keys <= KeysOf(nodes)
    requires run'.status == RunRunning == Outcome(s, run, nodes)
    requires forall j :: 0 <= j < |nodes| ==> AdvancedAt(s, s', run, nodes, j)
    ensures
      var snap' := Snap(s', run.id);
      && !AnyBroken(snap')
      && Walk(s', run', snap', nodes, 0, |nodes|, ids, now) == Walked(s', false, Clean)
      && Conclusion(run', snap', nodes, false) == None
  {
    AdvanceProgresses(s, s', run, nodes);
    BrokenStands(s, s', run.id, nodes);
    NothingToConclude(s, s', run, run', nodes);
    forall j | 0 <= j < |nodes|
      ensures !Due(Snap(s', run.id), nodes[j])
    {
      NothingDueAfter(s, s', run, nodes, j);
    }
    WalkNothing(s', run', Snap(s', run.id), nodes, 0, |nodes|, ids, now);
  }

  lemma NothingToConclude(s: Store, s': Store, run: PipelineRun, run': PipelineRun, nodes: seq<NodeDef>)
    requires Topological(nodes) && run'.id == run.id && Snap(s', run.id).Keys <= KeysOf(nodes)
    requires run'.status == RunRunning && !AllNodesSucceeded(s, run.id, nodes) && Progressed(s, s', run.id, nodes)
    ensures Conclusion(run', Snap(s', run.id), nodes, false) == None
  {
    CompletionStands(s, s', run.id, nodes);
    SnapListed(s', run.id, nodes);
    CompletionMatches(s', run', Snap(s', run.id), nodes, false);
  }

  // ---------------------------------------------------------------------------------------------
  // No stall

  predicate HasWork(s: Store, r: Uuid, nodes: seq<NodeDef>) {
    exists j :: 0 <= j < |nodes| && Node(s, r, nodes[j].key).Some? && Node(s, r, nodes[j].key).value.status.Active()
  }

  predicate NodeSucceeded(s: Store, r: Uuid, n: NodeDef) {
    Node(s, r, n.key).Some? && Node(s, r, n.key).value.status.Succeeded?
  }

  lemma FirstUnfinished(s: Store, r: Uuid, nodes: seq<NodeDef>) returns (j: nat)
    requires !AllNodesSucceeded(s, r, nodes)
    ensures j < |nodes| && !NodeSucceeded(s, r, nodes[j])
    ensures forall i :: 0 <= i < j ==> NodeSucceeded(s, r, nodes[i])
  {
    j := 0;
    while NodeSucceeded(s, r, nodes[j])
      invariant j < |nodes| && forall i :: 0 <= i < j ==> NodeSucceeded(s, r, nodes[i])
      decreases |nodes| - j
    {
      if j + 1 == |nodes| {
        assert AllNodesSucceeded(s, r, nodes);
      }
      j := j + 1;
    }
  }

  lemma FirstUnfinishedIsReady(s: Store, r: Uuid, nodes: seq<NodeDef>, j: nat)
    requires Topological(nodes) && j < |nodes| && forall i :: 0 <= i < j ==> NodeSucceeded(s, r, nodes[i])
    ensures Ready(Snap(s, r), nodes[j])
  {
    SnapListed(s, r, nodes);
    forall d | d in Deps(nodes[j])
      ensures d in Snap(s, r) && Snap(s, r)[d].status.Succeeded?
    {
      assert Placed(nodes, j);
      var i :| 0 <= i < j && nodes[..j][i].key == d;
      assert AsListed(s, Snap(s, r), r, nodes[i].key) && NodeSucceeded(s, r, nodes[i]);
    }
  }

  /** After an advance a run is finished or has a node that is pending, retrying or running: the
      first node in declaration order that has not succeeded cannot stay missing or blocked. */
  lemma AdvanceNeverStalls(reg: Registry, s: Store, r: Uuid, ids: Ids, error: string, now: Time)
    requires Runnable(reg, s, r) && FreshIds(s, ids, 0, |NodesIn(reg, s, r)|)
    ensures
      var s' := AdvanceOnce(reg, s, r, ids, error, now).store;
      && r in s'.runs
      && (s'.runs[r].status.Terminal() || HasWork(s', r, NodesIn(reg, s, r)))
  {
    var s', nodes := AdvanceOnce(reg, s, r, ids, error, now).store, NodesIn(reg, s, r);
    AdvanceKeepsRunnable(reg, s, r, ids, error, now);
    if !s'.runs[r].status.Terminal() {
      AdvanceMeans(reg, s, r, ids, error, now);
      var j := FirstUnfinished(s, r, nodes);
      FirstUnfinishedIsReady(s, r, nodes, j);
      SnapListed(s, r, nodes);
      UnfinishedGetsWork(s, s', s.runs[r], nodes, j);
    }
  }

  lemma UnfinishedGetsWork(s: Store, s': Store, run: PipelineRun, nodes: seq<NodeDef>, j: nat)
    requires j < |nodes| && AdvancedAt(s, s', run, nodes, j) && Outcome(s, run, nodes) == RunRunning
    requires AsListed(s, Snap(s, run.id), run.id, nodes[j].key)
    requires Ready(Snap(s, run.id), nodes[j]) && !NodeSucceeded(s, run.id, nodes[j])
    ensures HasWork(s', run.id, nodes)
  {
    var snap, k := Snap(s, run.id), nodes[j].key;
    if k in snap {
      assert !Broken(snap, k);
    }
    assert Node(s', run.id, k).Some? && Node(s', run.id, k).value.status.Active();
  }
}
