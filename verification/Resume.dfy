/** An advance interrupted by a crash and run again ends where an uninterrupted one does. */
module Resume {
  import opened Model
  import opened Storage
  import opened Definitions
  import opened Engine
  import opened Advance

  /** Status and input of a node: what is left of it once ids and times are forgotten. */
  function View(s: Store, r: Uuid, k: string): Option<(Status, Json)> {
    match Node(s, r, k)
    case None => None
    case Some(e) => Some((e.status, e.input))
  }

  predicate Fails(snap: Snapshot, n: NodeDef, initial: Json) {
    Due(snap, n) && Built(snap, n, initial).None?
  }

  lemma {:induction false} StopEqual(snap: Snapshot, snap': Snapshot, nodes: seq<NodeDef>, initial: Json, i: nat, hi: nat)
    requires i <= hi <= |nodes|
    requires forall j :: i <= j < hi ==> (Fails(snap, nodes[j], initial) <==> Fails(snap', nodes[j], initial))
    ensures Stop(snap, nodes, initial, i, hi) == Stop(snap', nodes, initial, i, hi)
    decreases hi - i
  {
    if i < hi {
      assert Fails(snap, nodes[i], initial) <==> Fails(snap', nodes[i], initial);
      StopEqual(snap, snap', nodes, initial, i + 1, hi);
    }
  }

  /** A shorter walk stops where the whole one does, or at its own end. */
  lemma StopShorter(snap: Snapshot, nodes: seq<NodeDef>, initial: Json, p: nat, hi: nat, j: nat)
    requires j < p <= hi <= |nodes|
    ensures j < Stop(snap, nodes, initial, 0, p) <==> j < Stop(snap, nodes, initial, 0, hi)
  {
    var a, b := Stop(snap, nodes, initial, 0, p), Stop(snap, nodes, initial, 0, hi);
    assert a < p ==> a == b;
  }

  /** The situation after a crash: the first p nodes have been walked. */
  ghost predicate Crashed(s: Store, sp: Store, run: PipelineRun, nodes: seq<NodeDef>, p: nat)
    requires p <= |nodes|
  {
    && Topological(nodes)
    && Progressed(s, sp, run.id, nodes)
    && (forall j :: 0 <= j < |nodes| ==> WalkedAt(s, sp, run, Snap(s, run.id), nodes, 0, p, j))
  }

  lemma FailsAfterCrash(s: Store, sp: Store, run: PipelineRun, nodes: seq<NodeDef>, p: nat, j: nat)
    requires p <= |nodes| && Crashed(s, sp, run, nodes, p) && j < |nodes|
    ensures Fails(Snap(s, run.id), nodes[j], run.input) <==> Fails(Snap(sp, run.id), nodes[j], run.input)
  {
    DueAfter(s, sp, run, nodes, j);
    assert WalkedAt(s, sp, run, Snap(s, run.id), nodes, 0, p, j);
  }

  lemma StopAfterCrash(s: Store, sp: Store, run: PipelineRun, nodes: seq<NodeDef>, p: nat)
    requires p <= |nodes| && Crashed(s, sp, run, nodes, p)
    ensures Stop(Snap(s, run.id), nodes, run.input, 0, |nodes|) == Stop(Snap(sp, run.id), nodes, run.input, 0, |nodes|)
  {
    forall j | 0 <= j < |nodes|
      ensures Fails(Snap(s, run.id), nodes[j], run.input) <==> Fails(Snap(sp, run.id), nodes[j], run.input)
    {
      FailsAfterCrash(s, sp, run, nodes, p, j);
    }
    StopEqual(Snap(s, run.id), Snap(sp, run.id), nodes, run.input, 0, |nodes|);
  }

  /** Every node is started either before the crash or after it. */
  lemma StartsOnce(s: Store, sp: Store, run: PipelineRun, nodes: seq<NodeDef>, p: nat, j: nat)
    requires p <= |nodes| && Crashed(s, sp, run, nodes, p) && j < |nodes|
    requires !AnyBroken(Snap(s, run.id)) && !AnyBroken(Snap(sp, run.id))
    ensures Starts(Snap(s, run.id), nodes, run.input, 0, p, j) ==> Begins(s, run, nodes, j) && !Begins(sp, run, nodes, j)
    ensures !Starts(Snap(s, run.id), nodes, run.input, 0, p, j) ==> (Begins(s, run, nodes, j) <==> Begins(sp, run, nodes, j))
  {
    StopAfterCrash(s, sp, run, nodes, p);
    if j < p {
      StopShorter(Snap(s, run.id), nodes, run.input, p, |nodes|, j);
    }
    DueAfter(s, sp, run, nodes, j);
    assert WalkedAt(s, sp, run, Snap(s, run.id), nodes, 0, p, j);
    SnapListed(s, run.id, nodes);
    assert AsListed(s, Snap(s, run.id), run.id, nodes[j].key);
  }

  predicate ViewedAs(s: Store, r: Uuid, k: string, input: Json) {
    View(s, r, k) == Some((Pending, input))
  }

  lemma NodeResumes(s: Store, sp: Store, s1: Store, s2: Store, run: PipelineRun, nodes: seq<NodeDef>, p: nat, j: nat)
    requires p <= |nodes| && Crashed(s, sp, run, nodes, p) && j < |nodes|
    requires !AnyBroken(Snap(s, run.id)) && !AnyBroken(Snap(sp, run.id))
    requires AdvancedAt(s, s1, run, nodes, j) && AdvancedAt(sp, s2, run, nodes, j)
    ensures View(s1, run.id, nodes[j].key) == View(s2, run.id, nodes[j].key)
  {
    StartsOnce(s, sp, run, nodes, p, j);
    assert WalkedAt(s, sp, run, Snap(s, run.id), nodes, 0, p, j);
    if Begins(s, run, nodes, j) {
      BegunResumes(s, sp, s1, s2, run, nodes, p, j);
    } else {
      IdleResumes(s, sp, s1, s2, run, nodes, p, j);
    }
  }

  lemma IdleResumes(s: Store, sp: Store, s1: Store, s2: Store, run: PipelineRun, nodes: seq<NodeDef>, p: nat, j: nat)
    requires p <= |nodes| && j < |nodes| && WalkedAt(s, sp, run, Snap(s, run.id), nodes, 0, p, j)
    requires !Starts(Snap(s, run.id), nodes, run.input, 0, p, j) && !Begins(s, run, nodes, j) && !Begins(sp, run, nodes, j)
    requires AdvancedAt(s, s1, run, nodes, j) && AdvancedAt(sp, s2, run, nodes, j)
    ensures View(s1, run.id, nodes[j].key) == View(s2, run.id, nodes[j].key)
  {
  }

  lemma BegunResumes(s: Store, sp: Store, s1: Store, s2: Store, run: PipelineRun, nodes: seq<NodeDef>, p: nat, j: nat)
    requires p <= |nodes| && Topological(nodes) && Progressed(s, sp, run.id, nodes) && j < |nodes|
    requires WalkedAt(s, sp, run, Snap(s, run.id), nodes, 0, p, j) && Begins(s, run, nodes, j)
    requires Starts(Snap(s, run.id), nodes, run.input, 0, p, j) <==> !Begins(sp, run, nodes, j)
    requires AdvancedAt(s, s1, run, nodes, j) && AdvancedAt(sp, s2, run, nodes, j)
    ensures View(s1, run.id, nodes[j].key) == View(s2, run.id, nodes[j].key)
  {
    var snap, k := Snap(s, run.id), nodes[j].key;
    var input := Built(snap, nodes[j], run.input).value;
    assert ViewedAs(s1, run.id, k, input);
    if !Starts(snap, nodes, run.input, 0, p, j) {
      DueAfter(s, sp, run, nodes, j);
    }
    assert ViewedAs(s2, run.id, k, input);
  }

  lemma OutcomeStands(s: Store, sp: Store, run: PipelineRun, nodes: seq<NodeDef>, p: nat)
    requires p <= |nodes| && Crashed(s, sp, run, nodes, p)
    requires Snap(s, run.id).Keys <= KeysOf(nodes) && Snap(sp, run.id).Keys <= KeysOf(nodes)
    ensures Outcome(s, run, nodes) == Outcome(sp, run, nodes)
    ensures AnyBroken(Snap(s, run.id)) <==> AnyBroken(Snap(sp, run.id))
  {
    StopAfterCrash(s, sp, run, nodes, p);
    BrokenStands(s, sp, run.id, nodes);
    CompletionStands(s, sp, run.id, nodes);
  }

  /** The store after the first p nodes have been walked and nothing more has been written. */
  function CrashAt(reg: Registry, s: Store, r: Uuid, p: nat, ids: Ids, now: Time): Store
    requires r in s.runs && Registered(reg, s.runs[r]) && p <= |NodesIn(reg, s, r)| && p <= |ids|
  {
    Walk(s, s.runs[r], Snap(s, r), NodesIn(reg, s, r), 0, p, ids, now).store
  }

  lemma CrashIsCrashed(reg: Registry, s: Store, r: Uuid, p: nat, ids: Ids, now: Time)
    requires Runnable(reg, s, r) && p <= |NodesIn(reg, s, r)| && FreshIds(s, ids, 0, p)
    ensures
      var sp := CrashAt(reg, s, r, p, ids, now);
      Crashed(s, sp, s.runs[r], NodesIn(reg, s, r), p) && Runnable(reg, sp, r) && sp.runs == s.runs
  {
    var run, nodes := s.runs[r], NodesIn(reg, s, r);
    assert run.id == r;
    SnapListed(s, r, nodes);
    WalkStarts(reg, s, run, Snap(s, r), 0, p, ids, now);
    WalkProgresses(s, CrashAt(reg, s, r, p, ids, now), run, nodes, p);
  }

  /** Stopping after any prefix of an advance's creations and releases and advancing again gives
      the same statuses and inputs of all nodes and the same run status as an uninterrupted
      advance, whatever the ids and times. */
  lemma CrashedAdvanceResumes(reg: Registry, s: Store, r: Uuid, p: nat, ids: Ids, error: string, now: Time, ids': Ids, error': string, now': Time)
    requires Runnable(reg, s, r) && !s.runs[r].status.Terminal() && !AnyBroken(Snap(s, r))
    requires p <= |NodesIn(reg, s, r)| && FreshIds(s, ids, 0, |NodesIn(reg, s, r)|)
    requires FreshIds(CrashAt(reg, s, r, p, ids, now), ids', 0, |NodesIn(reg, s, r)|)
    ensures
      var sp := CrashAt(reg, s, r, p, ids, now);
      && r in sp.runs && Registered(reg, sp.runs[r]) && |NodesOf(reg, sp.runs[r])| <= |ids'|
      && var s1, s2 := AdvanceOnce(reg, s, r, ids, error, now).store, AdvanceOnce(reg, sp, r, ids', error', now').store;
      && (forall k :: k in KeysOf(NodesIn(reg, s, r)) ==> View(s1, r, k) == View(s2, r, k))
      && r in s1.runs && r in s2.runs && s1.runs[r].status == s2.runs[r].status
  {
    var run, nodes := s.runs[r], NodesIn(reg, s, r);
    var sp := CrashAt(reg, s, r, p, ids, now);
    assert run.id == r;
    CrashIsCrashed(reg, s, r, p, ids, now);
    ResumeFrom(reg, s, sp, r, p, ids, error, now, ids', error', now');
  }

  lemma ResumeFrom(reg: Registry, s: Store, sp: Store, r: Uuid, p: nat, ids: Ids, error: string, now: Time, ids': Ids, error': string, now': Time)
    requires Runnable(reg, s, r) && !s.runs[r].status.Terminal() && !AnyBroken(Snap(s, r))
    requires p <= |NodesIn(reg, s, r)| && FreshIds(s, ids, 0, |NodesIn(reg, s, r)|) && FreshIds(sp, ids', 0, |NodesIn(reg, s, r)|)
    requires Crashed(s, sp, s.runs[r], NodesIn(reg, s, r), p) && Runnable(reg, sp, r) && sp.runs == s.runs
    ensures
      var s1, s2 := AdvanceOnce(reg, s, r, ids, error, now).store, AdvanceOnce(reg, sp, r, ids', error', now').store;
      && (forall k :: k in KeysOf(NodesIn(reg, s, r)) ==> View(s1, r, k) == View(s2, r, k))
      && r in s1.runs && r in s2.runs && s1.runs[r].status == s2.runs[r].status
  {
    var run, nodes := s.runs[r], NodesIn(reg, s, r);
    assert run.id == r;
    SnapWithin(reg, s, r);
    SnapWithin(reg, sp, r);
    OutcomeStands(s, sp, run, nodes, p);
    AdvanceMeans(reg, s, r, ids, error, now);
    AdvanceMeans(reg, sp, r, ids', error', now');
    var s1, s2 := AdvanceOnce(reg, s, r, ids, error, now).store, AdvanceOnce(reg, sp, r, ids', error', now').store;
    forall k | k in KeysOf(nodes)
      ensures View(s1, r, k) == View(s2, r, k)
    {
      NodeResumes(s, sp, s1, s2, run, nodes, p, Position(nodes, k));
    }
  }
}
