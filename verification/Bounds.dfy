/** How much work a run can cause, and that reachable runs can always be advanced. */
module Bounds {
  import opened Model
  import opened Records
  import opened Storage
  import opened Definitions
  import opened Engine
  import opened Histories
  import opened Coordination
  import opened CasSafety
  import A = Advance

  // ---------------------------------------------------------------------------------------------
  // Every reachable run can be advanced

  /** In every reachable state an uninterrupted advance of a registered run finishes it or leaves it
      with work, however the state came about. */
  lemma ReachableRunNeverStalls(reg: Registry, ss: seq<Sys>, moves: seq<Move>, i: nat, r: Uuid, ids: A.Ids, error: string, now: Time)
    requires ValidRegistry(reg) && IsRun(reg, ss, moves) && i < |ss|
    requires r in ss[i].world.store.runs && Registered(reg, ss[i].world.store.runs[r])
    requires A.FreshIds(ss[i].world.store, ids, 0, |NodesOf(reg, ss[i].world.store.runs[r])|)
    ensures
      var s' := A.AdvanceOnce(reg, ss[i].world.store, r, ids, error, now).store;
      && r in s'.runs
      && (s'.runs[r].status.Terminal() || A.HasWork(s', r, NodesOf(reg, ss[i].world.store.runs[r])))
  {
    RunKeepsCas(reg, ss, moves, i);
    A.AdvanceNeverStalls(reg, ss[i].world.store, r, ids, error, now);
  }

  // ---------------------------------------------------------------------------------------------
  // Claims are bounded by the attempt budgets

  function AttemptAt(s: Store, r: Uuid, k: string): int {
    match Node(s, r, k)
    case None => 0
    case Some(e) => e.attempt
  }

  function SumAttempts(s: Store, r: Uuid, nodes: seq<NodeDef>): int {
    if nodes == [] then 0
    else SumAttempts(s, r, nodes[..|nodes| - 1]) + AttemptAt(s, r, nodes[|nodes| - 1].key)
  }

  function Budget(nodes: seq<NodeDef>): int {
    if nodes == [] then 0 else Budget(nodes[..|nodes| - 1]) + nodes[|nodes| - 1].maxAttempts
  }

  /** A move that starts a delivery of a node of the run. */
  ghost predicate Claims(a: Sys, move: Move, b: Sys, r: Uuid) {
    && move.Env? && move.step.Touch? && move.step.op.Start?
    && move.step.id in a.world.store.executions
    && a.world.store.executions[move.step.id].runId == Some(r)
    && Claimable(a.world.store.executions[move.step.id], b.world.clock)
  }

  ghost function ClaimCount(ss: seq<Sys>, moves: seq<Move>, i: nat, r: Uuid): nat
    requires |ss| == |moves| + 1 && i <= |moves|
  {
    if i == 0 then 0
    else ClaimCount(ss, moves, i - 1, r) + (if Claims(ss[i - 1], moves[i - 1], ss[i], r) then 1 else 0)
  }

  /** A move that restarts a part of the run. */
  ghost predicate Restarts(a: Sys, move: Move, r: Uuid) {
    && move.Env? && move.step.Subgraph? && move.step.restart.runId == r
    && RestartAllowed(a.world.store, move.step.restart)
  }

  ghost function RestartCount(ss: seq<Sys>, moves: seq<Move>, i: nat, r: Uuid): nat
    requires |ss| == |moves| + 1 && i <= |moves|
  {
    if i == 0 then 0
    else RestartCount(ss, moves, i - 1, r) + (if Restarts(ss[i - 1], moves[i - 1], r) then 1 else 0)
  }

  lemma AttemptMove(e: Execution, op: RecordOp, now: Time)
    requires e.runId.Some? && Apply(e, op, now).Done?
    ensures Apply(e, op, now).record.attempt == e.attempt + (if op.Start? then 1 else 0)
  {
  }

  lemma AttemptNext(s: Store, step: Step, now: Time, r: Uuid, k: string)
    requires Valid(s) && Fresh(s, step) && Orderly(s, step) && k != "" && step != DropRun(r)
    requires !(step.Subgraph? && step.restart.runId == r)
    ensures AttemptAt(Do(s, step, now), r, k) == AttemptAt(s, r, k) + (if StartsNode(s, step, now, r, k) then 1 else 0)
  {
    NodeAfter(s, step, now, r, k);
    if Node(s, r, k).Some? {
      NodeIdentity(s, r, k);
      if step.Touch? && Apply(Node(s, r, k).value, step.op, now).Done? {
        AttemptMove(Node(s, r, k).value, step.op, now);
      }
    }
    if step.Create? && step.request.runId == Some(r) && step.request.nodeKey == k {
      NodeAfterCreate(s, step.request, step.newId, now, r, k);
    }
  }

  predicate StartsNode(s: Store, step: Step, now: Time, r: Uuid, k: string) {
    step.Touch? && step.op.Start? && Node(s, r, k).Some? && Node(s, r, k).value.id == step.id && Claimable(Node(s, r, k).value, now)
  }

  /** If one node's attempt grows by one and no other changes, so does the sum. */
  lemma {:induction false} SumMoves(s: Store, s': Store, r: Uuid, nodes: seq<NodeDef>, x: int)
    requires forall j :: 0 <= j < |nodes| ==>
               AttemptAt(s', r, nodes[j].key) == AttemptAt(s, r, nodes[j].key) + (if j == x then 1 else 0)
    ensures SumAttempts(s', r, nodes) == SumAttempts(s, r, nodes) + (if 0 <= x < |nodes| then 1 else 0)
  {
    if nodes != [] {
      SumMoves(s, s', r, nodes[..|nodes| - 1], x);
    }
  }

  lemma {:induction false} SumZero(s: Store, r: Uuid, nodes: seq<NodeDef>)
    requires forall j :: 0 <= j < |nodes| ==> AttemptAt(s, r, nodes[j].key) == 0
    ensures SumAttempts(s, r, nodes) == 0
  {
    if nodes != [] {
      SumZero(s, r, nodes[..|nodes| - 1]);
    }
  }

  lemma {:induction false} SumWithinBudget(s: Store, r: Uuid, nodes: seq<NodeDef>)
    requires forall j :: 0 <= j < |nodes| ==> 0 <= AttemptAt(s, r, nodes[j].key) <= nodes[j].maxAttempts
    ensures 0 <= SumAttempts(s, r, nodes) <= Budget(nodes)
  {
    if nodes != [] {
      SumWithinBudget(s, r, nodes[..|nodes| - 1]);
    }
  }

  lemma AttemptsWithinBudget(reg: Registry, sys: Sys, r: Uuid)
    requires ValidRegistry(reg) && CasInv(reg, sys) && r in sys.world.store.runs && Registered(reg, sys.world.store.runs[r])
    ensures
      var nodes := NodesOf(reg, sys.world.store.runs[r]);
      0 <= SumAttempts(sys.world.store, r, nodes) <= Budget(nodes)
  {
    var s, nodes := sys.world.store, NodesOf(reg, sys.world.store.runs[r]);
    forall j | 0 <= j < |nodes|
      ensures 0 <= AttemptAt(s, r, nodes[j].key) <= nodes[j].maxAttempts
    {
      assert Placed(nodes, j);
      if Node(s, r, nodes[j].key).Some? {
        NodeIdentity(s, r, nodes[j].key);
        assert Shaped(reg, s, Node(s, r, nodes[j].key).value);
      }
    }
    SumWithinBudget(s, r, nodes);
  }

  /** The key of the node a step starts a delivery of, if it does. */
  function StartedKey(s: Store, step: Step, now: Time, r: Uuid): Option<string> {
    if step.Touch? && step.op.Start? && step.id in s.executions && s.executions[step.id].runId == Some(r)
       && Claimable(s.executions[step.id], now)
    then Some(s.executions[step.id].nodeKey) else None
  }

  lemma StartedKeyIsIt(s: Store, step: Step, now: Time, r: Uuid, k: string)
    requires Valid(s) && k != ""
    ensures StartsNode(s, step, now, r, k) <==> StartedKey(s, step, now, r) == Some(k)
  {
    if Node(s, r, k).Some? {
      NodeIdentity(s, r, k);
    }
    if StartedKey(s, step, now, r) == Some(k) {
      assert NodeOf(s.executions[step.id]) == (r, k);
    }
  }

  lemma StepCounts(s: Store, step: Step, now: Time, r: Uuid, nodes: seq<NodeDef>)
    requires Valid(s) && Fresh(s, step) && Orderly(s, step) && step != DropRun(r) && Topological(nodes)
    requires !(step.Subgraph? && step.restart.runId == r)
    requires StartedKey(s, step, now, r).Some? ==> StartedKey(s, step, now, r).value in KeysOf(nodes)
    ensures SumAttempts(Do(s, step, now), r, nodes) ==
            SumAttempts(s, r, nodes) + (if StartedKey(s, step, now, r).Some? then 1 else 0)
  {
    var key := StartedKey(s, step, now, r);
    var x: int := if key.Some? then Position(nodes, key.value) else -1;
    forall j | 0 <= j < |nodes|
      ensures AttemptAt(Do(s, step, now), r, nodes[j].key) == AttemptAt(s, r, nodes[j].key) + (if j == x then 1 else 0)
    {
      assert Placed(nodes, j);
      PositionUnique(nodes, j);
      AttemptNext(s, step, now, r, nodes[j].key);
      StartedKeyIsIt(s, step, now, r, nodes[j].key);
    }
    SumMoves(s, Do(s, step, now), r, nodes, x);
  }

  lemma MoveCounts(reg: Registry, a: Sys, move: Move, b: Sys, r: Uuid)
    requires ValidRegistry(reg) && CasInv(reg, a) && SysNext(reg, a, move, b) && !Restarts(a, move, r)
    requires r in a.world.store.runs && r in b.world.store.runs && Registered(reg, a.world.store.runs[r])
    ensures
      var nodes := NodesOf(reg, a.world.store.runs[r]);
      SumAttempts(b.world.store, r, nodes) == SumAttempts(a.world.store, r, nodes) + (if Claims(a, move, b, r) then 1 else 0)
  {
    MoveIsStep(reg, a, move, b);
    match StepOf(reg, a, move)
    case None =>
    case Some(step) =>
      StepIsOrderly(reg, a, move, b, step);
      StartedIsDeclared(reg, a, step, b.world.clock, r);
      if step.Subgraph? && !RestartAllowed(a.world.store, step.restart) {
        assert b.world.store == a.world.store;
      } else {
        StepCounts(a.world.store, step, b.world.clock, r, NodesOf(reg, a.world.store.runs[r]));
      }
  }

  lemma StartedIsDeclared(reg: Registry, a: Sys, step: Step, now: Time, r: Uuid)
    requires CasInv(reg, a) && r in a.world.store.runs && Registered(reg, a.world.store.runs[r])
    ensures StartedKey(a.world.store, step, now, r).Some? ==>
              StartedKey(a.world.store, step, now, r).value in KeysOf(NodesOf(reg, a.world.store.runs[r]))
  {
    if StartedKey(a.world.store, step, now, r).Some? {
      assert Shaped(reg, a.world.store, a.world.store.executions[step.id]);
    }
  }

  lemma NewRunUnclaimed(reg: Registry, ss: seq<Sys>, moves: seq<Move>, i: nat, r: Uuid)
    requires ValidRegistry(reg) && IsRun(reg, ss, moves) && i <= |moves| && r !in ss[i].world.issued
    ensures ClaimCount(ss, moves, i, r) == 0
  {
    if i > 0 {
      assert SysNext(reg, ss[i - 1], moves[i - 1], ss[i]);
      MoveIsStep(reg, ss[i - 1], moves[i - 1], ss[i]);
      RunKeepsCas(reg, ss, moves, i - 1);
      NewRunUnclaimed(reg, ss, moves, i - 1, r);
    }
  }

  lemma UnusedNodes(reg: Registry, sys: Sys, r: Uuid, nodes: seq<NodeDef>)
    requires CasInv(reg, sys) && r !in sys.world.issued
    ensures SumAttempts(sys.world.store, r, nodes) == 0
  {
    forall j | 0 <= j < |nodes|
      ensures AttemptAt(sys.world.store, r, nodes[j].key) == 0
    {
      if Node(sys.world.store, r, nodes[j].key).Some? {
        NodeIdentity(sys.world.store, r, nodes[j].key);
      }
    }
    SumZero(sys.world.store, r, nodes);
  }

  lemma LaterByMove(reg: Registry, a: Sys, move: Move, b: Sys, r: Uuid)
    requires Inv(a.world) && SysNext(reg, a, move, b) && r in a.world.store.runs && r in b.world.store.runs
    ensures Later(a.world.store.runs[r], b.world.store.runs[r])
  {
    MoveIsStep(reg, a, move, b);
    match StepOf(reg, a, move)
    case None =>
    case Some(step) => RunsOnlyAdvance(a.world, step, b.world, r);
  }

  lemma NewRunKeepsAttempts(s: Store, step: Step, now: Time, r: Uuid, nodes: seq<NodeDef>)
    requires Valid(s) && r !in s.runs && r in Do(s, step, now).runs
    ensures step.NewRun? && SumAttempts(Do(s, step, now), r, nodes) == SumAttempts(s, r, nodes)
  {
    RunAfter(s, step, now, r);
    SumMoves(s, Do(s, step, now), r, nodes, -1);
  }

  lemma MoveCreatesRun(reg: Registry, a: Sys, move: Move, b: Sys, r: Uuid, nodes: seq<NodeDef>)
    requires CasInv(reg, a) && SysNext(reg, a, move, b) && r !in a.world.store.runs && r in b.world.store.runs
    ensures r !in a.world.issued && SumAttempts(b.world.store, r, nodes) == 0 && !Claims(a, move, b, r)
  {
    MoveIsStep(reg, a, move, b);
    var step := StepOf(reg, a, move).value;
    RunsOnlyAdvance(a.world, step, b.world, r);
    NewRunKeepsAttempts(a.world.store, step, b.world.clock, r, nodes);
    UnusedNodes(reg, a, r, nodes);
  }

  lemma NewRunStarts(reg: Registry, ss: seq<Sys>, moves: seq<Move>, i: nat, r: Uuid)
    requires ValidRegistry(reg) && IsRun(reg, ss, moves) && 0 < i <= |moves|
    requires r !in ss[i - 1].world.store.runs && r in ss[i].world.store.runs && Registered(reg, ss[i].world.store.runs[r])
    ensures ClaimCount(ss, moves, i, r) == SumAttempts(ss[i].world.store, r, NodesOf(reg, ss[i].world.store.runs[r])) == 0
  {
    StepInto(reg, ss, moves, i);
    MoveCreatesRun(reg, ss[i - 1], moves[i - 1], ss[i], r, NodesOf(reg, ss[i].world.store.runs[r]));
    NewRunUnclaimed(reg, ss, moves, i - 1, r);
  }

  lemma StepInto(reg: Registry, ss: seq<Sys>, moves: seq<Move>, i: nat)
    requires ValidRegistry(reg) && IsRun(reg, ss, moves) && 0 < i <= |moves|
    ensures CasInv(reg, ss[i - 1]) && SysNext(reg, ss[i - 1], moves[i - 1], ss[i])
  {
    RunKeepsCas(reg, ss, moves, i - 1);
  }

  function Times(n: nat, budget: int): int {
    if n == 0 then 0 else Times(n - 1, budget) + budget
  }

  lemma {:induction false} TimesIsProduct(n: nat, budget: int)
    ensures Times(n, budget) == n * budget
  {
    if n > 0 {
      TimesIsProduct(n - 1, budget);
    }
  }

  /** What a run's claims so far come to: its nodes' attempts, and at most one budget for each restart. */
  ghost predicate Accounted(claims: nat, restarts: nat, attempts: int, budget: int) {
    claims <= Times(restarts, budget) + attempts && (restarts == 0 ==> claims == attempts)
  }

  function Add(n: nat, b: bool): nat { if b then n + 1 else n }

  /** A restart may reset attempts; anything else adds its claim to them. */
  lemma MoveAccounts(claims: nat, restarts: nat, attempts: int, attempts': int, budget: int, claimed: bool, restarted: bool)
    requires Accounted(claims, restarts, attempts, budget) && attempts <= budget && 0 <= attempts'
    requires if restarted then !claimed else attempts' == attempts + (if claimed then 1 else 0)
    ensures Accounted(Add(claims, claimed), Add(restarts, restarted), attempts', budget)
  {
  }

  lemma NothingAccounts(restarts: nat, budget: int)
    requires 0 <= budget
    ensures Accounted(0, restarts, 0, budget)
  {
    TimesIsProduct(restarts, budget);
    assert 0 <= restarts * budget;
  }

  lemma AttemptsInEveryState(reg: Registry, ss: seq<Sys>, moves: seq<Move>, i: nat, r: Uuid)
    requires ValidRegistry(reg) && IsRun(reg, ss, moves) && i < |ss|
    requires r in ss[i].world.store.runs && Registered(reg, ss[i].world.store.runs[r])
    ensures
      var nodes := NodesOf(reg, ss[i].world.store.runs[r]);
      0 <= SumAttempts(ss[i].world.store, r, nodes) <= Budget(nodes)
  {
    RunKeepsCas(reg, ss, moves, i);
    AttemptsWithinBudget(reg, ss[i], r);
  }

  ghost predicate AccountedAt(reg: Registry, ss: seq<Sys>, moves: seq<Move>, i: nat, r: Uuid)
    requires |ss| == |moves| + 1 && i <= |moves| && r in ss[i].world.store.runs && Registered(reg, ss[i].world.store.runs[r])
  {
    var nodes := NodesOf(reg, ss[i].world.store.runs[r]);
    Accounted(ClaimCount(ss, moves, i, r), RestartCount(ss, moves, i, r), SumAttempts(ss[i].world.store, r, nodes), Budget(nodes))
  }

  lemma AccountsBegin(reg: Registry, ss: seq<Sys>, moves: seq<Move>, i: nat, r: Uuid)
    requires ValidRegistry(reg) && IsRun(reg, ss, moves) && 0 < i <= |moves|
    requires r !in ss[i - 1].world.store.runs && r in ss[i].world.store.runs && Registered(reg, ss[i].world.store.runs[r])
    ensures AccountedAt(reg, ss, moves, i, r)
  {
    NewRunStarts(reg, ss, moves, i, r);
    AttemptsInEveryState(reg, ss, moves, i, r);
    NothingAccounts(RestartCount(ss, moves, i, r), Budget(NodesOf(reg, ss[i].world.store.runs[r])));
  }

  lemma RunAdvances(reg: Registry, ss: seq<Sys>, moves: seq<Move>, i: nat, r: Uuid)
    requires ValidRegistry(reg) && IsRun(reg, ss, moves) && 0 < i <= |moves|
    requires r in ss[i - 1].world.store.runs && r in ss[i].world.store.runs
    ensures Later(ss[i - 1].world.store.runs[r], ss[i].world.store.runs[r])
  {
    StepInto(reg, ss, moves, i);
    LaterByMove(reg, ss[i - 1], moves[i - 1], ss[i], r);
  }

  lemma CountsNext(ss: seq<Sys>, moves: seq<Move>, i: nat, r: Uuid)
    requires |ss| == |moves| + 1 && 0 < i <= |moves|
    ensures ClaimCount(ss, moves, i, r) == Add(ClaimCount(ss, moves, i - 1, r), Claims(ss[i - 1], moves[i - 1], ss[i], r))
    ensures RestartCount(ss, moves, i, r) == Add(RestartCount(ss, moves, i - 1, r), Restarts(ss[i - 1], moves[i - 1], r))
  {
  }

  /** One move and the attempts of a run's nodes: a restart may reset them, anything else adds its
      claim. */
  ghost predicate Moved(a: Sys, move: Move, b: Sys, r: Uuid, nodes: seq<NodeDef>) {
    && SumAttempts(a.world.store, r, nodes) <= Budget(nodes) && 0 <= SumAttempts(b.world.store, r, nodes)
    && if Restarts(a, move, r) then !Claims(a, move, b, r)
       else SumAttempts(b.world.store, r, nodes) == SumAttempts(a.world.store, r, nodes) + (if Claims(a, move, b, r) then 1 else 0)
  }

  lemma AttemptsMove(reg: Registry, ss: seq<Sys>, moves: seq<Move>, i: nat, r: Uuid)
    requires ValidRegistry(reg) && IsRun(reg, ss, moves) && 0 < i <= |moves|
    requires r in ss[i - 1].world.store.runs && r in ss[i].world.store.runs && Registered(reg, ss[i - 1].world.store.runs[r])
    ensures Registered(reg, ss[i].world.store.runs[r]) && NodesOf(reg, ss[i].world.store.runs[r]) == NodesOf(reg, ss[i - 1].world.store.runs[r])
    ensures Moved(ss[i - 1], moves[i - 1], ss[i], r, NodesOf(reg, ss[i].world.store.runs[r]))
  {
    RunAdvances(reg, ss, moves, i, r);
    AttemptsInEveryState(reg, ss, moves, i - 1, r);
    AttemptsInEveryState(reg, ss, moves, i, r);
    StepInto(reg, ss, moves, i);
    if !Restarts(ss[i - 1], moves[i - 1], r) {
      MoveCounts(reg, ss[i - 1], moves[i - 1], ss[i], r);
    }
  }

  lemma AccountsNext(reg: Registry, ss: seq<Sys>, moves: seq<Move>, i: nat, r: Uuid)
    requires |ss| == |moves| + 1 && 0 < i <= |moves|
    requires r in ss[i - 1].world.store.runs && r in ss[i].world.store.runs && Registered(reg, ss[i - 1].world.store.runs[r])
    requires Registered(reg, ss[i].world.store.runs[r]) && NodesOf(reg, ss[i].world.store.runs[r]) == NodesOf(reg, ss[i - 1].world.store.runs[r])
    requires Moved(ss[i - 1], moves[i - 1], ss[i], r, NodesOf(reg, ss[i].world.store.runs[r])) && AccountedAt(reg, ss, moves, i - 1, r)
    ensures AccountedAt(reg, ss, moves, i, r)
  {
    var nodes := NodesOf(reg, ss[i].world.store.runs[r]);
    CountsNext(ss, moves, i, r);
    MoveAccounts(ClaimCount(ss, moves, i - 1, r), RestartCount(ss, moves, i - 1, r),
                 SumAttempts(ss[i - 1].world.store, r, nodes), SumAttempts(ss[i].world.store, r, nodes), Budget(nodes),
                 Claims(ss[i - 1], moves[i - 1], ss[i], r), Restarts(ss[i - 1], moves[i - 1], r));
  }

  /** The claims made so far never exceed the attempts a run's nodes stand at plus one budget for each
      restart; until the first restart they are exactly those attempts. */
  lemma {:induction false} ClaimsAreAttempts(reg: Registry, ss: seq<Sys>, moves: seq<Move>, i: nat, r: Uuid)
    requires ValidRegistry(reg) && IsRun(reg, ss, moves) && i <= |moves|
    requires r in ss[i].world.store.runs && Registered(reg, ss[i].world.store.runs[r])
    ensures AccountedAt(reg, ss, moves, i, r)
  {
    if i > 0 {
      if r in ss[i - 1].world.store.runs {
        RunAdvances(reg, ss, moves, i, r);
        ClaimsAreAttempts(reg, ss, moves, i - 1, r);
        AttemptsMove(reg, ss, moves, i, r);
        AccountsNext(reg, ss, moves, i, r);
      } else {
        AccountsBegin(reg, ss, moves, i, r);
      }
    }
  }

  lemma AccountedBound(claims: nat, restarts: nat, attempts: int, budget: int)
    requires Accounted(claims, restarts, attempts, budget) && attempts <= budget
    ensures claims <= Times(1 + restarts, budget) == (1 + restarts) * budget
  {
    TimesIsProduct(1 + restarts, budget);
  }

  lemma AccountedWithin(reg: Registry, ss: seq<Sys>, moves: seq<Move>, i: nat, r: Uuid)
    requires |ss| == |moves| + 1 && i <= |moves| && r in ss[i].world.store.runs && Registered(reg, ss[i].world.store.runs[r])
    requires
      var nodes := NodesOf(reg, ss[i].world.store.runs[r]);
      AccountedAt(reg, ss, moves, i, r) && SumAttempts(ss[i].world.store, r, nodes) <= Budget(nodes)
    ensures ClaimCount(ss, moves, i, r) <= (1 + RestartCount(ss, moves, i, r)) * Budget(NodesOf(reg, ss[i].world.store.runs[r]))
  {
    var nodes := NodesOf(reg, ss[i].world.store.runs[r]);
    AccountedBound(ClaimCount(ss, moves, i, r), RestartCount(ss, moves, i, r), SumAttempts(ss[i].world.store, r, nodes), Budget(nodes));
  }

  /** A run is claimed at most as often as its nodes' attempt budgets add up to, once for its creation
      and once more for each restart. */
  lemma ClaimsWithinBudget(reg: Registry, ss: seq<Sys>, moves: seq<Move>, i: nat, r: Uuid)
    requires ValidRegistry(reg) && IsRun(reg, ss, moves) && i <= |moves|
    requires r in ss[i].world.store.runs && Registered(reg, ss[i].world.store.runs[r])
    ensures ClaimCount(ss, moves, i, r) <= (1 + RestartCount(ss, moves, i, r)) * Budget(NodesOf(reg, ss[i].world.store.runs[r]))
  {
    ClaimsAreAttempts(reg, ss, moves, i, r);
    AttemptsInEveryState(reg, ss, moves, i, r);
    AccountedWithin(reg, ss, moves, i, r);
  }
}
