/** Cancelling a run: what the cancellation of its listed executions, one by one, amounts to. */
module Cancelling {
  import opened Model
  import opened Records
  import opened Storage
  import M = Memory

  function CancelOne(s: Store, item: Execution, reason: string, now: Time): Store {
    if item.status.Active() then TouchRecord(s, item.id, Cancel(reason), now) else s
  }

  /** Cancelling the first n listed executions. */
  function CancelEach(s: Store, items: seq<Execution>, n: nat, reason: string, now: Time): Store
    requires n <= |items|
  {
    if n == 0 then s else CancelOne(CancelEach(s, items, n - 1, reason, now), items[n - 1], reason, now)
  }

  /** The whole cancellation of a run. */
  function CancelRun(s: Store, r: Uuid, items: seq<Execution>, reason: string, now: Time): Store
    requires r in s.runs
  {
    SetRunStatus(CancelEach(s, items, |items|, reason, now), r, s.runs[r].revision, RunCancelled, reason, now)
  }

  predicate Among(items: seq<Execution>, n: nat, id: Uuid)
    requires n <= |items|
  {
    exists j :: 0 <= j < n && items[j].id == id
  }

  /** Where a cancellation takes one record. */
  function CancelRecord(e: Execution, hit: bool, reason: string, now: Time): Execution {
    if hit && e.status.Active() then
      e.(status := Cancelled, lastError := reason, finishedAt := Some(now), leaseOwner := "", leaseToken := NIL, leaseUntil := ZERO_TIME)
    else e
  }

  function CancelLog(e: Execution, log: seq<Event>, hit: bool, reason: string, now: Time): seq<Event> {
    if hit && e.status.Active() then log + [Event(EventCancelled, e.attempt, reason, now)] else log
  }

  ghost predicate CancelledAt(s: Store, s': Store, id: Uuid, hit: bool, reason: string, now: Time) {
    && (id in s'.executions <==> id in s.executions)
    && (id in s.executions ==> id in s'.executions ==>
          && s'.executions[id] == CancelRecord(s.executions[id], hit, reason, now)
          && LogOf(s', id) == CancelLog(s.executions[id], LogOf(s, id), hit, reason, now))
  }

  lemma AmongNext(items: seq<Execution>, n: nat, id: Uuid)
    requires n < |items|
    ensures Among(items, n + 1, id) <==> Among(items, n, id) || items[n].id == id
  {
  }

  lemma CancelOneMeans(s: Store, mid: Store, item: Execution, reason: string, now: Time, id: Uuid, hit: bool)
    requires item.id in s.executions && s.executions[item.id] == item
    requires CancelledAt(s, mid, item.id, false, reason, now)
    requires id != item.id ==> CancelledAt(s, mid, id, hit, reason, now)
    ensures
      var s' := CancelOne(mid, item, reason, now);
      && CancelledAt(s, s', id, id == item.id || hit, reason, now)
      && s'.runs == mid.runs && s'.idempotent == mid.idempotent && s'.nodes == mid.nodes
  {
    if item.status.Active() {
      assert Apply(item, Cancel(reason), now).Done?;
    }
  }

  lemma {:induction false} CancelEachMeans(s: Store, r: Uuid, items: seq<Execution>, n: nat, reason: string, now: Time, id: Uuid)
    requires M.AreExecutionsOf(s.executions, r, items) && n <= |items|
    ensures
      var s' := CancelEach(s, items, n, reason, now);
      && CancelledAt(s, s', id, Among(items, n, id), reason, now)
      && s'.runs == s.runs && s'.idempotent == s.idempotent && s'.nodes == s.nodes
  {
    if n > 0 {
      CancelEachMeans(s, r, items, n - 1, reason, now, id);
      CancelEachMeans(s, r, items, n - 1, reason, now, items[n - 1].id);
      AmongNext(items, n - 1, id);
      assert !Among(items, n - 1, items[n - 1].id);
      CancelOneMeans(s, CancelEach(s, items, n - 1, reason, now), items[n - 1], reason, now, id, Among(items, n - 1, id));
    }
  }

  /** Cancelling a run cancels exactly its pending, retrying and running executions, and leaves
      blocked and finished ones and everything outside the run as they were. */
  lemma CancelMeans(s: Store, r: Uuid, items: seq<Execution>, reason: string, now: Time, id: Uuid)
    requires M.AreExecutionsOf(s.executions, r, items) && r in s.runs
    requires id in s.executions ==> s.executions[id].id == id
    ensures
      var s' := CancelRun(s, r, items, reason, now);
      && CancelledAt(s, s', id, id in s.executions && s.executions[id].runId == Some(r), reason, now)
      && s'.runs == s.runs[r := s.runs[r].(status := RunCancelled, error := reason, updatedAt := now,
                                           revision := s.runs[r].revision + 1, finishedAt := Some(now))]
      && s'.idempotent == s.idempotent && s'.nodes == s.nodes
  {
    CancelEachMeans(s, r, items, |items|, reason, now, id);
    if id in s.executions && s.executions[id].runId == Some(r) {
      assert s.executions[id] in items;
    }
  }

  /** Once a run is cancelled no delivery of any of its nodes can report: every lease token is
      refused. */
  lemma CancelSilences(s: Store, r: Uuid, items: seq<Execution>, reason: string, now: Time, id: Uuid, token: Uuid)
    requires M.AreExecutionsOf(s.executions, r, items) && r in s.runs && id in s.executions
    requires s.executions[id].id == id && s.executions[id].runId == Some(r)
    ensures
      var s' := CancelRun(s, r, items, reason, now);
      && id in s'.executions && !Owned(s'.executions[id], token)
      && (!s.executions[id].status.Blocked? ==> s'.executions[id].status.Terminal())
  {
    CancelMeans(s, r, items, reason, now, id);
  }
}
