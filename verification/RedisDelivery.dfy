/** Delivery from the Redis store: claims found through the queues, dead deliveries found through the
    leases. */
module RedisDelivery {
  import opened Model
  import opened Records
  import opened Sorting
  import opened Delivery
  import opened Redis
  import P = RedisPurge
  import M = Memory

  // ---------------------------------------------------------------------------------------------
  // What the queues and leases show

  predicate QueuedDue(db: Db, name: string, now: Time, id: Uuid) {
    (name, id) in db.queues && db.queues[(name, id)] <= ScoreOf(now)
  }

  lemma ScoreMonotone(a: Time, b: Time)
    requires a <= b
    ensures ScoreOf(a) <= ScoreOf(b)
  {
  }

  /** Rounding to milliseconds never hides a record that can be claimed. */
  lemma NothingHidden(db: Db, id: Uuid, now: Time)
    requires ExecutionsCoherent(db) && id in db.records && Claimable(db.records[id], now)
    ensures QueuedDue(db, db.records[id].taskName, now, id)
  {
    var e := db.records[id];
    assert IndexedAt(db, id);
    assert Entry(db.queues, (e.taskName, e.id)) == Some(ScoreOf(QueueAt(e)));
    ScoreMonotone(QueueAt(e), now);
  }

  /** Nor a delivery that is dead. */
  lemma DeadIsLeased(db: Db, id: Uuid, now: Time)
    requires ExecutionsCoherent(db) && id in db.records && Reapable(db.records[id], now)
    ensures id in db.leases && db.leases[id] <= ScoreOf(now)
  {
    assert IndexedAt(db, id);
    ScoreMonotone(db.records[id].leaseUntil, now);
  }

  lemma QueuedIsRecord(db: Db, name: string, id: Uuid)
    requires ExecutionsCoherent(db) && (name, id) in db.queues
    ensures id in db.records && db.records[id].id == id
  {
    assert IndexedAt(db, id);
    assert Entry(db.queues, (name, id)).Some?;
  }

  lemma LeasedIsRecord(db: Db, id: Uuid)
    requires ExecutionsCoherent(db) && id in db.leases
    ensures id in db.records && db.records[id].id == id
  {
    assert IndexedAt(db, id);
    assert Entry(db.leases, id).Some?;
  }

  /** A score is a time in milliseconds, rounded down. */
  lemma ScoreIsMillisecond(t: Time)
    ensures ScoreOf(t) * 1_000_000 <= t < (ScoreOf(t) + 1) * 1_000_000
  {
  }

  /** A queue shows a record as due from less than a millisecond before its time, and never after it. */
  lemma DueWithinMillisecond(db: Db, id: Uuid, now: Time)
    requires ExecutionsCoherent(db) && id in db.records && db.records[id].status.Active()
    ensures
      var e := db.records[id];
      var at := if e.status.Running? then e.leaseUntil else e.availableAt;
      && (at <= now ==> QueuedDue(db, e.taskName, now, id))
      && (QueuedDue(db, e.taskName, now, id) ==> at < now + 1_000_000)
  {
    var e := db.records[id];
    assert IndexedAt(db, id) && QueueAs(db.queues, e);
    assert Entry(db.queues, (e.taskName, id)) == Some(ScoreOf(QueueAt(e)));
    ScoreIsMillisecond(QueueAt(e));
    ScoreIsMillisecond(now);
  }

  // ---------------------------------------------------------------------------------------------
  // Loading candidates

  function Window(limit: nat): nat { if limit * 8 > 128 then limit * 8 else 128 }

  function DueMembers(db: Db, name: string, now: Time): set<Uuid> {
    set k | k in db.queues && k.0 == name && db.queues[k] <= ScoreOf(now) :: k.1
  }

  /** No more members are due than one read of the queue takes. */
  predicate Fits(db: Db, name: string, limit: nat, now: Time) {
    |DueMembers(db, name, now)| <= 128 || |DueMembers(db, name, now)| <= 8 * limit
  }

  lemma DueIsMember(db: Db, name: string, now: Time, id: Uuid)
    ensures id in DueMembers(db, name, now) <==> QueuedDue(db, name, now, id)
  {
    if QueuedDue(db, name, now, id) {
      assert (name, id) in db.queues && (name, id).1 == id;
    }
  }

  /** The due members of one queue with the lowest scores, up to a number of them. */
  method DueHead(db: Db, name: string, count: nat, now: Time) returns (ids: seq<Uuid>)
    ensures Distinct(ids) && |ids| <= count && forall id :: id in ids ==> QueuedDue(db, name, now, id)
    ensures forall id :: QueuedDue(db, name, now, id) && id !in ids ==>
              |ids| == count && forall x :: x in ids ==> Count(db.queues, (name, x)) <= Count(db.queues, (name, id))
    ensures |DueMembers(db, name, now)| <= count ==> forall id :: QueuedDue(db, name, now, id) ==> id in ids
  {
    var members := Enumerate(DueMembers(db, name, now));
    var lower := (a: Uuid, b: Uuid) => Count(db.queues, (name, a)) <= Count(db.queues, (name, b));
    var sorted := Sort(lower, members);
    PermutedDistinct(members, sorted);
    ids := if |sorted| > count then sorted[..count] else sorted;
    HeadIsLowest(db, name, count, now, sorted, ids);
  }

  lemma HeadIsLowest(db: Db, name: string, count: nat, now: Time, sorted: seq<Uuid>, ids: seq<Uuid>)
    requires Distinct(sorted) && Elements(sorted) == DueMembers(db, name, now) && |sorted| == |DueMembers(db, name, now)|
    requires forall i, j :: 0 <= i < j < |sorted| ==> Count(db.queues, (name, sorted[i])) <= Count(db.queues, (name, sorted[j]))
    requires ids == if |sorted| > count then sorted[..count] else sorted
    ensures forall id :: id in ids ==> QueuedDue(db, name, now, id)
    ensures forall id :: QueuedDue(db, name, now, id) && id !in ids ==>
              |ids| == count && forall x :: x in ids ==> Count(db.queues, (name, x)) <= Count(db.queues, (name, id))
    ensures |DueMembers(db, name, now)| <= count ==> forall id :: QueuedDue(db, name, now, id) ==> id in ids
  {
    forall id | QueuedDue(db, name, now, id)
      ensures id in sorted
    {
      DueIsMember(db, name, now, id);
      assert id in Elements(sorted);
    }
    forall id | id in ids
      ensures QueuedDue(db, name, now, id)
    {
      assert id in Elements(sorted);
      DueIsMember(db, name, now, id);
    }
    forall id | QueuedDue(db, name, now, id) && id !in ids
      ensures |ids| == count && forall x :: x in ids ==> Count(db.queues, (name, x)) <= Count(db.queues, (name, id))
    {
      var k :| 0 <= k < |sorted| && sorted[k] == id;
      forall x | x in ids
        ensures Count(db.queues, (name, x)) <= Count(db.queues, (name, id))
      {
        var j :| 0 <= j < |ids| && ids[j] == x;
        assert sorted[j] == x;
        assert j < k;
      }
    }
  }

  /** That many loaded members of the queue are due with scores no higher than this one's. */
  ghost predicate Crowded(db: Db, name: string, now: Time, found: set<Uuid>, window: nat, id: Uuid) {
    exists head: seq<Uuid> :: IsHead(db, name, now, found, window, id, head)
  }

  ghost predicate IsHead(db: Db, name: string, now: Time, found: set<Uuid>, window: nat, id: Uuid, head: seq<Uuid>) {
    && Distinct(head) && |head| == window
    && (forall x :: x in head ==>
          x in found && QueuedDue(db, name, now, x) && Count(db.queues, (name, x)) <= Count(db.queues, (name, id)))
  }

  lemma CrowdedGrows(db: Db, name: string, now: Time, found: set<Uuid>, more: set<Uuid>, window: nat, id: Uuid)
    requires Crowded(db, name, now, found, window, id) && found <= more
    ensures Crowded(db, name, now, more, window, id)
  {
    var head :| IsHead(db, name, now, found, window, id, head);
    assert IsHead(db, name, now, more, window, id, head);
  }

  /** A due member of one of the queues is loaded or crowded out. */
  ghost predicate AllLoaded(db: Db, names: seq<string>, now: Time, found: set<Uuid>, window: nat) {
    forall name, id :: name in names && QueuedDue(db, name, now, id) && id !in found ==> Crowded(db, name, now, found, window, id)
  }

  lemma HeadLoaded(db: Db, names: seq<string>, name: string, now: Time, found: set<Uuid>, ids: seq<Uuid>, window: nat)
    requires AllLoaded(db, names, now, found, window) && Distinct(ids) && |ids| <= window
    requires forall x :: x in ids ==> QueuedDue(db, name, now, x)
    requires forall id :: QueuedDue(db, name, now, id) && id !in ids ==>
               |ids| == window && forall x :: x in ids ==> Count(db.queues, (name, x)) <= Count(db.queues, (name, id))
    ensures AllLoaded(db, names + [name], now, found + Elements(ids), window)
  {
    var more := found + Elements(ids);
    forall n, id | n in names + [name] && QueuedDue(db, n, now, id) && id !in more
      ensures Crowded(db, n, now, more, window, id)
    {
      if n in names {
        CrowdedGrows(db, n, now, found, more, window, id);
      } else {
        assert id !in Elements(ids);
        assert IsHead(db, name, now, more, window, id, ids);
      }
    }
  }

  /** A queue that fits crowds nobody out. */
  lemma FitsLoads(db: Db, name: string, now: Time, found: set<Uuid>, window: nat, id: Uuid)
    requires QueuedDue(db, name, now, id) && id !in found && |DueMembers(db, name, now)| <= window
    ensures !Crowded(db, name, now, found, window, id)
  {
    if head :| IsHead(db, name, now, found, window, id, head) {
      DistinctSize(head + [id]);
      forall x | x in Elements(head + [id])
        ensures x in DueMembers(db, name, now)
      {
        DueIsMember(db, name, now, x);
      }
      SubsetSize(Elements(head + [id]), DueMembers(db, name, now));
    }
  }

  function Loaded(ordered: seq<Execution>): set<Uuid> { set e | e in ordered :: e.id }

  /** The records behind the heads of the named queues, soonest first. A due member of a queue is left out
      only if 128 members, or eight times the limit if that is more, are taken that are due no later. */
  method LoadDueCandidates(db: Db, names: seq<string>, limit: nat, now: Time) returns (ordered: seq<Execution>)
    requires ExecutionsCoherent(db)
    ensures P.Current(db, ordered) && Sorted(Sooner, ordered)
    ensures AllLoaded(db, names, now, Loaded(ordered), if 8 * limit > 128 then 8 * limit else 128)
    ensures forall name, id :: name in names && QueuedDue(db, name, now, id) ==>
              |DueMembers(db, name, now)| <= 128 || |DueMembers(db, name, now)| <= 8 * limit ==>
                id in db.records && db.records[id] in ordered
    ensures |ordered| <= |names| * (if 8 * limit > 128 then 8 * limit else 128)
  {
    var found: set<Uuid> := {};
    var window := Window(limit);
    for n := 0 to |names|
      invariant found <= db.records.Keys && |found| <= n * window && AllLoaded(db, names[..n], now, found, window)
    {
      var ids := DueHead(db, names[n], window, now);
      forall id | id in ids
        ensures id in db.records
      {
        QueuedIsRecord(db, names[n], id);
      }
      OneMoreHead(found, ids, n, window);
      HeadLoaded(db, names[..n], names[n], now, found, ids, window);
      assert names[..n] + [names[n]] == names[..n + 1];
      found := found + Elements(ids);
    }
    assert names[..|names|] == names;
    ordered := SortedRecords(db, found);
    FittingAreLoaded(db, names, limit, now, ordered);
  }

  lemma FittingAreLoaded(db: Db, names: seq<string>, limit: nat, now: Time, ordered: seq<Execution>)
    requires P.Current(db, ordered) && AllLoaded(db, names, now, Loaded(ordered), Window(limit))
    ensures forall name, id :: name in names && QueuedDue(db, name, now, id) ==>
              |DueMembers(db, name, now)| <= 128 || |DueMembers(db, name, now)| <= 8 * limit ==>
                id in db.records && db.records[id] in ordered
  {
    forall name, id | name in names && QueuedDue(db, name, now, id) && |DueMembers(db, name, now)| <= Window(limit)
      ensures id in db.records && db.records[id] in ordered
    {
      if id !in Loaded(ordered) {
        FitsLoads(db, name, now, Loaded(ordered), Window(limit), id);
      }
      var e :| e in ordered && e.id == id;
      var j :| 0 <= j < |ordered| && ordered[j] == e;
    }
  }

  lemma OneMoreHead(found: set<Uuid>, ids: seq<Uuid>, n: nat, window: nat)
    requires |found| <= n * window && |ids| <= window && Distinct(ids)
    ensures |found + Elements(ids)| <= (n + 1) * window
  {
    DistinctSize(ids);
    assert |found + Elements(ids)| == |found| + |Elements(ids)| - |found * Elements(ids)|;
  }

  method SortedRecords(db: Db, found: set<Uuid>) returns (ordered: seq<Execution>)
    requires ExecutionsCoherent(db) && found <= db.records.Keys
    ensures P.Current(db, ordered) && Sorted(Sooner, ordered)
    ensures |ordered| == |found| && Loaded(ordered) == found
  {
    var ids := Enumerate(found);
    assert forall j :: 0 <= j < |ids| ==> ids[j] in Elements(ids);
    var items := seq(|ids|, j requires 0 <= j < |ids| => db.records[ids[j]]);
    forall j | 0 <= j < |ids|
      ensures items[j].id == ids[j]
    {
      assert IndexedAt(db, ids[j]);
    }
    forall id | id in found
      ensures db.records[id] in items
    {
      assert id in Elements(ids);
      var j :| 0 <= j < |ids| && ids[j] == id;
      assert items[j] == db.records[id];
    }
    SoonerIsPreorder();
    ordered := Sort(Sooner, items);
    M.SameMembers(items, ordered);
    LoadedAre(db, ids, items, ordered, found);
  }

  lemma LoadedAre(db: Db, ids: seq<Uuid>, items: seq<Execution>, ordered: seq<Execution>, found: set<Uuid>)
    requires Elements(ids) == found && |items| == |ids| && forall j :: 0 <= j < |ids| ==> items[j].id == ids[j]
    requires forall e :: e in items <==> e in ordered
    ensures Loaded(ordered) == found
  {
    forall id | id in found
      ensures id in Loaded(ordered)
    {
      assert id in Elements(ids);
      var j :| 0 <= j < |ids| && ids[j] == id;
      assert items[j] in ordered;
    }
    forall id | id in Loaded(ordered)
      ensures id in found
    {
      var e :| e in ordered && e.id == id;
      assert e in items;
      var j :| 0 <= j < |items| && items[j] == e;
      assert ids[j] in Elements(ids);
    }
  }

  // ---------------------------------------------------------------------------------------------
  // Claiming

  /** The first eligible candidates among the first n, up to the limit. */
  function Firsts(ordered: seq<Execution>, n: nat, accepted: set<TaskKey>, now: Time, limit: nat): seq<Uuid>
    requires n <= |ordered|
  {
    if n == 0 then []
    else
      var before := Firsts(ordered, n - 1, accepted, now, limit);
      if |before| < limit && Eligible(ordered[n - 1], accepted, now) then before + [ordered[n - 1].id] else before
  }

  ghost predicate ApartIds(ordered: seq<Execution>) {
    forall i, j :: 0 <= i < j < |ordered| ==> ordered[i].id != ordered[j].id
  }

  /** A picked id is that of an eligible candidate among the first n. */
  ghost predicate PickedAt(ordered: seq<Execution>, n: nat, accepted: set<TaskKey>, now: Time, id: Uuid)
    requires n <= |ordered|
  {
    exists j :: 0 <= j < n && ordered[j].id == id && Eligible(ordered[j], accepted, now)
  }

  lemma {:induction false} FirstsAreEligible(ordered: seq<Execution>, n: nat, accepted: set<TaskKey>, now: Time, limit: nat)
    requires n <= |ordered| && ApartIds(ordered)
    ensures
      var picked := Firsts(ordered, n, accepted, now, limit);
      && |picked| <= limit && |picked| <= n && Distinct(picked)
      && (forall id :: id in picked ==> PickedAt(ordered, n, accepted, now, id))
      && (forall j :: 0 <= j < n && Eligible(ordered[j], accepted, now) && ordered[j].id !in picked ==> |picked| == limit)
  {
    if n > 0 {
      FirstsAreEligible(ordered, n - 1, accepted, now, limit);
      var before := Firsts(ordered, n - 1, accepted, now, limit);
      forall id | id in before
        ensures PickedAt(ordered, n, accepted, now, id) && id != ordered[n - 1].id
      {
        assert PickedAt(ordered, n - 1, accepted, now, id);
      }
      assert forall i :: 0 <= i < |before| ==> before[i] in before;
    }
  }

  /** Picks come in the candidates' order, and before any candidate left out. */
  lemma {:induction false} FirstsAreSoonest(db: Db, ordered: seq<Execution>, n: nat, accepted: set<TaskKey>, now: Time, limit: nat)
    requires n <= |ordered| && P.Current(db, ordered) && Sorted(Sooner, ordered)
    ensures
      var picked := Firsts(ordered, n, accepted, now, limit);
      && (forall i :: 0 <= i < |picked| ==> picked[i] in db.records)
      && (forall i, j :: 0 <= i < j < |picked| ==> Sooner(db.records[picked[i]], db.records[picked[j]]))
      && (forall i, j :: 0 <= i < |picked| && n <= j < |ordered| ==> Sooner(db.records[picked[i]], ordered[j]))
      && (forall i, j :: 0 <= i < |picked| && 0 <= j < n && Eligible(ordered[j], accepted, now) && ordered[j].id !in picked ==>
            Sooner(db.records[picked[i]], ordered[j]))
  {
    if n > 0 {
      FirstsAreSoonest(db, ordered, n - 1, accepted, now, limit);
      FirstsAreEligible(ordered, n - 1, accepted, now, limit);
    }
  }

  lemma {:induction false} FirstsFull(ordered: seq<Execution>, n: nat, accepted: set<TaskKey>, now: Time, limit: nat)
    requires n <= |ordered| && |Firsts(ordered, n, accepted, now, limit)| == limit
    ensures Firsts(ordered, |ordered|, accepted, now, limit) == Firsts(ordered, n, accepted, now, limit)
    decreases |ordered| - n
  {
    if n < |ordered| {
      FirstsFull(ordered, n + 1, accepted, now, limit);
    }
  }

  /** Sorting first, then checking and taking, picks what checking first would. */
  lemma FirstsIsPick(db: Db, ordered: seq<Execution>, accepted: set<TaskKey>, now: Time, limit: nat)
    requires P.Current(db, ordered) && Sorted(Sooner, ordered)
    requires forall id :: id in db.records && Eligible(db.records[id], accepted, now) ==>
               db.records[id].id == id && db.records[id] in ordered
    ensures IsPick(db.records, accepted, now, limit, Firsts(ordered, |ordered|, accepted, now, limit))
  {
    var picked := Firsts(ordered, |ordered|, accepted, now, limit);
    FirstsAreEligible(ordered, |ordered|, accepted, now, limit);
    FirstsAreSoonest(db, ordered, |ordered|, accepted, now, limit);
    forall i | 0 <= i < |picked|
      ensures picked[i] in db.records && Eligible(db.records[picked[i]], accepted, now)
    {
      assert PickedAt(ordered, |ordered|, accepted, now, picked[i]);
    }
    forall id | id in db.records && Eligible(db.records[id], accepted, now) && id !in picked
      ensures |picked| == limit && forall i :: 0 <= i < |picked| ==> Sooner(db.records[picked[i]], db.records[id])
    {
      var j :| 0 <= j < |ordered| && ordered[j] == db.records[id];
      assert Eligible(ordered[j], accepted, now) && ordered[j].id !in picked;
    }
  }

  /** That many members of its queue are due no later than this execution, each claimed or not eligible. */
  ghost predicate CrowdedOut(db: Db, accepted: set<TaskKey>, now: Time, picked: seq<Uuid>, window: nat, id: Uuid)
    requires id in db.records
  {
    exists head: seq<Uuid> :: IsCrowd(db, accepted, now, picked, window, id, head)
  }

  ghost predicate IsCrowd(db: Db, accepted: set<TaskKey>, now: Time, picked: seq<Uuid>, window: nat, id: Uuid, head: seq<Uuid>)
    requires id in db.records
  {
    && Distinct(head) && |head| == window
    && (forall x :: x in head ==>
          && QueuedDue(db, db.records[id].taskName, now, x)
          && Count(db.queues, (db.records[id].taskName, x)) <= Count(db.queues, (db.records[id].taskName, id))
          && x in db.records && (x in picked || !Eligible(db.records[x], accepted, now)))
  }

  lemma LoadedIsPicked(db: Db, ordered: seq<Execution>, accepted: set<TaskKey>, now: Time, limit: nat, id: Uuid)
    requires P.Current(db, ordered) && id in Loaded(ordered) && |Firsts(ordered, |ordered|, accepted, now, limit)| < limit
    ensures id in db.records
    ensures Eligible(db.records[id], accepted, now) ==> id in Firsts(ordered, |ordered|, accepted, now, limit)
  {
    FirstsAreEligible(ordered, |ordered|, accepted, now, limit);
    var e :| e in ordered && e.id == id;
    var j :| 0 <= j < |ordered| && ordered[j] == e;
  }

  /** What a claim that stays below its limit leaves behind is crowded out of the window. */
  lemma LeftBehind(db: Db, names: seq<string>, ordered: seq<Execution>, accepted: set<TaskKey>, now: Time, limit: nat, window: nat, id: Uuid)
    requires ExecutionsCoherent(db) && P.Current(db, ordered) && AllLoaded(db, names, now, Loaded(ordered), window)
    requires id in db.records && Eligible(db.records[id], accepted, now) && db.records[id].taskName in names
    requires |Firsts(ordered, |ordered|, accepted, now, limit)| < limit && id !in Firsts(ordered, |ordered|, accepted, now, limit)
    ensures CrowdedOut(db, accepted, now, Firsts(ordered, |ordered|, accepted, now, limit), window, id)
  {
    var name, picked := db.records[id].taskName, Firsts(ordered, |ordered|, accepted, now, limit);
    NothingHidden(db, id, now);
    if id in Loaded(ordered) {
      LoadedIsPicked(db, ordered, accepted, now, limit, id);
    }
    var head :| IsHead(db, name, now, Loaded(ordered), window, id, head);
    forall x | x in head
      ensures x in db.records && (x in picked || !Eligible(db.records[x], accepted, now))
    {
      LoadedIsPicked(db, ordered, accepted, now, limit, x);
    }
    assert IsCrowd(db, accepted, now, picked, window, id, head);
  }
}
