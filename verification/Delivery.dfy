/** Which executions a claim delivers and which a reap fails. */
module Delivery {
  import opened Model
  import opened Records
  import opened Storage
  import opened Sorting

  predicate Eligible(e: Execution, accepted: set<TaskKey>, now: Time) {
    TaskKey(e.taskName, e.taskVersion) in accepted && Claimable(e, now)
  }

  /** Delivery order: by availability, then by age. */
  predicate Sooner(a: Execution, b: Execution) {
    a.availableAt < b.availableAt || (a.availableAt == b.availableAt && a.createdAt <= b.createdAt)
  }

  lemma SoonerIsPreorder()
    ensures Preorder(Sooner)
  {
  }

  /** The executions a claim may deliver, in order: the soonest eligible ones up to the limit. Ties
      in the order are broken arbitrarily. */
  ghost predicate IsPick(es: Table, accepted: set<TaskKey>, now: Time, limit: nat, picked: seq<Uuid>) {
    && Distinct(picked)
    && (forall i :: 0 <= i < |picked| ==> picked[i] in es && Eligible(es[picked[i]], accepted, now))
    && |picked| <= limit
    && (forall i, j :: 0 <= i < j < |picked| ==> Sooner(es[picked[i]], es[picked[j]]))
    && (forall id :: id in es && Eligible(es[id], accepted, now) && id !in picked ==>
          |picked| == limit && forall i :: 0 <= i < |picked| ==> Sooner(es[picked[i]], es[id]))
  }

  function Rank(e: Execution): (Time, Time) { (e.availableAt, e.createdAt) }

  /** If one pick's i-th execution is strictly sooner than another's, the other overlooked one. */
  lemma NoneOverlooked(es: Table, accepted: set<TaskKey>, now: Time, limit: nat, p: seq<Uuid>, q: seq<Uuid>, i: nat)
    requires IsPick(es, accepted, now, limit, p) && IsPick(es, accepted, now, limit, q)
    requires i < |p| && i < |q|
    ensures Sooner(es[q[i]], es[p[i]])
  {
    DistinctSize(p[..i + 1]);
    DistinctSize(q[..i]);
    var x := NotSubset(Elements(p[..i + 1]), Elements(q[..i]));
    var a :| 0 <= a < i + 1 && p[a] == x;
    if x in q {
      var b :| 0 <= b < |q| && q[b] == x;
    }
  }

  lemma SameLength(es: Table, accepted: set<TaskKey>, now: Time, limit: nat, p: seq<Uuid>, q: seq<Uuid>)
    requires IsPick(es, accepted, now, limit, p) && IsPick(es, accepted, now, limit, q)
    ensures |p| <= |q|
  {
    if |p| > |q| {
      DistinctSize(p);
      DistinctSize(q);
      var x := NotSubset(Elements(p), Elements(q));
    }
  }

  /** A claim is determined up to ties: any two picks have the same length and the same availability
      and age at each place; without ties they are the same. */
  lemma PickIsUnique(es: Table, accepted: set<TaskKey>, now: Time, limit: nat, p: seq<Uuid>, q: seq<Uuid>)
    requires IsPick(es, accepted, now, limit, p) && IsPick(es, accepted, now, limit, q)
    ensures |p| == |q|
    ensures forall i :: 0 <= i < |p| ==> Rank(es[p[i]]) == Rank(es[q[i]])
    ensures (forall a, b :: a in es && b in es && Rank(es[a]) == Rank(es[b]) ==> a == b) ==> p == q
  {
    SameLength(es, accepted, now, limit, p, q);
    SameLength(es, accepted, now, limit, q, p);
    forall i | 0 <= i < |p|
      ensures Rank(es[p[i]]) == Rank(es[q[i]])
    {
      NoneOverlooked(es, accepted, now, limit, p, q, i);
      NoneOverlooked(es, accepted, now, limit, q, p, i);
    }
  }

  /** Each execution of a pick can be delivered and is the soonest of those that can and are not picked
      before it, by available time and then by age; and nothing is left while the limit is not reached. */
  lemma PickIsSoonest(es: Table, accepted: set<TaskKey>, now: Time, limit: nat, picked: seq<Uuid>, i: nat, id: Uuid)
    requires IsPick(es, accepted, now, limit, picked) && id in es
    requires TaskKey(es[id].taskName, es[id].taskVersion) in accepted && es[id].availableAt <= now && es[id].attempt < es[id].maxAttempts
    requires es[id].status in {Pending, Retry} || (es[id].status == Running && es[id].leaseUntil <= now)
    ensures |picked| < limit ==> id in picked
    ensures i < |picked| && id !in picked[..i] ==>
              && picked[i] in es
              && var e := es[picked[i]];
                 && TaskKey(e.taskName, e.taskVersion) in accepted && e.availableAt <= now && e.attempt < e.maxAttempts
                 && (e.status in {Pending, Retry} || (e.status == Running && e.leaseUntil <= now))
                 && (e.availableAt < es[id].availableAt || (e.availableAt == es[id].availableAt && e.createdAt <= es[id].createdAt))
  {
    assert Eligible(es[id], accepted, now);
    if i < |picked| && id !in picked[..i] && id in picked {
      assert picked == picked[..i] + picked[i..];
      assert id in picked[i..];
    }
  }

  // ---------------------------------------------------------------------------------------------
  // What is done to them

  /** Starting the picked executions one after the other. */
  function ClaimAll(s: Store, picked: seq<Uuid>, owner: string, tokens: seq<Uuid>, lease: int, now: Time): Store
    requires |picked| <= |tokens|
  {
    if picked == [] then s
    else
      var n := |picked| - 1;
      TouchRecord(ClaimAll(s, picked[..n], owner, tokens, lease, now), picked[n], Start(owner, tokens[n], lease), now)
  }

  lemma StartOne(s: Store, id: Uuid, owner: string, token: Uuid, lease: int, now: Time)
    requires id in s.executions && s.executions[id].id == id && Claimable(s.executions[id], now)
    ensures TouchRecord(s, id, Start(owner, token, lease), now).executions ==
            s.executions[id := Started(s.executions[id], owner, token, now, lease)]
  {
  }

  /** What a claim makes of an execution for the worker it goes to. */
  predicate HandedTo(e: Execution, e': Execution, owner: string, token: Uuid, lease: int, now: Time) {
    e' == e.(status := Running, attempt := e.attempt + 1, leaseOwner := owner, leaseToken := token, leaseUntil := now + lease,
             startedAt := Some(if e.startedAt.Some? then e.startedAt.value else now))
  }

  lemma {:induction false} ClaimedRecords(s: Store, picked: seq<Uuid>, owner: string, tokens: seq<Uuid>, lease: int, now: Time)
    requires |picked| <= |tokens| && Distinct(picked)
    requires forall i :: 0 <= i < |picked| ==>
               picked[i] in s.executions && s.executions[picked[i]].id == picked[i] && Claimable(s.executions[picked[i]], now)
    ensures
      var s' := ClaimAll(s, picked, owner, tokens, lease, now);
      && s'.executions.Keys == s.executions.Keys
      && (forall id :: id in s.executions && id !in picked ==> s'.executions[id] == s.executions[id])
      && (forall i :: 0 <= i < |picked| ==>
            HandedTo(s.executions[picked[i]], s'.executions[picked[i]], owner, tokens[i], lease, now))
  {
    if picked != [] {
      var n := |picked| - 1;
      ClaimedRecords(s, picked[..n], owner, tokens, lease, now);
      assert picked[n] !in picked[..n];
      var s1 := ClaimAll(s, picked[..n], owner, tokens, lease, now);
      assert s1.executions[picked[n]] == s.executions[picked[n]];
      StartOne(s1, picked[n], owner, tokens[n], lease, now);
    }
  }

  function Reaped(e: Execution, now: Time): Execution {
    Finished(e, Failed, REAPED, now)
  }

  /** Failing the given executions. */
  function ReapAll(s: Store, dead: set<Uuid>, now: Time): Store {
    s.(executions := map id | id in s.executions :: if id in dead then Reaped(s.executions[id], now) else s.executions[id],
       events := map id | id in s.events :: if id in dead && id in s.executions
                   then s.events[id] + [Event(EventFailed, s.executions[id].attempt, REAPED, now)] else s.events[id])
  }

  /** The executions a reap fails: every expired delivery that has no attempt left. */
  function DeadDeliveries(s: Store, now: Time): set<Uuid> {
    set id | id in s.executions && Reapable(s.executions[id], now)
  }

  /** A reap fails exactly the deliveries whose lease has expired on their last attempt. */
  lemma ReapMeans(s: Store, now: Time, id: Uuid)
    requires id in s.executions
    ensures
      var e, s' := s.executions[id], ReapAll(s, DeadDeliveries(s, now), now);
      && id in s'.executions
      && s'.executions[id] ==
         if e.status.Running? && e.leaseUntil <= now && e.maxAttempts <= e.attempt then
           e.(status := Failed, lastError := "lease expired after maximum attempts", finishedAt := Some(now),
              leaseOwner := "", leaseToken := NIL, leaseUntil := ZERO_TIME)
         else e
  {
  }

  lemma ReapOneMore(s: Store, dead: set<Uuid>, id: Uuid, now: Time)
    requires s.events.Keys == s.executions.Keys && forall x :: x in s.executions ==> s.executions[x].id == x
    requires id in s.executions && id !in dead && Reapable(s.executions[id], now)
    ensures TouchRecord(ReapAll(s, dead, now), id, Reap, now) == ReapAll(s, dead + {id}, now)
  {
    var s1, s2 := ReapAll(s, dead, now), ReapAll(s, dead + {id}, now);
    var e := s.executions[id];
    assert s1.executions[id] == e && LogOf(s1, id) == s.events[id];
    var event := Event(EventFailed, e.attempt, REAPED, now);
    assert Apply(e, Reap, now) == Done(Reaped(e, now), Some(event));
    assert s1.executions[id := Reaped(e, now)] == s2.executions;
    assert s1.events[id := s.events[id] + [event]] == s2.events;
  }
}
