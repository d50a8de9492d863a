/** The scheduler: it polls its schedules and turns the instants that come due into executions. */
module Scheduler {
  import opened Model
  import opened Storage
  import opened Histories
  import opened Schedule
  import L = Listing
  import M = Memory

  // ---------------------------------------------------------------------------------------------
  // Firing

  /** Some execution of the named task is pending, retrying or running. */
  ghost predicate Busy(es: map<Uuid, Execution>, name: string) {
    exists id :: id in es && Working(es[id], name)
  }

  predicate Working(e: Execution, name: string) {
    (name != "" ==> e.taskName == name) && e.status.Active()
  }

  function Request(d: Definition, at: Time): CreateExecution {
    CreateExecution(d.task.name, d.task.version, d.input(at), d.maxAttempts, ZERO_TIME, TickRef(d.name, at), None, "")
  }

  /** Triggering one instant, unless the schedule skips and its task is active. */
  ghost function FireOne(s: Store, d: Definition, at: Time, newId: Uuid, now: Time): Store {
    if d.overlap.SkipActive? && Busy(s.executions, d.task.name) then s else CreateRecord(s, Request(d, at), newId, now)
  }

  /** Triggering instants in order; each has an id ready. */
  ghost function FireAll(s: Store, d: Definition, due: seq<Time>, newId: Uuid, now: Time): Store {
    if due == [] then s
    else FireOne(FireAll(s, d, due[..|due| - 1], newId, now), d, due[|due| - 1], newId + |due| - 1, now)
  }

  /** Ids from a number on are neither nil nor in use. */
  ghost predicate FreshFrom(s: Store, newId: Uuid) {
    0 < newId && forall id :: id in s.executions ==> id < newId
  }

  lemma {:induction false} FireAllKeepsFresh(s: Store, d: Definition, due: seq<Time>, newId: Uuid, now: Time)
    requires FreshFrom(s, newId)
    ensures FreshFrom(FireAll(s, d, due, newId, now), newId + |due|)
  {
    if due != [] {
      FireAllKeepsFresh(s, d, due[..|due| - 1], newId, now);
    }
  }

  lemma NextIsFresh(s: Store, d: Definition, due: seq<Time>, n: nat, newId: Uuid, now: Time)
    requires FreshFrom(s, newId) && n == |due| - 1
    ensures
      var mid := FireAll(s, d, due[..n], newId, now);
      newId + n !in mid.executions && FireAll(s, d, due, newId, now) == FireOne(mid, d, due[n], newId + n, now)
  {
    FireAllKeepsFresh(s, d, due[..n], newId, now);
  }

  /** The execution of one instant of a schedule, as it is created. */
  predicate FiredAt(e: Execution, d: Definition, at: Time, now: Time) {
    && e.taskName == d.task.name && e.taskVersion == d.task.version && e.input == d.input(at)
    && e.maxAttempts == (if d.maxAttempts <= 0 then 1 else d.maxAttempts)
    && e.idempotencyKey == TickRef(d.name, at) && e.runId.None?
    && e.status.Pending? && e.attempt == 0 && e.availableAt == now && e.createdAt == now
  }

  lemma FireOneAdds(s: Store, d: Definition, at: Time, newId: Uuid, now: Time, id: Uuid)
    requires newId !in s.executions
    ensures
      var s' := FireOne(s, d, at, newId, now);
      && (id in s.executions ==> id in s'.executions && s'.executions[id] == s.executions[id])
      && (id in s'.executions && id !in s.executions ==> id == newId && FiredAt(s'.executions[id], d, at, now))
  {
  }

  /** Triggering changes no execution, and every execution it adds is that of one of the instants, with
      the input the schedule makes of that instant. */
  lemma {:induction false} FireAllAdds(s: Store, d: Definition, due: seq<Time>, newId: Uuid, now: Time, id: Uuid)
    requires FreshFrom(s, newId)
    ensures
      var s' := FireAll(s, d, due, newId, now);
      && (id in s.executions ==> id in s'.executions && s'.executions[id] == s.executions[id])
      && (id in s'.executions && id !in s.executions ==>
            newId <= id < newId + |due| && FiredAt(s'.executions[id], d, due[id - newId], now))
  {
    if due != [] {
      var n := |due| - 1;
      FireAllAdds(s, d, due[..n], newId, now, id);
      NextIsFresh(s, d, due, n, newId, now);
      FireOneAdds(FireAll(s, d, due[..n], newId, now), d, due[n], newId + n, now, id);
    }
  }

  lemma FireMakesBusy(s: Store, d: Definition, at: Time, newId: Uuid, now: Time)
    requires FireOne(s, d, at, newId, now) != s && newId !in s.executions
    ensures Busy(FireOne(s, d, at, newId, now).executions, d.task.name)
    ensures |FireOne(s, d, at, newId, now).executions| == |s.executions| + 1
  {
    var s' := FireOne(s, d, at, newId, now);
    assert newId in s'.executions && Working(s'.executions[newId], d.task.name);
  }

  /** Nothing was started, or one execution while none was active. */
  ghost predicate OneAtMost(s: Store, s': Store, name: string) {
    s' == s || (!Busy(s.executions, name) && Busy(s'.executions, name) && |s'.executions| == |s.executions| + 1)
  }

  lemma FireOneAtMost(s: Store, mid: Store, d: Definition, at: Time, newId: Uuid, now: Time)
    requires d.overlap.SkipActive? && newId !in mid.executions
    ensures OneAtMost(s, mid, d.task.name) ==> OneAtMost(s, FireOne(mid, d, at, newId, now), d.task.name)
  {
    if FireOne(mid, d, at, newId, now) != mid {
      FireMakesBusy(mid, d, at, newId, now);
    }
  }

  lemma NextAtMost(s: Store, d: Definition, due: seq<Time>, n: nat, newId: Uuid, now: Time)
    requires d.overlap.SkipActive? && FreshFrom(s, newId) && n == |due| - 1
    ensures OneAtMost(s, FireAll(s, d, due[..n], newId, now), d.task.name) ==> OneAtMost(s, FireAll(s, d, due, newId, now), d.task.name)
  {
    NextIsFresh(s, d, due, n, newId, now);
    FireOneAtMost(s, FireAll(s, d, due[..n], newId, now), d, due[n], newId + n, now);
  }

  /** A schedule that skips while its task is active starts at most one execution, however many
      instants have come due, and none while one is active. */
  lemma {:induction false} SkipStartsAtMostOne(s: Store, d: Definition, due: seq<Time>, newId: Uuid, now: Time)
    requires d.overlap.SkipActive? && FreshFrom(s, newId)
    ensures OneAtMost(s, FireAll(s, d, due, newId, now), d.task.name)
  {
    if due != [] {
      var n := |due| - 1;
      SkipStartsAtMostOne(s, d, due[..n], newId, now);
      NextAtMost(s, d, due, n, newId, now);
    }
  }

  /** The execution of an instant. */
  predicate HasTick(s: Store, d: Definition, at: Time) {
    var k := (d.task.name, TickRef(d.name, at));
    k in s.idempotent && s.idempotent[k] in s.executions && s.executions[s.idempotent[k]].idempotencyKey == TickRef(d.name, at)
  }

  lemma FireKeepsTick(s: Store, d: Definition, at: Time, newId: Uuid, now: Time, t: Time)
    requires d.overlap.Allow? && d.task.name != "" && newId !in s.executions && IdemExact(s.executions, s.idempotent)
    ensures HasTick(s, d, t) || t == at ==> HasTick(FireOne(s, d, at, newId, now), d, t)
    ensures IdemExact(FireOne(s, d, at, newId, now).executions, FireOne(s, d, at, newId, now).idempotent)
  {
    var q := Request(d, at);
    if Existing(s, q).None? {
      InsertKeepsIdem(s.executions, s.idempotent, NewExecution(q, newId, now));
    }
  }

  /** A schedule that allows overlap leaves an execution for every instant that has come due. */
  lemma {:induction false} AllowStartsEvery(s: Store, d: Definition, due: seq<Time>, newId: Uuid, now: Time)
    requires d.overlap.Allow? && d.task.name != "" && FreshFrom(s, newId) && IdemExact(s.executions, s.idempotent)
    ensures
      var s' := FireAll(s, d, due, newId, now);
      IdemExact(s'.executions, s'.idempotent) && forall t :: t in due ==> HasTick(s', d, t)
  {
    if due != [] {
      var n := |due| - 1;
      AllowStartsEvery(s, d, due[..n], newId, now);
      NextIsFresh(s, d, due, n, newId, now);
      forall t | t in due
        ensures HasTick(FireAll(s, d, due, newId, now), d, t)
      {
        FireKeepsTick(FireAll(s, d, due[..n], newId, now), d, due[n], newId + n, now, t);
        assert t in due[..n] || t == due[n];
      }
      FireKeepsTick(FireAll(s, d, due[..n], newId, now), d, due[n], newId + n, now, due[n]);
    }
  }

  /** Any number of schedulers may observe an instant, at any times, among anything else that
      happens: in every reachable state there is at most one execution of it. */
  lemma OneExecutionPerInstant(ws: seq<World>, steps: seq<Step>, i: nat, d: Definition, at: Time, a: Uuid, b: Uuid)
    requires IsHistory(ws, steps) && i < |ws| && a in ws[i].store.executions && b in ws[i].store.executions
    requires IdemOf(ws[i].store.executions[a]) == (d.task.name, TickRef(d.name, at)) == IdemOf(ws[i].store.executions[b])
    ensures a == b
  {
    HistoryKeepsInv(ws, steps, i);
    UniqueKeys(ws[i].store, a, b);
  }

  // ---------------------------------------------------------------------------------------------
  // Polling

  /** The store and the next id. */
  type Stock = (Store, Uuid)

  ghost function Delivered(st: Stock, d: Definition, due: seq<Time>, now: Time): Stock {
    (FireAll(st.0, d, due, st.1, now), st.1 + |due|)
  }

  /** What a start does to the store, schedule by schedule. */
  ghost function Opened(st: Stock, ds: seq<Definition>, now: Time): Stock {
    if ds == [] then st else Delivered(Opened(st, ds[..|ds| - 1], now), ds[|ds| - 1], StartFires(ds[|ds| - 1], now), now)
  }

  /** What a poll does to the store, with the instants the schedules wait for. */
  ghost function Polled(st: Stock, ds: seq<Definition>, next: map<string, Time>, now: Time): Stock {
    if ds == [] then st
    else
      var d := ds[|ds| - 1];
      Delivered(Polled(st, ds[..|ds| - 1], next, now), d, Due(d, Waits(next, d), now), now)
  }

  /** A schedule that is not in the map waits for the zero time. */
  function Waits(next: map<string, Time>, d: Definition): Time {
    if d.name in next then next[d.name] else ZERO_TIME
  }

  /** The instants observed for one schedule. */
  function Of(observed: seq<(string, Time)>, name: string): seq<Time> {
    if observed == [] then []
    else
      var before, last := Of(observed[..|observed| - 1], name), observed[|observed| - 1];
      if last.0 == name then before + [last.1] else before
  }

  lemma OfOne(observed: seq<(string, Time)>, name: string, at: Time, other: string)
    ensures Of(observed + [(name, at)], other) == Of(observed, other) + (if name == other then [at] else [])
  {
    assert (observed + [(name, at)])[..|observed|] == observed;
  }

  /** Instants were observed for one schedule and for no other. */
  ghost predicate Observes(was: seq<(string, Time)>, observed: seq<(string, Time)>, name: string, due: seq<Time>) {
    forall other :: Of(observed, other) == Of(was, other) + (if other == name then due else [])
  }

  lemma ObservesNext(was: seq<(string, Time)>, observed: seq<(string, Time)>, name: string, due: seq<Time>, i: nat)
    requires i < |due| && Observes(was, observed, name, due[..i])
    ensures Observes(was, observed + [(name, due[i])], name, due[..i + 1])
  {
    assert due[..i + 1] == due[..i] + [due[i]];
    forall other
      ensures Of(observed + [(name, due[i])], other) == Of(was, other) + (if other == name then due[..i + 1] else [])
    {
      OfOne(observed, name, due[i], other);
    }
  }

  lemma ObservesNone(was: seq<(string, Time)>, name: string)
    ensures Observes(was, was, name, [])
  {
  }

  /** Where a poll stands after some of the schedules. */
  ghost predicate PolledUpTo(ds: seq<Definition>, n: nat, was: seq<(string, Time)>, observed: seq<(string, Time)>,
                             before: map<string, Time>, next: map<string, Time>, now: Time)
  {
    && (forall i :: 0 <= i < |ds| && i < n ==> PolledAt(ds[i], was, observed, before, next, now))
    && (forall i :: n <= i < |ds| ==> Waits(next, ds[i]) == Waits(before, ds[i]) && Of(observed, ds[i].name) == Of(was, ds[i].name))
  }

  predicate PolledAt(d: Definition, was: seq<(string, Time)>, observed: seq<(string, Time)>,
                     before: map<string, Time>, next: map<string, Time>, now: Time)
  {
    && Waits(next, d) == NextInstant(d, Waits(before, d), now)
    && Of(observed, d.name) == Of(was, d.name) + Due(d, Waits(before, d), now)
  }

  lemma PolledNext(ds: seq<Definition>, n: nat, was: seq<(string, Time)>, observed: seq<(string, Time)>, observed': seq<(string, Time)>,
                   before: map<string, Time>, next: map<string, Time>, next': map<string, Time>, now: Time)
    requires n < |ds| && forall i, j :: 0 <= i < j < |ds| ==> ds[i].name != ds[j].name
    requires PolledUpTo(ds, n, was, observed, before, next, now)
    requires Waits(next', ds[n]) == NextInstant(ds[n], Waits(next, ds[n]), now)
    requires Observes(observed, observed', ds[n].name, Due(ds[n], Waits(next, ds[n]), now))
    requires forall d: Definition :: d.name != ds[n].name ==> Waits(next', d) == Waits(next, d)
    ensures PolledUpTo(ds, n + 1, was, observed', before, next', now)
  {
    forall i | 0 <= i < n
      ensures PolledAt(ds[i], was, observed', before, next', now)
    {
      assert PolledAt(ds[i], was, observed, before, next, now) && ds[i].name != ds[n].name;
    }
  }

  /** Where a start stands after some of the schedules. */
  ghost predicate OpenedUpTo(ds: seq<Definition>, n: nat, was: seq<(string, Time)>, observed: seq<(string, Time)>,
                             next: map<string, Time>, now: Time)
  {
    && (forall i :: 0 <= i < |ds| && i < n ==> OpenedAt(ds[i], was, observed, next, now))
    && (forall i :: n <= i < |ds| ==> Of(observed, ds[i].name) == Of(was, ds[i].name))
  }

  predicate OpenedAt(d: Definition, was: seq<(string, Time)>, observed: seq<(string, Time)>, next: map<string, Time>, now: Time) {
    Waits(next, d) == d.cron(now) && Of(observed, d.name) == Of(was, d.name) + StartFires(d, now)
  }

  lemma OpenedNext(ds: seq<Definition>, n: nat, was: seq<(string, Time)>, observed: seq<(string, Time)>, observed': seq<(string, Time)>,
                   next: map<string, Time>, next': map<string, Time>, now: Time)
    requires n < |ds| && forall i, j :: 0 <= i < j < |ds| ==> ds[i].name != ds[j].name
    requires OpenedUpTo(ds, n, was, observed, next, now)
    requires next' == next[ds[n].name := ds[n].cron(now)] && Observes(observed, observed', ds[n].name, StartFires(ds[n], now))
    ensures OpenedUpTo(ds, n + 1, was, observed', next', now)
  {
    forall i | 0 <= i < n
      ensures OpenedAt(ds[i], was, observed', next', now)
    {
      assert OpenedAt(ds[i], was, observed, next, now) && ds[i].name != ds[n].name;
    }
  }

  /** The instants a start triggers, as its policy chooses them. */
  method DueAtStart(d: Definition, now: Time) returns (due: seq<Time>)
    ensures due == StartFires(d, now)
  {
    due := [];
    if d.lookback > 0 && d.misfire != Skip {
      due := Occurrences(d.cron, now - d.lookback, now, d.maxCatchUp);
      if d.misfire == Latest && |due| > 1 {
        due := due[|due| - 1..];
      }
    }
  }

  /** The instants a poll triggers, with `next` the instant waited for. */
  method DueSince(d: Definition, next: Time, now: Time) returns (due: seq<Time>)
    requires next <= now
    ensures due == Due(d, next, now)
  {
    due := Occurrences(d.cron, next - 1, now, d.maxCatchUp);
    if d.misfire == Latest && |due| > 1 {
      due := due[|due| - 1..];
    } else if d.misfire == Skip && |due| > 1 {
      due := due[|due| - 1..];
    }
  }

  /** `observed` are the instants reported to the observer, whether they led to an execution or
      not. */
  class CronScheduler {
    const store: M.MemoryStore
    const definitions: seq<Definition>
    var next: map<string, Time>
    var observed: seq<(string, Time)>
    var newId: Uuid

    ghost predicate Ready()
      reads this, store
    {
      store.Keyed() && FreshFrom(store.View(), newId)
    }

    ghost function Stocked(): Stock
      reads this, store
    {
      (store.View(), newId)
    }

    predicate DistinctNames() {
      forall i, j :: 0 <= i < j < |definitions| ==> definitions[i].name != definitions[j].name
    }

    constructor (store: M.MemoryStore, definitions: seq<Definition>, newId: Uuid)
      ensures this.store == store && this.definitions == definitions && this.newId == newId && next == map[] && observed == []
    {
      this.store, this.definitions, this.newId, next, observed := store, definitions, newId, map[], [];
    }

    /** Asks the store for one execution of that name in each active status. */
    method IsActive(name: string) returns (active: bool)
      requires store.Keyed()
      ensures active == Busy(store.executions, name)
    {
      var statuses := [Pending, Retry, Running];
      for i := 0 to |statuses|
        invariant forall id, j :: 0 <= j < i && id in store.executions && Working(store.executions[id], name) ==>
                    store.executions[id].status != statuses[j]
      {
        var items := store.ListExecutions(L.Filter(name, Some(statuses[i]), None, 1, None));
        if |items| > 0 {
          assert Working(store.executions[items[0].id], name);
          return true;
        }
        NoneListed(store.executions, name, statuses[i], items);
      }
      assert statuses[0] == Pending && statuses[1] == Retry && statuses[2] == Running;
      active := false;
    }

    method Fire(d: Definition, at: Time, now: Time)
      requires Ready()
      modifies this`observed, this`newId, store
      ensures Ready() && newId == old(newId) + 1 && observed == old(observed) + [(d.name, at)]
      ensures store.View() == FireOne(old(store.View()), d, at, old(newId), now)
      ensures forall id :: id in store.executions && id !in old(store.executions) ==>
                id == old(newId) && FiredAt(store.executions[id], d, at, now)
    {
      var id := newId;
      newId := newId + 1;
      observed := observed + [(d.name, at)];
      if d.overlap == SkipActive {
        var active := IsActive(d.task.name);
        if active {
          return;
        }
      }
      var created := store.CreateExecution(Request(d, at), id, now);
    }

    method FireEach(d: Definition, due: seq<Time>, now: Time)
      requires Ready()
      modifies this`observed, this`newId, store
      ensures Ready() && Stocked() == Delivered(old(Stocked()), d, due, now)
      ensures Observes(old(observed), observed, d.name, due)
    {
      ghost var was, st := observed, Stocked();
      ObservesNone(was, d.name);
      for i := 0 to |due|
        invariant Ready() && Stocked() == Delivered(st, d, due[..i], now)
        invariant Observes(was, observed, d.name, due[..i])
      {
        ObservesNext(was, observed, d.name, due, i);
        assert due[..i + 1][..i] == due[..i];
        Fire(d, due[i], now);
      }
      assert due[..|due|] == due;
    }

    method StartOne(d: Definition, now: Time)
      requires Ready()
      modifies this, store
      ensures Ready() && Stocked() == Delivered(old(Stocked()), d, StartFires(d, now), now) && next == old(next)[d.name := d.cron(now)]
      ensures Observes(old(observed), observed, d.name, StartFires(d, now))
    {
      var due := DueAtStart(d, now);
      FireEach(d, due, now);
      next := next[d.name := d.cron(now)];
    }

    method TickOne(d: Definition, now: Time)
      requires Ready()
      modifies this, store
      ensures Ready() && Stocked() == Delivered(old(Stocked()), d, Due(d, Waits(old(next), d), now), now)
      ensures Waits(next, d) == NextInstant(d, Waits(old(next), d), now)
      ensures forall other: Definition :: other.name != d.name ==> Waits(next, other) == Waits(old(next), other)
      ensures Observes(old(observed), observed, d.name, Due(d, Waits(old(next), d), now))
    {
      var n := if d.name in next then next[d.name] else ZERO_TIME;
      if now < n {
        ObservesNone(observed, d.name);
        return;
      }
      var due := DueSince(d, n, now);
      FireEach(d, due, now);
      next := next[d.name := d.cron(now)];
    }

    /** Looks back for every schedule as its policy says, and sets the instants to wait for. */
    method Initialize(now: Time)
      requires Ready() && DistinctNames()
      modifies this, store
      ensures Ready() && Stocked() == Opened(old(Stocked()), definitions, now)
      ensures forall i :: 0 <= i < |definitions| ==> OpenedAt(definitions[i], old(observed), observed, next, now)
    {
      ghost var was, st := observed, Stocked();
      for n := 0 to |definitions|
        invariant Ready() && Stocked() == Opened(st, definitions[..n], now)
        invariant OpenedUpTo(definitions, n, was, observed, next, now)
      {
        assert definitions[..n + 1][..n] == definitions[..n];
        ghost var observed', next' := observed, next;
        StartOne(definitions[n], now);
        OpenedNext(definitions, n, was, observed', observed, next', next, now);
      }
      assert definitions[..|definitions|] == definitions;
    }

    /** Triggers for every schedule what has come due since the last effective poll, as its policies
        say. */
    method Tick(now: Time)
      requires Ready() && DistinctNames()
      modifies this, store
      ensures Ready() && Stocked() == Polled(old(Stocked()), definitions, old(next), now)
      ensures forall i :: 0 <= i < |definitions| ==> PolledAt(definitions[i], old(observed), observed, old(next), next, now)
    {
      ghost var was, st, before := observed, Stocked(), next;
      for n := 0 to |definitions|
        invariant Ready() && Stocked() == Polled(st, definitions[..n], before, now)
        invariant PolledUpTo(definitions, n, was, observed, before, next, now)
      {
        assert definitions[..n + 1][..n] == definitions[..n];
        ghost var observed', next' := observed, next;
        TickOne(definitions[n], now);
        PolledNext(definitions, n, was, observed', observed, before, next', next, now);
      }
      assert definitions[..|definitions|] == definitions;
    }

    /** A start and the polls after it: for every schedule exactly the instants of such a life are
        triggered, and the schedule waits for the one after its last effective poll. */
    method Run(start: Time, polls: seq<Time>)
      requires Ready() && DistinctNames()
      modifies this, store
      ensures Ready()
      ensures forall i :: 0 <= i < |definitions| ==> LivedUpTo(definitions[i], old(observed), observed, next, start, polls)
    {
      ghost var was := observed;
      Initialize(start);
      for n := 0 to |polls|
        invariant Ready()
        invariant forall i :: 0 <= i < |definitions| ==> LivedUpTo(definitions[i], was, observed, next, start, polls[..n])
      {
        ghost var observed', next' := observed, next;
        Tick(polls[n]);
        forall i | 0 <= i < |definitions|
          ensures LivedUpTo(definitions[i], was, observed, next, start, polls[..n + 1])
        {
          LivedNext(definitions[i], was, observed', observed, next', next, start, polls, n);
        }
      }
      assert polls[..|polls|] == polls;
    }
  }

  /** A schedule has been observed to trigger its life up to some poll. */
  predicate LivedUpTo(d: Definition, was: seq<(string, Time)>, observed: seq<(string, Time)>, next: map<string, Time>,
                      start: Time, polls: seq<Time>)
  {
    Of(observed, d.name) == Of(was, d.name) + Life(d, start, polls) && Waits(next, d) == d.cron(LastPoll(d, start, polls))
  }

  lemma LivedNext(d: Definition, was: seq<(string, Time)>, observed: seq<(string, Time)>, observed': seq<(string, Time)>,
                  next: map<string, Time>, next': map<string, Time>, start: Time, polls: seq<Time>, n: nat)
    requires n < |polls| && LivedUpTo(d, was, observed, next, start, polls[..n])
    requires PolledAt(d, observed, observed', next, next', polls[n])
    ensures LivedUpTo(d, was, observed', next', start, polls[..n + 1])
  {
    assert polls[..n + 1][..n] == polls[..n];
  }

  lemma NoneListed(es: map<Uuid, Execution>, name: string, status: Status, items: seq<Execution>)
    requires L.IsPage(es, L.Filter(name, Some(status), None, 1, None), items) && items == []
    ensures forall id :: id in es && Working(es[id], name) ==> es[id].status != status
  {
    forall id | id in es && Working(es[id], name)
      ensures es[id].status != status
    {
      assert L.Matches(es[id], L.Filter(name, Some(status), None, 1, None)) ==> L.Full(L.Filter(name, Some(status), None, 1, None), 0);
    }
  }
}
