/** Cron schedules: which instants are triggered as time is polled. */
module Schedule {
  import opened Model

  /** The first instant of a schedule after a given time. */
  type Cron = Time -> Time

  ghost predicate IsCron(next: Cron) {
    && (forall t :: t < next(t))
    && (forall t, u :: t <= u < next(t) ==> next(u) == next(t))
  }

  datatype Misfire = Skip | Latest | CatchUp

  datatype Overlap = Allow | SkipActive

  /** A schedule of a task; the input is derived from the instant. */
  datatype Definition = Definition(
    name: string,
    cron: Cron,
    misfire: Misfire,
    overlap: Overlap,
    lookback: int,
    maxCatchUp: int,
    task: TaskKey,
    maxAttempts: int,
    input: Time -> Json)

  function Bound(limit: int): nat { if limit <= 0 then 100 else limit }

  /** An instant of the schedule. */
  predicate IsTick(next: Cron, t: Time) { next(t - 1) == t }

  /** All instants after one time and up to another, in order. */
  ghost function Ticks(next: Cron, after: Time, through: Time): seq<Time>
    requires IsCron(next)
    decreases if through < after then 0 else through - after
  {
    var t := next(after);
    if through < t then [] else [t] + Ticks(next, t, through)
  }

  function Prefix(ticks: seq<Time>, n: nat): seq<Time> {
    if |ticks| <= n then ticks else ticks[..n]
  }

  /** What a policy triggers of the instants that have come due. */
  function Chosen(misfire: Misfire, due: seq<Time>): seq<Time> {
    if !misfire.CatchUp? && |due| > 1 then due[|due| - 1..] else due
  }

  function Triggered(d: Definition, ticks: seq<Time>): seq<Time> {
    Chosen(d.misfire, Prefix(ticks, Bound(d.maxCatchUp)))
  }

  // ---------------------------------------------------------------------------------------------
  // The instants of a schedule

  lemma TickAfter(next: Cron, t: Time)
    requires IsCron(next)
    ensures IsTick(next, next(t)) && forall u :: t < u < next(t) ==> !IsTick(next, u)
  {
    var n := next(t);
    assert next(n - 1) == n;
    forall u | t < u < n
      ensures !IsTick(next, u)
    {
      assert next(u - 1) == n;
    }
  }

  /** The sequence holds exactly the instants in the window. */
  lemma {:induction false} TicksExact(next: Cron, after: Time, through: Time, t: Time)
    requires IsCron(next)
    ensures t in Ticks(next, after, through) <==> after < t <= through && IsTick(next, t)
    decreases if through < after then 0 else through - after
  {
    var n := next(after);
    TickAfter(next, after);
    if n <= through {
      TicksExact(next, n, through, t);
    }
  }

  ghost predicate Ascending(ts: seq<Time>, after: Time, through: Time) {
    && (forall i :: 0 <= i < |ts| ==> after < ts[i] <= through)
    && (forall i, j :: 0 <= i < j < |ts| ==> ts[i] < ts[j])
  }

  lemma AscendingCons(t: Time, rest: seq<Time>, after: Time, through: Time)
    requires after < t <= through && Ascending(rest, t, through)
    ensures Ascending([t] + rest, after, through)
  {
  }

  lemma {:induction false} TicksIncrease(next: Cron, after: Time, through: Time)
    requires IsCron(next)
    ensures Ascending(Ticks(next, after, through), after, through)
    decreases if through < after then 0 else through - after
  {
    var t := next(after);
    if t <= through {
      TicksIncrease(next, t, through);
      AscendingCons(t, Ticks(next, t, through), after, through);
    }
  }

  /** Windows that meet cover their union, each instant once. */
  lemma {:induction false} TicksJoin(next: Cron, a: Time, b: Time, c: Time)
    requires IsCron(next) && a <= b <= c
    ensures Ticks(next, a, c) == Ticks(next, a, b) + Ticks(next, b, c)
    decreases b - a
  {
    var n := next(a);
    if n <= b {
      TicksJoin(next, n, b, c);
    } else {
      assert next(b) == n;
    }
  }

  // ---------------------------------------------------------------------------------------------
  // What comes due

  /** Following a schedule from one time up to another, for at most n instants. */
  function Iterate(next: Cron, after: Time, through: Time, n: nat): seq<Time>
    decreases n
  {
    if n == 0 || through < next(after) then [] else [next(after)] + Iterate(next, next(after), through, n - 1)
  }

  /** The earliest instants of a window, up to the limit. */
  method Occurrences(schedule: Cron, after: Time, through: Time, limit: int) returns (result: seq<Time>)
    ensures result == Iterate(schedule, after, through, if limit <= 0 then 100 else limit)
  {
    var max := if limit <= 0 then 100 else limit;
    result := [];
    var next := schedule(after);
    ghost var reached := after;
    while next <= through && |result| < max
      invariant |result| <= max && next == schedule(reached)
      invariant result + Iterate(schedule, reached, through, max - |result|) == Iterate(schedule, after, through, max)
      decreases max - |result|
    {
      reached := next;
      result := result + [next];
      next := schedule(next);
    }
  }

  lemma {:induction false} IterateIsPrefix(next: Cron, after: Time, through: Time, n: nat)
    requires IsCron(next)
    ensures Iterate(next, after, through, n) == Prefix(Ticks(next, after, through), n)
    decreases n
  {
    if n > 0 && next(after) <= through {
      IterateIsPrefix(next, next(after), through, n - 1);
      PrefixCons(next(after), Ticks(next, next(after), through), n);
    }
  }

  lemma PrefixCons(t: Time, rest: seq<Time>, n: nat)
    requires n > 0
    ensures Prefix([t] + rest, n) == [t] + Prefix(rest, n - 1)
  {
  }

  /** A schedule that has no later instant answers with the zero time. It is always due, and the
      zero time is triggered as often as the limit allows. */
  lemma {:induction false} NoLaterInstant(next: Cron, after: Time, through: Time, n: nat)
    requires (forall t :: next(t) == ZERO_TIME) && ZERO_TIME <= through
    ensures Iterate(next, after, through, n) == seq(n, _ => ZERO_TIME)
    decreases n
  {
    if n > 0 {
      NoLaterInstant(next, ZERO_TIME, through, n - 1);
    }
  }

  /** What a poll triggers, with `next` the instant waited for. */
  function Due(d: Definition, next: Time, now: Time): seq<Time> {
    if now < next then [] else Chosen(d.misfire, Iterate(d.cron, next - 1, now, Bound(d.maxCatchUp)))
  }

  /** The instant waited for after a poll. */
  function NextInstant(d: Definition, next: Time, now: Time): Time {
    if now < next then next else d.cron(now)
  }

  /** What a start triggers of the instants missed before it. */
  function StartFires(d: Definition, now: Time): seq<Time> {
    if d.lookback > 0 && !d.misfire.Skip? then Chosen(d.misfire, Iterate(d.cron, now - d.lookback, now, Bound(d.maxCatchUp))) else []
  }

  lemma StartIsTicks(d: Definition, now: Time)
    requires IsCron(d.cron) && d.lookback > 0 && !d.misfire.Skip?
    ensures StartFires(d, now) == Triggered(d, Ticks(d.cron, now - d.lookback, now))
  {
    IterateIsPrefix(d.cron, now - d.lookback, now, Bound(d.maxCatchUp));
  }

  /** What a poll triggers, when the previous effective poll was at `last`. */
  function PollFires(d: Definition, last: Time, now: Time): seq<Time> {
    Due(d, d.cron(last), now)
  }

  /** A poll before the next instant changes nothing. */
  function AfterPoll(d: Definition, last: Time, now: Time): Time {
    if now < d.cron(last) then last else now
  }

  lemma FromNext(next: Cron, last: Time, now: Time)
    requires IsCron(next) && next(last) <= now
    ensures Ticks(next, next(last) - 1, now) == Ticks(next, last, now)
  {
    assert next(next(last) - 1) == next(last);
  }

  lemma PollIsTicks(d: Definition, last: Time, now: Time)
    requires IsCron(d.cron)
    ensures PollFires(d, last, now) == if now < d.cron(last) then [] else Triggered(d, Ticks(d.cron, last, now))
    ensures now < d.cron(last) ==> Ticks(d.cron, last, now) == []
  {
    if d.cron(last) <= now {
      FromNext(d.cron, last, now);
      IterateIsPrefix(d.cron, d.cron(last) - 1, now, Bound(d.maxCatchUp));
    }
  }

  // ---------------------------------------------------------------------------------------------
  // Whole runs

  function LastPoll(d: Definition, start: Time, polls: seq<Time>): Time {
    if polls == [] then start else AfterPoll(d, LastPoll(d, start, polls[..|polls| - 1]), polls[|polls| - 1])
  }

  /** Everything triggered by a sequence of polls. */
  function Fired(d: Definition, start: Time, polls: seq<Time>): seq<Time> {
    if polls == [] then []
    else
      var n := |polls| - 1;
      Fired(d, start, polls[..n]) + PollFires(d, LastPoll(d, start, polls[..n]), polls[n])
  }

  /** The instants that came due at the i-th poll. */
  ghost function Window(d: Definition, start: Time, polls: seq<Time>, i: nat): seq<Time>
    requires IsCron(d.cron) && i < |polls|
  {
    Ticks(d.cron, LastPoll(d, start, polls[..i]), polls[i])
  }

  ghost predicate WindowsFit(d: Definition, start: Time, polls: seq<Time>)
    requires IsCron(d.cron)
  {
    forall i :: 0 <= i < |polls| ==> |Window(d, start, polls, i)| <= Bound(d.maxCatchUp)
  }

  lemma PollAscends(d: Definition, last: Time, now: Time)
    requires IsCron(d.cron)
    ensures last <= AfterPoll(d, last, now)
    ensures Ascending(PollFires(d, last, now), last, AfterPoll(d, last, now))
    ensures forall t :: t in PollFires(d, last, now) ==> IsTick(d.cron, t)
  {
    PollIsTicks(d, last, now);
    TicksIncrease(d.cron, last, now);
    forall t | t in PollFires(d, last, now)
      ensures IsTick(d.cron, t)
    {
      TicksExact(d.cron, last, now, t);
    }
  }

  /** Whatever the policy, the limits and the clock, no instant is triggered twice, they are
      triggered in order, and each is an instant of the schedule after the start. */
  lemma {:induction false} FiredOnceInOrder(d: Definition, start: Time, polls: seq<Time>)
    requires IsCron(d.cron)
    ensures start <= LastPoll(d, start, polls) && Ascending(Fired(d, start, polls), start, LastPoll(d, start, polls))
    ensures forall t :: t in Fired(d, start, polls) ==> IsTick(d.cron, t)
  {
    if polls != [] {
      var n := |polls| - 1;
      FiredOnceInOrder(d, start, polls[..n]);
      PollAscends(d, LastPoll(d, start, polls[..n]), polls[n]);
    }
  }

  lemma WindowInPrefix(d: Definition, start: Time, polls: seq<Time>, i: nat)
    requires IsCron(d.cron) && i < |polls| - 1
    ensures Window(d, start, polls[..|polls| - 1], i) == Window(d, start, polls, i)
  {
    assert polls[..|polls| - 1][..i] == polls[..i];
  }

  lemma FitsPrefix(d: Definition, start: Time, polls: seq<Time>)
    requires IsCron(d.cron) && polls != []
    ensures
      var n := |polls| - 1;
      WindowsFit(d, start, polls) <==> WindowsFit(d, start, polls[..n]) && |Window(d, start, polls, n)| <= Bound(d.maxCatchUp)
  {
    var n := |polls| - 1;
    forall i | 0 <= i < n
      ensures Window(d, start, polls[..n], i) == Window(d, start, polls, i)
    {
      WindowInPrefix(d, start, polls, i);
    }
    if WindowsFit(d, start, polls[..n]) && |Window(d, start, polls, n)| <= Bound(d.maxCatchUp) {
      forall i | 0 <= i < |polls|
        ensures |Window(d, start, polls, i)| <= Bound(d.maxCatchUp)
      {
        if i < n {
          assert |Window(d, start, polls[..n], i)| <= Bound(d.maxCatchUp);
        }
      }
    }
  }

  lemma PollCounts(d: Definition, last: Time, now: Time)
    requires IsCron(d.cron) && d.misfire.CatchUp?
    ensures
      var ticks := Ticks(d.cron, last, now);
      && |PollFires(d, last, now)| <= |ticks|
      && (|PollFires(d, last, now)| == |ticks| <==> |ticks| <= Bound(d.maxCatchUp))
      && (|ticks| <= Bound(d.maxCatchUp) ==> PollFires(d, last, now) == ticks)
      && (now < d.cron(last) ==> ticks == [])
  {
    PollIsTicks(d, last, now);
  }

  lemma {:induction false} CaughtUp(d: Definition, start: Time, polls: seq<Time>)
    requires IsCron(d.cron) && d.misfire.CatchUp?
    ensures
      var all := Ticks(d.cron, start, LastPoll(d, start, polls));
      && |Fired(d, start, polls)| <= |all|
      && (|Fired(d, start, polls)| == |all| <==> WindowsFit(d, start, polls))
      && (WindowsFit(d, start, polls) ==> Fired(d, start, polls) == all)
  {
    if polls == [] {
      PollIsTicks(d, start, start);
    } else {
      var n := |polls| - 1;
      var mid := LastPoll(d, start, polls[..n]);
      CaughtUp(d, start, polls[..n]);
      FiredOnceInOrder(d, start, polls[..n]);
      FitsPrefix(d, start, polls);
      PollCounts(d, mid, polls[n]);
      if d.cron(mid) <= polls[n] {
        TicksJoin(d.cron, start, mid, polls[n]);
      }
    }
  }

  /** Catching up triggers every instant since the start, exactly once and in order, if and only if no
      two effective polls are so far apart that more instants lie between them than the limit
      allows. */
  lemma CatchUpIsCompleteExactly(d: Definition, start: Time, polls: seq<Time>)
    requires IsCron(d.cron) && d.misfire.CatchUp?
    ensures Fired(d, start, polls) == Ticks(d.cron, start, LastPoll(d, start, polls)) <==> WindowsFit(d, start, polls)
  {
    CaughtUp(d, start, polls);
  }

  /** Everything triggered since a start at `start`, with the instants looked back for first. */
  function Life(d: Definition, start: Time, polls: seq<Time>): seq<Time> {
    StartFires(d, start) + Fired(d, start, polls)
  }

  function Origin(d: Definition, start: Time): Time { if d.lookback > 0 then start - d.lookback else start }

  /** Looking back and polling never overlap: over a whole run every instant is triggered at most
      once, in order. */
  lemma LifeOnceInOrder(d: Definition, start: Time, polls: seq<Time>)
    requires IsCron(d.cron)
    ensures Ascending(Life(d, start, polls), Origin(d, start), LastPoll(d, start, polls))
    ensures forall t :: t in Life(d, start, polls) ==> IsTick(d.cron, t)
  {
    FiredOnceInOrder(d, start, polls);
    StartAscends(d, start);
    AscendingJoin(StartFires(d, start), Fired(d, start, polls), Origin(d, start), start, LastPoll(d, start, polls));
  }

  lemma StartAscends(d: Definition, start: Time)
    requires IsCron(d.cron)
    ensures Ascending(StartFires(d, start), Origin(d, start), start)
    ensures forall t :: t in StartFires(d, start) ==> IsTick(d.cron, t)
  {
    TicksIncrease(d.cron, Origin(d, start), start);
    if d.lookback > 0 && !d.misfire.Skip? {
      StartIsTicks(d, start);
    }
    forall t | t in StartFires(d, start)
      ensures IsTick(d.cron, t)
    {
      TicksExact(d.cron, Origin(d, start), start, t);
    }
  }

  lemma AscendingJoin(a: seq<Time>, b: seq<Time>, lo: Time, mid: Time, hi: Time)
    requires lo <= mid <= hi && Ascending(a, lo, mid) && Ascending(b, mid, hi)
    ensures Ascending(a + b, lo, hi)
  {
  }

  /** And with catching up they are all the instants since the beginning of the lookback exactly when
      no window, nor the lookback, holds more of them than the limit. */
  lemma LifeIsCompleteExactly(d: Definition, start: Time, polls: seq<Time>)
    requires IsCron(d.cron) && d.misfire.CatchUp? && d.lookback > 0
    ensures Life(d, start, polls) == Ticks(d.cron, start - d.lookback, LastPoll(d, start, polls)) <==>
            |Ticks(d.cron, start - d.lookback, start)| <= Bound(d.maxCatchUp) && WindowsFit(d, start, polls)
  {
    FiredOnceInOrder(d, start, polls);
    CaughtUp(d, start, polls);
    StartCounts(d, start);
    TicksJoin(d.cron, start - d.lookback, start, LastPoll(d, start, polls));
    JoinExactly(StartFires(d, start), Fired(d, start, polls),
                Ticks(d.cron, start - d.lookback, start), Ticks(d.cron, start, LastPoll(d, start, polls)));
  }

  lemma StartCounts(d: Definition, start: Time)
    requires IsCron(d.cron) && d.misfire.CatchUp? && d.lookback > 0
    ensures
      var ticks := Ticks(d.cron, start - d.lookback, start);
      && |StartFires(d, start)| <= |ticks|
      && (|StartFires(d, start)| == |ticks| <==> |ticks| <= Bound(d.maxCatchUp))
      && (|ticks| <= Bound(d.maxCatchUp) ==> StartFires(d, start) == ticks)
  {
    StartIsTicks(d, start);
  }

  /** Two parts, each no longer than its whole, make the two wholes exactly when each is its whole. */
  lemma JoinExactly(a: seq<Time>, b: seq<Time>, a': seq<Time>, b': seq<Time>)
    requires |a| <= |a'| && |b| <= |b'| && (|a| == |a'| ==> a == a') && (|b| == |b'| ==> b == b')
    ensures a + b == a' + b' <==> |a| == |a'| && |b| == |b'|
  {
  }

  /** Choosing the latest of what the limit lets through chooses the latest of all exactly when
      everything fits the limit: the limit keeps the earliest. */
  lemma LatestOfPrefix(ticks: seq<Time>, after: Time, through: Time, limit: nat, misfire: Misfire)
    requires ticks != [] && Ascending(ticks, after, through) && limit > 0 && !misfire.CatchUp?
    ensures
      var chosen := Chosen(misfire, Prefix(ticks, limit));
      |chosen| == 1 && (chosen[0] == ticks[|ticks| - 1] <==> |ticks| <= limit)
  {
  }

  /** The policies other than catching up trigger one instant per poll that finds any due, and it is
      the latest one if and only if no more have come due than the limit. */
  lemma LatestIsLatestExactly(d: Definition, last: Time, now: Time)
    requires IsCron(d.cron) && !d.misfire.CatchUp? && d.cron(last) <= now
    ensures
      var ticks := Ticks(d.cron, last, now);
      && ticks != [] && |PollFires(d, last, now)| == 1
      && (PollFires(d, last, now)[0] == ticks[|ticks| - 1] <==> |ticks| <= Bound(d.maxCatchUp))
  {
    TicksIncrease(d.cron, last, now);
    PollIsTicks(d, last, now);
    LatestOfPrefix(Ticks(d.cron, last, now), last, now, Bound(d.maxCatchUp), d.misfire);
  }

  /** A start promises the latest instant within the lookback. It triggers one instant if there is
      any, and it is the latest one if and only if the lookback holds no more than the limit. */
  lemma LookbackIsLatestExactly(d: Definition, start: Time)
    requires IsCron(d.cron) && d.misfire.Latest? && d.lookback > 0
    ensures
      var ticks := Ticks(d.cron, start - d.lookback, start);
      if ticks == [] then StartFires(d, start) == []
      else
        && |StartFires(d, start)| == 1
        && (StartFires(d, start)[0] == ticks[|ticks| - 1] <==> |ticks| <= Bound(d.maxCatchUp))
  {
    var ticks := Ticks(d.cron, start - d.lookback, start);
    TicksIncrease(d.cron, start - d.lookback, start);
    StartIsTicks(d, start);
    if ticks != [] {
      LatestOfPrefix(ticks, start - d.lookback, start, Bound(d.maxCatchUp), d.misfire);
    }
  }

  /** Concretely: with a limit of one and a lookback that holds two instants, a start triggers the
      first of them. */
  lemma LookbackCanBeStale()
    ensures
      var d := Definition("s", t => t + 1, Latest, Allow, 2, 1, TaskKey("t", 1), 1, t => "");
      IsCron(d.cron) && Ticks(d.cron, 2 - d.lookback, 2) == [1, 2] && StartFires(d, 2) == [1]
  {
    var next: Cron := t => t + 1;
    assert IsCron(next);
    assert Ticks(next, 2, 2) == [];
    assert Ticks(next, 1, 2) == [2] + Ticks(next, 2, 2);
    assert Ticks(next, 0, 2) == [1] + Ticks(next, 1, 2);
    assert Iterate(next, 0, 2, 1) == [1];
  }
}
