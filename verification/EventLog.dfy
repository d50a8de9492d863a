/** An execution's event log is a word of a fixed language, and the word decides the record's
    status and attempt number. */
module EventLog {
  import opened Model

  /** What the log so far says about the record. */
  datatype Phase =
    | Empty
    | Waiting
    | Retrying(attempt: nat)
    | InFlight(attempt: nat)
    | Ended(status: Status, attempt: nat)
    | Ill

  /** One letter of the language. A reclaimed delivery logs a second Started with nothing between;
      a blocked node can be restarted again with nothing between. */
  function Advance(p: Phase, kind: EventType): Phase {
    match kind
    case EventCreated => if p.Empty? then Waiting else Ill
    case EventStarted =>
      (match p
       case Waiting => InFlight(1)
       case Retrying(n) => InFlight(n + 1)
       case InFlight(n) => InFlight(n + 1)
       case _ => Ill)
    case EventRetried => if p.InFlight? then Retrying(p.attempt) else Ill
    case EventSucceeded => if p.InFlight? then Ended(Succeeded, p.attempt) else Ill
    case EventFailed => if p.InFlight? then Ended(Failed, p.attempt) else Ill
    case EventCancelled =>
      (match p
       case Waiting => Ended(Cancelled, 0)
       case Retrying(n) => Ended(Cancelled, n)
       case InFlight(n) => Ended(Cancelled, n)
       case _ => Ill)
    case EventRestarted => if p.Ended? || p.Waiting? then Waiting else Ill
  }

  function Replay(log: seq<Event>): Phase {
    if log == [] then Empty else Advance(Replay(log[..|log| - 1]), log[|log| - 1].kind)
  }

  predicate Opens(kind: EventType) { kind.EventCreated? || kind.EventRestarted? }

  predicate Ends(kind: EventType) { kind.EventSucceeded? || kind.EventFailed? || kind.EventCancelled? }

  /** Deliveries counted back to the last Created or Restarted event. */
  function StartedSinceOpening(log: seq<Event>): nat {
    if log == [] || Opens(log[|log| - 1].kind) then 0
    else StartedSinceOpening(log[..|log| - 1]) + (if log[|log| - 1].kind.EventStarted? then 1 else 0)
  }

  function PhaseAttempt(p: Phase): nat {
    match p
    case Retrying(n) => n
    case InFlight(n) => n
    case Ended(_, n) => n
    case _ => 0
  }

  /** The record is the one its log describes. */
  predicate Describes(log: seq<Event>, e: Execution) {
    var p := Replay(log);
    && (match e.status
        case Pending => p.Waiting?
        case Blocked => p.Waiting? && log[|log| - 1].kind.EventRestarted?
        case Retry => p.Retrying?
        case Running => p.InFlight?
        case _ => p.Ended? && p.status == e.status)
    && e.attempt == PhaseAttempt(p)
  }

  lemma ReplayAppend(log: seq<Event>, ev: Event)
    ensures Replay(log + [ev]) == Advance(Replay(log), ev.kind)
  {
    assert (log + [ev])[..|log|] == log;
  }

  lemma IllStays(log: seq<Event>, more: seq<Event>)
    requires Replay(log + more) != Ill
    ensures Replay(log) != Ill
  {
    if more == [] {
      assert log + more == log;
    } else {
      var m := |more| - 1;
      assert (log + more)[..|log + more| - 1] == log + more[..m];
      IllStays(log, more[..m]);
    }
  }

  /** The attempt number is the number of deliveries since the last Created or Restarted. */
  lemma {:induction false} AttemptCountsDeliveries(log: seq<Event>)
    requires Replay(log) != Ill
    ensures PhaseAttempt(Replay(log)) == StartedSinceOpening(log)
  {
    if log != [] {
      var init := log[..|log| - 1];
      assert Replay(init) != Ill;
      AttemptCountsDeliveries(init);
    }
  }

  lemma {:induction false} PhaseShape(log: seq<Event>)
    ensures Replay(log).Empty? <==> log == []
  {
  }

  /** Every prefix of a word of the language is read one letter at a time. */
  lemma PrefixReplay(log: seq<Event>, i: nat)
    requires Replay(log) != Ill && i < |log|
    ensures Replay(log[..i + 1]) == Advance(Replay(log[..i]), log[i].kind) != Ill
  {
    var head := log[..i + 1];
    assert log == head + log[i + 1..];
    IllStays(head, log[i + 1..]);
    assert head[..i] == log[..i];
  }

  /** Only a Restarted event follows a terminal one, so between two openings at most one
      terminal event occurs; and nothing but the first event is Created. */
  lemma TerminalIsLastOfGeneration(log: seq<Event>, i: nat)
    requires Replay(log) != Ill
    requires i < |log|
    ensures Ends(log[i].kind) && i + 1 < |log| ==> log[i + 1].kind.EventRestarted?
    ensures log[i].kind.EventCreated? <==> i == 0
  {
    PrefixReplay(log, i);
    PhaseShape(log[..i]);
    if i + 1 < |log| {
      PrefixReplay(log, i + 1);
    }
  }

  /** Two terminal events of one log are separated by a Restarted event. */
  lemma {:induction false} OneTerminalPerGeneration(log: seq<Event>, i: nat, j: nat)
    requires Replay(log) != Ill
    requires i < j < |log| && Ends(log[i].kind) && Ends(log[j].kind)
    ensures exists k :: i < k < j && log[k].kind.EventRestarted?
  {
    TerminalIsLastOfGeneration(log, i);
    assert log[i + 1].kind.EventRestarted?;
  }

  /** The log decides the status: two records described by one log have the same attempt and the
      same status, up to Pending and Blocked, because releasing a blocked node logs nothing. */
  lemma {:induction false} LogDecidesStatus(log: seq<Event>, e: Execution, e': Execution)
    requires Describes(log, e) && Describes(log, e')
    ensures e.attempt == e'.attempt == StartedSinceOpening(log)
    ensures e.status == e'.status || (e.status in {Pending, Blocked} && e'.status in {Pending, Blocked})
  {
    AttemptCountsDeliveries(log);
  }

  // ---------------------------------------------------------------------------------------------
  // The language

  /** Which event may come right after which. */
  predicate Follows(kind: EventType, next: EventType) {
    match next
    case EventCreated => false
    case EventStarted => Opens(kind) || kind.EventStarted? || kind.EventRetried?
    case EventRetried => kind.EventStarted?
    case EventSucceeded => kind.EventStarted?
    case EventFailed => kind.EventStarted?
    case EventCancelled => !Ends(kind)
    case EventRestarted => Ends(kind) || Opens(kind)
  }

  predicate Grammatical(log: seq<Event>) {
    && (log != [] ==> log[0].kind.EventCreated?)
    && (forall i :: 0 < i < |log| ==> Follows(log[i - 1].kind, log[i].kind))
  }

  predicate PhaseOf(p: Phase, last: EventType) {
    match p
    case Empty => false
    case Waiting => Opens(last)
    case Retrying(_) => last.EventRetried?
    case InFlight(_) => last.EventStarted?
    case Ended(_, _) => Ends(last)
    case Ill => false
  }

  /** A log can be replayed exactly if it begins with Created and every event may follow the one before:
      deliveries only report once they have started, and nothing is restarted while it is active. */
  lemma {:induction false} LanguageExactly(log: seq<Event>)
    ensures Replay(log) != Ill <==> Grammatical(log)
    ensures Grammatical(log) && log != [] ==> PhaseOf(Replay(log), log[|log| - 1].kind)
  {
    if log != [] {
      var init := log[..|log| - 1];
      LanguageExactly(init);
      assert Grammatical(log) ==> Grammatical(init);
      if |log| > 1 {
        assert init[|init| - 1] == log[|log| - 2] && init[0] == log[0];
        assert Grammatical(log) <==> Grammatical(init) && Follows(log[|log| - 2].kind, log[|log| - 1].kind);
      }
    }
  }
}
