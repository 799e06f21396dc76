/** Discovery sources: the lease that a job takes on a source, and the health derived from its outcomes. */
module Sources {
  import opened Wrappers

  datatype FetchStatus = Idle | InFlight | Succeeded | Failed

  datatype HealthStatus = Healthy | Warning | Broken

  datatype Event = Success | Failure | Stale

  /** What is kept of a source's history; consecutive counts like the stored failure counter. */
  datatype Health = Health(status: HealthStatus, consecutive: nat, streak: Event, count: nat)

  /** Times are milliseconds, the interval and the delays are minutes. */
  datatype Source = Source(createdAt: int, interval: int, status: FetchStatus, nextFetchAt: Option<int>,
                           startedAt: Option<int>, completedAt: Option<int>, lastSuccessAt: Option<int>,
                           failureReason: Option<string>, health: Health)

  type Sources = map<string, Source>

  // ----- health

  function NewHealth(): Health {
    Health(Healthy, 0, Success, 0)
  }

  function ReadStreak(h: Health, expected: Event): nat {
    if h.streak == expected then h.count else 0
  }

  /** A completed fetch, successful or not, or a stale mark. */
  function Observed(h: Health, e: Event): Health {
    match e
    case Success => Health(Healthy, 0, Success, ReadStreak(h, Success) + 1)
    case Failure =>
      var failures := h.consecutive + 1;
      Health(if failures >= 3 then Broken else Warning, failures, Failure, failures)
    case Stale =>
      var failures := if h.consecutive > 0 then h.consecutive else 1;
      Health(if failures >= 3 then Broken else Warning, failures, Stale, ReadStreak(h, Stale) + 1)
  }

  function HealthAfter(history: seq<Event>): Health {
    if history == [] then NewHealth()
    else Observed(HealthAfter(history[..|history| - 1]), history[|history| - 1])
  }

  /** The events after the last success. */
  function SinceSuccess(history: seq<Event>): seq<Event> {
    if history == [] || history[|history| - 1] == Success then []
    else SinceSuccess(history[..|history| - 1]) + [history[|history| - 1]]
  }

  function CountOf(e: Event, history: seq<Event>): nat {
    if history == [] then 0
    else CountOf(e, history[..|history| - 1]) + if history[|history| - 1] == e then 1 else 0
  }

  /** How often e happened without interruption at the end. */
  function TrailingRun(e: Event, history: seq<Event>): nat {
    if history == [] || history[|history| - 1] != e then 0
    else TrailingRun(e, history[..|history| - 1]) + 1
  }

  /** A first stale mark counts as one failure. */
  function ExpectedFailures(recent: seq<Event>): nat {
    CountOf(Failure, recent) + if recent != [] && recent[0] == Stale then 1 else 0
  }

  lemma {:induction false} SinceSuccessHasNone(history: seq<Event>)
    ensures forall e | e in SinceSuccess(history) :: e != Success
    decreases history
  {
    if history == [] {
    } else {
      SinceSuccessHasNone(history[..|history| - 1]);
    }
  }

  lemma CountSnoc(e: Event, history: seq<Event>, x: Event)
    ensures CountOf(e, history + [x]) == CountOf(e, history) + if x == e then 1 else 0
  {
  }

  lemma {:induction false} NoCount(recent: seq<Event>)
    requires forall e | e in recent :: e != Success
    ensures ExpectedFailures(recent) == 0 <==> recent == []
    decreases recent
  {
    if recent == [] {
    } else {
      var before, last := recent[..|recent| - 1], recent[|recent| - 1];
      assert last in recent && forall x | x in before :: x in recent;
      NoCount(before);
      assert before != [] ==> before[0] == recent[0];
    }
  }

  lemma ExpectedSnoc(recent: seq<Event>, e: Event)
    requires (forall x | x in recent :: x != Success) && e != Success
    ensures ExpectedFailures(recent + [e])
            == if e == Failure || recent == [] then ExpectedFailures(recent) + 1 else ExpectedFailures(recent)
    ensures ExpectedFailures(recent) > 0 <==> recent != []
  {
    NoCount(recent);
    CountSnoc(Failure, recent, e);
  }

  /** Failure counter and status as functions of the events since the last success. */
  ghost predicate FollowsFrom(h: Health, history: seq<Event>) {
    var recent := SinceSuccess(history);
    && h.consecutive == ExpectedFailures(recent)
    && (h.status == Healthy <==> recent == [])
    && (h.status == Broken <==> ExpectedFailures(recent) >= 3)
  }

  /** The failure counter and the status are functions of the events since the last success. */
  lemma {:induction false} HealthIsHistory(history: seq<Event>)
    ensures FollowsFrom(HealthAfter(history), history)
    decreases history
  {
    if history != [] {
      hide ExpectedFailures, ReadStreak;
      var before, e := history[..|history| - 1], history[|history| - 1];
      HealthIsHistory(before);
      if e != Success {
        SinceSuccessHasNone(before);
        ExpectedSnoc(SinceSuccess(before), e);
      } else {
        ExpectedOfNone();
      }
    } else {
      ExpectedOfNone();
    }
  }

  lemma ExpectedOfNone()
    ensures ExpectedFailures([]) == 0
  {
  }

  /** Success and stale streaks count the last events in a row. */
  lemma {:induction false} StreaksAreTrailingRuns(history: seq<Event>, e: Event)
    requires e != Failure
    ensures ReadStreak(HealthAfter(history), e) == TrailingRun(e, history)
    decreases history
  {
    if history == [] {
    } else {
      StreaksAreTrailingRuns(history[..|history| - 1], e);
    }
  }

  lemma {:induction false} TrailingFailures(history: seq<Event>)
    ensures TrailingRun(Failure, history) <= CountOf(Failure, SinceSuccess(history))
    ensures TrailingRun(Failure, history) == |SinceSuccess(history)| <==> CountOf(Stale, SinceSuccess(history)) == 0
    ensures CountOf(Failure, SinceSuccess(history)) + CountOf(Stale, SinceSuccess(history)) == |SinceSuccess(history)|
    ensures TrailingRun(Failure, history) <= |SinceSuccess(history)|
    decreases history
  {
    if history == [] {
    } else {
      var before, e := history[..|history| - 1], history[|history| - 1];
      TrailingFailures(before);
      CountSnoc(Failure, SinceSuccess(before), e);
      CountSnoc(Stale, SinceSuccess(before), e);
    }
  }

  lemma {:induction false} InterruptedRun(history: seq<Event>)
    requires CountOf(Stale, SinceSuccess(history)) > 0
    ensures TrailingRun(Failure, history) < ExpectedFailures(SinceSuccess(history))
            || (history != [] && history[|history| - 1] == Stale)
    decreases history
  {
    var before, e := history[..|history| - 1], history[|history| - 1];
    var recent := SinceSuccess(before);
    CountSnoc(Failure, recent, e);
    CountSnoc(Stale, recent, e);
    if e == Failure {
      InterruptedRun(before);
      assert (recent + [e])[0] == recent[0];
      if before[|before| - 1] == Stale {
        SinceSuccessHasNone(before);
        NoCount(recent);
      }
    }
  }

  /**
    A failure streak is not a run of failures but the failure counter: the two agree exactly when no
    stale mark came since the last success.
   */
  lemma FailureStreakIsRunIff(history: seq<Event>)
    requires history != [] && history[|history| - 1] == Failure
    ensures HealthAfter(history).streak == Failure
    ensures HealthAfter(history).count == ExpectedFailures(SinceSuccess(history))
    ensures HealthAfter(history).count == TrailingRun(Failure, history) <==> CountOf(Stale, SinceSuccess(history)) == 0
  {
    HealthIsHistory(history);
    TrailingFailures(history);
    if CountOf(Stale, SinceSuccess(history)) > 0 {
      InterruptedRun(history);
    } else {
      NoStaleFirst(SinceSuccess(history));
    }
  }

  lemma {:induction false} NoStaleFirst(recent: seq<Event>)
    requires CountOf(Stale, recent) == 0
    ensures Stale !in recent
    decreases recent
  {
    if recent == [] {
    } else {
      NoStaleFirst(recent[..|recent| - 1]);
      assert recent == recent[..|recent| - 1] + [recent[|recent| - 1]];
    }
  }

  // ----- the lease

  const MINUTE := 60000

  function DelayMinutes(interval: int, retry: Option<int>): int {
    if retry.Some? && retry.value >= 0 then retry.value else interval
  }

  function ComputeNextFetchAt(completedAt: int, interval: int, retry: Option<int>): int {
    completedAt + DelayMinutes(interval, retry) * MINUTE
  }

  predicate IsDue(s: Source, now: int) {
    s.status != InFlight && (s.nextFetchAt.None? || s.nextFetchAt.value <= now)
  }

  function Claimed(s: Source, now: int): Source {
    s.(status := InFlight, startedAt := Some(now))
  }

  /** The row after a completion whose job read the row as read. */
  function Completed(s: Source, read: Source, at: int, interval: int, success: bool, reason: Option<string>,
                     retry: Option<int>): Source {
    s.(status := if success then Succeeded else Failed,
       completedAt := Some(at),
       failureReason := if success then None else reason,
       nextFetchAt := Some(ComputeNextFetchAt(at, interval, retry)),
       lastSuccessAt := if success then Some(at) else read.lastSuccessAt,
       health := Observed(read.health, if success then Success else Failure))
  }

  predicate IsStale(s: Source, cutoff: int) {
    s.status != InFlight
    && if s.completedAt.None? then s.createdAt <= cutoff else s.completedAt.value <= cutoff
  }

  /** The row after a stale mark that was computed from the row as selected. */
  function Marked(s: Source, selected: Source): Source {
    s.(health := Observed(selected.health, Stale))
  }

  class SourceTable {
    var rows: Sources

    constructor (rows: Sources)
      ensures this.rows == rows
    {
      this.rows := rows;
    }

    /** One guarded update: it either takes the lease or finds nothing to update. */
    method Claim(id: string, now: int) returns (claimed: Option<Source>)
      modifies this
      ensures if id in old(rows) && IsDue(old(rows)[id], now)
              then rows == old(rows)[id := Claimed(old(rows)[id], now)] && claimed == Some(rows[id])
              else rows == old(rows) && claimed == None
      ensures claimed.Some? <==> id in old(rows) && old(rows)[id].status != InFlight
                                 && (old(rows)[id].nextFetchAt == None || old(rows)[id].nextFetchAt.value <= now)
      ensures claimed.Some? ==> claimed.value == old(rows)[id].(status := InFlight, startedAt := Some(now))
    {
      if id !in rows || !IsDue(rows[id], now) {
        return None;
      }
      rows := rows[id := Claimed(rows[id], now)];
      return Some(rows[id]);
    }

    /** The write of a completion; what it read of the row may be out of date by now. */
    method CompleteFetch(id: string, read: Source, at: int, interval: int, success: bool, reason: Option<string>,
                         retry: Option<int>)
      modifies this
      ensures rows == if id in old(rows)
                      then old(rows)[id := Completed(old(rows)[id], read, at, interval, success, reason, retry)]
                      else old(rows)
    {
      var nextFailures := if success then 0 else read.health.consecutive + 1;
      var lastSuccessAt := if success then Some(at) else read.lastSuccessAt;
      var status := if success then Healthy else if nextFailures >= 3 then Broken else Warning;
      var streakCount := if success then ReadStreak(read.health, Success) + 1 else nextFailures;
      var health := Health(status, nextFailures, if success then Success else Failure, streakCount);
      if id in rows {
        rows := rows[id := rows[id].(
          status := if success then Succeeded else Failed, completedAt := Some(at),
          failureReason := if success then None else reason,
          nextFetchAt := Some(ComputeNextFetchAt(at, interval, retry)),
          lastSuccessAt := lastSuccessAt, health := health)];
      }
    }

    /** Selects the stale sources that no job holds; this happens before the transaction that marks them. */
    method SelectStale(cutoff: int) returns (selected: Sources)
      ensures selected.Keys <= rows.Keys
      ensures forall id | id in rows :: id in selected <==> IsStale(rows[id], cutoff)
      ensures forall id | id in rows ::
                id in selected <==> rows[id].status != InFlight
                                    && rows[id].completedAt.GetOr(rows[id].createdAt) <= cutoff
      ensures forall id | id in selected :: selected[id] == rows[id]
    {
      selected := map id | id in rows && IsStale(rows[id], cutoff) :: rows[id];
    }

    /** Marks the selected sources by their ids, whatever became of them since the selection. */
    method MarkStale(selected: Sources)
      modifies this
      ensures rows.Keys == old(rows).Keys
      ensures forall id | id in rows ::
                rows[id] == if id in selected then Marked(old(rows)[id], selected[id]) else old(rows)[id]
    {
      var todo := selected.Keys;
      while todo != {}
        invariant todo <= selected.Keys && rows.Keys == old(rows).Keys
        invariant forall id | id in rows ::
                    rows[id]
                    == if id in selected && id !in todo then Marked(old(rows)[id], selected[id]) else old(rows)[id]
        decreases |todo|
      {
        var id :| id in todo;
        var read := selected[id].health;
        var failures := if read.consecutive > 0 then read.consecutive else 1;
        var health := Health(if failures >= 3 then Broken else Warning, failures, Stale, ReadStreak(read, Stale) + 1);
        if id in rows {
          rows := rows[id := rows[id].(health := health)];
        }
        todo := todo - {id};
      }
    }
  }

  // ----- writes computed from an earlier read

  /** Two healths that an event turns into the same one. */
  predicate SameFor(e: Event, a: Health, b: Health) {
    match e
    case Success => ReadStreak(a, Success) == ReadStreak(b, Success)
    case Failure => a.consecutive == b.consecutive
    case Stale =>
      && ReadStreak(a, Stale) == ReadStreak(b, Stale)
      && (a.consecutive == b.consecutive || (a.consecutive <= 1 && b.consecutive <= 1))
  }

  /**
    An event observed on an earlier reading leaves the right health exactly when the readings agree
    in what it looks at.
   */
  lemma ObservedAlikeIff(e: Event, a: Health, b: Health)
    ensures Observed(a, e) == Observed(b, e) <==> SameFor(e, a, b)
  {
  }
}
