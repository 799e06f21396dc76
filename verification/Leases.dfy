/** Any number of jobs and stale markers, interleaved in any way, on the same sources. */
module Leases {
  import opened Wrappers
  import opened Sources

  type Job = nat

  type Marker = nat

  /**
    A completion reads its row before it writes it. A stale marker selects its rows first and writes
    them later, one by one and by id only.
   */
  datatype Move =
    | Claim(job: Job, source: string, now: int)
    | Read(job: Job, source: string)
    | Finish(job: Job, source: string, at: int, success: bool, reason: Option<string>, retry: Option<int>)
    | Select(marker: Marker, cutoff: int)
    | Mark(marker: Marker, source: string)

  /** What happened to one source, in order. */
  datatype Entry =
    | Taken(job: Job, at: int)
    | Returned(job: Job, at: int, interval: int, retry: Option<int>)

  /**
    claims are the claims not completed yet, loaded the rows read for completions, and selections
    the rows selected and not yet written; logs and histories are kept for each source.
   */
  datatype World = World(rows: Sources, claims: set<(Job, string)>, loaded: map<(Job, string), Source>,
                         selections: map<(Marker, string), Source>,
                         logs: map<string, seq<Entry>>, histories: map<string, seq<Event>>)

  predicate Enabled(w: World, m: Move) {
    match m
    case Claim(_, _, _) => true
    case Read(job, id) => (job, id) in w.claims && id in w.rows
    case Finish(job, id, _, _, _, _) => (job, id) in w.claims && (job, id) in w.loaded && id in w.rows
    case Select(_, _) => true
    case Mark(marker, id) => (marker, id) in w.selections && id in w.rows
  }

  function LogOf(w: World, id: string): seq<Entry> {
    if id in w.logs then w.logs[id] else []
  }

  function HistoryOf(w: World, id: string): seq<Event> {
    if id in w.histories then w.histories[id] else []
  }

  function Outcome(success: bool): Event {
    if success then Success else Failure
  }

  function Selection(rows: Sources, marker: Marker, cutoff: int): (selected: map<(Marker, string), Source>)
    ensures forall key :: key in selected <==> key.0 == marker && key.1 in rows && IsStale(rows[key.1], cutoff)
    ensures forall key | key in selected :: selected[key] == rows[key.1]
  {
    map id | id in rows && IsStale(rows[id], cutoff) :: (marker, id) := rows[id]
  }

  function Next(w: World, m: Move): World
    requires Enabled(w, m)
  {
    match m
    case Claim(job, id, now) =>
      if id in w.rows && IsDue(w.rows[id], now) then
        w.(rows := w.rows[id := Claimed(w.rows[id], now)], claims := w.claims + {(job, id)},
           logs := w.logs[id := LogOf(w, id) + [Taken(job, now)]])
      else w
    case Read(job, id) => w.(loaded := w.loaded[(job, id) := w.rows[id]])
    case Finish(job, id, at, success, reason, retry) =>
      var interval := w.rows[id].interval;
      w.(rows := w.rows[id := Completed(w.rows[id], w.loaded[(job, id)], at, interval, success, reason, retry)],
         claims := w.claims - {(job, id)}, loaded := w.loaded - {(job, id)},
         logs := w.logs[id := LogOf(w, id) + [Returned(job, at, interval, retry)]],
         histories := w.histories[id := HistoryOf(w, id) + [Outcome(success)]])
    case Select(marker, cutoff) =>
      w.(selections := w.selections + Selection(w.rows, marker, cutoff))
    case Mark(marker, id) =>
      w.(rows := w.rows[id := Marked(w.rows[id], w.selections[(marker, id)])],
         selections := w.selections - {(marker, id)},
         histories := w.histories[id := HistoryOf(w, id) + [Stale]])
  }

  // ----- the laws of the lease

  /** A claim after a completion keeps its distance; a completion ends the claim before it. */
  predicate Follows(previous: Entry, entry: Entry) {
    match entry
    case Taken(_, at) =>
      previous.Returned?
      && var retry := previous.retry;
         var delay := if retry.Some? && retry.value >= 0 then retry.value else previous.interval;
         at >= previous.at + 60000 * delay
    case Returned(job, _, _, _) => previous.Taken? && previous.job == job
  }

  predicate WellSpaced(log: seq<Entry>) {
    && (log != [] ==> log[0].Taken?)
    && forall i | 0 < i < |log| :: Follows(log[i - 1], log[i])
  }

  /** The row knows what the last entry of its log says. */
  ghost predicate Reflects(row: Source, log: seq<Entry>) {
    if log == [] then row.status != InFlight
    else
      match log[|log| - 1]
      case Taken(_, at) => row.status == InFlight && row.startedAt == Some(at)
      case Returned(_, at, interval, retry) =>
        row.status != InFlight && row.nextFetchAt == Some(ComputeNextFetchAt(at, interval, retry))
  }

  function Claimant(log: seq<Entry>): Option<Job> {
    if log != [] && log[|log| - 1].Taken? then Some(log[|log| - 1].job) else None
  }

  ghost predicate LawfulSource(w: World, id: string) {
    && WellSpaced(LogOf(w, id))
    && (id in w.rows ==> Reflects(w.rows[id], LogOf(w, id)))
    && (id !in w.rows ==> LogOf(w, id) == [])
    && forall job: Job :: (job, id) in w.claims <==> Claimant(LogOf(w, id)) == Some(job)
  }

  ghost predicate Lawful(w: World) {
    forall id :: LawfulSource(w, id)
  }

  /** A table that no job and no marker has touched yet. */
  function Initial(rows: Sources): World {
    World(rows, {}, map[], map[], map[], map[])
  }

  lemma InitialIsLawful(rows: Sources)
    requires forall id | id in rows :: rows[id].status != InFlight
    ensures Lawful(Initial(rows))
  {
  }

  lemma SpacedSnoc(log: seq<Entry>, e: Entry)
    requires WellSpaced(log)
    requires if log == [] then e.Taken? else Follows(log[|log| - 1], e)
    ensures WellSpaced(log + [e])
  {
  }

  lemma DelayIs(at: int, interval: int, retry: Option<int>)
    ensures ComputeNextFetchAt(at, interval, retry)
            == at + 60000 * (if retry.Some? && retry.value >= 0 then retry.value else interval)
  {
  }

  lemma ClaimIsLawful(w: World, m: Move, id: string)
    requires Lawful(w) && m.Claim?
    ensures LawfulSource(Next(w, m), id)
  {
    hide WellSpaced;
    assert LawfulSource(w, id);
    if m.source == id && id in w.rows && IsDue(w.rows[id], m.now) {
      var log := LogOf(w, id);
      if log != [] && log[|log| - 1].Returned? {
        var last := log[|log| - 1];
        DelayIs(last.at, last.interval, last.retry);
      }
      SpacedSnoc(log, Taken(m.job, m.now));
    }
  }

  lemma FinishIsLawful(w: World, m: Move, id: string)
    requires Lawful(w) && m.Finish? && Enabled(w, m)
    ensures LawfulSource(Next(w, m), id)
  {
    hide WellSpaced, Observed, ComputeNextFetchAt;
    assert LawfulSource(w, id) && LawfulSource(w, m.source);
    assert Claimant(LogOf(w, m.source)) == Some(m.job);
    if m.source == id {
      SpacedSnoc(LogOf(w, id), Returned(m.job, m.at, w.rows[id].interval, m.retry));
    }
  }

  lemma NextIsLawful(w: World, m: Move)
    requires Lawful(w) && Enabled(w, m)
    ensures Lawful(Next(w, m))
  {
    forall id ensures LawfulSource(Next(w, m), id) {
      if m.Claim? {
        ClaimIsLawful(w, m, id);
      } else if m.Finish? {
        FinishIsLawful(w, m, id);
      } else {
        hide WellSpaced, Observed;
        assert LawfulSource(w, id);
      }
    }
  }

  // ----- runs

  ghost predicate IsRun(w: World, moves: seq<Move>)
    decreases moves
  {
    moves == [] || (Enabled(w, moves[0]) && IsRun(Next(w, moves[0]), moves[1..]))
  }

  function After(w: World, moves: seq<Move>): World
    requires IsRun(w, moves)
    decreases moves
  {
    if moves == [] then w else After(Next(w, moves[0]), moves[1..])
  }

  lemma {:induction false} RunIsLawful(w: World, moves: seq<Move>)
    requires Lawful(w) && IsRun(w, moves)
    ensures Lawful(After(w, moves))
    decreases moves
  {
    if moves == [] {
    } else {
      NextIsLawful(w, moves[0]);
      hide Lawful, Next, Enabled;
      RunIsLawful(Next(w, moves[0]), moves[1..]);
    }
  }

  /** No two jobs hold the same source, and a source is in flight exactly when a job holds it. */
  lemma AtMostOneClaimant(rows: Sources, moves: seq<Move>, id: string, a: Job, b: Job)
    requires forall i | i in rows :: rows[i].status != InFlight
    requires IsRun(Initial(rows), moves)
    ensures var w := After(Initial(rows), moves);
            && ((a, id) in w.claims && (b, id) in w.claims ==> a == b)
            && (id in w.rows ==> (w.rows[id].status == InFlight <==> exists job: Job :: (job, id) in w.claims))
  {
    InitialIsLawful(rows);
    RunIsLawful(Initial(rows), moves);
    var w := After(Initial(rows), moves);
    hide WellSpaced;
    assert LawfulSource(w, id);
    if id in w.rows { HeldIffInFlight(w, id); }
  }

  /**
    In the log of a source claims and completions alternate, each completion by the job that
    claimed, and a claim comes no earlier than the delay after the completion before it.
   */
  lemma ClaimsKeepTheirDistance(rows: Sources, moves: seq<Move>, id: string, i: nat)
    requires forall j | j in rows :: rows[j].status != InFlight
    requires IsRun(Initial(rows), moves)
    requires 0 < i < |LogOf(After(Initial(rows), moves), id)|
    ensures var log := LogOf(After(Initial(rows), moves), id); Follows(log[i - 1], log[i])
  {
    InitialIsLawful(rows);
    RunIsLawful(Initial(rows), moves);
    assert LawfulSource(After(Initial(rows), moves), id);
  }

  /** A claim takes hold exactly of a source that is there, not in flight, and due. */
  lemma ClaimTakesHoldIff(w: World, job: Job, id: string, now: int)
    ensures var w' := Next(w, Claim(job, id, now));
            if id in w.rows && w.rows[id].status != InFlight
               && (w.rows[id].nextFetchAt == None || w.rows[id].nextFetchAt.value <= now)
            then
              && w'.claims == w.claims + {(job, id)} && w'.rows.Keys == w.rows.Keys
              && w'.rows[id] == w.rows[id].(status := InFlight, startedAt := Some(now))
              && forall other | other in w.rows && other != id :: w'.rows[other] == w.rows[other]
            else w' == w
  {
  }

  /** A selection holds exactly the sources not in flight that were last completed, or else created, by the cutoff. */
  lemma SelectedIff(w: World, marker: Marker, cutoff: int, id: string)
    requires (marker, id) !in w.selections
    ensures (marker, id) in Next(w, Select(marker, cutoff)).selections
            <==> id in w.rows && w.rows[id].status != InFlight
                 && w.rows[id].completedAt.GetOr(w.rows[id].createdAt) <= cutoff
  {
  }

  // ----- what a row tells

  predicate Finishes(m: Move, id: string) {
    m.Finish? && m.source == id
  }

  /** Position k holds the last completion of the source. */
  ghost predicate IsLastFinish(moves: seq<Move>, id: string, k: int) {
    && 0 <= k < |moves| && Finishes(moves[k], id)
    && forall j | k < j < |moves| :: !Finishes(moves[j], id)
  }

  /** Position k holds the last successful completion of the source. */
  ghost predicate IsLastSuccess(moves: seq<Move>, id: string, k: int) {
    && 0 <= k < |moves| && Finishes(moves[k], id) && moves[k].success
    && forall j | k < j < |moves| :: Finishes(moves[j], id) ==> !moves[j].success
  }

  /** The row holds what the completion reported; status, start and health may have changed since. */
  ghost predicate TellsOf(row: Source, m: Move)
    requires m.Finish?
  {
    var delay := if m.retry.Some? && m.retry.value >= 0 then m.retry.value else row.interval;
    && (row.status == InFlight || row.status == if m.success then Succeeded else Failed)
    && row.completedAt == Some(m.at)
    && row.failureReason == (if m.success then None else m.reason)
    && row.nextFetchAt == Some(m.at + delay * 60000)
  }

  ghost predicate TellsLastFinish(first: Source, row: Source, moves: seq<Move>, id: string) {
    && (forall k | IsLastFinish(moves, id, k) :: TellsOf(row, moves[k]))
    && ((forall k | 0 <= k < |moves| :: !Finishes(moves[k], id)) ==>
          && (row.status == InFlight || row.status == first.status) && row.completedAt == first.completedAt
          && row.failureReason == first.failureReason && row.nextFetchAt == first.nextFetchAt)
  }

  ghost predicate TellsLastSuccess(first: Source, row: Source, moves: seq<Move>, id: string) {
    && (forall k | IsLastSuccess(moves, id, k) :: row.lastSuccessAt == Some(moves[k].at))
    && ((forall k | 0 <= k < |moves| :: Finishes(moves[k], id) ==> !moves[k].success) ==>
          row.lastSuccessAt == first.lastSuccessAt)
  }

  /** What the row of a source tells after these moves, which found it as first. */
  ghost predicate Tells(first: Source, row: Source, moves: seq<Move>, id: string) {
    && row.createdAt == first.createdAt && row.interval == first.interval
    && TellsLastFinish(first, row, moves, id) && TellsLastSuccess(first, row, moves, id)
  }

  /** Only the job that holds a source has read it, and no other success came in since. */
  ghost predicate LoadedIsCurrent(w: World) {
    forall key | key in w.loaded ::
      && key in w.claims && key.1 in w.rows
      && w.loaded[key].lastSuccessAt == w.rows[key.1].lastSuccessAt
  }

  lemma NextIsCurrent(w: World, m: Move)
    requires Lawful(w) && LoadedIsCurrent(w) && Enabled(w, m)
    ensures LoadedIsCurrent(Next(w, m))
  {
    hide WellSpaced, Observed, ComputeNextFetchAt;
    if m.Finish? {
      assert LawfulSource(w, m.source);
    }
  }

  /** A move that does not complete the source leaves what its row tells of the last completion. */
  lemma OtherMoveKeepsRow(w: World, m: Move, id: string)
    requires Enabled(w, m) && id in w.rows && !Finishes(m, id)
    ensures id in Next(w, m).rows
    ensures var row, row' := w.rows[id], Next(w, m).rows[id];
            && (row'.status == row.status || row'.status == InFlight)
            && row' == row.(status := row'.status, startedAt := row'.startedAt, health := row'.health)
  {
    hide Observed, ComputeNextFetchAt;
  }

  lemma FinishTells(w: World, m: Move, id: string)
    requires Enabled(w, m) && Finishes(m, id) && LoadedIsCurrent(w)
    ensures id in Next(w, m).rows
    ensures var row, row' := w.rows[id], Next(w, m).rows[id];
            && TellsOf(row', m) && row'.createdAt == row.createdAt && row'.interval == row.interval
            && row'.lastSuccessAt == if m.success then Some(m.at) else row.lastSuccessAt
  {
    hide Observed;
  }

  lemma AfterFinish(first: Source, row: Source, moves: seq<Move>, m: Move, id: string)
    requires Finishes(m, id) && TellsOf(row, m)
    ensures TellsLastFinish(first, row, moves + [m], id)
  {
    var all := moves + [m];
    hide TellsOf;
    assert all[|moves|] == m;
    forall k | IsLastFinish(all, id, k) ensures k == |moves| {
    }
  }

  lemma NoOtherFinish(first: Source, row: Source, row': Source, moves: seq<Move>, m: Move, id: string)
    requires !Finishes(m, id) && TellsLastFinish(first, row, moves, id)
    requires row'.status == row.status || row'.status == InFlight
    requires row' == row.(status := row'.status, startedAt := row'.startedAt, health := row'.health)
    ensures TellsLastFinish(first, row', moves + [m], id)
  {
    var all := moves + [m];
    assert forall j | 0 <= j < |moves| :: all[j] == moves[j];
    forall k | IsLastFinish(all, id, k) ensures TellsOf(row', all[k]) {
      assert IsLastFinish(moves, id, k) && TellsOf(row, moves[k]);
    }
    hide TellsOf;
  }

  lemma AfterSuccess(first: Source, row: Source, moves: seq<Move>, m: Move, id: string)
    requires Finishes(m, id) && m.success && row.lastSuccessAt == Some(m.at)
    ensures TellsLastSuccess(first, row, moves + [m], id)
  {
    var all := moves + [m];
    assert all[|moves|] == m;
    forall k | IsLastSuccess(all, id, k) ensures k == |moves| {
    }
  }

  lemma NoOtherSuccess(first: Source, row: Source, row': Source, moves: seq<Move>, m: Move, id: string)
    requires (Finishes(m, id) ==> !m.success) && TellsLastSuccess(first, row, moves, id)
    requires row'.lastSuccessAt == row.lastSuccessAt
    ensures TellsLastSuccess(first, row', moves + [m], id)
  {
    var all := moves + [m];
    assert forall j | 0 <= j < |moves| :: all[j] == moves[j];
    forall k | IsLastSuccess(all, id, k) ensures row'.lastSuccessAt == Some(all[k].at) {
      assert IsLastSuccess(moves, id, k);
    }
  }

  lemma TellsStep(first: Source, w: World, moves: seq<Move>, m: Move, id: string)
    requires Enabled(w, m) && LoadedIsCurrent(w) && id in w.rows && Tells(first, w.rows[id], moves, id)
    ensures id in Next(w, m).rows && Tells(first, Next(w, m).rows[id], moves + [m], id)
  {
    hide Next, Enabled, TellsLastFinish, TellsLastSuccess, TellsOf, LoadedIsCurrent;
    var row := w.rows[id];
    if Finishes(m, id) {
      FinishTells(w, m, id);
      var row' := Next(w, m).rows[id];
      AfterFinish(first, row', moves, m, id);
      if m.success { AfterSuccess(first, row', moves, m, id); } else { NoOtherSuccess(first, row, row', moves, m, id); }
    } else {
      OtherMoveKeepsRow(w, m, id);
      var row' := Next(w, m).rows[id];
      NoOtherFinish(first, row, row', moves, m, id);
      NoOtherSuccess(first, row, row', moves, m, id);
    }
  }

  lemma {:induction false} RunSnoc(w: World, moves: seq<Move>, m: Move)
    requires IsRun(w, moves + [m])
    ensures IsRun(w, moves) && Enabled(After(w, moves), m) && After(w, moves + [m]) == Next(After(w, moves), m)
    decreases moves
  {
    hide Next, Enabled;
    if moves == [] {
      assert [] + [m] == [m] && [m][1..] == [];
    } else {
      assert (moves + [m])[1..] == moves[1..] + [m];
      RunSnoc(Next(w, moves[0]), moves[1..], m);
    }
  }

  lemma {:induction false} RunTells(rows: Sources, moves: seq<Move>, id: string)
    requires forall i | i in rows :: rows[i].status != InFlight
    requires IsRun(Initial(rows), moves) && id in rows
    ensures var w := After(Initial(rows), moves);
            Lawful(w) && LoadedIsCurrent(w) && id in w.rows && Tells(rows[id], w.rows[id], moves, id)
    decreases |moves|
  {
    if moves == [] {
      InitialIsLawful(rows);
    } else {
      var before, m := moves[..|moves| - 1], moves[|moves| - 1];
      assert moves == before + [m];
      RunSnoc(Initial(rows), before, m);
      RunTells(rows, before, id);
      var w := After(Initial(rows), before);
      hide Lawful, Next, Enabled, LoadedIsCurrent, Tells, IsRun, After;
      NextIsLawful(w, m);
      NextIsCurrent(w, m);
      TellsStep(rows[id], w, before, m, id);
    }
  }

  /**
    Whatever jobs and markers do, a row tells its history: it is in flight exactly while a job holds it,
    its status, completion time and failure reason are those of the last completion, its next fetch comes
    the delay after that, and its last success is the time of the last successful completion.
   */
  lemma RowTellsItsHistory(rows: Sources, moves: seq<Move>, id: string)
    requires forall i | i in rows :: rows[i].status != InFlight
    requires IsRun(Initial(rows), moves) && id in rows
    ensures var w := After(Initial(rows), moves);
            && id in w.rows && Tells(rows[id], w.rows[id], moves, id)
            && (w.rows[id].status == InFlight <==> exists job: Job :: (job, id) in w.claims)
  {
    RunTells(rows, moves, id);
    hide Tells, IsRun, After;
    HeldIffInFlight(After(Initial(rows), moves), id);
  }

  lemma HeldIffInFlight(w: World, id: string)
    requires LawfulSource(w, id) && id in w.rows
    ensures w.rows[id].status == InFlight <==> exists job: Job :: (job, id) in w.claims
  {
    hide WellSpaced;
    if w.rows[id].status == InFlight {
      assert (Claimant(LogOf(w, id)).value, id) in w.claims;
    }
  }

  // ----- how long a lease holds

  /** The moves while a job holds a source: anything but the completion by this job. */
  ghost predicate WhileHeld(w: World, moves: seq<Move>, id: string, job: Job) {
    && IsRun(w, moves)
    && forall m | m in moves :: !(m.Finish? && m.job == job && m.source == id)
  }

  /** Every mark of the source still to come writes the health that the row has already. */
  ghost predicate MarksAreIdle(w: World, id: string)
    requires id in w.rows
  {
    forall marker: Marker | (marker, id) in w.selections ::
      Marked(w.rows[id], w.selections[(marker, id)]) == w.rows[id]
  }

  lemma HoldSurvives(w: World, m: Move, id: string, job: Job)
    requires Lawful(w) && Enabled(w, m) && id in w.rows && (job, id) in w.claims
    requires !(m.Finish? && m.job == job && m.source == id)
    ensures var w' := Next(w, m);
            && id in w'.rows && (job, id) in w'.claims && LogOf(w', id) == LogOf(w, id)
            && w'.rows[id] == w.rows[id].(health := w'.rows[id].health)
            && (MarksAreIdle(w, id) ==> w'.rows[id] == w.rows[id] && MarksAreIdle(w', id))
  {
    hide WellSpaced, Observed;
    assert LawfulSource(w, id);
  }

  /**
    A lease never expires: while its job does not finish, the source stays with the job, and at most
    its health changes, by a mark selected before the lease.
   */
  lemma {:induction false} LeaseNeverExpires(w: World, moves: seq<Move>, id: string, job: Job)
    requires Lawful(w) && id in w.rows && (job, id) in w.claims && WhileHeld(w, moves, id, job)
    ensures var w' := After(w, moves);
            && id in w'.rows && (job, id) in w'.claims && LogOf(w', id) == LogOf(w, id)
            && w'.rows[id] == w.rows[id].(health := w'.rows[id].health)
            && (MarksAreIdle(w, id) ==> w'.rows[id] == w.rows[id])
    decreases moves
  {
    if moves == [] {
    } else {
      var m := moves[0];
      assert m in moves && forall x | x in moves[1..] :: x in moves;
      HoldSurvives(w, m, id, job);
      NextIsLawful(w, m);
      hide Lawful, Next, Enabled, MarksAreIdle;
      LeaseNeverExpires(Next(w, m), moves[1..], id, job);
    }
  }

  /** Nothing at all can change a held source exactly when no mark of it is pending that would. */
  lemma HeldSourceIsUntouchedIff(w: World, id: string, job: Job)
    requires Lawful(w) && id in w.rows && (job, id) in w.claims
    ensures (forall moves | WhileHeld(w, moves, id, job) ::
               id in After(w, moves).rows && After(w, moves).rows[id] == w.rows[id])
            <==> MarksAreIdle(w, id)
  {
    if MarksAreIdle(w, id) {
      forall moves | WhileHeld(w, moves, id, job)
        ensures id in After(w, moves).rows && After(w, moves).rows[id] == w.rows[id]
      {
        LeaseNeverExpires(w, moves, id, job);
      }
    } else {
      var marker: Marker :| (marker, id) in w.selections
          && Marked(w.rows[id], w.selections[(marker, id)]) != w.rows[id];
      var m := Mark(marker, id);
      OneMove(w, m);
      assert WhileHeld(w, [m], id, job);
    }
  }

  lemma OneMove(w: World, m: Move)
    requires Enabled(w, m)
    ensures IsRun(w, [m]) && After(w, [m]) == Next(w, m)
  {
    assert [m][1..] == [];
  }

  // ----- health and history

  /** The stored health of a source is the function of what happened to it. */
  ghost predicate Accurate(w: World, id: string) {
    id in w.rows ==> w.rows[id].health == HealthAfter(HistoryOf(w, id))
  }

  /** The event that a move writes to a source, with the row that it was computed from. */
  function Written(w: World, m: Move, id: string): Option<(Event, Source)>
    requires Enabled(w, m)
  {
    match m
    case Finish(job, source, _, success, _, _) =>
      if source == id then Some((Outcome(success), w.loaded[(job, id)])) else None
    case Mark(marker, source) => if source == id then Some((Stale, w.selections[(marker, id)])) else None
    case _ => None
  }

  /** What a write was computed from still agrees with the row in all that its event looks at. */
  ghost predicate UpToDate(w: World, m: Move, id: string)
    requires Enabled(w, m)
  {
    var written := Written(w, m, id);
    written.Some? && id in w.rows ==> SameFor(written.value.0, written.value.1.health, w.rows[id].health)
  }

  lemma HistorySnoc(history: seq<Event>, e: Event)
    ensures HealthAfter(history + [e]) == Observed(HealthAfter(history), e)
  {
  }

  lemma WriteChangesHealth(w: World, m: Move, id: string)
    requires Enabled(w, m)
    ensures id in Next(w, m).rows <==> id in w.rows
    ensures match Written(w, m, id)
            case None =>
              && HistoryOf(Next(w, m), id) == HistoryOf(w, id)
              && (id in w.rows ==> Next(w, m).rows[id].health == w.rows[id].health)
            case Some((e, read)) =>
              && HistoryOf(Next(w, m), id) == HistoryOf(w, id) + [e] && id in w.rows
              && Next(w, m).rows[id].health == Observed(read.health, e)
  {
    hide Observed, ComputeNextFetchAt;
  }

  /** A move keeps the health accurate exactly when what it was computed from is up to date. */
  lemma StaysAccurateIff(w: World, m: Move, id: string)
    requires Enabled(w, m) && Accurate(w, id)
    ensures Accurate(Next(w, m), id) <==> UpToDate(w, m, id)
  {
    WriteChangesHealth(w, m, id);
    var written := Written(w, m, id);
    if written.Some? {
      HistorySnoc(HistoryOf(w, id), written.value.0);
      ObservedAlikeIff(written.value.0, written.value.1.health, w.rows[id].health);
    }
    hide Next, HealthAfter, Observed, SameFor, Written;
  }

  /** What the moves did to one source, in order. */
  function EventsOf(moves: seq<Move>, id: string): seq<Event> {
    if moves == [] then []
    else
      EventsOf(moves[..|moves| - 1], id)
      + match moves[|moves| - 1]
        case Finish(_, source, _, success, _, _) =>
          if source != id then [] else if success then [Success] else [Failure]
        case Mark(_, source) => if source == id then [Stale] else []
        case _ => []
  }

  lemma {:induction false} HistoryIsOfTheMoves(rows: Sources, moves: seq<Move>, id: string)
    requires IsRun(Initial(rows), moves)
    ensures HistoryOf(After(Initial(rows), moves), id) == EventsOf(moves, id)
    decreases |moves|
  {
    if moves == [] {
    } else {
      var before, m := moves[..|moves| - 1], moves[|moves| - 1];
      assert moves == before + [m];
      RunSnoc(Initial(rows), before, m);
      HistoryIsOfTheMoves(rows, before, id);
      WriteChangesHealth(After(Initial(rows), before), m, id);
      hide Next, After, IsRun, HistoryOf, Enabled;
    }
  }

  ghost predicate AllUpToDate(w: World, moves: seq<Move>, id: string)
    requires IsRun(w, moves)
    decreases moves
  {
    moves == [] || (UpToDate(w, moves[0], id) && AllUpToDate(Next(w, moves[0]), moves[1..], id))
  }

  lemma {:induction false} RunStaysAccurate(w: World, moves: seq<Move>, id: string)
    requires IsRun(w, moves) && Accurate(w, id) && AllUpToDate(w, moves, id)
    ensures Accurate(After(w, moves), id)
    decreases moves
  {
    if moves == [] {
    } else {
      StaysAccurateIff(w, moves[0], id);
      hide Accurate, Next, Enabled, UpToDate;
      RunStaysAccurate(Next(w, moves[0]), moves[1..], id);
    }
  }

  /** While no write comes late, the stored health of a source is a function of what happened to it. */
  lemma HealthFollowsHistory(rows: Sources, moves: seq<Move>, id: string)
    requires id in rows ==> rows[id].health == NewHealth()
    requires IsRun(Initial(rows), moves) && AllUpToDate(Initial(rows), moves, id)
    requires id in After(Initial(rows), moves).rows
    ensures FollowsFrom(After(Initial(rows), moves).rows[id].health, EventsOf(moves, id))
  {
    RunStaysAccurate(Initial(rows), moves, id);
    HistoryIsOfTheMoves(rows, moves, id);
    HealthIsHistory(EventsOf(moves, id));
  }

  predicate Writes(m: Move, id: string) {
    (m.Finish? || m.Mark?) && m.source == id
  }

  /** The write m of the source could follow now, and what it was computed from has the health of the row. */
  ghost predicate Fresh(w: World, m: Move, id: string) {
    && Enabled(w, m) && Written(w, m, id).Some?
    && Written(w, m, id).value.1.health == w.rows[id].health
  }

  lemma FreshStays(w: World, next: Move, m: Move, id: string)
    requires Enabled(w, next) && !Writes(next, id) && Fresh(w, m, id)
    ensures Fresh(Next(w, next), m, id)
  {
    hide Observed, ComputeNextFetchAt;
  }

  lemma {:induction false} StaysFresh(w: World, moves: seq<Move>, m: Move, id: string)
    requires IsRun(w, moves) && Fresh(w, m, id) && forall x | x in moves :: !Writes(x, id)
    ensures Fresh(After(w, moves), m, id)
    decreases moves
  {
    if moves == [] {
    } else {
      assert moves[0] in moves && forall x | x in moves[1..] :: x in moves;
      FreshStays(w, moves[0], m, id);
      hide Fresh, Next, Enabled;
      StaysFresh(Next(w, moves[0]), moves[1..], m, id);
    }
  }

  /** m writes what the move read found in the source. */
  ghost predicate ReadFor(w: World, read: Move, m: Move, id: string) {
    && id in w.rows
    && match read
       case Select(marker, cutoff) => IsStale(w.rows[id], cutoff) && m == Mark(marker, id)
       case Read(job, source) => source == id && m.Finish? && m.job == job && m.source == id
       case _ => false
  }

  /** A write is up to date when nothing wrote the source since it was read, whatever else happened. */
  lemma UndisturbedIsUpToDate(w: World, read: Move, moves: seq<Move>, m: Move, id: string)
    requires Enabled(w, read) && ReadFor(w, read, m, id)
    requires IsRun(Next(w, read), moves) && forall x | x in moves :: !Writes(x, id)
    ensures Enabled(After(Next(w, read), moves), m) && UpToDate(After(Next(w, read), moves), m, id)
  {
    StaysFresh(Next(w, read), moves, m, id);
  }

  // ----- runs in which no write comes late

  datatype Reader = ByJob(job: Job) | ByMarker(marker: Marker)

  /** Who may still write what it read of a source, and who of them read it before another write. */
  datatype Track = Track(readers: set<Reader>, outdated: set<Reader>)

  function Writer(m: Move): Reader
    requires m.Finish? || m.Mark?
  {
    if m.Finish? then ByJob(m.job) else ByMarker(m.marker)
  }

  function Tracked(t: Track, m: Move, id: string): Track {
    match m
    case Read(job, source) =>
      if source == id then Track(t.readers + {ByJob(job)}, t.outdated - {ByJob(job)}) else t
    case Select(marker, _) => t.(readers := t.readers + {ByMarker(marker)})
    case Claim(_, _, _) => t
    case _ =>
      if m.source == id then Track(t.readers - {Writer(m)}, t.readers - {Writer(m)}) else t
  }

  /** Read off the moves alone: nobody writes the source who read it before another write. */
  predicate Timely(t: Track, moves: seq<Move>, id: string)
    decreases moves
  {
    moves == []
    || ((Writes(moves[0], id) ==> Writer(moves[0]) !in t.outdated) && Timely(Tracked(t, moves[0], id), moves[1..], id))
  }

  /** Readers that are not outdated have the health of the row. */
  ghost predicate Tracks(w: World, t: Track, id: string) {
    id in w.rows ==>
      && t.outdated <= t.readers
      && (forall job: Job | (job, id) in w.loaded ::
            ByJob(job) in t.readers && (ByJob(job) !in t.outdated ==> w.loaded[(job, id)].health == w.rows[id].health))
      && (forall marker: Marker | (marker, id) in w.selections ::
            ByMarker(marker) in t.readers
            && (ByMarker(marker) !in t.outdated ==> w.selections[(marker, id)].health == w.rows[id].health))
  }

  lemma StepIsTracked(w: World, t: Track, m: Move, id: string)
    requires Enabled(w, m) && Tracks(w, t, id)
    ensures Tracks(Next(w, m), Tracked(t, m, id), id)
    ensures (Writes(m, id) ==> Writer(m) !in t.outdated) ==> UpToDate(w, m, id)
  {
    hide Observed, ComputeNextFetchAt;
  }

  lemma {:induction false} TimelyIsUpToDate(w: World, t: Track, moves: seq<Move>, id: string)
    requires IsRun(w, moves) && Tracks(w, t, id) && Timely(t, moves, id)
    ensures AllUpToDate(w, moves, id)
    decreases moves
  {
    if moves == [] {
    } else {
      StepIsTracked(w, t, moves[0], id);
      hide Tracks, Tracked, Next, Enabled, UpToDate, Writes;
      TimelyIsUpToDate(Next(w, moves[0]), Tracked(t, moves[0], id), moves[1..], id);
    }
  }

  /**
    In a run without late writes, whatever else is interleaved, the health of a source is a function
    of what happened to it.
   */
  lemma TimelyHealthFollowsHistory(rows: Sources, moves: seq<Move>, id: string)
    requires id in rows ==> rows[id].health == NewHealth()
    requires IsRun(Initial(rows), moves) && Timely(Track({}, {}), moves, id)
    requires id in After(Initial(rows), moves).rows
    ensures FollowsFrom(After(Initial(rows), moves).rows[id].health, EventsOf(moves, id))
  {
    TimelyIsUpToDate(Initial(rows), Track({}, {}), moves, id);
    hide Timely;
    HealthFollowsHistory(rows, moves, id);
  }

  // ----- a late mark

  /** Job 1 claims, reads and completes a source at a time. */
  function Fetch(id: string, at: int, success: bool): seq<Move> {
    [Claim(1, id, at), Read(1, id), Finish(1, id, at, success, None, Some(0))]
  }

  lemma FetchedWorld(w: World, id: string, at: int, success: bool) returns (w1: World, w2: World, w3: World)
    requires id in w.rows && IsDue(w.rows[id], at)
    ensures var f := Fetch(id, at, success);
            && Enabled(w, f[0]) && w1 == Next(w, f[0]) && Enabled(w1, f[1]) && w2 == Next(w1, f[1])
            && Enabled(w2, f[2]) && w3 == Next(w2, f[2])
    ensures id in w3.rows && IsDue(w3.rows[id], at) && w3.rows[id].completedAt == Some(at)
    ensures w3.rows[id].health == Observed(w.rows[id].health, Outcome(success))
    ensures w3.selections == w.selections && HistoryOf(w3, id) == HistoryOf(w, id) + [Outcome(success)]
  {
    hide Observed;
    var f := Fetch(id, at, success);
    w1 := Next(w, f[0]);
    w2 := Next(w1, f[1]);
    w3 := Next(w2, f[2]);
  }

  lemma FetchCounts(w: World, id: string, at: int, success: bool, rest: seq<Move>) returns (w': World)
    requires id in w.rows && IsDue(w.rows[id], at)
    ensures id in w'.rows && IsDue(w'.rows[id], at) && w'.rows[id].completedAt == Some(at)
    ensures w'.rows[id].health == Observed(w.rows[id].health, Outcome(success))
    ensures w'.selections == w.selections && HistoryOf(w', id) == HistoryOf(w, id) + [Outcome(success)]
    ensures IsRun(w', rest) ==>
              && IsRun(w, Fetch(id, at, success) + rest)
              && After(w, Fetch(id, at, success) + rest) == After(w', rest)
  {
    var w1, w2, w3 := FetchedWorld(w, id, at, success);
    hide Observed, Next, Enabled, IsDue, HistoryOf, IsRun, After;
    w' := w3;
    var f := Fetch(id, at, success);
    Cons(w2, f[2], rest);
    Cons(w1, f[1], [f[2]] + rest);
    Cons(w, f[0], [f[1]] + ([f[2]] + rest));
    assert f + rest == [f[0]] + ([f[1]] + ([f[2]] + rest));
  }

  lemma Cons(w: World, m: Move, rest: seq<Move>)
    requires Enabled(w, m)
    ensures IsRun(Next(w, m), rest) ==> IsRun(w, [m] + rest) && After(w, [m] + rest) == After(Next(w, m), rest)
  {
    assert ([m] + rest)[1..] == rest;
  }

  /** Two failures, a selection, a success, and then the mark. */
  function LateMark(id: string): seq<Move> {
    Fetch(id, 0, false) + (Fetch(id, 0, false) + ([Select(1, 0)] + (Fetch(id, 0, true) + [Mark(1, id)])))
  }

  lemma LateMarkRuns(rows: Sources, id: string) returns (w: World)
    requires id in rows && IsDue(rows[id], 0) && rows[id].health == NewHealth()
    ensures Enabled(w, Mark(1, id)) && HistoryOf(w, id) == [Failure, Failure, Success]
    ensures w.selections[(1, id)].health == Observed(Observed(NewHealth(), Failure), Failure)
    ensures IsRun(Initial(rows), LateMark(id)) && After(Initial(rows), LateMark(id)) == Next(w, Mark(1, id))
  {
    hide Observed, HealthAfter;
    var select, mark := Select(1, 0), Mark(1, id);
    var tail := [select] + (Fetch(id, 0, true) + [mark]);
    var w1 := FetchCounts(Initial(rows), id, 0, false, Fetch(id, 0, false) + tail);
    var w2 := FetchCounts(w1, id, 0, false, tail);
    var w3 := Next(w2, select);
    Cons(w2, select, Fetch(id, 0, true) + [mark]);
    assert HistoryOf(w3, id) == [Failure, Failure];
    w := FetchCounts(w3, id, 0, true, [mark]);
    OneMove(w, mark);
    hide IsRun, After, Fetch;
  }

  /** The late mark brings the two failures back. */
  lemma LateMarkBringsFailuresBack(rows: Sources, id: string)
    requires id in rows && IsDue(rows[id], 0) && rows[id].health == NewHealth()
    ensures IsRun(Initial(rows), LateMark(id)) && id in After(Initial(rows), LateMark(id)).rows
    ensures var w := After(Initial(rows), LateMark(id));
            && HistoryOf(w, id) == [Failure, Failure, Success, Stale]
            && w.rows[id].health == Health(Warning, 2, Stale, 1) && HealthAfter(HistoryOf(w, id)).consecutive == 1
  {
    var w := LateMarkRuns(rows, id);
    WriteChangesHealth(w, Mark(1, id), id);
    FailuresBroughtBack();
    hide IsRun, After, HistoryOf, HealthAfter, Observed, Next, LateMark, Initial, IsDue;
  }

  lemma FailuresBroughtBack()
    ensures Observed(Observed(Observed(NewHealth(), Failure), Failure), Stale) == Health(Warning, 2, Stale, 1)
    ensures HealthAfter([Failure, Failure, Success, Stale]).consecutive == 1
  {
    HistorySnoc([Failure, Failure], Success);
    HistorySnoc([Failure, Failure] + [Success], Stale);
    assert [Failure, Failure] + [Success] + [Stale] == [Failure, Failure, Success, Stale];
  }
}
