/** How runs end, runs that pause for a human and resume in later sessions, and runs that begin with planning. */
module EngineSessions {
  import opened Wrappers
  import opened Basics
  import opened Plans
  import opened Engine
  import opened EngineRuns
  import opened EngineTheorems
  import opened EnginePlanning
  import opened EngineClashes
  import opened Inboxes
  import Hitl
  import HitlService
  import HitlHandlers
  import HitlRepositories
  import Text

  // ----- how a session ends

  predicate Unfinished(s: Step) {
    !s.finalize && (s.status == Pending || s.status == InProgress)
  }

  ghost predicate SomeUnfinished(steps: seq<Step>) {
    exists s | s in steps :: Unfinished(s)
  }

  ghost predicate SomeFinalDone(steps: seq<Step>) {
    exists s | s in steps :: s.finalize && s.status == Done
  }

  predicate IsRejected(mode: Mode) {
    mode.Ended? && mode.outcome.RejectedByOperator?
  }

  /** What awaiting an answer means at each suspension point, and what each end stands for. */
  ghost predicate Consistent(r: Run) {
    match r.mode
    case Planning => r.inbox.awaiting ==> PendingIds(r.steps) != {}
    case Stepping => r.inbox.awaiting ==> PendingIds(r.steps) != {}
    case Running(_) => true
    case Replanning => !r.inbox.awaiting
    case Finalizing(_) => !r.inbox.awaiting
    case Ended(Completed) => !r.inbox.awaiting && PendingIds(r.steps) == {} && SomeFinalDone(r.steps)
    case Ended(AwaitingHuman) => r.inbox.awaiting && PendingIds(r.steps) != {}
    case Ended(RejectedByOperator(_)) => SomeUnfinished(r.steps)
  }

  lemma PendingIsUnfinished(steps: seq<Step>)
    ensures PendingIds(steps) != {} ==> SomeUnfinished(steps)
  {
    if id :| id in PendingIds(steps) {
      var s :| s in steps && IsPendingSpecialist(s) && s.id == id;
      assert Unfinished(s);
    }
  }

  lemma AdvanceIsConsistent(r: Run, reply: Reply, maxCycles: nat)
    requires Good(r) && Consistent(r)
    ensures Consistent(Advance(r, reply, maxCycles))
  {
    hide SetStatus, AddRevision, IdsOk, Noted, VerdictAfter;
    var r' := Advance(r, reply, maxCycles);
    match r.mode
    case Planning => NextPendingFound(r.steps);
    case Stepping => var _ := BeginStep(r, reply, maxCycles);
    case Running(_) =>
      var s := EndStep(r, reply, maxCycles);
      assert Unfinished(s);
      if r'.mode == Ended(AwaitingHuman) {
        ChangedSets(r.steps, r'.steps, s, Pending);
        assert s.id in PendingIds(r'.steps);
      }
    case Replanning => AddRevisionExecutesNothing(r, maxCycles);
    case Finalizing(_) =>
      var s := EndFinal(r, reply, maxCycles);
      ChangedSets(r.steps, r'.steps, s, Done);
      assert s.(status := Done) in r'.steps;
    case Ended(_) =>
  }

  // ----- the requests of a session

  /** The requests that a step raises have new ids. */
  ghost predicate NewReply(r: Run, reply: Reply) {
    r.mode.Running? ==> NewAsks(r.inbox.hitl.requests, reply.asks)
  }

  ghost predicate NewRun(r: Run, replies: seq<Reply>, maxCycles: nat)
    decreases replies
  {
    replies == [] || (NewReply(r, replies[0]) && NewRun(Advance(r, replies[0], maxCycles), replies[1..], maxCycles))
  }

  lemma InboxStays(r: Run, reply: Reply, maxCycles: nat)
    requires !r.mode.Running?
    ensures Advance(r, reply, maxCycles).inbox == r.inbox
  {
    hide SetStatus, AddRevision, EnsureFinalize, NextPending;
    match r.mode
    case Planning => assert EnsureFinalize(r).inbox == r.inbox by { EnsureFinalizeFrame(r); }
    case Stepping => if NextPending(r.steps).Some? { StatusFrame(r, NextPending(r.steps).value.id, InProgress); }
    case Replanning => AddRevisionExecutesNothing(r, maxCycles);
    case Finalizing(id) => StatusFrame(r, id, Done);
    case Ended(_) =>
  }

  lemma StatusFrame(r: Run, id: string, status: Status)
    ensures SetStatus(r, id, status, None).inbox == r.inbox
  {
  }

  /**
    Every suspension point keeps the inbox attentive and the budget, and no step is followed by a
    rejection: answers are only seen when a session starts.
   */
  lemma AdvanceKeepsAttentive(r: Run, reply: Reply, maxCycles: nat)
    requires Attentive(r.inbox) && NewReply(r, reply)
    ensures var r' := Advance(r, reply, maxCycles);
            && Attentive(r'.inbox) && (r.inbox.awaiting ==> r'.inbox.awaiting) && r'.inbox.limit == r.inbox.limit
            && (IsRejected(r'.mode) ==> r' == r)
            && HitlService.Accepted(r'.inbox.hitl.requests)
               <= Max(HitlService.Accepted(r.inbox.hitl.requests), r.inbox.limit)
  {
    hide SetStatus, AddRevision, EnsureFinalize, NextPending, Attentive, Rule, AfterStep, HitlService.Accepted;
    if r.mode.Running? {
      StepKeepsAttentive(r.inbox, reply.asks);
      AttentiveRulesNothing(AfterStep(r.inbox, reply.asks));
      var r' := Noted(r, reply);
      StatusFrame(r', r.mode.id, Pending);
      StatusFrame(r', r.mode.id, Done);
    } else {
      InboxStays(r, reply, maxCycles);
      EnsureFinalizeFrame(r);
    }
  }

  /** Over a whole session the requests that are not denied stay within the limit, or what there was before. */
  lemma {:induction false} SessionKeepsBudget(r: Run, replies: seq<Reply>, maxCycles: nat, atStart: int)
    requires Attentive(r.inbox) && NewRun(r, replies, maxCycles)
    requires HitlService.Accepted(r.inbox.hitl.requests) <= Max(atStart, r.inbox.limit)
    ensures var e := After(r, replies, maxCycles);
            && Attentive(e.inbox) && e.inbox.limit == r.inbox.limit
            && HitlService.Accepted(e.inbox.hitl.requests) <= Max(atStart, r.inbox.limit)
    decreases replies
  {
    if replies == [] {
    } else {
      AdvanceKeepsAttentive(r, replies[0], maxCycles);
      hide Attentive, Advance, NewReply, HitlService.Accepted;
      SessionKeepsBudget(Advance(r, replies[0], maxCycles), replies[1..], maxCycles, atStart);
    }
  }

  /** While a request is pending no step becomes done. */
  lemma NothingDoneWhilePending(r: Run, reply: Reply, maxCycles: nat)
    requires Good(r) && Attentive(r.inbox) && NewReply(r, reply)
    ensures var r' := Advance(r, reply, maxCycles);
            !NonePending(r'.inbox.hitl) ==> DoneIds(r'.steps) == DoneIds(r.steps)
  {
    hide Good, Advance, Attentive, NewReply, DoneIds, NonePending;
    AdvanceDone(r, reply, maxCycles);
    AdvanceKeepsAttentive(r, reply, maxCycles);
    AwaitingIsPending(Advance(r, reply, maxCycles).inbox);
  }

  // ----- what every state of a session satisfies

  ghost predicate Sound(r: Run, base: nat) {
    && Good(r) && Consistent(r) && OneInProgress(r, {}) && Hitl.WellFormed(r.inbox.hitl)
    && (!IsRejected(r.mode) ==> Attentive(r.inbox))
    && (InLoop(r.mode) || r.mode == Ended(AwaitingHuman) ==> Safe(r, base))
    && (r.mode == Ended(AwaitingHuman) || r.mode == Ended(Completed) ==> InProgressIds(r.steps) == {})
  }

  lemma AdvanceKeepsSound(r: Run, reply: Reply, maxCycles: nat, base: nat)
    requires Sound(r, base) && NewReply(r, reply)
    ensures Sound(Advance(r, reply, maxCycles), base)
    ensures IsRejected(Advance(r, reply, maxCycles).mode) ==> IsRejected(r.mode)
  {
    if r.mode.Ended? {
      EndedStays(r, [reply], maxCycles);
    } else {
      AdvanceKeepsGood(r, reply, maxCycles);
      AdvanceIsConsistent(r, reply, maxCycles);
      AdvanceInProgress(r, reply, maxCycles, {});
      AdvanceKeepsAttentive(r, reply, maxCycles);
      hide Good, Safe, InProgressIds, NewReply, Noted, VerdictAfter;
      if InLoop(r.mode) {
        AdvanceIsSafe(r, reply, maxCycles, base);
        hide OneInProgress, Consistent;
        PausesAtAStep(r, reply, maxCycles);
      } else {
        FinalizingCompletes(r, reply, maxCycles);
      }
      hide Advance;
    }
  }

  lemma PausesAtAStep(r: Run, reply: Reply, maxCycles: nat)
    requires InLoop(r.mode)
    ensures Advance(r, reply, maxCycles).mode == Ended(AwaitingHuman) ==> r.mode.Running?
    ensures Advance(r, reply, maxCycles).mode != Ended(Completed)
  {
    hide SetStatus, AddRevision, NextPending, Noted, VerdictAfter;
  }

  lemma FinalizingCompletes(r: Run, reply: Reply, maxCycles: nat)
    requires r.mode.Finalizing? && !r.inbox.awaiting
    ensures Advance(r, reply, maxCycles).mode == Ended(Completed)
  {
  }

  lemma {:induction false} RunKeepsSound(r: Run, replies: seq<Reply>, maxCycles: nat, base: nat)
    requires Sound(r, base) && NewRun(r, replies, maxCycles)
    ensures Sound(After(r, replies, maxCycles), base)
    ensures IsRejected(After(r, replies, maxCycles).mode) ==> IsRejected(r.mode)
    decreases replies
  {
    if replies == [] {
    } else {
      AdvanceKeepsSound(r, replies[0], maxCycles, base);
      hide Sound, Advance, NewReply;
      RunKeepsSound(Advance(r, replies[0], maxCycles), replies[1..], maxCycles, base);
    }
  }

  // ----- sessions

  /** A later request for the same run, after the operators' answers reached the repository. */
  datatype Session = Session(repository: Hitl.Kind, answers: seq<Hitl.Op>, needsRevision: bool, replies: seq<Reply>)

  /** A session on a stored plan: answered requests are ruled on before anything else happens. */
  function Begin(version: nat, steps: seq<Step>, run: string, hitl: Hitl.RunState, limit: int,
                 needsRevision: bool): Run {
    var loading := Loading(run, hitl, limit);
    var ruling := Rule(loading);
    if ruling.verdict.Some? then
      Run(version, steps, [], [], Ended(RejectedByOperator(ruling.verdict.value)), needsRevision,
          loading.(processed := ruling.processed))
    else Run(version, steps, [], [], Planning, needsRevision, Opened(run, hitl, limit))
  }

  function Reloaded(r: Run, session: Session): Hitl.RunState {
    Hitl.Loaded(session.repository, r.inbox.hitl, session.answers)
  }

  /** The rejection, if any, that the answers bring. */
  function VerdictOn(r: Run, session: Session): Option<Verdict> {
    Rule(Loading(r.inbox.run, Reloaded(r, session), r.inbox.limit)).verdict
  }

  function Resumed(r: Run, session: Session): Run {
    Begin(r.version, r.steps, r.inbox.run, Reloaded(r, session), r.inbox.limit, session.needsRevision)
  }

  /** The sessions that follow a pause, as long as each of them pauses again. */
  function Whole(r: Run, sessions: seq<Session>, maxCycles: nat): Run
    decreases sessions
  {
    if sessions == [] || r.mode != Ended(AwaitingHuman) then r
    else Whole(After(Resumed(r, sessions[0]), sessions[0].replies, maxCycles), sessions[1..], maxCycles)
  }

  /** Operators deny and respond, and only steps raise requests. */
  ghost predicate OnlyAnswers(session: Session) {
    forall op | op in session.answers :: !op.Raise?
  }

  ghost predicate NewSessions(r: Run, sessions: seq<Session>, maxCycles: nat)
    decreases sessions
  {
    sessions == [] || r.mode != Ended(AwaitingHuman)
    || (OnlyAnswers(sessions[0]) && NewRun(Resumed(r, sessions[0]), sessions[0].replies, maxCycles)
        && NewSessions(After(Resumed(r, sessions[0]), sessions[0].replies, maxCycles), sessions[1..], maxCycles))
  }

  /** A plan that a session can be started on. */
  ghost predicate CanStart(r: Run) {
    && IsStart(r) && IdsOk(r.steps) && CanFinish(r) && InProgressIds(r.steps) == {}
    && Attentive(r.inbox) && (r.inbox.awaiting ==> PendingIds(r.steps) != {})
  }

  lemma StartIsSound(r: Run)
    requires CanStart(r)
    ensures Sound(r, r.version + 3)
  {
  }

  lemma ReloadedIsWellFormed(r: Run, session: Session)
    requires Hitl.WellFormed(r.inbox.hitl) && OnlyAnswers(session)
    ensures Hitl.WellFormed(Reloaded(r, session))
  {
    Hitl.LoadedIsWellFormed(session.repository, r.inbox.hitl, session.answers);
  }

  /** A paused run can be resumed: what it stores is a plan that a session can be started on. */
  lemma PausedCanStart(r: Run, session: Session, base: nat)
    requires Sound(r, base) && r.mode == Ended(AwaitingHuman) && OnlyAnswers(session) && VerdictOn(r, session).None?
    ensures CanStart(Resumed(r, session))
  {
    ReloadedIsWellFormed(r, session);
    OpenedIsAttentive(r.inbox.run, Reloaded(r, session), r.inbox.limit);
    hide Reloaded, Opened, Rule, Loading, Attentive, Consistent, OneInProgress;
    assert PendingIds(r.steps) != {} by { PausedHasWork(r); }
    assert CanFinish(Resumed(r, session)) by { SafeCanFinish(r, Resumed(r, session), base); }
  }

  lemma PausedHasWork(r: Run)
    requires Consistent(r) && r.mode == Ended(AwaitingHuman)
    ensures PendingIds(r.steps) != {}
  {
  }

  lemma SafeCanFinish(r: Run, next: Run, base: nat)
    requires Safe(r, base) && r.mode == Ended(AwaitingHuman) && next.steps == r.steps && next.version == r.version
    ensures CanFinish(next)
  {
  }

  lemma RejectedIsSound(r: Run, session: Session, base: nat)
    requires Sound(r, base) && r.mode == Ended(AwaitingHuman) && OnlyAnswers(session) && VerdictOn(r, session).Some?
    ensures Sound(Resumed(r, session), base) && IsRejected(Resumed(r, session).mode)
    ensures Resumed(r, session).mode == Ended(RejectedByOperator(VerdictOn(r, session).value))
  {
    ReloadedIsWellFormed(r, session);
    PendingIsUnfinished(r.steps);
    assert InProgressIds(r.steps) <= {} + {""};
    hide Reloaded, Rule, Attentive;
  }

  lemma ResumedIsSound(r: Run, session: Session, base: nat) returns (at: nat)
    requires Sound(r, base) && r.mode == Ended(AwaitingHuman) && OnlyAnswers(session)
    ensures Sound(Resumed(r, session), at)
    ensures IsRejected(Resumed(r, session).mode) <==> VerdictOn(r, session).Some?
    ensures Resumed(r, session).steps == r.steps
  {
    if VerdictOn(r, session).Some? {
      RejectedIsSound(r, session, base);
      at := base;
    } else {
      PausedCanStart(r, session, base);
      at := r.version + 3;
      StartIsSound(Resumed(r, session));
    }
  }

  /** Pauses and resumes keep everything that one session keeps. */
  lemma {:induction false} WholeRunIsSound(r: Run, sessions: seq<Session>, maxCycles: nat, base: nat)
    returns (last: nat)
    requires Sound(r, base) && NewSessions(r, sessions, maxCycles)
    ensures Sound(Whole(r, sessions, maxCycles), last)
    ensures DoneIds(r.steps) <= DoneIds(Whole(r, sessions, maxCycles).steps)
    decreases sessions
  {
    last := base;
    if sessions != [] && r.mode == Ended(AwaitingHuman) {
      hide OnlyAnswers, NewRun, DoneIds, Resumed, VerdictOn;
      var next := Resumed(r, sessions[0]);
      var at := ResumedIsSound(r, sessions[0], base);
      assert Good(next);
      hide Sound, Good;
      RunKeepsSound(next, sessions[0].replies, maxCycles, at);
      DoneStaysDone(next, sessions[0].replies, maxCycles);
      last := WholeRunIsSound(After(next, sessions[0].replies, maxCycles), sessions[1..], maxCycles, at);
    }
  }

  /** What a run that started on r may look like later, however often it paused. */
  ghost predicate KeepsPromises(r: Run, e: Run) {
    && DoneIds(r.steps) <= DoneIds(e.steps)
    && |InProgressIds(e.steps)| <= 1
    && (!IsRejected(e.mode) ==> (e.inbox.awaiting <==> !NonePending(e.inbox.hitl)))
    && (e.mode == Ended(Completed) ==>
          && NonePending(e.inbox.hitl) && PendingIds(e.steps) == {} && InProgressIds(e.steps) == {}
          && SomeFinalDone(e.steps))
    && (e.mode == Ended(AwaitingHuman) ==>
          && !NonePending(e.inbox.hitl) && PendingIds(e.steps) != {} && InProgressIds(e.steps) == {}
          && forall session: Session | OnlyAnswers(session) && VerdictOn(e, session).None? ::
               CanStart(Resumed(e, session)))
  }

  lemma SoundKeepsPromises(r: Run, e: Run, base: nat)
    requires Sound(e, base) && DoneIds(r.steps) <= DoneIds(e.steps)
    ensures KeepsPromises(r, e)
  {
    AtMostOneInProgress(e, [], 0, {});
    if !IsRejected(e.mode) {
      AwaitingIsPending(e.inbox);
    }
    hide InProgressIds, DoneIds, NonePending, Attentive, Good, OneInProgress;
    if e.mode == Ended(AwaitingHuman) {
      forall session: Session | OnlyAnswers(session) && VerdictOn(e, session).None?
        ensures CanStart(Resumed(e, session))
      {
        PausedCanStart(e, session, base);
      }
    }
  }

  /**
    Over a whole run with its pauses and resumes: what is done stays done, at most one step is in
    progress, a paused run has its step back to pending and can start again, and a run completes
    only when no specialist step is pending and no stored request is.
   */
  lemma WholeRun(r: Run, replies: seq<Reply>, sessions: seq<Session>, maxCycles: nat)
    requires CanStart(r) && NewRun(r, replies, maxCycles)
             && NewSessions(After(r, replies, maxCycles), sessions, maxCycles)
    ensures KeepsPromises(r, Whole(After(r, replies, maxCycles), sessions, maxCycles))
  {
    StartIsSound(r);
    assert Good(r);
    hide CanStart, Sound, NewRun, NewSessions, Good, DoneIds;
    RunKeepsSound(r, replies, maxCycles, r.version + 3);
    DoneStaysDone(r, replies, maxCycles);
    var first := After(r, replies, maxCycles);
    var last := WholeRunIsSound(first, sessions, maxCycles, r.version + 3);
    SoundKeepsPromises(r, Whole(first, sessions, maxCycles), last);
  }

  // ----- the plan that a session takes over

  predicate HasActiveSteps(steps: seq<Step>) {
    exists s | s in steps :: s.status == Pending || s.status == InProgress
  }

  /** A stored plan with nothing pending or in progress is dropped, and the session plans from nothing. */
  function Restored(r: Run): Run {
    if HasActiveSteps(r.steps) then r else r.(version := 0, steps := [])
  }

  /**
    A paused run is taken over as it is, a completed one is planned from nothing unless a finalize
    step was left over.
   */
  lemma RestoredIff(e: Run, base: nat)
    requires Sound(e, base)
    ensures e.mode == Ended(AwaitingHuman) ==> Restored(e) == e
    ensures e.mode == Ended(Completed) ==>
              (Restored(e).steps == [] <==> forall s | s in e.steps && s.finalize :: s.status != Pending)
  {
    hide Good, Safe, Attentive, OneInProgress;
    if e.mode == Ended(AwaitingHuman) {
      var id :| id in PendingIds(e.steps);
      var s :| s in e.steps && IsPendingSpecialist(s) && s.id == id;
    } else if e.mode == Ended(Completed) {
      assert forall s | s in e.steps && !s.finalize :: s.status == Pending ==> s.id in PendingIds(e.steps);
      assert forall s | s in e.steps :: s.status == InProgress ==> s.id in InProgressIds(e.steps);
    }
  }

  // ----- the events of a whole run

  /** The plan updates that the sessions after a pause emit, one session after the other. */
  function WholePatches(r: Run, sessions: seq<Session>, maxCycles: nat): seq<Patch>
    decreases sessions
  {
    if sessions == [] || r.mode != Ended(AwaitingHuman) then []
    else
      var e := After(Resumed(r, sessions[0]), sessions[0].replies, maxCycles);
      e.emitted + WholePatches(e, sessions[1..], maxCycles)
  }

  lemma SessionReplays(r: Run, session: Session, maxCycles: nat)
    requires Good(Resumed(r, session))
    ensures var e := After(Resumed(r, session), session.replies, maxCycles);
            Replayed(r.steps, e.emitted) == e.steps && e.version == r.version + |e.emitted|
  {
    var next := Resumed(r, session);
    assert next.emitted == [] && next.steps == r.steps && next.version == r.version;
    hide Resumed, Good;
    ReplayTheorem(next, session.replies, maxCycles);
    var e := After(next, session.replies, maxCycles);
    assert e.emitted[0..] == e.emitted;
  }

  lemma {:induction false} SessionsReplay(r: Run, sessions: seq<Session>, maxCycles: nat, base: nat)
    requires Sound(r, base) && NewSessions(r, sessions, maxCycles)
    ensures var patches, e := WholePatches(r, sessions, maxCycles), Whole(r, sessions, maxCycles);
            Replayed(r.steps, patches) == e.steps && e.version == r.version + |patches|
    decreases sessions
  {
    if sessions == [] || r.mode != Ended(AwaitingHuman) {
    } else {
      hide Resumed, VerdictOn, OnlyAnswers, NewRun;
      var at := ResumedIsSound(r, sessions[0], base);
      var next := Resumed(r, sessions[0]);
      assert Good(next);
      hide Sound, Good;
      SessionReplays(r, sessions[0], maxCycles);
      RunKeepsSound(next, sessions[0].replies, maxCycles, at);
      var e := After(next, sessions[0].replies, maxCycles);
      SessionsReplay(e, sessions[1..], maxCycles, at);
      ReplayedConcat(r.steps, e.emitted, WholePatches(e, sessions[1..], maxCycles));
    }
  }

  /** The patches of all sessions, one after the other, lead from the starting plan to the plan at the end. */
  lemma WholeRunReplays(r: Run, replies: seq<Reply>, sessions: seq<Session>, maxCycles: nat)
    requires CanStart(r) && NewRun(r, replies, maxCycles)
             && NewSessions(After(r, replies, maxCycles), sessions, maxCycles)
    ensures var first := After(r, replies, maxCycles);
            && r.emitted <= first.emitted
            && var patches := first.emitted[|r.emitted|..] + WholePatches(first, sessions, maxCycles);
               var e := Whole(first, sessions, maxCycles);
               Replayed(r.steps, patches) == e.steps && e.version == r.version + |patches|
  {
    StartIsSound(r);
    assert Good(r);
    hide CanStart, Sound, NewRun, NewSessions, Good;
    var first := After(r, replies, maxCycles);
    RunKeepsSound(r, replies, maxCycles, r.version + 3);
    ReplayTheorem(r, replies, maxCycles);
    SessionsReplay(first, sessions, maxCycles, r.version + 3);
    ReplayedConcat(r.steps, first.emitted[|r.emitted|..], WholePatches(first, sessions, maxCycles));
  }

  // ----- the budget of a whole run

  /** Nobody responds to a request that is denied by then. */
  ghost predicate SparesDenied(kind: Hitl.Kind, s: Hitl.RunState, answers: seq<Hitl.Op>)
    decreases answers
  {
    answers == []
    || ((answers[0].Respond? ==> !HitlService.DeniedIn(s.requests, answers[0].response.requestId))
        && SparesDenied(kind, Hitl.StepIn(kind, s, answers[0]), answers[1..]))
  }

  lemma AnswerKeepsCount(kind: Hitl.Kind, s: Hitl.RunState, op: Hitl.Op)
    requires Hitl.DistinctIds(s.requests) && !op.Raise?
    requires op.Respond? ==> !HitlService.DeniedIn(s.requests, op.response.requestId)
    ensures var t := Hitl.StepIn(kind, s, op);
            Hitl.DistinctIds(t.requests) && HitlService.Accepted(t.requests) <= HitlService.Accepted(s.requests)
  {
    var id := if op.Deny? then op.id else op.response.requestId;
    var status := if op.Deny? then Hitl.Denied else Hitl.Resolved;
    var reason := if op.Deny? then Some(op.reason) else None;
    var keep := op.Respond? && kind.InDatabase?;
    HitlService.RestatusedCount(s.requests, id, status, reason, keep);
    Hitl.RestatusedKeepsDistinct(s.requests, id, status, reason, keep);
    HitlService.DeniedIsKnown(s.requests, id);
    hide Hitl.Restatused, Hitl.FirstPending, Hitl.CountDenied, Hitl.Knows, HitlService.DeniedIn, Hitl.DistinctIds;
  }

  lemma {:induction false} AnswersKeepCount(kind: Hitl.Kind, s: Hitl.RunState, answers: seq<Hitl.Op>)
    requires Hitl.DistinctIds(s.requests) && SparesDenied(kind, s, answers) && forall op | op in answers :: !op.Raise?
    ensures var t := if kind.InMemory? then Hitl.MemoryAfter(s, answers) else Hitl.DatabaseAfter(s, answers);
            HitlService.Accepted(t.requests) <= HitlService.Accepted(s.requests)
    decreases answers
  {
    if answers == [] {
    } else {
      assert answers[0] in answers && forall op | op in answers[1..] :: op in answers;
      AnswerKeepsCount(kind, s, answers[0]);
      hide Hitl.DistinctIds, Hitl.MemoryStep, Hitl.DatabaseStep, HitlService.Accepted, HitlService.DeniedIn;
      AnswersKeepCount(kind, Hitl.StepIn(kind, s, answers[0]), answers[1..]);
    }
  }

  /** In no session does somebody respond to a denied request. */
  ghost predicate AllSpareDenied(r: Run, sessions: seq<Session>, maxCycles: nat)
    decreases sessions
  {
    sessions == [] || r.mode != Ended(AwaitingHuman)
    || (SparesDenied(sessions[0].repository, AtRest(sessions[0].repository, r.inbox.hitl), sessions[0].answers)
        && AllSpareDenied(After(Resumed(r, sessions[0]), sessions[0].replies, maxCycles), sessions[1..], maxCycles))
  }

  /** The state that the repository has when the operators' answers begin. */
  function AtRest(kind: Hitl.Kind, s: Hitl.RunState): Hitl.RunState {
    if kind.InMemory? then s else Hitl.Derived(s.requests, s.responses)
  }

  lemma ReloadedKeepsCount(r: Run, session: Session)
    requires Hitl.WellFormed(r.inbox.hitl) && OnlyAnswers(session)
    requires SparesDenied(session.repository, AtRest(session.repository, r.inbox.hitl), session.answers)
    ensures HitlService.Accepted(Reloaded(r, session).requests) <= HitlService.Accepted(r.inbox.hitl.requests)
  {
    hide Hitl.FirstPending, Hitl.CountDenied, HitlService.Accepted;
    AnswersKeepCount(session.repository, AtRest(session.repository, r.inbox.hitl), session.answers);
  }

  lemma ResumedInbox(r: Run, session: Session)
    ensures Resumed(r, session).inbox.hitl == Reloaded(r, session) && Resumed(r, session).inbox.limit == r.inbox.limit
  {
    hide Reloaded, Rule, PendingRecord;
  }

  lemma ResumedKeepsBudget(r: Run, session: Session, maxCycles: nat, base: nat, atStart: int)
    requires Sound(r, base) && r.mode == Ended(AwaitingHuman) && OnlyAnswers(session)
    requires NewRun(Resumed(r, session), session.replies, maxCycles)
    requires SparesDenied(session.repository, AtRest(session.repository, r.inbox.hitl), session.answers)
    requires HitlService.Accepted(r.inbox.hitl.requests) <= Max(atStart, r.inbox.limit)
    ensures var e := After(Resumed(r, session), session.replies, maxCycles);
            e.inbox.limit == r.inbox.limit && HitlService.Accepted(e.inbox.hitl.requests) <= Max(atStart, r.inbox.limit)
  {
    ReloadedKeepsCount(r, session);
    ResumedInbox(r, session);
    var next := Resumed(r, session);
    var _ := ResumedIsSound(r, session, base);
    if VerdictOn(r, session).Some? {
      hide Sound, Resumed, VerdictOn, Reloaded, SparesDenied, HitlService.Accepted;
      EndedStays(next, session.replies, maxCycles);
    } else {
      PausedCanStart(r, session, base);
      assert Attentive(next.inbox);
      hide Sound, Resumed, VerdictOn, Reloaded, SparesDenied, HitlService.Accepted, Attentive, CanStart;
      SessionKeepsBudget(next, session.replies, maxCycles, atStart);
    }
  }

  lemma {:induction false} SessionsKeepBudget(r: Run, sessions: seq<Session>, maxCycles: nat, base: nat, atStart: int)
    requires Sound(r, base) && NewSessions(r, sessions, maxCycles) && AllSpareDenied(r, sessions, maxCycles)
    requires HitlService.Accepted(r.inbox.hitl.requests) <= Max(atStart, r.inbox.limit)
    ensures HitlService.Accepted(Whole(r, sessions, maxCycles).inbox.hitl.requests) <= Max(atStart, r.inbox.limit)
    decreases sessions
  {
    if sessions == [] || r.mode != Ended(AwaitingHuman) {
    } else {
      hide Sound, Resumed, VerdictOn, OnlyAnswers, NewRun, SparesDenied, HitlService.Accepted;
      var at := ResumedIsSound(r, sessions[0], base);
      RunKeepsSound(Resumed(r, sessions[0]), sessions[0].replies, maxCycles, at);
      ResumedKeepsBudget(r, sessions[0], maxCycles, base, atStart);
      var e := After(Resumed(r, sessions[0]), sessions[0].replies, maxCycles);
      SessionsKeepBudget(e, sessions[1..], maxCycles, at, atStart);
    }
  }

  /**
    Over a whole run, pauses and answers included, the requests that are not denied never exceed the
    limit, or what there was at the start, provided nobody responds to a denied request.
   */
  lemma WholeRunKeepsBudget(r: Run, replies: seq<Reply>, sessions: seq<Session>, maxCycles: nat)
    requires CanStart(r) && NewRun(r, replies, maxCycles)
             && NewSessions(After(r, replies, maxCycles), sessions, maxCycles)
    requires AllSpareDenied(After(r, replies, maxCycles), sessions, maxCycles)
    ensures HitlService.Accepted(Whole(After(r, replies, maxCycles), sessions, maxCycles).inbox.hitl.requests)
            <= Max(HitlService.Accepted(r.inbox.hitl.requests), r.inbox.limit)
  {
    StartIsSound(r);
    assert Attentive(r.inbox);
    hide CanStart, Sound, NewRun, NewSessions, AllSpareDenied, Attentive, HitlService.Accepted;
    var atStart := HitlService.Accepted(r.inbox.hitl.requests);
    RunKeepsSound(r, replies, maxCycles, r.version + 3);
    SessionKeepsBudget(r, replies, maxCycles, atStart);
    SessionsKeepBudget(After(r, replies, maxCycles), sessions, maxCycles, r.version + 3, atStart);
  }

  // ----- the stored status

  datatype RunStatus = StoredCompleted | StoredFailed | StoredAwaitingHitl

  function StoredStatus(outcome: Outcome): RunStatus {
    match outcome
    case Completed => StoredCompleted
    case AwaitingHuman => StoredAwaitingHitl
    case RejectedByOperator(Failing) => StoredFailed
    case RejectedByOperator(Emitting) => StoredCompleted
  }

  /** What is stored at the end of a session: a rejection that only emits an event counts as completed. */
  lemma StoredStatusIff(outcome: Outcome)
    ensures StoredStatus(outcome) == StoredCompleted
            <==> outcome == Completed || outcome == RejectedByOperator(Emitting)
    ensures StoredStatus(outcome) == StoredFailed <==> outcome == RejectedByOperator(Failing)
    ensures StoredStatus(outcome) == StoredAwaitingHitl <==> outcome == AwaitingHuman
  {
  }

  lemma UnfinishedIsCounted(steps: seq<Step>)
    ensures SomeUnfinished(steps) ==> PendingIds(steps) != {} || InProgressIds(steps) != {}
  {
    if s :| s in steps && Unfinished(s) {
      assert s.id in PendingIds(steps) + InProgressIds(steps);
    }
  }

  ghost predicate LeavesWork(e: Run) {
    e.mode.Ended? && StoredStatus(e.mode.outcome) == StoredCompleted && SomeUnfinished(e.steps)
  }

  lemma OnlyEmittingLeavesWork(e: Run, base: nat)
    requires Sound(e, base)
    ensures LeavesWork(e) <==> e.mode == Ended(RejectedByOperator(Emitting))
  {
    UnfinishedIsCounted(e.steps);
    hide Good, OneInProgress, Safe, Attentive, InProgressIds, PendingIds, SomeUnfinished;
  }

  /** Some session of the run finds that the answers reject it with an event only. */
  ghost predicate EmitRuled(r: Run, sessions: seq<Session>, maxCycles: nat)
    decreases sessions
  {
    && sessions != [] && r.mode == Ended(AwaitingHuman)
    && (VerdictOn(r, sessions[0]) == Some(Emitting)
        || EmitRuled(After(Resumed(r, sessions[0]), sessions[0].replies, maxCycles), sessions[1..], maxCycles))
  }

  /**
    The engine stores a run as completed with specialist work left over if and only if a session
    begins with an answer that rejects the run and asks for an event only.
   */
  lemma {:induction false} CompletedWithWorkLeftIff(r: Run, sessions: seq<Session>, maxCycles: nat, base: nat)
    requires Sound(r, base) && !IsRejected(r.mode) && NewSessions(r, sessions, maxCycles)
    ensures LeavesWork(Whole(r, sessions, maxCycles)) <==> EmitRuled(r, sessions, maxCycles)
    decreases sessions
  {
    if sessions == [] || r.mode != Ended(AwaitingHuman) {
      OnlyEmittingLeavesWork(r, base);
    } else {
      var session := sessions[0];
      var next := Resumed(r, session);
      var at := ResumedIsSound(r, session, base);
      RunKeepsSound(next, session.replies, maxCycles, at);
      var e := After(next, session.replies, maxCycles);
      if VerdictOn(r, session).Some? {
        RejectedIsSound(r, session, base);
        hide Sound, Resumed, VerdictOn, LeavesWork;
        EndedStays(next, session.replies, maxCycles);
        OnlyEmittingLeavesWork(next, at);
        assert Whole(e, sessions[1..], maxCycles) == next;
      } else {
        hide Sound, Resumed, VerdictOn, LeavesWork;
        CompletedWithWorkLeftIff(e, sessions[1..], maxCycles, at);
      }
    }
  }

  /** A paused run with one step to do, whose request "a" is open. */
  function PausedRun(run: string, limit: int): Run {
    var hitl := Hitl.RunState([Hitl.Request("a", run, "g", Hitl.Pending, None)], [], Some("a"), 0);
    Run(1, [Generation(Pending)], [], ["g"], Ended(AwaitingHuman), false, Inbox(run, hitl, true, {}, limit))
  }

  lemma PausedRunIsSound(run: string, limit: int)
    ensures Sound(PausedRun(run, limit), 4)
  {
    var r := PausedRun(run, limit);
    assert r.steps[0] in r.steps && r.steps[0].id in PendingIds(r.steps);
    assert Ids(r.steps)[0] == "g";
    assert r.inbox.hitl.requests[0].status == Hitl.Pending;
    assert InProgressIds(r.steps) == {};
    assert InProgressIds(r.steps) <= {} + {""};
  }

  lemma OneAnswer(s: Hitl.RunState, op: Hitl.Op)
    ensures Hitl.DatabaseAfter(s, [op]) == Hitl.DatabaseStep(s, op)
  {
    assert [op][1..] == [];
    assert Hitl.DatabaseAfter(s, [op]) == Hitl.DatabaseAfter(Hitl.DatabaseStep(s, op), [op][1..]);
  }

  lemma RejectionIsRuled(run: string, limit: int, response: Hitl.Response)
    requires HitlHandlers.RejectsWithEvent(response) && response.requestId == "a"
    ensures VerdictOn(PausedRun(run, limit), Session(Hitl.InDatabase, [Hitl.Respond(response)], false, []))
            == Some(Emitting)
  {
    var r := PausedRun(run, limit);
    var session := Session(Hitl.InDatabase, [Hitl.Respond(response)], false, []);
    var stored := Hitl.Derived(r.inbox.hitl.requests, r.inbox.hitl.responses);
    OneAnswer(stored, Hitl.Respond(response));
    assert stored.requests[0].id == "a" && stored.requests[0] in stored.requests;
    HitlService.LastResponseDecides(Hitl.InDatabase, stored, response);
    Hitl.RestatusedAt(stored.requests, "a", Hitl.Resolved, None, true);
    HitlService.ActionIsSaid(response);
    hide HitlService.ResolveDecision, HitlService.ParseAction, Hitl.FirstPending, Hitl.CountDenied;
    var hitl := Reloaded(r, session);
    assert hitl == Hitl.DatabaseStep(stored, Hitl.Respond(response));
    assert |hitl.requests| == 1 && hitl.requests[0].status == Hitl.Resolved && hitl.requests[0].id == "a";
    assert RejectionOf(hitl, "a") == Some(Emitting);
    hide Reloaded, RejectionOf;
  }

  /** Such a run is stored as completed, its step still to do, when the answer rejects it and asks for an event only. */
  lemma EmittingRejectionLeavesWork(run: string, limit: int, response: Hitl.Response, maxCycles: nat)
    requires HitlHandlers.RejectsWithEvent(response) && response.requestId == "a"
    ensures var session := Session(Hitl.InDatabase, [Hitl.Respond(response)], false, []);
            LeavesWork(Whole(PausedRun(run, limit), [session], maxCycles))
  {
    var r, session := PausedRun(run, limit), Session(Hitl.InDatabase, [Hitl.Respond(response)], false, []);
    PausedRunIsSound(run, limit);
    RejectionIsRuled(run, limit, response);
    assert r.mode == Ended(AwaitingHuman) && OnlyAnswers(session);
    assert [session][0] == session;
    hide PausedRun, VerdictOn, Resumed, Sound, LeavesWork;
    assert NewSessions(After(Resumed(r, session), [], maxCycles), [session][1..], maxCycles);
    assert NewSessions(r, [session], maxCycles);
    assert EmitRuled(r, [session], maxCycles);
    CompletedWithWorkLeftIff(r, [session], maxCycles, 4);
  }

  /**
    The other writer of the status is the handler of answers: it stores a paused run as completed
    exactly when its last response rejects the request and asks for an event only. It stores nothing of
    the plan, in which specialist work is pending.
   */
  lemma HandlerCompletesPausedIff(e: Run, base: nat, kind: Hitl.Kind, s: HitlHandlers.System, id: string,
                                  responses: seq<Hitl.Response>)
    requires Sound(e, base) && e.mode == Ended(AwaitingHuman) && s.repo == e.inbox.hitl
    requires Hitl.Knows(s.repo.requests, id) && HitlHandlers.AllAnswer(responses, id)
    requires HitlHandlers.Resumed(kind, s, id, responses).Ok?
    ensures PendingIds(e.steps) != {} && SomeUnfinished(e.steps)
    ensures HitlHandlers.Resumed(kind, s, id, responses).value.saved.status == HitlRepositories.Completed
       <==> HitlHandlers.RejectsWithEvent(responses[|responses| - 1])
  {
    assert PendingIds(e.steps) != {} by { PausedHasWork(e); }
    PendingIsUnfinished(e.steps);
    hide HitlHandlers.Resumed, Sound;
    HitlHandlers.ResumeStoresStatusIff(kind, s, id, responses);
  }

  // ----- runs that begin with planning

  lemma PlannedMembers(r: Run, answer: Answer)
    requires r.steps == [] && IdsOk(FirstPatched(r, answer).steps)
    ensures var first := FirstPatched(r, answer);
            && (forall t | t in first.steps :: t in Planned(r, answer).steps)
            && (forall t | t in Planned(r, answer).steps :: t in first.steps || t.status == Pending)
  {
    var first := FirstPatched(r, answer);
    hide FirstPatched, HasCapabilitySteps, WithFallback, IdsOk, EnsureFinalize;
    EnsureFinalizeEffect(first);
    EnsureFinalizeKeepsIds(first);
    var r1 := EnsureFinalize(first);
    WithFallbackMembers(r1, Text.Decimal(r1.version + 1));
  }

  lemma WithFallbackMembers(r: Run, suffix: string)
    requires IdsOk(r.steps)
    ensures (forall t | t in r.steps :: t in WithFallback(r, suffix).steps)
    ensures (forall t | t in WithFallback(r, suffix).steps :: t in r.steps || t.status == Pending)
  {
    FallbackEffect(r, suffix);
    FallbackShape(suffix);
    FallbackKeepsIdsIff(r, suffix);
    hide Patched, Fallback, IdsOk, EnsureFinalize;
    EnsureFinalizeEffect(Patched(r, Fallback(suffix)));
  }

  lemma PlannedInProgress(r: Run, answer: Answer)
    requires r.steps == [] && IdsOk(FirstPatched(r, answer).steps)
    ensures InProgressIds(Planned(r, answer).steps) == InProgressIds(FirstPatched(r, answer).steps)
  {
    hide Planned, FirstPatched, IdsOk;
    PlannedMembers(r, answer);
  }

  lemma PlannedCanFinish(r: Run, answer: Answer)
    requires r.steps == [] && IdsOk(FirstPatched(r, answer).steps) && CanFinish(FirstPatched(r, answer))
    ensures CanFinish(Planned(r, answer))
  {
    var first := FirstPatched(r, answer);
    hide Planned, FirstPatched, IdsOk, IdsBelow, FinalizeReady;
    if AllFinalsPending(first.steps) {
      PlannedMembers(r, answer);
    } else {
      PlannedKeepsReady(r, answer);
    }
  }

  /** The planner's patch leads to a plan that a session can be started on. */
  ghost predicate CanPlan(r: Run, answer: Answer) {
    var first := FirstPatched(r, answer);
    && r.mode == Planning && r.steps == [] && Attentive(r.inbox)
    && IdsOk(first.steps) && CanFinish(first) && InProgressIds(first.steps) == {}
    && (r.inbox.awaiting ==> PendingIds(Planned(r, answer).steps) != {})
  }

  lemma PlannedCanStart(r: Run, answer: Answer)
    requires CanPlan(r, answer)
    ensures CanStart(Planned(r, answer))
  {
    PlannedIsGoodIff(r, answer);
    PlannedInProgress(r, answer);
    PlannedCanFinish(r, answer);
    hide Planned, FirstPatched, CanFinish, InProgressIds, Attentive;
  }

  /** The promises of a whole run, from its first planning on. */
  lemma FreshWholeRun(r: Run, answer: Answer, replies: seq<Reply>, sessions: seq<Session>, maxCycles: nat)
    requires CanPlan(r, answer)
    requires NewRun(Planned(r, answer), replies, maxCycles)
    requires NewSessions(After(Planned(r, answer), replies, maxCycles), sessions, maxCycles)
    ensures KeepsPromises(Planned(r, answer), Whole(After(Planned(r, answer), replies, maxCycles), sessions, maxCycles))
    ensures LeavesWork(Whole(After(Planned(r, answer), replies, maxCycles), sessions, maxCycles))
            <==> EmitRuled(After(Planned(r, answer), replies, maxCycles), sessions, maxCycles)
  {
    hide CanPlan, Planned;
    PlannedCanStart(r, answer);
    WorkLeftIff(Planned(r, answer), replies, sessions, maxCycles);
    WholeRun(Planned(r, answer), replies, sessions, maxCycles);
  }

  lemma WorkLeftIff(r: Run, replies: seq<Reply>, sessions: seq<Session>, maxCycles: nat)
    requires CanStart(r) && NewRun(r, replies, maxCycles)
             && NewSessions(After(r, replies, maxCycles), sessions, maxCycles)
    ensures LeavesWork(Whole(After(r, replies, maxCycles), sessions, maxCycles))
            <==> EmitRuled(After(r, replies, maxCycles), sessions, maxCycles)
  {
    StartIsSound(r);
    hide CanStart, Sound, NewRun, NewSessions;
    RunKeepsSound(r, replies, maxCycles, r.version + 3);
    CompletedWithWorkLeftIff(After(r, replies, maxCycles), sessions, maxCycles, r.version + 3);
  }

  /** At most the planned specialist steps and two steps per revision cycle are executed. */
  lemma FreshRunExecutesAtMost(r: Run, answer: Answer, replies: seq<Reply>, maxCycles: nat)
    requires r.mode == Planning && r.steps == [] && IdsOk(FirstPatched(r, answer).steps)
    ensures |After(Planned(r, answer), replies, maxCycles).executed| - |r.executed|
            <= |PendingIds(Planned(r, answer).steps)| + 2 * maxCycles
  {
    PlannedIsGoodIff(r, answer);
    hide Planned, FirstPatched;
    ExecutesAtMost(Planned(r, answer), replies, maxCycles);
  }

  /**
    A fresh run has at most one step in progress if and only if the planner adds none that is, or
    one and nothing to do.
   */
  lemma FreshRunInProgressIff(r: Run, answer: Answer, maxCycles: nat)
    requires r.mode == Planning && r.steps == [] && IdsOk(FirstPatched(r, answer).steps)
    ensures var planned, added := Planned(r, answer), InProgressIds(FirstPatched(r, answer).steps);
            (forall replies: seq<Reply> :: |InProgressIds(After(planned, replies, maxCycles).steps)| <= 1)
            <==> added == {} || (|added| == 1 && Stuck(planned))
  {
    PlannedIsGoodIff(r, answer);
    PlannedInProgress(r, answer);
    hide Planned, FirstPatched, InProgressIds, Stuck;
    AtMostOneInProgressIff(Planned(r, answer), maxCycles);
  }

  lemma AnyCapability(steps: seq<Step>, s: Step)
    requires s in steps && s.capability.GetOr("") != ""
    ensures HasCapabilitySteps(steps)
  {
  }

  /** A planner that calls one of two specialist steps active has two in progress once the other one begins. */
  lemma ActiveStepMakesTwo(r: Run, maxCycles: nat)
    requires r.mode == Planning && r.steps == []
    ensures var strategy := Step("s", Some("strategy"), false, None, Pending, None);
            var add := [Generation(InProgress), strategy, Final("f", Pending)];
            exists replies: seq<Reply> ::
              |InProgressIds(After(Planned(r, Answered(Some(Patch(add, [], [])))), replies, maxCycles).steps)| > 1
  {
    var add := [Generation(InProgress), Step("s", Some("strategy"), false, None, Pending, None), Final("f", Pending)];
    var answer := Answered(Some(Patch(add, [], [])));
    assert add[0].capability.GetOr("") != "" && add[0] in add && add[1] in add && add[2] in add && add[2].finalize;
    assert Ids(add)[0] == "g" && Ids(add)[1] == "s" && Ids(add)[2] == "f";
    assert InProgressIds(add) == {"g"};
    hide FirstPatched, Planned, InProgressIds, NextPending, HasCapabilitySteps;
    assert HasCapabilitySteps(add) by { AnyCapability(add, add[0]); }
    FirstSteps(r, add);
    NextPendingFound(add);
    FreshRunInProgressIff(r, answer, maxCycles);
  }

  // ----- the precondition on pending work is needed

  /** At most one finalize step is pending. */
  ghost predicate OneFinalPending(steps: seq<Step>) {
    forall s, t | s in steps && t in steps && s.finalize && t.finalize ::
      s.status == Pending && t.status == Pending ==> s == t
  }

  /**
    A session that finds a request pending but no specialist step to do pauses with a finalize step in
    progress; no later session can finish exactly when that was the only one pending.
   */
  lemma PauseWithoutWorkGetsStuckIff(r: Run, replies: seq<Reply>, session: Session, maxCycles: nat)
    requires Good(r) && r.mode == Planning && r.inbox.awaiting
    requires PendingIds(r.steps) == {} && PendingFinal(r.steps)
    requires |replies| == 3
    ensures var e := After(r, replies, maxCycles);
            && e.mode == Ended(AwaitingHuman) && e.executed == r.executed
            && (VerdictOn(e, session).None? ==> (Stuck(Resumed(e, session)) <==> OneFinalPending(r.steps)))
  {
    FinalIsNext(r.steps);
    var r1 := Advance(r, replies[0], maxCycles);
    AdvanceKeepsGood(r, replies[0], maxCycles);
    var s := BeginStep(r1, replies[1], maxCycles);
    var r2 := Advance(r1, replies[1], maxCycles);
    AdvanceKeepsGood(r1, replies[1], maxCycles);
    assert r1.steps == r.steps && s.finalize by { OnlyFinalsArePending(r.steps, s); }
    var _ := EndFinal(r2, replies[2], maxCycles);
    hide Advance, Good;
    AfterThree(r, replies, maxCycles);
    NothingLeftIff(r.steps, r2.steps, s);
    hide Reloaded, Rule, Opened, NextPending, OneFinalPending;
  }

  lemma FinalIsNext(steps: seq<Step>)
    requires PendingFinal(steps)
    ensures NextPending(steps).Some?
  {
    NextPendingFound(steps);
  }

  lemma OnlyFinalsArePending(steps: seq<Step>, s: Step)
    requires PendingIds(steps) == {} && s in steps && s.status == Pending
    ensures s.finalize
  {
    assert !s.finalize ==> s.id in PendingIds(steps);
  }

  lemma NothingLeftIff(a: seq<Step>, b: seq<Step>, s: Step)
    requires PendingIds(a) == {} && s in a && s.finalize && s.status == Pending
    requires Changed(a, b, s, InProgress)
    ensures (NextPending(b).None? <==> OneFinalPending(a)) && HasFinalize(b)
  {
    NextPendingFound(b);
    assert s.(status := InProgress) in b;
    hide NextPending;
    if OneFinalPending(a) {
      forall t | t in b ensures t.status != Pending {
        if t in a && t.status == Pending {
          OnlyFinalsArePending(a, t);
        }
      }
    } else {
      var t :| t in a && t.finalize && t.status == Pending && t != s;
      assert t in b;
    }
  }

  lemma AfterThree(r: Run, replies: seq<Reply>, maxCycles: nat)
    requires |replies| == 3
    ensures After(r, replies, maxCycles)
            == Advance(Advance(Advance(r, replies[0], maxCycles), replies[1], maxCycles), replies[2], maxCycles)
  {
    hide Advance;
    var r1 := Advance(r, replies[0], maxCycles);
    var r2 := Advance(r1, replies[1], maxCycles);
    assert After(r2, replies[1..][1..], maxCycles)
           == After(Advance(r2, replies[2], maxCycles), replies[1..][1..][1..], maxCycles);
    assert After(r1, replies[1..], maxCycles) == After(r2, replies[1..][1..], maxCycles);
  }
}
