/** The laws of a run: replay, termination, statuses, outcomes, and pausing and resuming. */
module EngineTheorems {
  import opened Wrappers
  import opened Plans
  import opened Engine
  import opened EngineRuns
  import opened Inboxes

  lemma {:induction false} EndedStays(r: Run, replies: seq<Reply>, maxCycles: nat)
    requires r.mode.Ended?
    ensures After(r, replies, maxCycles) == r
    decreases replies
  {
    if replies == [] {
    } else {
      EndedStays(r, replies[1..], maxCycles);
    }
  }

  // ----- replay

  function Replayed(steps: seq<Step>, patches: seq<Patch>): seq<Step> {
    if patches == [] then steps
    else Applied(Replayed(steps, patches[..|patches| - 1]), patches[|patches| - 1])
  }

  /** b is a later state of a: the patches emitted in between, and only they, lead from one plan to the other. */
  ghost predicate Extends(a: Run, b: Run) {
    && a.emitted <= b.emitted
    && b.version - a.version == |b.emitted| - |a.emitted|
    && Replayed(a.steps, b.emitted[|a.emitted|..]) == b.steps
  }

  lemma ExtendsSelf(a: Run, b: Run)
    requires a.emitted == b.emitted && a.version == b.version && a.steps == b.steps
    ensures Extends(a, b)
  {
  }

  lemma {:induction false} ReplayedConcat(steps: seq<Step>, p: seq<Patch>, q: seq<Patch>)
    ensures Replayed(steps, p + q) == Replayed(Replayed(steps, p), q)
    decreases q
  {
    if q == [] {
      assert p + q == p;
    } else {
      assert (p + q)[..|p + q| - 1] == p + q[..|q| - 1];
      ReplayedConcat(steps, p, q[..|q| - 1]);
    }
  }

  lemma ExtendsFurther(a: Run, b: Run, c: Run)
    requires Extends(a, b) && Extends(b, c)
    ensures Extends(a, c)
  {
    var p, q := b.emitted[|a.emitted|..], c.emitted[|b.emitted|..];
    assert c.emitted[|a.emitted|..] == p + q;
    ReplayedConcat(a.steps, p, q);
  }

  lemma EmittedExtends(r: Run, steps: seq<Step>, patch: Patch)
    requires Applied(r.steps, patch) == steps
    ensures Extends(r, Emitted(r.(steps := steps), patch))
  {
  }

  lemma {:induction false} SetFirstIsUpdate(steps: seq<Step>, id: string, status: Status, note: Option<string>)
    requires note != Some("")
    ensures SetFirst(steps, id, status, note) == UpdatedOnce(steps, Update(id, Some(status), note))
    decreases steps
  {
    if steps == [] {
    } else {
      SetFirstIsUpdate(steps[1..], id, status, note);
    }
  }

  lemma UpdatePatch(steps: seq<Step>, u: Update)
    ensures Applied(steps, Patch([], [u], [])) == UpdatedOnce(steps, u)
  {
    assert Updated(steps, [u]) == Updated(UpdatedOnce(steps, u), [u][1..]);
    KeptAllOrNone(UpdatedOnce(steps, u), []);
  }

  lemma SetStatusExtends(r: Run, id: string, status: Status)
    ensures Extends(r, SetStatus(r, id, status, None))
  {
    if id in Ids(r.steps) {
      SetFirstIsUpdate(r.steps, id, status, None);
      UpdatePatch(r.steps, Update(id, Some(status), None));
      EmittedExtends(r, SetFirst(r.steps, id, status, None), Patch([], [Update(id, Some(status), None)], []));
    } else {
      ExtendsSelf(r, r);
    }
  }

  lemma AddPatch(steps: seq<Step>, s: Step)
    ensures Applied(steps, Patch([s], [], [])) == if s.id in Ids(steps) then steps else steps + [s]
  {
    var r := Added(steps, [s]);
    assert [s][1..] == [];
    assert Added(steps + [s], []) == steps + [s] && Added(steps, []) == steps;
    assert Updated(r, []) == r;
    KeptAllOrNone(r, []);
  }

  /**
    The engine appends its finalize step without looking at the ids. A client that replays the
    event gets the same plan exactly when the id was free.
   */
  lemma EnsureFinalizeReplaysIff(r: Run)
    ensures Extends(r, EnsureFinalize(r)) <==> HasFinalize(r.steps) || FIRST_FINALIZE !in Ids(r.steps)
  {
    if HasFinalize(r.steps) {
      ExtendsSelf(r, r);
    } else {
      var last := FinalStep(FIRST_FINALIZE);
      var patch := Patch([last], [], []);
      var r' := EnsureFinalize(r);
      AddPatch(r.steps, last);
      if FIRST_FINALIZE !in Ids(r.steps) {
        EmittedExtends(r, r.steps + [last], patch);
      } else {
        assert r'.emitted[|r.emitted|..] == [patch];
        assert [patch][..0] == [];
        assert Replayed(r.steps, [patch]) == Applied(Replayed(r.steps, []), patch);
        assert |r'.steps| == |r.steps| + 1;
      }
    }
  }

  lemma PatchedExtends(r: Run, patch: Patch)
    ensures Extends(r, Patched(r, patch))
  {
  }

  lemma AddRevisionExtends(r: Run, maxCycles: nat)
    requires IdsOk(r.steps)
    ensures Extends(r, AddRevision(r, maxCycles))
  {
    hide Extends, IdsOk, Patched, Reposition, EnsureFinalize, RevisionPatch, RevisionCycles, HasFinalize;
    var cycles := RevisionCycles(r.steps);
    var mid := r;
    ExtendsSelf(r, r);
    if r.needsRevision && cycles < maxCycles {
      var patched := Patched(r, RevisionPatch(cycles + 1));
      PatchedExtends(r, RevisionPatch(cycles + 1));
      RevisionEffect(r, cycles + 1);
      mid := Reposition(patched);
      RepositionExtends(patched);
      RepositionEffect(patched);
      ExtendsFurther(r, patched, mid);
    }
    FirstFinalizeIsFree(mid.steps);
    EnsureFinalizeReplaysIff(mid);
    ExtendsFurther(r, mid, EnsureFinalize(mid));
  }

  lemma RepositionExtends(r: Run)
    ensures Extends(r, Reposition(r))
  {
  }

  lemma FirstFinalizeIsFree(steps: seq<Step>)
    requires IdsOk(steps)
    ensures HasFinalize(steps) || FIRST_FINALIZE !in Ids(steps)
  {
  }

  lemma AdvanceExtends(r: Run, reply: Reply, maxCycles: nat)
    requires Good(r)
    ensures Extends(r, Advance(r, reply, maxCycles))
  {
    hide SetStatus, AddRevision, EnsureFinalize, NextPending;
    ExtendsSelf(r, r);
    match r.mode
    case Planning =>
      FirstFinalizeIsFree(r.steps);
      EnsureFinalizeReplaysIff(r);
    case Stepping =>
      if NextPending(r.steps).Some? {
        SetStatusExtends(r, NextPending(r.steps).value.id, InProgress);
      }
    case Running(id) =>
      var r' := Noted(r, reply);
      SetStatusExtends(r', id, Pending);
      SetStatusExtends(r', id, Done);
    case Replanning => AddRevisionExtends(r, maxCycles);
    case Finalizing(id) => SetStatusExtends(r, id, Done);
    case Ended(_) =>
  }

  /** At every suspension point, replaying the emitted patches from the starting plan gives the engine's plan. */
  lemma {:induction false} ReplayTheorem(r: Run, replies: seq<Reply>, maxCycles: nat)
    requires Good(r)
    ensures Extends(r, After(r, replies, maxCycles)) && Good(After(r, replies, maxCycles))
    decreases replies
  {
    if replies == [] {
      ExtendsSelf(r, r);
    } else {
      hide Good, Extends, Advance;
      var next := Advance(r, replies[0], maxCycles);
      AdvanceExtends(r, replies[0], maxCycles);
      AdvanceKeepsGood(r, replies[0], maxCycles);
      ReplayTheorem(next, replies[1..], maxCycles);
      ExtendsFurther(r, next, After(r, replies, maxCycles));
    }
  }

  // ----- finalization stays reachable

  ghost predicate IdsBelow(r: Run, base: nat) {
    forall n: nat :: AutoFinalize(n) in Ids(r.steps) ==> n <= r.version || n <= base
  }

  function Slack(mode: Mode): nat {
    match mode
    case Replanning => 1
    case Running(_) => 2
    case _ => 3
  }

  /**
    Every finalize step is pending; or one of them is, and no step holds an id that the engine
    could still give to a finalize step of its own.
   */
  ghost predicate Safe(r: Run, base: nat) {
    || AllFinalsPending(r.steps)
    || (FinalizeReady(r.steps) && IdsBelow(r, base) && r.version + Slack(r.mode) >= base)
  }

  predicate InLoop(mode: Mode) {
    mode.Planning? || mode.Stepping? || mode.Running? || mode.Replanning?
  }

  lemma FirstFinalizeIsOne()
    ensures FIRST_FINALIZE == AutoFinalize(1)
  {
  }

  lemma ChangedIsSafe(r: Run, r': Run, s: Step, status: Status, base: nat)
    requires Safe(r, base) && s in r.steps && !s.finalize && Changed(r.steps, r'.steps, s, status)
    requires r'.version == r.version + 1 && Slack(r'.mode) + 1 >= Slack(r.mode)
    ensures Safe(r', base)
  {
  }

  lemma EnsureFinalizeIsSafe(r: Run, base: nat)
    requires IdsOk(r.steps) && Safe(r, base)
    ensures Safe(EnsureFinalize(r), base)
  {
  }

  lemma AddRevisionIsSafe(r: Run, maxCycles: nat, base: nat)
    requires IdsOk(r.steps) && r.mode == Replanning && Safe(r, base)
    ensures Safe(AddRevision(r, maxCycles).(mode := Planning), base)
  {
    if AllFinalsPending(r.steps) || !HasFinalize(r.steps) {
      AddRevisionEffect(r, maxCycles);
      hide AddRevision;
      assert AllFinalsPending(AddRevision(r, maxCycles).steps);
    } else {
      hide AddRevision, IdsOk;
      AddRevisionBesideDoneFinals(r, maxCycles, base);
    }
  }

  lemma AddRevisionBesideDoneFinals(r: Run, maxCycles: nat, base: nat)
    requires IdsOk(r.steps) && PendingFinal(r.steps) && IdsBelow(r, base) && r.version + 1 >= base
    ensures Safe(AddRevision(r, maxCycles).(mode := Planning), base)
  {
    hide Patched, Reposition, EnsureFinalize, RevisionPatch, RevisionCycles, IdsOk, IdsBelow, PendingFinal, Safe;
    var cycles := RevisionCycles(r.steps);
    var mid := r;
    if r.needsRevision && cycles < maxCycles {
      var patched := Patched(r, RevisionPatch(cycles + 1));
      RevisionIsSafe(r, cycles + 1, base);
      RevisionEffect(r, cycles + 1);
      PatchedVersion(r, RevisionPatch(cycles + 1));
      mid := Reposition(patched);
      RepositionEffect(patched);
      RepositionIsSafe(patched, base);
    } else {
      PendingFinalIsSafe(r, Planning, base);
    }
    EnsureFinalizeIsSafe(mid.(mode := Planning), base);
    EnsureFinalizeIgnoresMode(mid, Planning);
  }

  lemma PendingFinalIsSafe(r: Run, mode: Mode, base: nat)
    requires PendingFinal(r.steps) && IdsBelow(r, base) && r.version + Slack(mode) >= base
    ensures Safe(r.(mode := mode), base)
  {
  }

  lemma EnsureFinalizeIgnoresMode(r: Run, mode: Mode)
    ensures EnsureFinalize(r.(mode := mode)) == EnsureFinalize(r).(mode := mode)
  {
  }

  lemma RevisionIsSafe(r: Run, n: nat, base: nat)
    requires IdsOk(r.steps) && PendingFinal(r.steps) && IdsBelow(r, base)
    ensures var r' := Patched(r, RevisionPatch(n)); PendingFinal(r'.steps) && IdsBelow(r', base)
  {
    var r' := Patched(r, RevisionPatch(n));
    RevisionEffect(r, n);
    var p :| p in r.steps && p.finalize && p.status == Pending;
    hide Patched;
    assert p in r'.steps;
    forall k: nat | AutoFinalize(k) in Ids(r'.steps) ensures k <= r'.version || k <= base {
      InIds(r'.steps, AutoFinalize(k));
      InIds(r.steps, AutoFinalize(k));
      MintedIdsDiffer(n, k);
      var t :| t in r'.steps && t.id == AutoFinalize(k);
      assert t in r.steps;
      assert r'.version == r.version + 1 by { PatchedVersion(r, RevisionPatch(n)); }
    }
  }

  lemma PatchedVersion(r: Run, patch: Patch)
    ensures Patched(r, patch).version == r.version + 1 && Patched(r, patch).mode == r.mode
  {
  }

  lemma RepositionIsSafe(r: Run, base: nat)
    requires IdsOk(r.steps) && PendingFinal(r.steps) && IdsBelow(r, base) && r.version >= base
    ensures Safe(Reposition(r).(mode := Planning), base)
  {
    var r' := Reposition(r);
    RepositionEffect(r);
    if AutoFinalize(r.version + 1) in Ids(r.steps) {
      assert false;
    }
    forall k: nat | AutoFinalize(k) in Ids(r'.steps) ensures k <= r'.version || k <= base {
      InIds(r'.steps, AutoFinalize(k));
      InIds(r.steps, AutoFinalize(k));
      var t :| t in r'.steps && t.id == AutoFinalize(k);
      if t !in r.steps {
        AutoFinalizeInjective(k, r.version + 1);
      }
    }
  }

  lemma AdvanceIsSafe(r: Run, reply: Reply, maxCycles: nat, base: nat)
    requires Good(r) && InLoop(r.mode) && Safe(r, base)
    ensures var r' := Advance(r, reply, maxCycles);
            InLoop(r'.mode) || r'.mode == Ended(AwaitingHuman) ==> Safe(r', base)
  {
    hide Noted, VerdictAfter, SetStatus;
    var r' := Advance(r, reply, maxCycles);
    match r.mode
    case Planning =>
      if NextPending(r.steps).None? { EnsureFinalizeIsSafe(r, base); }
    case Stepping =>
      var s := BeginStep(r, reply, maxCycles);
      if !s.finalize { ChangedIsSafe(r, r', s, InProgress, base); }
    case Running(_) =>
      var s := EndStep(r, reply, maxCycles);
      if r'.mode.Replanning? { ChangedIsSafe(r, r', s, Done, base); }
      if r'.mode == Ended(AwaitingHuman) { ChangedIsSafe(r, r', s, Pending, base); }
    case Replanning => AddRevisionIsSafe(r, maxCycles, base);
  }

  // ----- every run ends

  /** A start from which finalization can be reached whatever happens. */
  ghost predicate CanFinish(r: Run) {
    AllFinalsPending(r.steps) || (FinalizeReady(r.steps) && IdsBelow(r, r.version + 3))
  }

  lemma {:induction false} EndsWithinMeasure(r: Run, replies: seq<Reply>, maxCycles: nat, base: nat)
    requires Good(r) && (InLoop(r.mode) ==> Safe(r, base)) && |replies| >= Measure(r, maxCycles)
    ensures After(r, replies, maxCycles).mode.Ended?
    decreases replies
  {
    if r.mode.Ended? {
      EndedStays(r, replies, maxCycles);
    } else {
      if Stuck(r) {
        NextPendingFound(r.steps);
        assert false;
      }
      hide Good, Safe, Advance, Measure;
      AdvanceProgress(r, replies[0], maxCycles);
      AdvanceKeepsGood(r, replies[0], maxCycles);
      MeasureIsPositive(r, maxCycles);
      if InLoop(r.mode) {
        AdvanceIsSafe(r, replies[0], maxCycles, base);
      } else {
        FinalizingEnds(r, replies[0], maxCycles);
      }
      EndsWithinMeasure(Advance(r, replies[0], maxCycles), replies[1..], maxCycles, base);
    }
  }

  lemma MeasureIsPositive(r: Run, maxCycles: nat)
    requires !r.mode.Ended?
    ensures Measure(r, maxCycles) > 0
  {
  }

  lemma FinalizingEnds(r: Run, reply: Reply, maxCycles: nat)
    requires Good(r) && r.mode.Finalizing?
    ensures Advance(r, reply, maxCycles).mode.Ended?
  {
  }

  /** Specialists that raise nothing, and a quality assurance that never objects. */
  function Quiet(n: nat): seq<Reply> {
    seq(n, i => Reply(false, []))
  }

  ghost predicate NoFinalPending(r: Run) {
    HasFinalize(r.steps) && !PendingFinal(r.steps)
  }

  /** No answer is awaited, and all answers are dealt with. */
  ghost predicate Unasked(r: Run) {
    !r.inbox.awaiting && AllProcessed(r.inbox.hitl, r.inbox.processed)
  }

  lemma {:induction false} QuietRunNeverEnds(r: Run, n: nat, maxCycles: nat)
    requires Good(r) && InLoop(r.mode) && NoFinalPending(r) && (r.mode.Replanning? ==> !r.needsRevision) && Unasked(r)
    ensures !After(r, Quiet(n), maxCycles).mode.Ended?
    decreases n
  {
    if n == 0 {
    } else {
      var next := Advance(r, Quiet(n)[0], maxCycles);
      assert Quiet(n)[1..] == Quiet(n - 1);
      QuietAdvance(r, maxCycles);
      AdvanceKeepsGood(r, Quiet(n)[0], maxCycles);
      hide Good, Advance, NoFinalPending, Unasked;
      QuietRunNeverEnds(next, n - 1, maxCycles);
    }
  }

  lemma QuietAdvance(r: Run, maxCycles: nat)
    requires Good(r) && InLoop(r.mode) && NoFinalPending(r) && (r.mode.Replanning? ==> !r.needsRevision) && Unasked(r)
    ensures var r' := Advance(r, Reply(false, []), maxCycles);
            InLoop(r'.mode) && NoFinalPending(r') && (r'.mode.Replanning? ==> !r'.needsRevision) && r'.inbox == r.inbox
  {
    var reply := Reply(false, []);
    var r' := Advance(r, reply, maxCycles);
    match r.mode
    case Planning =>
    case Stepping =>
      var s := BeginStep(r, reply, maxCycles);
      assert !s.finalize;
      SameFinals(r.steps, r'.steps, s, InProgress);
    case Running(_) =>
      var s := EndStep(r, reply, maxCycles);
      QuietEndStep(r, maxCycles);
      hide Advance, Unasked;
      SameFinals(r.steps, r'.steps, s, Done);
    case Replanning =>
  }

  lemma NotedQuietly(r: Run, objects: bool)
    requires Unasked(r)
    ensures Noted(r, Reply(objects, [])) == r.(needsRevision := objects) && VerdictAfter(r, Reply(objects, [])).None?
  {
    NothingToRule(r.inbox.hitl.requests, r.inbox.hitl, r.inbox.processed);
    assert AfterStep(r.inbox, []) == r.inbox;
    hide AfterStep, Evaluate;
  }

  lemma QuietEndStep(r: Run, maxCycles: nat)
    requires r.mode.Running? && Unasked(r)
    ensures var r' := Advance(r, Reply(false, []), maxCycles);
            r'.mode == Replanning && !r'.needsRevision && r'.inbox == r.inbox
  {
    hide Noted, VerdictAfter;
    NotedQuietly(r, false);
  }

  lemma SameFinals(a: seq<Step>, b: seq<Step>, s: Step, status: Status)
    requires s in a && !s.finalize && Changed(a, b, s, status)
    ensures HasFinalize(b) == HasFinalize(a) && PendingFinal(b) == PendingFinal(a)
  {
  }

  /** Every run that has made so many steps is over. */
  ghost predicate EndsWithin(r: Run, maxCycles: nat, bound: nat) {
    forall replies: seq<Reply> | |replies| >= bound :: After(r, replies, maxCycles).mode.Ended?
  }

  /** Whatever the finalize steps' ids: when all of them are pending, every run ends. */
  lemma EndsWhenFinalsArePending(r: Run, maxCycles: nat)
    requires Good(r) && r.mode == Planning && CanFinish(r)
    ensures EndsWithin(r, maxCycles, Measure(r, maxCycles))
  {
    forall replies: seq<Reply> | |replies| >= Measure(r, maxCycles)
      ensures After(r, replies, maxCycles).mode.Ended?
    {
      EndsWithinMeasure(r, replies, maxCycles, r.version + 3);
    }
  }

  /** A session that finds a request pending stops after its first specialist step. */
  lemma PausesAtOnce(r: Run, replies: seq<Reply>, maxCycles: nat)
    requires Good(r) && r.mode == Planning && Attentive(r.inbox) && r.inbox.awaiting && PendingIds(r.steps) != {}
    requires |replies| >= 3
    ensures After(r, replies, maxCycles).mode.Ended?
  {
    var r1 := Advance(r, replies[0], maxCycles);
    SpecialistIsNext(r.steps);
    NextPendingFound(r.steps);
    AdvanceKeepsGood(r, replies[0], maxCycles);
    var s := BeginStep(r1, replies[1], maxCycles);
    var r2 := Advance(r1, replies[1], maxCycles);
    assert r2.mode.Running? && r2.inbox == r.inbox;
    PendingIsFound(r.inbox.hitl);
    AwaitedStaysAfterStep(r.inbox, replies[2].asks);
    AwaitedStepEnds(r2, replies[2], maxCycles);
    var r3 := Advance(r2, replies[2], maxCycles);
    hide Advance, Attentive, Good;
    EndedStays(r3, replies[3..], maxCycles);
    assert replies[1..][1..] == replies[2..] && replies[2..][1..] == replies[3..];
    assert After(r1, replies[1..], maxCycles) == After(r2, replies[2..], maxCycles);
  }

  lemma SpecialistIsNext(steps: seq<Step>)
    requires PendingIds(steps) != {}
    ensures NextPending(steps).Some? && !NextPending(steps).value.finalize
  {
    var id :| id in PendingIds(steps);
    var s :| s in steps && IsPendingSpecialist(s) && s.id == id;
    NextPendingFound(steps);
  }

  lemma AwaitedStepEnds(r: Run, reply: Reply, maxCycles: nat)
    requires r.mode.Running? && AfterStep(r.inbox, reply.asks).awaiting
    ensures Advance(r, reply, maxCycles).mode.Ended?
  {
  }

  /** A step of the session can run although no finalize step is pending, and stops it because a request is. */
  ghost predicate WillPause(r: Run) {
    r.inbox.awaiting && PendingIds(r.steps) != {}
  }

  /**
    When no step holds an id that the engine could still mint: every behaviour of the specialists,
    of the quality assurance and of the operators leads to an end exactly when the plan has a pending
    finalize step or none at all, or when a request is pending and stops the first specialist step.
    Otherwise a run exists that plans for ever.
   */
  lemma EndsIffFinalizeReady(r: Run, maxCycles: nat)
    requires Good(r) && r.mode == Planning && IdsBelow(r, r.version + 3) && Attentive(r.inbox)
    ensures (exists bound: nat :: EndsWithin(r, maxCycles, bound)) <==> FinalizeReady(r.steps) || WillPause(r)
  {
    hide Attentive, Good, IdsBelow;
    if FinalizeReady(r.steps) {
      EndsWhenFinalsArePending(r, maxCycles);
    } else if WillPause(r) {
      forall replies: seq<Reply> | |replies| >= 3 ensures After(r, replies, maxCycles).mode.Ended? {
        PausesAtOnce(r, replies, maxCycles);
      }
      assert EndsWithin(r, maxCycles, 3);
    } else if bound: nat :| EndsWithin(r, maxCycles, bound) {
      assert After(r, Quiet(bound), maxCycles).mode.Ended?;
      if r.inbox.awaiting {
        NextIsPending(r.steps);
        StuckForEver(r, Quiet(bound), maxCycles);
      } else {
        AttentiveIsUnasked(r);
        QuietRunNeverEnds(r, bound, maxCycles);
      }
    }
  }

  lemma AttentiveIsUnasked(r: Run)
    requires Attentive(r.inbox) && !r.inbox.awaiting
    ensures Unasked(r)
  {
  }

  lemma NextIsPending(steps: seq<Step>)
    ensures NextPending(steps).Some? ==> PendingIds(steps) != {} || PendingFinal(steps)
  {
    NextPendingFound(steps);
    if NextPending(steps).Some? {
      var s := NextPending(steps).value;
      assert !s.finalize ==> s.id in PendingIds(steps);
    }
  }

  lemma {:induction false} StuckForEver(r: Run, replies: seq<Reply>, maxCycles: nat)
    requires Stuck(r)
    ensures After(r, replies, maxCycles) == r
    decreases replies
  {
    if replies == [] {
    } else {
      StuckStays(r, replies[0], maxCycles);
      StuckForEver(r, replies[1..], maxCycles);
    }
  }

  // ----- how much is executed

  lemma {:induction false} ExecutedWork(r: Run, replies: seq<Reply>, maxCycles: nat)
    requires Good(r)
    ensures var r' := After(r, replies, maxCycles);
            && |r'.executed| <= |r.executed| + (if r.mode.Ended? then 0 else Work(r.steps, maxCycles))
            && (!r'.mode.Ended? ==>
                  |r'.executed| + Work(r'.steps, maxCycles) == |r.executed| + Work(r.steps, maxCycles))
    decreases replies
  {
    if r.mode.Ended? {
      EndedStays(r, replies, maxCycles);
    } else if replies != [] {
      var next := Advance(r, replies[0], maxCycles);
      AdvanceWork(r, replies[0], maxCycles);
      AdvanceKeepsGood(r, replies[0], maxCycles);
      hide Good, Advance, Work;
      ExecutedWork(next, replies[1..], maxCycles);
      if next.mode.Ended? {
        EndedStays(next, replies[1..], maxCycles);
      }
    }
  }

  /** At most the initially pending specialist steps and two steps per revision cycle are executed. */
  lemma ExecutesAtMost(r: Run, replies: seq<Reply>, maxCycles: nat)
    requires IsStart(r) && IdsOk(r.steps)
    ensures |After(r, replies, maxCycles).executed| - |r.executed| <= |PendingIds(r.steps)| + 2 * maxCycles
  {
    ExecutedWork(r, replies, maxCycles);
    var rev := RevIds(maxCycles);
    assert rev == (rev - SpecialistIds(r.steps)) + (rev * SpecialistIds(r.steps));
  }

  /** In state s it is the turn of a specialist step with the id, and so many steps were executed before. */
  ghost predicate HasItsTurn(s: Run, id: string, before: nat) {
    && s.mode == Stepping && |s.executed| == before
    && exists i | 0 <= i < |s.steps| :: ComesNext(s.steps, i) && !s.steps[i].finalize && s.steps[i].id == id
  }

  /** The run enters step s: finalization, or a specialist that is put to work. */
  ghost predicate Enters(r: Run, r': Run, s: Step) {
    if s.finalize then r'.mode == Finalizing(s.id) && r'.executed == r.executed
    else r'.mode == Running(s.id) && r'.executed == r.executed + [s.id]
  }

  /** Entering a step: the one whose turn it is, unless none is pending. */
  lemma EntersNext(r: Run, reply: Reply, maxCycles: nat)
    requires r.mode == Stepping
    ensures var r' := Advance(r, reply, maxCycles);
            || (r' == r && forall i | 0 <= i < |r.steps| :: r.steps[i].status != Pending)
            || (exists i | 0 <= i < |r.steps| :: ComesNext(r.steps, i) && Enters(r, r', r.steps[i]))
  {
    NextPendingComesNext(r.steps);
    hide SetFirst, ComesNext, NextPending;
    var next := NextPending(r.steps);
    if next.Some? {
      var i: nat :| i < |r.steps| && ComesNext(r.steps, i) && next.value == r.steps[i];
      assert Enters(r, Advance(r, reply, maxCycles), r.steps[i]);
    }
  }

  lemma OnlySteppingExecutes(r: Run, reply: Reply, maxCycles: nat)
    ensures r.mode != Stepping ==> Advance(r, reply, maxCycles).executed == r.executed
    ensures r.executed <= Advance(r, reply, maxCycles).executed
    ensures |Advance(r, reply, maxCycles).executed| <= |r.executed| + 1
  {
    hide NextPending, Applied, AfterStep, Rule, SetFirst;
  }

  lemma {:induction false} ExecutedGrows(r: Run, replies: seq<Reply>, maxCycles: nat)
    ensures r.executed <= After(r, replies, maxCycles).executed
    decreases replies
  {
    if replies == [] {
    } else {
      OnlySteppingExecutes(r, replies[0], maxCycles);
      hide Advance;
      ExecutedGrows(Advance(r, replies[0], maxCycles), replies[1..], maxCycles);
    }
  }

  /** Every step was executed when its turn came: no pending specialist step stood before it. */
  lemma {:induction false} ExecutedInTurn(r: Run, replies: seq<Reply>, maxCycles: nat, k: nat)
    requires |r.executed| <= k < |After(r, replies, maxCycles).executed|
    ensures exists n | 0 <= n < |replies| ::
              HasItsTurn(After(r, replies[..n], maxCycles), After(r, replies, maxCycles).executed[k], k)
    decreases replies
  {
    if replies == [] {
    } else {
      var next := Advance(r, replies[0], maxCycles);
      OnlySteppingExecutes(r, replies[0], maxCycles);
      ExecutedGrows(next, replies[1..], maxCycles);
      if r.mode == Stepping { EntersNext(r, replies[0], maxCycles); }
      hide Advance, ComesNext;
      if k < |next.executed| {
        assert After(r, replies[..0], maxCycles) == r;
        assert HasItsTurn(After(r, replies[..0], maxCycles), After(r, replies, maxCycles).executed[k], k);
      } else {
        hide HasItsTurn;
        ExecutedInTurn(next, replies[1..], maxCycles, k);
        var id := After(next, replies[1..], maxCycles).executed[k];
        var n: nat :| n < |replies[1..]| && HasItsTurn(After(next, replies[1..][..n], maxCycles), id, k);
        assert replies[..n + 1][0] == replies[0] && replies[..n + 1][1..] == replies[1..][..n];
        assert After(r, replies[..n + 1], maxCycles) == After(next, replies[1..][..n], maxCycles);
      }
    }
  }

  // ----- statuses

  lemma DoneIsStable(a: seq<Step>, b: seq<Step>, more: seq<Step>)
    requires Evolves(a, b, more)
    ensures DoneIds(a) <= DoneIds(b)
    ensures (forall t | t in more :: t.status != Done) ==> DoneIds(b) == DoneIds(a)
  {
  }

  /** A step that is done stays done, and none becomes done while a request awaits an answer. */
  lemma AdvanceDone(r: Run, reply: Reply, maxCycles: nat)
    requires Good(r)
    ensures var r' := Advance(r, reply, maxCycles);
            DoneIds(r.steps) <= DoneIds(r'.steps) && (r'.inbox.awaiting ==> DoneIds(r'.steps) == DoneIds(r.steps))
  {
    var r' := Advance(r, reply, maxCycles);
    hide SetStatus, AddRevision, Noted, VerdictAfter;
    match r.mode
    case Planning =>
      EnsureFinalizeEffect(r);
      DoneIsStable(r.steps, EnsureFinalize(r).steps, []);
    case Stepping =>
      var s := BeginStep(r, reply, maxCycles);
      ChangedDone(r.steps, r'.steps, s, InProgress);
      NotIn(r.steps, s, Done);
    case Running(_) =>
      var s := EndStep(r, reply, maxCycles);
      NotIn(r.steps, s, Done);
      if r'.mode.Replanning? { ChangedDone(r.steps, r'.steps, s, Done); }
      if r'.mode == Ended(AwaitingHuman) { ChangedDone(r.steps, r'.steps, s, Pending); }
    case Replanning =>
      AddRevisionEffect(r, maxCycles);
      DoneIsStable(r.steps, r'.steps, Revisions(r, maxCycles));
    case Finalizing(_) =>
      var s := EndFinal(r, reply, maxCycles);
      NotIn(r.steps, s, Done);
      if r'.mode == Ended(Completed) { ChangedDone(r.steps, r'.steps, s, Done); }
    case Ended(_) =>
  }

  /** A step with another status is the only one with its id. */
  lemma NotIn(steps: seq<Step>, s: Step, status: Status)
    requires Distinct(Ids(steps)) && s in steps && s.status != status
    ensures forall t | t in steps :: t.status == status ==> t.id != s.id
  {
  }

  lemma {:induction false} DoneStaysDone(r: Run, replies: seq<Reply>, maxCycles: nat)
    requires Good(r)
    ensures DoneIds(r.steps) <= DoneIds(After(r, replies, maxCycles).steps)
    decreases replies
  {
    if replies == [] {
    } else {
      AdvanceDone(r, replies[0], maxCycles);
      AdvanceKeepsGood(r, replies[0], maxCycles);
      hide Good, Advance, DoneIds;
      DoneStaysDone(Advance(r, replies[0], maxCycles), replies[1..], maxCycles);
    }
  }

  function Current(mode: Mode): set<string> {
    match mode
    case Running(id) => {id}
    case Finalizing(id) => {id}
    case _ => {}
  }

  lemma InProgressShrinks(a: seq<Step>, b: seq<Step>, more: seq<Step>)
    requires Evolves(a, b, more) && forall t | t in more :: t.status == Pending
    ensures InProgressIds(b) <= InProgressIds(a)
  {
  }

  /** Besides the steps that were in progress at the start, only the current one is. */
  ghost predicate OneInProgress(r: Run, atStart: set<string>) {
    if r.mode.Ended? then
      exists id :: InProgressIds(r.steps) <= atStart + {id}
    else InProgressIds(r.steps) <= atStart + Current(r.mode)
  }

  lemma AdvanceInProgress(r: Run, reply: Reply, maxCycles: nat, atStart: set<string>)
    requires Good(r) && OneInProgress(r, atStart)
    ensures var r' := Advance(r, reply, maxCycles);
            && OneInProgress(r', atStart)
            && (r'.mode == Ended(Completed) && !r.mode.Ended? ==> InProgressIds(r'.steps) <= atStart)
            && (r'.mode == Ended(AwaitingHuman) && r.mode.Running? ==> InProgressIds(r'.steps) <= atStart)
  {
    var r' := Advance(r, reply, maxCycles);
    hide SetStatus, AddRevision, InProgressIds, Noted, VerdictAfter;
    match r.mode
    case Planning =>
      EnsureFinalizeEffect(r);
      InProgressShrinks(r.steps, EnsureFinalize(r).steps, []);
    case Stepping =>
      var s := BeginStep(r, reply, maxCycles);
      ChangedInProgress(r.steps, r'.steps, s, InProgress);
    case Running(id) =>
      var s := EndStep(r, reply, maxCycles);
      if r'.mode.Replanning? { ChangedInProgress(r.steps, r'.steps, s, Done); }
      if r'.mode == Ended(AwaitingHuman) { ChangedInProgress(r.steps, r'.steps, s, Pending); }
      assert r'.mode.Ended? ==> InProgressIds(r'.steps) <= atStart + {id};
    case Replanning =>
      AddRevisionEffect(r, maxCycles);
      InProgressShrinks(r.steps, r'.steps, Revisions(r, maxCycles));
    case Finalizing(id) =>
      var s := EndFinal(r, reply, maxCycles);
      if r'.mode == Ended(Completed) { ChangedInProgress(r.steps, r'.steps, s, Done); }
      assert InProgressIds(r'.steps) <= atStart + {id};
    case Ended(_) =>
  }

  lemma {:induction false} AtMostOneInProgress(r: Run, replies: seq<Reply>, maxCycles: nat, atStart: set<string>)
    requires Good(r) && OneInProgress(r, atStart)
    ensures OneInProgress(After(r, replies, maxCycles), atStart)
    ensures atStart == {} ==> |InProgressIds(After(r, replies, maxCycles).steps)| <= 1
    decreases replies
  {
    if replies == [] {
      if atStart == {} {
        var id :| InProgressIds(r.steps) <= {id} by {
          if !r.mode.Ended? && Current(r.mode) == {} { assert InProgressIds(r.steps) <= {""}; }
        }
        if InProgressIds(r.steps) != {} { assert InProgressIds(r.steps) == {id}; }
      }
    } else {
      AdvanceInProgress(r, replies[0], maxCycles, atStart);
      AdvanceKeepsGood(r, replies[0], maxCycles);
      hide Good, Advance, OneInProgress, InProgressIds;
      AtMostOneInProgress(Advance(r, replies[0], maxCycles), replies[1..], maxCycles, atStart);
    }
  }

  lemma AdvanceTwice(r: Run, a: Reply, b: Reply, maxCycles: nat)
    ensures After(r, [a, b], maxCycles) == Advance(Advance(r, a, maxCycles), b, maxCycles)
  {
    hide Advance;
    var next := Advance(r, a, maxCycles);
    assert [a, b][1..] == [b] && [b][1..] == [];
    assert After(next, [b], maxCycles) == After(Advance(next, b, maxCycles), [], maxCycles);
  }

  /** A next step joins the steps that are in progress already. */
  lemma AnotherInProgress(r: Run, maxCycles: nat)
    requires Good(r) && r.mode == Planning && NextPending(r.steps).Some? && |InProgressIds(r.steps)| == 1
    ensures |InProgressIds(After(r, Quiet(2), maxCycles).steps)| == 2
  {
    var reply := Reply(false, []);
    assert Quiet(2) == [reply, reply];
    AdvanceTwice(r, reply, reply, maxCycles);
    var r1 := Advance(r, reply, maxCycles);
    AdvanceKeepsGood(r, reply, maxCycles);
    var s := BeginStep(r1, reply, maxCycles);
    OtherStepsDiffer(r.steps, s);
    hide Advance, Good, After;
    ChangedInProgress(r.steps, Advance(r1, reply, maxCycles).steps, s, InProgress);
    assert s.id !in InProgressIds(r.steps);
  }

  lemma FinalizeJoins(r: Run, maxCycles: nat)
    requires Good(r) && r.mode == Planning && NextPending(r.steps).None? && !HasFinalize(r.steps)
    ensures var r' := Advance(r, Reply(false, []), maxCycles);
            && Good(r') && r'.mode == Planning && NextPending(r'.steps).Some?
            && InProgressIds(r'.steps) == InProgressIds(r.steps)
  {
    var reply := Reply(false, []);
    AdvanceKeepsGood(r, reply, maxCycles);
    EnsureFinalizeEffect(r);
    var r' := EnsureFinalize(r);
    var last := FinalStep(FIRST_FINALIZE);
    hide Good, IdsOk;
    assert r'.mode == r.mode;
    assert last in r'.steps && last.status == Pending;
    NextPendingFound(r'.steps);
  }

  /**
    At most one step is in progress at every suspension point if and only if none is at the start, or
    one is and the run cannot take another step. A planner may well add steps that are in progress.
   */
  lemma AtMostOneInProgressIff(r: Run, maxCycles: nat)
    requires IsStart(r) && IdsOk(r.steps)
    ensures (forall replies: seq<Reply> :: |InProgressIds(After(r, replies, maxCycles).steps)| <= 1)
            <==> InProgressIds(r.steps) == {} || (|InProgressIds(r.steps)| == 1 && Stuck(r))
  {
    hide InProgressIds;
    if InProgressIds(r.steps) == {} {
      forall replies: seq<Reply> ensures |InProgressIds(After(r, replies, maxCycles).steps)| <= 1 {
        AtMostOneInProgress(r, replies, maxCycles, {});
      }
    } else if |InProgressIds(r.steps)| == 1 && Stuck(r) {
      forall replies: seq<Reply> ensures |InProgressIds(After(r, replies, maxCycles).steps)| <= 1 {
        StuckForEver(r, replies, maxCycles);
      }
    } else {
      var replies := TwoInProgress(r, maxCycles);
      assert |InProgressIds(After(r, replies, maxCycles).steps)| > 1;
    }
  }

  lemma TwoInProgress(r: Run, maxCycles: nat) returns (replies: seq<Reply>)
    requires IsStart(r) && IdsOk(r.steps) && InProgressIds(r.steps) != {}
             && !(|InProgressIds(r.steps)| == 1 && Stuck(r))
    ensures |InProgressIds(After(r, replies, maxCycles).steps)| > 1
  {
    hide InProgressIds;
    if |InProgressIds(r.steps)| > 1 {
      replies := [];
    } else if NextPending(r.steps).Some? {
      replies := Quiet(2);
      AnotherInProgress(r, maxCycles);
    } else {
      var reply := Reply(false, []);
      replies := [reply] + Quiet(2);
      FinalizeJoins(r, maxCycles);
      AnotherInProgress(Advance(r, reply, maxCycles), maxCycles);
      assert replies[1..] == Quiet(2);
    }
  }
}
