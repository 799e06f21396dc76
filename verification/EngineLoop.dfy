/** The engine itself: it updates its plan in place and runs the loop, as one computes with runs. */
module EngineLoop {
  import opened Wrappers
  import opened Text
  import opened Plans
  import opened Engine
  import opened EngineRuns
  import opened EngineTheorems
  import opened EnginePlanning
  import opened EngineSessions
  import opened Inboxes
  import Hitl
  import HitlService

  datatype State = PlanState | StepState | ReplanState

  /** How the step state is left: into finalization, by a rejection, by a pause, or with the step done. */
  datatype Taken = Entered(id: string) | Stopped(how: Verdict) | Paused | Through

  function ModeAfter(taken: Taken): Mode {
    match taken
    case Entered(id) => Finalizing(id)
    case Stopped(how) => Ended(RejectedByOperator(how))
    case Paused => Ended(AwaitingHuman)
    case Through => Replanning
  }

  function ModeOf(state: State): Mode {
    match state
    case PlanState => Planning
    case StepState => Stepping
    case ReplanState => Replanning
  }

  /** The first n replies of an environment that answers at every suspension point. */
  function Prefix(env: nat -> Reply, n: nat): seq<Reply> {
    seq(n, i requires i >= 0 => env(i))
  }

  lemma {:induction false} AfterSnoc(r: Run, replies: seq<Reply>, reply: Reply, maxCycles: nat)
    ensures After(r, replies + [reply], maxCycles) == Advance(After(r, replies, maxCycles), reply, maxCycles)
    decreases replies
  {
    hide Advance;
    if replies == [] {
      assert [] + [reply] == [reply];
      assert [reply][1..] == [];
      assert After(r, [reply], maxCycles) == After(Advance(r, reply, maxCycles), [], maxCycles);
    } else {
      assert (replies + [reply])[1..] == replies[1..] + [reply];
      AfterSnoc(Advance(r, replies[0], maxCycles), replies[1..], reply, maxCycles);
    }
  }

  lemma NextOf(first: Run, env: nat -> Reply, n: nat, r: Run, maxCycles: nat)
    requires r == After(first, Prefix(env, n), maxCycles)
    ensures Advance(r, env(n), maxCycles) == After(first, Prefix(env, n + 1), maxCycles)
  {
    assert Prefix(env, n + 1) == Prefix(env, n) + [env(n)];
    AfterSnoc(first, Prefix(env, n), env(n), maxCycles);
  }

  lemma NotStuck(r: Run, base: nat)
    requires Safe(r, base) && r.mode.Planning?
    ensures !Stuck(r)
  {
    if Stuck(r) {
      NextPendingFound(r.steps);
    }
  }

  /** One suspension point inside the loop: nothing is lost, and the end is nearer. */
  lemma StepForward(first: Run, env: nat -> Reply, n: nat, r: Run, maxCycles: nat, base: nat) returns (next: Run)
    requires r == After(first, Prefix(env, n), maxCycles)
    requires Good(r) && InLoop(r.mode) && Safe(r, base)
    ensures next == Advance(r, env(n), maxCycles) == After(first, Prefix(env, n + 1), maxCycles)
    ensures Good(next) && (InLoop(next.mode) ==> Safe(next, base))
    ensures Measure(next, maxCycles) < Measure(r, maxCycles)
  {
    next := Advance(r, env(n), maxCycles);
    hide After, Advance, Good, Safe, Measure;
    NextOf(first, env, n, r, maxCycles);
    if r.mode.Planning? { NotStuck(r, base); }
    AdvanceProgress(r, env(n), maxCycles);
    AdvanceKeepsGood(r, env(n), maxCycles);
    AdvanceIsSafe(r, env(n), maxCycles, base);
  }

  lemma SetFirstIsAssignment(steps: seq<Step>, i: nat, status: Status, note: Option<string>)
    requires i < |steps| && forall j | 0 <= j < i :: steps[j].id != steps[i].id
    ensures SetFirst(steps, steps[i].id, status, note) == steps[i := WithStatus(steps[i], status, note)]
  {
    SetFirstAt(steps, steps[i].id, status, note);
    hide SetFirst;
    var r := SetFirst(steps, steps[i].id, status, note);
    forall k | 0 <= k < |steps| ensures r[k] == steps[i := WithStatus(steps[i], status, note)][k] {
      assert k > i && steps[k].id == steps[i].id ==> !FirstAt(steps, k);
    }
  }

  lemma StartIsSafe(r: Run, env: nat -> Reply, maxCycles: nat)
    requires Good(r) && r.mode == Planning && CanFinish(r)
    ensures Safe(r, r.version + 3) && r == After(r, Prefix(env, 0), maxCycles)
  {
  }

  lemma SteppingHasNext(r: Run)
    requires Good(r) && r.mode == Stepping
    ensures NextPending(r.steps).Some?
  {
  }

  lemma PatchedIgnoresMode(r: Run, mode: Mode, patch: Patch)
    ensures Patched(r.(mode := mode), patch) == Patched(r, patch).(mode := mode)
  {
  }

  lemma RepositionIgnoresMode(r: Run, mode: Mode)
    ensures Reposition(r.(mode := mode)) == Reposition(r).(mode := mode)
  {
    hide Patched;
    PatchedIgnoresMode(r, mode, Patch([FinalStep(AutoFinalize(r.version + 1))], [], OpenFinals(r.steps)));
  }

  lemma AddRevisionIgnoresMode(r: Run, mode: Mode, maxCycles: nat)
    ensures AddRevision(r.(mode := mode), maxCycles) == AddRevision(r, maxCycles).(mode := mode)
  {
    hide Patched, Reposition, EnsureFinalize, RevisionPatch, RevisionCycles;
    var patch := RevisionPatch(RevisionCycles(r.steps) + 1);
    PatchedIgnoresMode(r, mode, patch);
    RepositionIgnoresMode(Patched(r, patch), mode);
    EnsureFinalizeIgnoresMode(r, mode);
    EnsureFinalizeIgnoresMode(Reposition(Patched(r, patch)), mode);
  }

  // ----- the cases of Advance, for states that differ from Now() in the mode only

  lemma PlanningAdvance(r: Run, reply: Reply, maxCycles: nat)
    requires r.mode == Planning
    ensures Advance(r, reply, maxCycles)
            == if NextPending(r.steps).None? then EnsureFinalize(r) else r.(mode := Stepping)
  {
  }

  lemma SteppingAdvance(r: Run, reply: Reply, maxCycles: nat)
    requires r.mode == Planning && NextPending(r.steps).Some?
    ensures var s := NextPending(r.steps).value;
            var r' := SetStatus(r, s.id, InProgress, None);
            Advance(r.(mode := Stepping), reply, maxCycles)
            == if s.finalize then r'.(mode := Finalizing(s.id))
               else r'.(mode := Running(s.id), executed := r.executed + [s.id])
  {
  }

  lemma RunningAdvance(r: Run, id: string, reply: Reply, maxCycles: nat)
    ensures var r' := Noted(r, reply);
            Advance(r.(mode := Running(id)), reply, maxCycles)
            == if VerdictAfter(r, reply).Some? then r'.(mode := Ended(RejectedByOperator(VerdictAfter(r, reply).value)))
               else if r'.inbox.awaiting then SetStatus(r', id, Pending, None).(mode := Ended(AwaitingHuman))
               else SetStatus(r', id, Done, None).(mode := Replanning)
  {
    hide AfterStep, Rule;
  }

  lemma ReplanningAdvance(r: Run, reply: Reply, maxCycles: nat)
    requires r.mode == Planning
    ensures Advance(r.(mode := Replanning), reply, maxCycles) == AddRevision(r, maxCycles)
  {
    hide AddRevision;
    AddRevisionIgnoresMode(r, Replanning, maxCycles);
    AddRevisionIgnoresMode(r, Planning, maxCycles);
  }

  lemma FinalizingAdvance(r: Run, id: string, reply: Reply, maxCycles: nat)
    ensures Advance(r.(mode := Finalizing(id)), reply, maxCycles)
            == if r.inbox.awaiting then r.(mode := Ended(AwaitingHuman))
               else SetStatus(r, id, Done, None).(mode := Ended(Completed))
  {
  }

  class Orchestrator {
    const plan: Plan
    var emitted: seq<Patch>
    var executed: seq<string>
    var needsRevision: bool
    var inbox: Inbox

    /** The engine's state as a run, at the planning point. */
    ghost function Now(): Run
      reads this, plan
    {
      Run(plan.version, plan.steps, emitted, executed, Planning, needsRevision, inbox)
    }

    ghost function At(state: State): Run
      reads this, plan
    {
      Now().(mode := ModeOf(state))
    }

    constructor (version: nat, steps: seq<Step>, run: string, hitl: Hitl.RunState, limit: int)
      ensures fresh(plan)
      ensures Now() == Run(version, steps, [], [], Planning, false, Loading(run, hitl, limit))
    {
      plan := new Plan(version, steps);
      emitted, executed, needsRevision := [], [], false;
      inbox := Loading(run, hitl, limit);
    }

    // ----- the operators' requests

    method RefreshHitlDerivedState(state: Hitl.RunState)
      modifies this`inbox
      ensures inbox == Refreshed(old(inbox), state)
    {
      inbox := inbox.(hitl := state);
      if PendingRecord(state).None? {
        inbox := inbox.(awaiting := false);
      }
    }

    method SignalHitlRequest(record: Hitl.Request, state: Hitl.RunState)
      modifies this`inbox
      ensures inbox == Signalled(old(inbox), record, state)
    {
      RefreshHitlDerivedState(state);
      inbox := inbox.(awaiting := record.status == Hitl.Pending);
    }

    method SignalHitlDenied(state: Hitl.RunState)
      modifies this`inbox
      ensures inbox == Refreshed(old(inbox), state)
    {
      RefreshHitlDerivedState(state);
    }

    method EvaluateResolvedHitlRequests() returns (verdict: Option<Verdict>)
      modifies this`inbox
      ensures verdict == Rule(old(inbox)).verdict && inbox == old(inbox).(processed := Rule(old(inbox)).processed)
    {
      hide RejectionOf;
      var requests := inbox.hitl.requests;
      var i := 0;
      assert requests[0..] == requests;
      while i < |requests|
        invariant 0 <= i <= |requests| && inbox == old(inbox).(processed := inbox.processed)
        invariant Evaluate(requests[i..], inbox.hitl, inbox.processed) == Rule(old(inbox))
      {
        assert requests[i..][1..] == requests[i + 1..];
        var request := requests[i];
        if request.status == Hitl.Resolved && request.id !in inbox.processed {
          inbox := inbox.(processed := inbox.processed + {request.id});
          verdict := RejectionOf(inbox.hitl, request.id);
          if verdict.Some? {
            return;
          }
        }
        i := i + 1;
      }
      assert requests[i..] == [];
      return None;
    }

    /** A specialist at work: every request it raises is granted or denied and signalled at once. */
    method TakeAsks(asks: seq<Ask>)
      modifies this`inbox
      ensures inbox == AfterStep(old(inbox), asks)
    {
      hide PendingRecord, Hitl.MemoryStep, HitlService.Accepted;
      var ctx := new HitlService.HitlContext(inbox.run, inbox.limit, inbox.hitl);
      var i := 0;
      assert asks[0..] == asks;
      while i < |asks|
        invariant 0 <= i <= |asks| && ctx.snapshot == inbox.hitl && ctx.run == inbox.run && ctx.max == inbox.limit
                  && fresh(ctx)
        invariant AskedAll(inbox, asks[i..], ctx.current)
               == AskedAll(old(inbox), asks, HitlService.Accepted(old(inbox).hitl.requests))
      {
        assert asks[i..][1..] == asks[i + 1..];
        var granted := ctx.RaiseRequest(asks[i].id, asks[i].origin);
        if granted {
          SignalHitlRequest(HitlService.RequestFor(asks[i].id, ctx.run, asks[i].origin, true), ctx.snapshot);
        } else {
          SignalHitlDenied(ctx.snapshot);
        }
        i := i + 1;
      }
      assert asks[i..] == [];
      RefreshHitlDerivedState(inbox.hitl);
    }

    /** The start of a session: the answers are ruled on, and an open request is signalled again. */
    method BeginSession() returns (verdict: Option<Verdict>)
      requires inbox == Loading(inbox.run, inbox.hitl, inbox.limit) && emitted == [] && executed == []
      modifies this`inbox
      ensures Now().(mode := if verdict.Some? then Ended(RejectedByOperator(verdict.value)) else Planning)
              == old(Begin(plan.version, plan.steps, inbox.run, inbox.hitl, inbox.limit, needsRevision))
    {
      hide Rule, PendingRecord;
      RefreshHitlDerivedState(inbox.hitl);
      verdict := EvaluateResolvedHitlRequests();
      if verdict.Some? {
        return;
      }
      var pending := PendingRecord(inbox.hitl);
      if pending.Some? {
        SignalHitlRequest(pending.value, inbox.hitl);
      }
    }

    // ----- the plan

    method EmitPlanUpdate(patch: Patch)
      modifies plan`version, this`emitted
      ensures Now() == Emitted(old(Now()), patch)
    {
      plan.version := plan.version + 1;
      emitted := emitted + [patch];
    }

    method ApplyAndEmit(patch: Patch)
      modifies plan, this`emitted
      ensures Now() == Patched(old(Now()), patch)
    {
      plan.ApplyPlanPatch(patch);
      EmitPlanUpdate(patch);
    }

    method EnsureFinalizeStep()
      modifies plan, this`emitted
      ensures Now() == EnsureFinalize(old(Now()))
    {
      var i := 0;
      while i < |plan.steps| && !plan.steps[i].finalize
        invariant 0 <= i <= |plan.steps|
        invariant forall j | 0 <= j < i :: !plan.steps[j].finalize
      {
        i := i + 1;
      }
      if i == |plan.steps| {
        var newStep := FinalStep(FIRST_FINALIZE);
        plan.steps := plan.steps + [newStep];
        EmitPlanUpdate(Patch([newStep], [], []));
      } else {
        assert plan.steps[i] in plan.steps;
      }
    }

    method SetStepStatusById(id: string, status: Status, note: Option<string>)
      modifies plan, this`emitted
      ensures Now() == SetStatus(old(Now()), id, status, note)
    {
      var i := 0;
      while i < |plan.steps| && plan.steps[i].id != id
        invariant 0 <= i <= |plan.steps|
        invariant forall j | 0 <= j < i :: plan.steps[j].id != id
      {
        i := i + 1;
      }
      if i == |plan.steps| {
        return;
      }
      SetFirstIsAssignment(plan.steps, i, status, note);
      assert Ids(plan.steps)[i] == id;
      var step := plan.steps[i].(status := status);
      if note.GetOr("") != "" {
        step := step.(note := note);
      }
      plan.steps := plan.steps[i := step];
      EmitPlanUpdate(Patch([], [Update(id, Some(status), note)], []));
    }

    method GetNextPendingStep() returns (next: Option<Step>)
      ensures next == NextPending(plan.steps)
      ensures match next
              case None => forall i | 0 <= i < |plan.steps| :: plan.steps[i].status != Pending
              case Some(s) => exists i | 0 <= i < |plan.steps| :: ComesNext(plan.steps, i) && s == plan.steps[i]
    {
      NextPendingComesNext(plan.steps);
      hide ComesNext;
      var i := 0;
      while i < |plan.steps| && !IsPendingSpecialist(plan.steps[i])
        invariant 0 <= i <= |plan.steps|
        invariant FirstSpecialist(plan.steps[i..]) == FirstSpecialist(plan.steps)
      {
        assert plan.steps[i..][1..] == plan.steps[i + 1..];
        i := i + 1;
      }
      if i < |plan.steps| {
        return Some(plan.steps[i]);
      }
      assert plan.steps[i..] == [];
      i := 0;
      while i < |plan.steps| && plan.steps[i].status != Pending
        invariant 0 <= i <= |plan.steps|
        invariant FirstPending(plan.steps[i..]) == FirstPending(plan.steps)
      {
        assert plan.steps[i..][1..] == plan.steps[i + 1..];
        i := i + 1;
      }
      if i < |plan.steps| {
        return Some(plan.steps[i]);
      }
      assert plan.steps[i..] == [];
      return None;
    }

    method CountRevisionCycles() returns (cycles: nat)
      ensures cycles == RevisionCycles(plan.steps)
    {
      var genDone: nat := 0;
      var i := 0;
      while i < |plan.steps|
        invariant 0 <= i <= |plan.steps|
        invariant genDone + GenerationsDone(plan.steps[i..]) == GenerationsDone(plan.steps)
      {
        assert plan.steps[i..][1..] == plan.steps[i + 1..];
        if plan.steps[i].capability == Some("generation") && plan.steps[i].status == Done {
          genDone := genDone + 1;
        }
        i := i + 1;
      }
      assert plan.steps[i..] == [];
      cycles := if genDone == 0 then 0 else genDone - 1;
    }

    method OpenFinalIds() returns (finals: seq<string>)
      ensures finals == OpenFinals(plan.steps)
    {
      finals := [];
      var i := 0;
      while i < |plan.steps|
        invariant 0 <= i <= |plan.steps|
        invariant finals == OpenFinals(plan.steps[..i])
      {
        assert plan.steps[..i + 1][..i] == plan.steps[..i];
        if plan.steps[i].finalize && plan.steps[i].status != Done {
          finals := finals + [plan.steps[i].id];
        }
        i := i + 1;
      }
      assert plan.steps[..i] == plan.steps;
    }

    method RepositionFinalize()
      modifies plan, this`emitted
      ensures Now() == Reposition(old(Now()))
    {
      hide Patched, AutoFinalize;
      var finals := OpenFinalIds();
      if finals != [] && !LastIsFinal(plan.steps) {
        ApplyAndEmit(Patch([FinalStep(AutoFinalize(plan.version + 1))], [], finals));
      }
    }

    method AddRevisionIfNeeded(maxCycles: nat)
      modifies plan, this`emitted
      ensures Now() == AddRevision(old(Now()), maxCycles)
    {
      hide Patched, Reposition, EnsureFinalize, RevisionPatch, RevisionCycles;
      var cycles := CountRevisionCycles();
      if needsRevision && cycles < maxCycles {
        ApplyAndEmit(RevisionPatch(cycles + 1));
        RepositionFinalize();
      }
      EnsureFinalizeStep();
    }

    method PlanWithLLM(answer: Answer)
      modifies plan, this`emitted
      ensures Now() == Planned(old(Now()), answer)
    {
      hide Patched, EnsureFinalize, Fallback, HasCapabilitySteps;
      if answer.Threw? {
        EnsureFinalizeStep();
        return;
      }
      if answer.patch.Some? {
        ApplyAndEmit(answer.patch.value);
      } else if |plan.steps| == 0 {
        ApplyAndEmit(Fallback("1"));
      }
      EnsureFinalizeStep();
      if !HasCapabilitySteps(plan.steps) {
        ApplyAndEmit(Fallback(Decimal(plan.version + 1)));
        EnsureFinalizeStep();
      }
    }

    /** Enters the next pending step; a specialist step is executed and its reply dealt with. */
    method TakeStep(entering: Reply, reply: Reply, maxCycles: nat) returns (taken: Taken)
      requires NextPending(plan.steps).Some?
      modifies this, plan
      ensures var r := Advance(old(At(StepState)), entering, maxCycles);
              if taken.Entered? then Now().(mode := Finalizing(taken.id)) == r
              else r.mode.Running? && Now().(mode := ModeAfter(taken)) == Advance(r, reply, maxCycles)
      ensures taken.Paused? ==> inbox.awaiting
    {
      hide SetStatus, NextPending, Advance, AfterStep, Rule;
      SteppingAdvance(Now(), entering, maxCycles);
      var step := GetNextPendingStep();
      var id := step.value.id;
      SetStepStatusById(id, InProgress, None);
      if step.value.finalize {
        return Entered(id);
      }
      executed := executed + [id];
      RunningAdvance(Now(), id, reply, maxCycles);
      TakeAsks(reply.asks);
      needsRevision := reply.needsRevision;
      var verdict := EvaluateResolvedHitlRequests();
      if verdict.Some? {
        return Stopped(verdict.value);
      }
      if inbox.awaiting {
        SetStepStatusById(id, Pending, None);
        return Paused;
      }
      SetStepStatusById(id, Done, None);
      return Through;
    }

    /** Runs to the end of the session and says how it ended; n counts the suspension points. */
    method RunLoop(env: nat -> Reply, maxCycles: nat) returns (outcome: Outcome, n: nat)
      requires Good(Now()) && CanFinish(Now())
      modifies this, plan
      ensures Now().(mode := Ended(outcome)) == After(old(Now()), Prefix(env, n), maxCycles)
    {
      hide Good, Safe, CanFinish, Measure, SetStatus, AddRevision, EnsureFinalize, NextPending, After, Prefix, Advance;
      ghost var first, base := Now(), plan.version + 3;
      ghost var last := first;
      n := 0;
      var state := PlanState;
      var finalizeStepId: Option<string> := None;
      StartIsSafe(first, env, maxCycles);
      while true
        invariant finalizeStepId.None?
        invariant At(state) == After(first, Prefix(env, n), maxCycles)
        invariant Good(At(state)) && Safe(At(state), base)
        decreases Measure(At(state), maxCycles)
      {
        last := StepForward(first, env, n, At(state), maxCycles, base);
        n := n + 1;
        match state {
          case PlanState =>
            PlanningAdvance(Now(), env(n - 1), maxCycles);
            var step := GetNextPendingStep();
            if step.None? {
              EnsureFinalizeStep();
            } else {
              state := StepState;
            }
          case StepState =>
            SteppingHasNext(At(state));
            var taken := TakeStep(env(n - 1), env(n), maxCycles);
            if taken.Entered? {
              finalizeStepId := Some(taken.id);
              break;
            }
            last := StepForward(first, env, n, last, maxCycles, base);
            n := n + 1;
            if taken.Stopped? {
              outcome := RejectedByOperator(taken.how);
              return;
            }
            if taken.Paused? {
              break;
            }
            state := ReplanState;
          case ReplanState =>
            ReplanningAdvance(Now(), env(n - 1), maxCycles);
            AddRevisionIfNeeded(maxCycles);
            state := PlanState;
        }
      }
      if finalizeStepId.Some? {
        NextOf(first, env, n, last, maxCycles);
        FinalizingAdvance(Now(), finalizeStepId.value, env(n), maxCycles);
        n := n + 1;
      }
      if inbox.awaiting {
        outcome := AwaitingHuman;
        return;
      }
      if finalizeStepId.Some? {
        SetStepStatusById(finalizeStepId.value, Done, None);
      }
      outcome := Completed;
    }

    /**
      A whole session on a loaded plan, which is dropped when it has no active steps and planned
      when it has none at all.
     */
    method RunSession(answer: Answer, env: nat -> Reply, maxCycles: nat) returns (outcome: Outcome, n: nat)
      requires inbox == Loading(inbox.run, inbox.hitl, inbox.limit) && emitted == [] && executed == []
      requires IsRejected(Start(Now(), answer).mode) || (Good(Start(Now(), answer)) && CanFinish(Start(Now(), answer)))
      modifies this, plan
      ensures Now().(mode := Ended(outcome)) == After(Start(old(Now()), answer), Prefix(env, n), maxCycles)
    {
      hide Begin, Planned, Good, CanFinish, After;
      ghost var start := Start(Now(), answer);
      if !HasActiveSteps(plan.steps) {
        plan.version, plan.steps := 0, [];
      }
      BegunFrame(Now());
      var verdict := BeginSession();
      if verdict.Some? {
        AfterNothing(start, env, maxCycles);
        return RejectedByOperator(verdict.value), 0;
      }
      if |plan.steps| == 0 {
        PlanWithLLM(answer);
      }
      outcome, n := RunLoop(env, maxCycles);
    }
  }

  /** Where the loop of a session starts: rejected, freshly planned, or on the stored plan. */
  function Start(loaded: Run, answer: Answer): Run {
    var r := Restored(loaded);
    var begun := Begin(r.version, r.steps, r.inbox.run, r.inbox.hitl, r.inbox.limit, r.needsRevision);
    if IsRejected(begun.mode) || begun.steps != [] then begun else Planned(begun, answer)
  }

  /**
    A session goes on with the stored plan and version when a step of it is pending or in progress, and
    plans from nothing otherwise; a rejecting answer ends it at once. It counts its own events only.
   */
  lemma SessionStartsWith(loaded: Run, answer: Answer)
    ensures var start := Start(loaded, answer);
            var active := exists s | s in loaded.steps :: s.status == Pending || s.status == InProgress;
            var verdict := Rule(Loading(loaded.inbox.run, loaded.inbox.hitl, loaded.inbox.limit)).verdict;
            && start.executed == [] && start.needsRevision == loaded.needsRevision
            && start.mode == (if verdict.Some? then Ended(RejectedByOperator(verdict.value)) else Planning)
            && (active ==> start.steps == loaded.steps && start.version == loaded.version && start.emitted == [])
            && (!active && verdict.Some? ==> start.steps == [] && start.version == 0)
            && (!active && verdict.None? ==>
                  exists r: Run :: r.steps == [] && r.version == 0 && r.emitted == [] && start == Planned(r, answer))
  {
    var r := Restored(loaded);
    var begun := Begin(r.version, r.steps, r.inbox.run, r.inbox.hitl, r.inbox.limit, r.needsRevision);
    hide Rule, Opened, Loading;
    if !IsRejected(begun.mode) && begun.steps == [] {
      hide Begin;
      PlannedFrame(begun, answer);
    }
  }

  lemma BegunFrame(r: Run)
    ensures Begin(r.version, r.steps, r.inbox.run, r.inbox.hitl, r.inbox.limit, r.needsRevision).steps == r.steps
  {
  }

  lemma AfterNothing(r: Run, env: nat -> Reply, maxCycles: nat)
    ensures After(r, Prefix(env, 0), maxCycles) == r
  {
  }
}
