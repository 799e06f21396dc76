/** What holds over every run of the orchestrator's loop. */
module EngineRuns {
  import opened Wrappers
  import opened Basics
  import opened Text
  import opened Plans
  import opened Engine

  // ----- the vocabulary of the theorems

  /** Ids are distinct, and the id the engine gives its own first finalize step names nothing else. */
  ghost predicate IdsOk(steps: seq<Step>) {
    Distinct(Ids(steps)) && forall s | s in steps :: s.id == FIRST_FINALIZE ==> s.finalize
  }

  function PendingIds(steps: seq<Step>): set<string> {
    set s | s in steps && IsPendingSpecialist(s) :: s.id
  }

  function SpecialistIds(steps: seq<Step>): set<string> {
    set s | s in steps && !s.finalize :: s.id
  }

  function DoneIds(steps: seq<Step>): set<string> {
    set s | s in steps && s.status == Done :: s.id
  }

  function InProgressIds(steps: seq<Step>): set<string> {
    set s | s in steps && s.status == InProgress :: s.id
  }

  /** The ids of the revision steps that a run may add. */
  function RevIds(maxCycles: nat): (ids: set<string>)
    ensures |ids| <= 2 * maxCycles
  {
    if maxCycles == 0 then {}
    else RevIds(maxCycles - 1) + {RevGeneration(maxCycles)} + {RevQa(maxCycles)}
  }

  /** Specialist steps that can still be executed: the pending ones and the revisions not yet planned. */
  function Work(steps: seq<Step>, maxCycles: nat): nat {
    |PendingIds(steps)| + |RevIds(maxCycles) - SpecialistIds(steps)|
  }

  ghost predicate PendingFinal(steps: seq<Step>) {
    exists s | s in steps :: s.finalize && s.status == Pending
  }

  ghost predicate AllFinalsPending(steps: seq<Step>) {
    forall s | s in steps :: s.finalize ==> s.status == Pending
  }

  /** Finalization can be entered once the specialists are through. */
  ghost predicate FinalizeReady(steps: seq<Step>) {
    HasFinalize(steps) ==> PendingFinal(steps)
  }

  /** b has the specialist steps of a and the new ones of more; done finalize steps stay, new ones are pending. */
  ghost predicate Evolves(a: seq<Step>, b: seq<Step>, more: seq<Step>) {
    && (forall t: Step :: !t.finalize ==> (t in b <==> t in a || (t in more && t.id !in Ids(a))))
    && (forall t | t in a && t.finalize && t.status == Done :: t in b)
    && (forall t | t in b && t.finalize :: t in a || t.status == Pending)
  }

  lemma EvolvesFurther(a: seq<Step>, b: seq<Step>, c: seq<Step>, more: seq<Step>)
    requires Evolves(a, b, more) && Evolves(b, c, [])
    ensures Evolves(a, c, more)
  {
  }

  // ----- ids the engine mints

  lemma MintedIdsDiffer(m: nat, n: nat)
    ensures RevGeneration(m) != RevQa(n)
    ensures RevGeneration(m) != FIRST_FINALIZE && RevQa(m) != FIRST_FINALIZE
    ensures RevGeneration(m) != AutoFinalize(n) && RevQa(m) != AutoFinalize(n)
  {
    assert RevGeneration(m)[4] == 'g' && RevQa(n)[4] == 'q';
    assert RevGeneration(m)[0] == 'r' && RevQa(m)[0] == 'r' && FIRST_FINALIZE[0] == 'a' && AutoFinalize(n)[0] == 'a';
  }

  lemma AutoFinalizeInjective(m: nat, n: nat)
    requires AutoFinalize(m) == AutoFinalize(n)
    ensures m == n
  {
    var prefix := "auto_finalize_";
    assert AutoFinalize(m)[|prefix|..] == Decimal(m) && AutoFinalize(n)[|prefix|..] == Decimal(n);
    DecimalInjective(m, n);
  }

  lemma {:induction false} RevIdsContain(k: nat, maxCycles: nat)
    requires 1 <= k <= maxCycles
    ensures RevGeneration(k) in RevIds(maxCycles) && RevQa(k) in RevIds(maxCycles)
    decreases maxCycles
  {
    if k < maxCycles {
      RevIdsContain(k, maxCycles - 1);
    }
  }

  // ----- what each operation does to the plan

  lemma EnsureFinalizeEffect(r: Run)
    requires IdsOk(r.steps)
    ensures var steps := EnsureFinalize(r).steps;
            && IdsOk(steps) && Evolves(r.steps, steps, []) && HasFinalize(steps)
            && forall t :: t in steps <==>
                 || t in r.steps
                 || (!HasFinalize(r.steps)
                     && t == Step("auto_finalize_1", None, true, None, Pending, Some("Final review")))
  {
    if !HasFinalize(r.steps) {
      var last := FinalStep(FIRST_FINALIZE);
      var steps := r.steps + [last];
      assert last in steps;
      InIds(r.steps, FIRST_FINALIZE);
      assert Ids(steps) == Ids(r.steps) + [FIRST_FINALIZE];
    }
  }

  lemma RepositionEffect(r: Run)
    requires IdsOk(r.steps)
    ensures var steps := Reposition(r).steps;
            && IdsOk(steps) && Evolves(r.steps, steps, [])
            && (forall t | t in steps && t.finalize :: t in r.steps || t == FinalStep(AutoFinalize(r.version + 1)))
            && (AutoFinalize(r.version + 1) !in Ids(r.steps) && PendingFinal(r.steps) ==> PendingFinal(steps))
  {
    var finals := OpenFinals(r.steps);
    if finals != [] && !LastIsFinal(r.steps) {
      var last := FinalStep(AutoFinalize(r.version + 1));
      var steps := Reposition(r).steps;
      assert Ids([last]) == [last.id];
      AppliedMembers(r.steps, Patch([last], [], finals));
      forall t ensures t in steps <==> t.id !in finals && (t in r.steps || (t == last && last.id !in Ids(r.steps))) {
        PatchedMembers(r.steps, [last], finals, t);
      }
      forall t | t in r.steps ensures t.id in finals <==> t.finalize && t.status != Done {
        OpenFinalsMembers(r.steps, t.id);
        if t.id in finals {
          var s :| s in r.steps && s.id == t.id && s.finalize && s.status != Done;
          SameId(r.steps, s, t);
        }
      }
      if last.id !in Ids(r.steps) {
        OpenFinalsMembers(r.steps, last.id);
        forall s | s in r.steps ensures s.id != last.id { InIds(r.steps, last.id); }
        assert last in steps;
      }
    }
  }

  lemma OpenFinalsIff(steps: seq<Step>)
    ensures OpenFinals(steps) != [] <==> exists s | s in steps :: s.finalize && s.status != Done
  {
    var finals := OpenFinals(steps);
    if s :| s in steps && s.finalize && s.status != Done {
      OpenFinalsMembers(steps, s.id);
    }
    if finals != [] {
      OpenFinalsMembers(steps, finals[0]);
    }
  }

  lemma MovedMembers(steps: seq<Step>, last: Step, t: Step)
    requires IdsOk(steps)
    ensures var after := Applied(steps, Patch([last], [], OpenFinals(steps)));
            && (last.id !in OpenFinals(steps) ==>
                  (t in after <==> (t in steps && !(t.finalize && t.status != Done))
                                   || (t == last && last.id !in Ids(steps))))
            && (last.id !in Ids(steps) ==> after != [] && after[|after| - 1] == last)
  {
    var finals := OpenFinals(steps);
    assert Ids([last]) == [last.id];
    PatchedMembers(steps, [last], finals, t);
    OpenIsListed(steps, finals, t);
    if last.id !in Ids(steps) {
      OpenFinalsMembers(steps, last.id);
      InIds(steps, last.id);
      LastIsAdded(steps, last, finals);
    }
    hide OpenFinals, Applied, IdsOk;
  }

  /**
    When the last step is not a finalize step, the finalize steps that are not done are replaced by one
    new one under the number of the next version, at the end if that id is free; otherwise nothing moves.
   */
  lemma RepositionMoves(r: Run, t: Step)
    requires IdsOk(r.steps)
    ensures var unfinished := exists s | s in r.steps :: s.finalize && s.status != Done;
            var id, r' := "auto_finalize_" + Decimal(r.version + 1), Reposition(r);
            var made := Step(id, None, true, None, Pending, Some("Final review"));
            if unfinished && !r.steps[|r.steps| - 1].finalize then
              && r'.version == r.version + 1
              && (made.id !in Ids(r.steps) ==>
                    && (t in r'.steps <==> t == made || (t in r.steps && !(t.finalize && t.status != Done)))
                    && r'.steps != [] && r'.steps[|r'.steps| - 1] == made)
            else r' == r
  {
    OpenFinalsIff(r.steps);
    var made := FinalStep(AutoFinalize(r.version + 1));
    hide Decimal, OpenFinals, Applied, IdsOk, Ids;
    MovedMembers(r.steps, made, t);
    if made.id in OpenFinals(r.steps) {
      OpenIsInIds(r.steps, made.id);
    }
  }

  lemma OpenIsInIds(steps: seq<Step>, id: string)
    requires id in OpenFinals(steps)
    ensures id in Ids(steps)
  {
    OpenFinalsMembers(steps, id);
    InIds(steps, id);
  }

  lemma OpenIsListed(steps: seq<Step>, finals: seq<string>, t: Step)
    requires IdsOk(steps) && finals == OpenFinals(steps)
    ensures t in steps ==> (t.id in finals <==> t.finalize && t.status != Done)
  {
    OpenFinalsMembers(steps, t.id);
    if t in steps && t.id in finals {
      var s :| s in steps && s.id == t.id && s.finalize && s.status != Done;
      SameId(steps, s, t);
    }
  }

  lemma LastIsAdded(steps: seq<Step>, last: Step, remove: seq<string>)
    requires last.id !in Ids(steps) && last.id !in remove
    ensures var after := Applied(steps, Patch([last], [], remove)); after != [] && after[|after| - 1] == last
  {
    var added := steps + [last];
    assert [last][1..] == [] && Added(added, []) == added;
    assert Added(steps, [last]) == added && Updated(added, []) == added;
    assert added[|added| - 1] == last;
  }

  lemma RevisionEffect(r: Run, n: nat)
    requires IdsOk(r.steps)
    ensures var steps := Patched(r, RevisionPatch(n)).steps;
            && IdsOk(steps) && Evolves(r.steps, steps, RevisionPatch(n).add)
            && forall t :: t in steps <==> t in r.steps || (t in RevisionPatch(n).add && t.id !in Ids(r.steps))
  {
    var patch := RevisionPatch(n);
    var steps := Patched(r, patch).steps;
    MintedIdsDiffer(n, n);
    assert Ids(patch.add) == [RevGeneration(n), RevQa(n)];
    AppliedMembers(r.steps, patch);
    forall t ensures t in steps <==> t in r.steps || (t in patch.add && t.id !in Ids(r.steps)) {
      PatchedMembers(r.steps, patch.add, [], t);
    }
  }

  /** The revision steps that AddRevision plans. */
  function Revisions(r: Run, maxCycles: nat): seq<Step> {
    var cycles := RevisionCycles(r.steps);
    if r.needsRevision && cycles < maxCycles then RevisionPatch(cycles + 1).add else []
  }

  lemma AddRevisionEffect(r: Run, maxCycles: nat)
    requires IdsOk(r.steps)
    ensures var steps := AddRevision(r, maxCycles).steps;
            IdsOk(steps) && HasFinalize(steps) && Evolves(r.steps, steps, Revisions(r, maxCycles))
  {
    hide Patched, Reposition, EnsureFinalize, IdsOk, RevisionPatch, RevisionCycles, HasFinalize, PendingFinal, Evolves;
    var cycles := RevisionCycles(r.steps);
    if r.needsRevision && cycles < maxCycles {
      var patched := Patched(r, RevisionPatch(cycles + 1));
      var moved := Reposition(patched);
      RevisionEffect(r, cycles + 1);
      RepositionEffect(patched);
      EnsureFinalizeEffect(moved);
      EvolvesFurther(r.steps, patched.steps, moved.steps, Revisions(r, maxCycles));
      EvolvesFurther(r.steps, moved.steps, EnsureFinalize(moved).steps, Revisions(r, maxCycles));
    } else {
      EnsureFinalizeEffect(r);
    }
  }

  ghost predicate IsGenerationDone(s: Step) {
    s.capability == Some("generation") && s.status == Done
  }

  lemma {:induction false} GenerationsDoneSnoc(steps: seq<Step>, s: Step)
    ensures GenerationsDone(steps + [s]) == GenerationsDone(steps) + if IsGenerationDone(s) then 1 else 0
    decreases steps
  {
    if steps == [] {
      assert [] + [s] == [s] && [s][1..] == [];
      assert GenerationsDone([s]) == (if IsGenerationDone(s) then 1 else 0) + GenerationsDone([]);
    } else {
      assert (steps + [s])[1..] == steps[1..] + [s];
      GenerationsDoneSnoc(steps[1..], s);
    }
  }

  lemma {:induction false} GenerationsDoneAreCounted(steps: seq<Step>, k: nat)
    requires k <= |steps|
    ensures GenerationsDone(steps[..k]) == Before(steps, s => IsGenerationDone(s), k)
    decreases k
  {
    if k == 0 {
    } else {
      hide GenerationsDone, Before, IsGenerationDone;
      GenerationsDoneAreCounted(steps, k - 1);
      assert steps[..k] == steps[..k - 1] + [steps[k - 1]];
      GenerationsDoneSnoc(steps[..k - 1], steps[k - 1]);
      BeforeNext(steps, s => IsGenerationDone(s), k - 1);
    }
  }

  /**
    A revision is planned when one is needed and cycles remain, each generation that is done after the
    first being one: the content is generated again, and checked again, under the number of the cycle.
   */
  lemma RevisionsAre(r: Run, maxCycles: nat)
    ensures var generated := Before(r.steps, s => IsGenerationDone(s), |r.steps|);
            var cycle := if generated == 0 then 1 else generated;
            Revisions(r, maxCycles)
            == if r.needsRevision && cycle <= maxCycles then
                 [Step("rev_generation_" + Decimal(cycle), Some("generation"), false, None, Pending,
                       Some("Revise content")),
                  Step("rev_qa_" + Decimal(cycle), Some("qa"), false, None, Pending, Some("QA recheck"))]
               else []
  {
    GenerationsDoneAreCounted(r.steps, |r.steps|);
    assert r.steps[..|r.steps|] == r.steps;
    hide GenerationsDone, Before, Decimal;
  }

  function NewOf(a: seq<Step>, more: seq<Step>): set<string> {
    set t | t in more && t.id !in Ids(a) :: t.id
  }

  lemma EvolvesPending(a: seq<Step>, b: seq<Step>, more: seq<Step>)
    requires Evolves(a, b, more) && forall t | t in more :: IsPendingSpecialist(t)
    ensures PendingIds(b) == PendingIds(a) + NewOf(a, more)
  {
  }

  lemma EvolvesSpecialists(a: seq<Step>, b: seq<Step>, more: seq<Step>)
    requires Evolves(a, b, more) && forall t | t in more :: IsPendingSpecialist(t)
    ensures SpecialistIds(b) == SpecialistIds(a) + NewOf(a, more)
  {
  }

  lemma EvolvesKeepsWork(a: seq<Step>, b: seq<Step>, more: seq<Step>, maxCycles: nat)
    requires Evolves(a, b, more)
    requires forall t | t in more :: IsPendingSpecialist(t) && t.id in RevIds(maxCycles)
    ensures Work(b, maxCycles) == Work(a, maxCycles)
  {
    EvolvesPending(a, b, more);
    EvolvesSpecialists(a, b, more);
    forall id | id in NewOf(a, more) ensures id !in PendingIds(a) && id !in SpecialistIds(a) { InIds(a, id); }
    MoveSize(PendingIds(a), RevIds(maxCycles), SpecialistIds(a), NewOf(a, more));
  }

  lemma RevisionsAreCounted(r: Run, maxCycles: nat)
    ensures forall t | t in Revisions(r, maxCycles) :: IsPendingSpecialist(t) && t.id in RevIds(maxCycles)
  {
    var cycles := RevisionCycles(r.steps);
    if cycles < maxCycles {
      RevIdsContain(cycles + 1, maxCycles);
      hide RevIds, RevisionCycles, RevGeneration, RevQa;
      var add := RevisionPatch(cycles + 1).add;
      assert |add| == 2;
    }
  }

  lemma AddRevisionKeepsWork(r: Run, maxCycles: nat)
    requires IdsOk(r.steps)
    ensures Work(AddRevision(r, maxCycles).steps, maxCycles) == Work(r.steps, maxCycles)
  {
    hide AddRevision, Revisions, RevIds, Work, Evolves, IdsOk;
    var more := Revisions(r, maxCycles);
    RevisionsAreCounted(r, maxCycles);
    AddRevisionEffect(r, maxCycles);
    EvolvesKeepsWork(r.steps, AddRevision(r, maxCycles).steps, more, maxCycles);
  }

  lemma MoveSize(p: set<string>, rev: set<string>, s: set<string>, added: set<string>)
    requires added <= rev && added !! p && added !! s
    ensures |p + added| + |rev - (s + added)| == |p| + |rev - s|
  {
    assert rev - s == (rev - (s + added)) + added;
  }

  /** b is a with the status of step s changed. */
  ghost predicate Changed(a: seq<Step>, b: seq<Step>, s: Step, status: Status) {
    && (forall t :: t in b <==> (t in a && t.id != s.id) || t == s.(status := status))
    && (forall t | t in a :: t.id == s.id ==> t == s)
  }

  lemma OtherStepsDiffer(steps: seq<Step>, s: Step)
    requires Distinct(Ids(steps)) && s in steps
    ensures forall t | t in steps :: t.id == s.id ==> t == s
  {
  }

  /** A status change touches one step, emits one patch and nothing else. */
  lemma SetStatusEffect(r: Run, s: Step, status: Status)
    requires IdsOk(r.steps) && s in r.steps
    ensures var r' := SetStatus(r, s.id, status, None);
            && IdsOk(r'.steps) && r'.steps != [] && Changed(r.steps, r'.steps, s, status)
            && r' == r.(version := r.version + 1, steps := r'.steps,
                        emitted := r.emitted + [Patch([], [Update(s.id, Some(status), None)], [])])
  {
    OtherStepsDiffer(r.steps, s);
    InIds(r.steps, s.id);
    SetFirstAt(r.steps, s.id, status, None);
    var steps := SetFirst(r.steps, s.id, status, None);
    hide SetFirst, Ids;
    forall t ensures t in steps <==> (t in r.steps && t.id != s.id) || t == s.(status := status) {
      SetFirstMembers(r.steps, s, status, None, t);
    }
    assert s.(status := status) in steps;
  }

  // ----- every state of a run

  ghost predicate HasStep(steps: seq<Step>, id: string, finalize: bool, status: Status) {
    exists s | s in steps :: s.id == id && s.finalize == finalize && s.status == status
  }

  ghost predicate Good(r: Run) {
    && IdsOk(r.steps) && r.steps != []
    && (r.mode.Stepping? ==> NextPending(r.steps).Some?)
    && (r.mode.Running? ==> HasStep(r.steps, r.mode.id, false, InProgress))
    && (r.mode.Finalizing? ==> HasStep(r.steps, r.mode.id, true, InProgress) && PendingIds(r.steps) == {})
  }

  lemma AdvanceKeepsGood(r: Run, reply: Reply, maxCycles: nat)
    requires Good(r)
    ensures Good(Advance(r, reply, maxCycles))
  {
    match r.mode
    case Planning =>
      if NextPending(r.steps).None? { EnsureFinalizeEffect(r); }
    case Stepping => var _ := BeginStep(r, reply, maxCycles);
    case Running(_) => var _ := EndStep(r, reply, maxCycles);
    case Replanning => AddRevisionEffect(r, maxCycles);
    case Finalizing(_) => var _ := EndFinal(r, reply, maxCycles);
    case Ended(_) =>
  }

  /** The next pending step is in progress; it is a finalize step only if no specialist step is pending. */
  lemma BeginStep(r: Run, reply: Reply, maxCycles: nat) returns (s: Step)
    requires Good(r) && r.mode.Stepping?
    ensures var r' := Advance(r, reply, maxCycles);
            && s in r.steps && s.status == Pending && IdsOk(r'.steps) && r'.steps != []
            && r'.mode == (if s.finalize then Finalizing(s.id) else Running(s.id))
            && r'.executed == (if s.finalize then r.executed else r.executed + [s.id])
            && (s.finalize ==> PendingIds(r.steps) == {} && PendingIds(r'.steps) == {})
            && r'.inbox == r.inbox && r'.version == r.version + 1
            && HasStep(r'.steps, s.id, s.finalize, InProgress)
            && Changed(r.steps, r'.steps, s, InProgress)
  {
    hide SetStatus, IdsOk;
    NextPendingFound(r.steps);
    s := NextPending(r.steps).value;
    SetStatusEffect(r, s, InProgress);
    assert s.(status := InProgress) in SetStatus(r, s.id, InProgress, None).steps;
  }

  lemma EndStep(r: Run, reply: Reply, maxCycles: nat) returns (s: Step)
    requires Good(r) && r.mode.Running?
    ensures var r' := Advance(r, reply, maxCycles);
            && s in r.steps && s.id == r.mode.id && !s.finalize && s.status == InProgress
            && IdsOk(r'.steps) && r'.steps != [] && r'.inbox == Noted(r, reply).inbox
            && r'.executed == r.executed && r'.needsRevision == reply.needsRevision
            && (if r'.mode.Replanning? then !r'.inbox.awaiting && Changed(r.steps, r'.steps, s, Done)
                else if r'.mode == Ended(AwaitingHuman) then r'.inbox.awaiting && Changed(r.steps, r'.steps, s, Pending)
                else r'.mode.Ended? && r'.mode.outcome.RejectedByOperator? && r'.steps == r.steps)
            && (r'.mode.Ended? && r'.mode.outcome.RejectedByOperator? <==> VerdictAfter(r, reply).Some?)
            && (r'.mode.Replanning? || r'.mode == Ended(AwaitingHuman) ==> r'.version == r.version + 1)
  {
    hide SetStatus, IdsOk, VerdictAfter;
    s :| s in r.steps && s.id == r.mode.id && !s.finalize && s.status == InProgress;
    var r' := Noted(r, reply);
    SetStatusEffect(r', s, Pending);
    SetStatusEffect(r', s, Done);
    assert s.(status := Pending) in SetStatus(r', s.id, Pending, None).steps;
    assert s.(status := Done) in SetStatus(r', s.id, Done, None).steps;
  }

  lemma EndFinal(r: Run, reply: Reply, maxCycles: nat) returns (s: Step)
    requires Good(r) && r.mode.Finalizing?
    ensures var r' := Advance(r, reply, maxCycles);
            && s in r.steps && s.id == r.mode.id && s.finalize && s.status == InProgress
            && IdsOk(r'.steps) && r'.steps != [] && r'.inbox == r.inbox && r'.executed == r.executed
            && (if r.inbox.awaiting then r'.mode == Ended(AwaitingHuman) && r'.steps == r.steps
                else r'.mode == Ended(Completed) && Changed(r.steps, r'.steps, s, Done))
  {
    hide SetStatus, IdsOk;
    s :| s in r.steps && s.id == r.mode.id && s.finalize && s.status == InProgress;
    SetStatusEffect(r, s, Done);
    assert s.(status := Done) in SetStatus(r, s.id, Done, None).steps;
  }

  /**
    The last reply decides on the revision behind a step: the plan gains the two steps of the next cycle,
    unless their ids are taken, when that reply asks for a revision and cycles remain, and no other
    specialist step.
   */
  lemma RevisionFollowsReply(r: Run, reply: Reply, again: Reply, maxCycles: nat, t: Step)
    requires Good(r) && r.mode.Running? && Advance(r, reply, maxCycles).mode == Replanning && !t.finalize
    ensures var done := Advance(r, reply, maxCycles);
            var next := Advance(done, again, maxCycles);
            var generated := Before(done.steps, s => IsGenerationDone(s), |done.steps|);
            var cycle := if generated == 0 then 1 else generated;
            var a := Step("rev_generation_" + Decimal(cycle), Some("generation"), false, None, Pending,
                          Some("Revise content"));
            var b := Step("rev_qa_" + Decimal(cycle), Some("qa"), false, None, Pending, Some("QA recheck"));
            t in next.steps
            <==> t in done.steps
                 || (reply.needsRevision && cycle <= maxCycles && (t == a || t == b) && t.id !in Ids(done.steps))
  {
    var _ := EndStep(r, reply, maxCycles);
    var done := Advance(r, reply, maxCycles);
    AddRevisionEffect(done, maxCycles);
    RevisionsAre(done, maxCycles);
    hide IdsOk, AddRevision, Revisions, Good, IsGenerationDone, Before, Decimal;
  }

  // ----- the sets after a change of one status

  lemma ChangedSets(a: seq<Step>, b: seq<Step>, s: Step, status: Status)
    requires s in a && Changed(a, b, s, status)
    ensures PendingIds(b) == PendingIds(a) - {s.id} + (if status == Pending && !s.finalize then {s.id} else {})
    ensures SpecialistIds(b) == SpecialistIds(a)
  {
  }

  lemma ChangedDone(a: seq<Step>, b: seq<Step>, s: Step, status: Status)
    requires s in a && Changed(a, b, s, status)
    ensures DoneIds(b) == DoneIds(a) - {s.id} + (if status == Done then {s.id} else {})
  {
  }

  lemma ChangedInProgress(a: seq<Step>, b: seq<Step>, s: Step, status: Status)
    requires s in a && Changed(a, b, s, status)
    ensures InProgressIds(b) == InProgressIds(a) - {s.id} + (if status == InProgress then {s.id} else {})
  {
  }

  // ----- termination

  /** No step is pending, but a finalize step is there: planning repeats itself for ever. */
  predicate Stuck(r: Run) {
    r.mode == Planning && NextPending(r.steps).None? && HasFinalize(r.steps)
  }

  function Measure(r: Run, maxCycles: nat): nat {
    var work := 6 * Work(r.steps, maxCycles);
    match r.mode
    case Ended(_) => 0
    case Finalizing(_) => 1
    case Stepping => work + 2
    case Planning => work + (if NextPending(r.steps).None? then 4 else 3)
    case Replanning => work + 5
    case Running(_) => work + 6
  }

  lemma StuckStays(r: Run, reply: Reply, maxCycles: nat)
    requires Stuck(r)
    ensures Advance(r, reply, maxCycles) == r
  {
  }

  /** What a suspension point does to the work left and to the steps executed. */
  lemma AdvanceWork(r: Run, reply: Reply, maxCycles: nat)
    requires Good(r) && !r.mode.Ended?
    ensures var r' := Advance(r, reply, maxCycles);
            if r'.mode.Running? then
              |r'.executed| == |r.executed| + 1 && Work(r'.steps, maxCycles) == Work(r.steps, maxCycles) - 1
            else
              r'.executed == r.executed && (!r'.mode.Ended? ==> Work(r'.steps, maxCycles) == Work(r.steps, maxCycles))
  {
    var r' := Advance(r, reply, maxCycles);
    hide Work, RevIds, AddRevision, SetStatus, Noted, VerdictAfter;
    match r.mode
    case Planning =>
      if NextPending(r.steps).None? {
        EnsureFinalizeEffect(r);
        EvolvesKeepsWork(r.steps, r'.steps, [], maxCycles);
      }
    case Stepping =>
      var s := BeginStep(r, reply, maxCycles);
      ChangedSets(r.steps, r'.steps, s, InProgress);
      BeginStepWork(r.steps, r'.steps, s, maxCycles);
    case Running(_) =>
      var s := EndStep(r, reply, maxCycles);
      if r'.mode.Replanning? {
        ChangedSets(r.steps, r'.steps, s, Done);
        SameWork(r.steps, r'.steps, s, maxCycles);
      }
    case Replanning =>
      AddRevisionKeepsWork(r, maxCycles);
      AddRevisionExecutesNothing(r, maxCycles);
    case Finalizing(_) =>
      var _ := EndFinal(r, reply, maxCycles);
  }

  lemma AddRevisionExecutesNothing(r: Run, maxCycles: nat)
    ensures var r' := AddRevision(r, maxCycles);
            r'.executed == r.executed && r'.inbox == r.inbox && r'.version >= r.version
  {
  }

  lemma BeginStepWork(a: seq<Step>, b: seq<Step>, s: Step, maxCycles: nat)
    requires s in a && s.status == Pending && SpecialistIds(b) == SpecialistIds(a)
    requires PendingIds(b) == PendingIds(a) - {s.id}
    requires s.finalize ==> PendingIds(a) == {}
    ensures Work(b, maxCycles) == Work(a, maxCycles) - (if s.finalize then 0 else 1)
  {
  }

  lemma SameWork(a: seq<Step>, b: seq<Step>, s: Step, maxCycles: nat)
    requires Distinct(Ids(a)) && s in a && s.status != Pending && SpecialistIds(b) == SpecialistIds(a)
    requires PendingIds(b) == PendingIds(a) - {s.id}
    ensures Work(b, maxCycles) == Work(a, maxCycles)
  {
    if s.id in PendingIds(a) {
      var t :| t in a && IsPendingSpecialist(t) && t.id == s.id;
      SameId(a, s, t);
    }
    assert PendingIds(b) == PendingIds(a);
  }

  lemma AdvanceProgress(r: Run, reply: Reply, maxCycles: nat)
    requires Good(r) && !r.mode.Ended? && !Stuck(r)
    ensures Measure(Advance(r, reply, maxCycles), maxCycles) < Measure(r, maxCycles)
  {
    hide Work, IdsOk, SetStatus, AddRevision, Noted, VerdictAfter;
    var r' := Advance(r, reply, maxCycles);
    AdvanceWork(r, reply, maxCycles);
    match r.mode
    case Planning =>
      if NextPending(r.steps).None? {
        EnsureFinalizeEffect(r);
        var last := FinalStep(FIRST_FINALIZE);
        hide EnsureFinalize, NextPending;
        assert last in r'.steps && last.status == Pending;
        NextPendingFound(r'.steps);
      }
    case Stepping => var _ := BeginStep(r, reply, maxCycles);
    case Running(_) => var _ := EndStep(r, reply, maxCycles);
    case Replanning =>
      hide NextPending;
      assert r'.mode == Planning;
    case Finalizing(_) => var _ := EndFinal(r, reply, maxCycles);
  }
}
