/**
  The orchestrator's run loop: plan, step, replan, final. What the specialists, the quality
  assurance and the operators do is arbitrary; each suspension point of the loop is one state.
 */
module Engine {
  import opened Wrappers
  import opened Text
  import opened Plans
  import opened Inboxes

  /** What a specialist call leaves behind: whether its result asks for a revision, and the requests it raised. */
  datatype Reply = Reply(needsRevision: bool, asks: seq<Ask>)

  datatype Outcome = Completed | AwaitingHuman | RejectedByOperator(how: Verdict)

  datatype Mode =
    | Planning
    | Stepping
    | Running(id: string)      // a specialist is at work on this step
    | Replanning
    | Finalizing(id: string)
    | Ended(outcome: Outcome)

  datatype Run = Run(version: nat, steps: seq<Step>, emitted: seq<Patch>, executed: seq<string>,
                     mode: Mode, needsRevision: bool, inbox: Inbox)

  // ----- the operations on the plan

  const FIRST_FINALIZE := "auto_finalize_1"

  function FinalStep(id: string): Step {
    Step(id, None, true, None, Pending, Some("Final review"))
  }

  function AutoFinalize(n: nat): string {
    "auto_finalize_" + Decimal(n)
  }

  function RevGeneration(n: nat): string {
    "rev_generation_" + Decimal(n)
  }

  function RevQa(n: nat): string {
    "rev_qa_" + Decimal(n)
  }

  /** A plan_update event: the next version and the patch that led to it. */
  function Emitted(r: Run, patch: Patch): Run {
    r.(version := r.version + 1, emitted := r.emitted + [patch])
  }

  function Patched(r: Run, patch: Patch): Run {
    Emitted(r.(steps := Applied(r.steps, patch)), patch)
  }

  predicate HasFinalize(steps: seq<Step>) {
    exists s | s in steps :: s.finalize
  }

  function EnsureFinalize(r: Run): Run {
    if HasFinalize(r.steps) then r
    else Emitted(r.(steps := r.steps + [FinalStep(FIRST_FINALIZE)]), Patch([FinalStep(FIRST_FINALIZE)], [], []))
  }

  /** The first step with the id gets the status, and the note unless it is empty. */
  function SetFirst(steps: seq<Step>, id: string, status: Status, note: Option<string>): seq<Step> {
    if steps == [] then []
    else if steps[0].id == id then
      [steps[0].(status := status, note := if note.GetOr("") != "" then note else steps[0].note)] + steps[1..]
    else [steps[0]] + SetFirst(steps[1..], id, status, note)
  }

  function SetStatus(r: Run, id: string, status: Status, note: Option<string>): Run {
    if id !in Ids(r.steps) then r
    else Emitted(r.(steps := SetFirst(r.steps, id, status, note)), Patch([], [Update(id, Some(status), note)], []))
  }

  predicate IsPendingSpecialist(s: Step) {
    s.status == Pending && !s.finalize
  }

  function FirstSpecialist(steps: seq<Step>): Option<Step> {
    if steps == [] then None
    else if IsPendingSpecialist(steps[0]) then Some(steps[0])
    else FirstSpecialist(steps[1..])
  }

  function FirstPending(steps: seq<Step>): Option<Step> {
    if steps == [] then None
    else if steps[0].status == Pending then Some(steps[0])
    else FirstPending(steps[1..])
  }

  /** Specialist steps come before finalization, wherever they stand. */
  function NextPending(steps: seq<Step>): Option<Step> {
    var specialist := FirstSpecialist(steps);
    if specialist.Some? then specialist else FirstPending(steps)
  }

  function GenerationsDone(steps: seq<Step>): nat {
    if steps == [] then 0
    else
      var first := if steps[0].capability == Some("generation") && steps[0].status == Done then 1 else 0;
      first + GenerationsDone(steps[1..])
  }

  function RevisionCycles(steps: seq<Step>): nat {
    if GenerationsDone(steps) == 0 then 0 else GenerationsDone(steps) - 1
  }

  function RevisionPatch(n: nat): Patch {
    Patch([Step(RevGeneration(n), Some("generation"), false, None, Pending, Some("Revise content")),
           Step(RevQa(n), Some("qa"), false, None, Pending, Some("QA recheck"))], [], [])
  }

  /** The ids of the finalize steps that are not done. */
  function OpenFinals(steps: seq<Step>): seq<string> {
    if steps == [] then []
    else
      var s := steps[|steps| - 1];
      OpenFinals(steps[..|steps| - 1]) + if s.finalize && s.status != Done then [s.id] else []
  }

  predicate LastIsFinal(steps: seq<Step>) {
    steps != [] && steps[|steps| - 1].finalize
  }

  /** Moves finalization behind the steps just added. */
  function Reposition(r: Run): Run {
    var finals := OpenFinals(r.steps);
    if finals != [] && !LastIsFinal(r.steps)
    then Patched(r, Patch([FinalStep(AutoFinalize(r.version + 1))], [], finals))
    else r
  }

  function AddRevision(r: Run, maxCycles: nat): Run {
    var cycles := RevisionCycles(r.steps);
    EnsureFinalize(if r.needsRevision && cycles < maxCycles
                   then Reposition(Patched(r, RevisionPatch(cycles + 1)))
                   else r)
  }

  // ----- the loop

  /** The run once a step's requests and its result are taken in and the answered requests are ruled on. */
  function Noted(r: Run, reply: Reply): Run {
    var b := AfterStep(r.inbox, reply.asks);
    r.(needsRevision := reply.needsRevision, inbox := b.(processed := Rule(b).processed))
  }

  function VerdictAfter(r: Run, reply: Reply): Option<Verdict> {
    Rule(AfterStep(r.inbox, reply.asks)).verdict
  }

  /** From one suspension point to the next. */
  function Advance(r: Run, reply: Reply, maxCycles: nat): Run {
    match r.mode
    case Planning =>
      if NextPending(r.steps).None? then EnsureFinalize(r) else r.(mode := Stepping)
    case Stepping =>
      var next := NextPending(r.steps);
      if next.None? then r
      else
        var id := next.value.id;
        var r' := SetStatus(r, id, InProgress, None);
        if next.value.finalize then r'.(mode := Finalizing(id))
        else r'.(mode := Running(id), executed := r.executed + [id])
    case Running(id) =>
      var r' := Noted(r, reply);
      if VerdictAfter(r, reply).Some? then r'.(mode := Ended(RejectedByOperator(VerdictAfter(r, reply).value)))
      else if r'.inbox.awaiting then SetStatus(r', id, Pending, None).(mode := Ended(AwaitingHuman))
      else SetStatus(r', id, Done, None).(mode := Replanning)
    case Replanning => AddRevision(r, maxCycles).(mode := Planning)
    case Finalizing(id) =>
      if r.inbox.awaiting then r.(mode := Ended(AwaitingHuman))
      else SetStatus(r, id, Done, None).(mode := Ended(Completed))
    case Ended(_) => r
  }

  function After(r: Run, replies: seq<Reply>, maxCycles: nat): Run
    decreases replies
  {
    if replies == [] then r else After(Advance(r, replies[0], maxCycles), replies[1..], maxCycles)
  }

  /** A session that takes up a plan: one that is stored, or one fresh from planning. */
  predicate IsStart(r: Run) {
    r.mode == Planning && r.steps != [] && Distinct(Ids(r.steps))
  }

  // ----- plans as sets of steps

  lemma InIds(steps: seq<Step>, id: string)
    ensures id in Ids(steps) <==> exists s | s in steps :: s.id == id
  {
  }

  lemma SameId(steps: seq<Step>, s: Step, t: Step)
    requires Distinct(Ids(steps)) && s in steps && t in steps && s.id == t.id
    ensures s == t
  {
  }

  function WithStatus(s: Step, status: Status, note: Option<string>): Step {
    s.(status := status, note := if note.GetOr("") != "" then note else s.note)
  }

  lemma FirstAtTail(steps: seq<Step>, i: nat)
    requires 0 < i < |steps| && steps[0].id != steps[i].id
    ensures FirstAt(steps, i) <==> FirstAt(steps[1..], i - 1)
  {
  }

  lemma {:induction false} SetFirstElements(steps: seq<Step>, id: string, status: Status, note: Option<string>)
    ensures var r := SetFirst(steps, id, status, note);
            && |r| == |steps|
            && forall i | 0 <= i < |steps| ::
                 r[i] == if steps[i].id == id && FirstAt(steps, i) then WithStatus(steps[i], status, note) else steps[i]
    decreases steps
  {
    if steps == [] {
    } else {
      SetFirstElements(steps[1..], id, status, note);
      forall i | 0 < i < |steps| && steps[0].id != id && steps[i].id == id
        ensures FirstAt(steps, i) <==> FirstAt(steps[1..], i - 1)
      {
        FirstAtTail(steps, i);
      }
      hide FirstAt;
    }
  }

  lemma SetFirstAt(steps: seq<Step>, id: string, status: Status, note: Option<string>)
    ensures var r := SetFirst(steps, id, status, note);
            && |r| == |steps| && Ids(r) == Ids(steps)
            && forall i | 0 <= i < |steps| ::
                 r[i] == if steps[i].id == id && FirstAt(steps, i) then WithStatus(steps[i], status, note) else steps[i]
  {
    SetFirstElements(steps, id, status, note);
    var r := SetFirst(steps, id, status, note);
    hide FirstAt, SetFirst;
    assert forall i | 0 <= i < |steps| :: Ids(r)[i] == Ids(steps)[i];
  }

  /** In a plan with distinct ids, setting a status changes the one step and nothing else. */
  lemma SetFirstMembers(steps: seq<Step>, s: Step, status: Status, note: Option<string>, t: Step)
    requires Distinct(Ids(steps)) && s in steps
    ensures t in SetFirst(steps, s.id, status, note)
            <==> (t in steps && t.id != s.id) || t == WithStatus(s, status, note)
  {
  }

  lemma {:induction false} FirstSpecialistFound(steps: seq<Step>)
    ensures var f := FirstSpecialist(steps);
            if f.Some? then f.value in steps && IsPendingSpecialist(f.value)
            else forall s | s in steps :: !IsPendingSpecialist(s)
    decreases steps
  {
    if steps == [] {
    } else {
      FirstSpecialistFound(steps[1..]);
      assert steps == [steps[0]] + steps[1..];
    }
  }

  lemma {:induction false} FirstPendingFound(steps: seq<Step>)
    ensures var f := FirstPending(steps);
            if f.Some? then f.value in steps && f.value.status == Pending
            else forall s | s in steps :: s.status != Pending
    decreases steps
  {
    if steps == [] {
    } else {
      FirstPendingFound(steps[1..]);
      assert steps == [steps[0]] + steps[1..];
    }
  }

  /** The next step is pending, and it is a specialist step as long as there is one. */
  lemma NextPendingFound(steps: seq<Step>)
    ensures var next := NextPending(steps);
            && (next.Some? ==> next.value in steps && next.value.status == Pending)
            && (next.None? ==> forall s | s in steps :: s.status != Pending)
            && (next.Some? && next.value.finalize ==> forall s | s in steps :: !IsPendingSpecialist(s))
  {
    FirstSpecialistFound(steps);
    FirstPendingFound(steps);
  }

  /** Position i holds the pending step whose turn it is: specialists first, and the first one of its kind. */
  ghost predicate ComesNext(steps: seq<Step>, i: nat) {
    && i < |steps| && steps[i].status == Pending
    && (forall j | 0 <= j < i :: steps[j].status == Pending ==> steps[j].finalize && !steps[i].finalize)
    && (steps[i].finalize ==> forall j | 0 <= j < |steps| :: steps[j].status == Pending ==> steps[j].finalize)
  }

  lemma {:induction false} FirstSpecialistAt(steps: seq<Step>)
    ensures match FirstSpecialist(steps)
            case None => forall i | 0 <= i < |steps| :: steps[i].status == Pending ==> steps[i].finalize
            case Some(s) =>
              exists i | 0 <= i < |steps| ::
                && steps[i] == s && s.status == Pending && !s.finalize
                && forall j | 0 <= j < i :: steps[j].status == Pending ==> steps[j].finalize
    decreases steps
  {
    if steps == [] {
    } else if steps[0].status == Pending && !steps[0].finalize {
      assert FirstSpecialist(steps) == Some(steps[0]);
    } else {
      FirstSpecialistAt(steps[1..]);
      if FirstSpecialist(steps).Some? {
        var i :| 0 <= i < |steps[1..]| && steps[1..][i] == FirstSpecialist(steps).value
                 && forall j | 0 <= j < i :: steps[1..][j].status == Pending ==> steps[1..][j].finalize;
        assert steps[i + 1] == steps[1..][i];
        assert forall j | 0 < j < i + 1 :: steps[j] == steps[1..][j - 1];
      } else {
        assert forall j | 0 < j < |steps| :: steps[j] == steps[1..][j - 1];
      }
    }
  }

  lemma {:induction false} FirstPendingAt(steps: seq<Step>)
    ensures match FirstPending(steps)
            case None => forall i | 0 <= i < |steps| :: steps[i].status != Pending
            case Some(s) =>
              exists i | 0 <= i < |steps| ::
                steps[i] == s && s.status == Pending && forall j | 0 <= j < i :: steps[j].status != Pending
    decreases steps
  {
    if steps == [] {
    } else if steps[0].status == Pending {
      assert FirstPending(steps) == Some(steps[0]);
    } else {
      FirstPendingAt(steps[1..]);
      if FirstPending(steps).Some? {
        var i :| 0 <= i < |steps[1..]| && steps[1..][i] == FirstPending(steps).value
                 && forall j | 0 <= j < i :: steps[1..][j].status != Pending;
        assert steps[i + 1] == steps[1..][i];
        assert forall j | 0 < j < i + 1 :: steps[j] == steps[1..][j - 1];
      } else {
        assert forall j | 0 < j < |steps| :: steps[j] == steps[1..][j - 1];
      }
    }
  }

  /** The next step is the pending specialist step that stands first, or else the pending step that does. */
  lemma NextPendingComesNext(steps: seq<Step>)
    ensures match NextPending(steps)
            case None => forall i | 0 <= i < |steps| :: steps[i].status != Pending
            case Some(s) => exists i | 0 <= i < |steps| :: ComesNext(steps, i) && s == steps[i]
  {
    FirstSpecialistAt(steps);
    FirstPendingAt(steps);
    hide FirstSpecialist, FirstPending;
    if FirstSpecialist(steps).Some? {
      var i :| 0 <= i < |steps| && steps[i] == FirstSpecialist(steps).value
               && forall j | 0 <= j < i :: steps[j].status == Pending ==> steps[j].finalize;
      assert ComesNext(steps, i);
    } else if FirstPending(steps).Some? {
      var i :| 0 <= i < |steps| && steps[i] == FirstPending(steps).value
               && forall j | 0 <= j < i :: steps[j].status != Pending;
      assert ComesNext(steps, i);
    }
  }

  lemma {:induction false} OpenFinalsMembers(steps: seq<Step>, id: string)
    ensures id in OpenFinals(steps) <==> exists s | s in steps :: s.id == id && s.finalize && s.status != Done
    decreases steps
  {
    if steps == [] {
    } else {
      OpenFinalsMembers(steps[..|steps| - 1], id);
      assert steps == steps[..|steps| - 1] + [steps[|steps| - 1]];
    }
  }

  /** Members of a plan after a patch without updates. */
  lemma PatchedMembers(steps: seq<Step>, add: seq<Step>, remove: seq<string>, t: Step)
    requires Distinct(Ids(steps)) && Distinct(Ids(add))
    ensures t in Applied(steps, Patch(add, [], remove))
            <==> t.id !in remove && (t in steps || (t in add && t.id !in Ids(steps)))
  {
    var added := Added(steps, add);
    assert Updated(added, []) == added;
    KeptMembers(added, remove, t);
    AddedMembers(steps, add, t);
  }

  lemma {:induction false} AddedMembers(steps: seq<Step>, add: seq<Step>, t: Step)
    requires Distinct(Ids(add))
    ensures t in Added(steps, add) <==> t in steps || (t in add && t.id !in Ids(steps))
    decreases add
  {
    if add == [] {
    } else {
      var rest := add[1..];
      assert add == [add[0]] + rest;
      forall i | 0 <= i < |rest| ensures Ids(rest)[i] == Ids(add)[i + 1] && rest[i].id != add[0].id {
        assert Ids(add)[0] != Ids(add)[i + 1];
      }
      assert Distinct(Ids(rest));
      if add[0].id in Ids(steps) {
        AddedMembers(steps, rest, t);
      } else {
        AddedMembers(steps + [add[0]], rest, t);
        assert Ids(steps + [add[0]]) == Ids(steps) + [add[0].id];
      }
    }
  }
}
