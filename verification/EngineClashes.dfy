/** Finalize steps that the engine moves under an id that the plan already holds, and exactly when runs end. */
module EngineClashes {
  import opened Wrappers
  import opened Text
  import opened Plans
  import opened Engine
  import opened EngineRuns
  import opened EngineTheorems
  import opened EnginePlanning
  import opened Inboxes

  // ----- one revision

  ghost predicate OpenFinal(steps: seq<Step>) {
    exists s | s in steps :: s.finalize && s.status != Done
  }

  ghost predicate DoneFinal(steps: seq<Step>) {
    exists s | s in steps :: s.finalize && s.status == Done
  }

  /** The revision leaves an open finalize step that no longer stands last. */
  ghost predicate Repositions(r: Run, maxCycles: nat) {
    var n := RevisionCycles(r.steps) + 1;
    && r.needsRevision && n <= maxCycles && OpenFinal(r.steps)
    && (RevGeneration(n) !in Ids(r.steps) || RevQa(n) !in Ids(r.steps) || !LastIsFinal(r.steps))
  }

  /** The id that the engine gives to the moved finalize step is taken, and a finished finalize step stays behind. */
  ghost predicate MintsTakenId(r: Run, maxCycles: nat) {
    Repositions(r, maxCycles) && AutoFinalize(r.version + 2) in Ids(r.steps) && DoneFinal(r.steps)
  }

  lemma OpenFinalsIff(steps: seq<Step>)
    ensures OpenFinals(steps) != [] <==> OpenFinal(steps)
  {
    if OpenFinals(steps) != [] {
      OpenFinalsMembers(steps, OpenFinals(steps)[0]);
    }
    if s :| s in steps && s.finalize && s.status != Done {
      OpenFinalsMembers(steps, s.id);
    }
  }

  /** Moving open finalize steps leaves the finished ones and the new one, unless its id is taken. */
  lemma RepositionedFinals(r: Run, t: Step)
    requires IdsOk(r.steps) && OpenFinal(r.steps) && !LastIsFinal(r.steps) && t.finalize
    ensures var last := FinalStep(AutoFinalize(r.version + 1));
            t in Reposition(r).steps <==> (t in r.steps && t.status == Done) || (t == last && last.id !in Ids(r.steps))
  {
    var finals, last := OpenFinals(r.steps), FinalStep(AutoFinalize(r.version + 1));
    OpenFinalsIff(r.steps);
    PatchedMembers(r.steps, [last], finals, t);
    OpenFinalsMembers(r.steps, t.id);
    if t in r.steps && t.id in finals {
      var s :| s in r.steps && s.id == t.id && s.finalize && s.status != Done;
      SameId(r.steps, s, t);
    }
    if t == last && last.id !in Ids(r.steps) {
      InIds(r.steps, last.id);
    }
    assert Reposition(r).steps == Applied(r.steps, Patch([last], [], finals));
    hide Applied, OpenFinals;
  }

  lemma AddsOnly(steps: seq<Step>, add: seq<Step>)
    ensures Applied(steps, Patch(add, [], [])) == Added(steps, add)
  {
    assert Updated(Added(steps, add), []) == Added(steps, add);
    KeptAllOrNone(Added(steps, add), []);
  }

  lemma RevisionStandsLast(r: Run, n: nat)
    ensures var steps := Patched(r, RevisionPatch(n)).steps;
            LastIsFinal(steps) <==> RevGeneration(n) in Ids(r.steps) && RevQa(n) in Ids(r.steps) && LastIsFinal(r.steps)
  {
    var add := RevisionPatch(n).add;
    AddsOnly(r.steps, add);
    MintedIdsDiffer(n, n);
    hide RevGeneration, RevQa, Applied;
    assert add == [add[0], add[1]] && add[1..] == [add[1]] && add[1..][1..] == [];
    var mid := if add[0].id in Ids(r.steps) then r.steps else r.steps + [add[0]];
    assert Added(r.steps, add) == Added(mid, [add[1]]);
    assert Added(mid, [add[1]]) == if add[1].id in Ids(mid) then mid else mid + [add[1]];
    InIds(mid, add[1].id);
    InIds(r.steps, add[1].id);
  }

  lemma RevisionKeepsFinals(r: Run, n: nat)
    requires IdsOk(r.steps)
    ensures var steps := Patched(r, RevisionPatch(n)).steps;
            && IdsOk(steps) && (forall t: Step | t.finalize :: t in steps <==> t in r.steps)
            && forall k: nat :: AutoFinalize(k) in Ids(steps) <==> AutoFinalize(k) in Ids(r.steps)
  {
    RevisionEffect(r, n);
    var steps := Patched(r, RevisionPatch(n)).steps;
    assert forall t | t in RevisionPatch(n).add :: !t.finalize && (t.id == RevGeneration(n) || t.id == RevQa(n));
    hide Patched, RevisionPatch, AutoFinalize, RevGeneration, RevQa;
    forall k: nat ensures AutoFinalize(k) in Ids(steps) <==> AutoFinalize(k) in Ids(r.steps) {
      InIds(steps, AutoFinalize(k));
      InIds(r.steps, AutoFinalize(k));
      MintedIdsDiffer(n, k);
    }
  }

  /** b has the finished finalize steps of a, and the new one unless its id is taken. */
  ghost predicate FinalsMoved(a: seq<Step>, b: seq<Step>, id: string) {
    forall t: Step | t.finalize :: t in b <==> (t in a && t.status == Done) || (t == FinalStep(id) && id !in Ids(a))
  }

  function WithRevision(r: Run): Run {
    Patched(r, RevisionPatch(RevisionCycles(r.steps) + 1))
  }

  lemma RevisionLeavesFinalsBehind(r: Run, maxCycles: nat)
    requires IdsOk(r.steps) && Repositions(r, maxCycles)
    ensures OpenFinal(WithRevision(r).steps) && !LastIsFinal(WithRevision(r).steps)
  {
    var n := RevisionCycles(r.steps) + 1;
    RevisionKeepsFinals(r, n);
    RevisionStandsLast(r, n);
    hide Patched, RevisionPatch, LastIsFinal, IdsOk, RevGeneration, RevQa;
  }

  lemma RevisionIsMoved(r: Run, maxCycles: nat)
    requires r.needsRevision && RevisionCycles(r.steps) < maxCycles
    ensures AddRevision(r, maxCycles) == EnsureFinalize(Reposition(WithRevision(r)))
            && WithRevision(r).version == r.version + 1
  {
    hide Applied, Reposition, EnsureFinalize;
  }

  lemma MovedFrom(a: seq<Step>, patched: Run, id: string)
    requires IdsOk(patched.steps) && OpenFinal(patched.steps) && !LastIsFinal(patched.steps)
    requires forall t: Step | t.finalize :: t in patched.steps <==> t in a
    requires id == AutoFinalize(patched.version + 1) && (id in Ids(patched.steps) <==> id in Ids(a))
    ensures FinalsMoved(a, Reposition(patched).steps, id)
  {
    hide Reposition, OpenFinal, LastIsFinal, IdsOk, AutoFinalize, Ids;
    forall t: Step | t.finalize
      ensures t in Reposition(patched).steps <==> (t in a && t.status == Done) || (t == FinalStep(id) && id !in Ids(a))
    {
      RepositionedFinals(patched, t);
    }
  }

  lemma RevisedFinals(r: Run)
    requires IdsOk(r.steps)
    ensures var revised := WithRevision(r);
            && IdsOk(revised.steps) && (forall t: Step | t.finalize :: t in revised.steps <==> t in r.steps)
            && revised.version == r.version + 1
            && (AutoFinalize(r.version + 2) in Ids(revised.steps) <==> AutoFinalize(r.version + 2) in Ids(r.steps))
  {
    RevisionKeepsFinals(r, RevisionCycles(r.steps) + 1);
    PatchedVersion(r, RevisionPatch(RevisionCycles(r.steps) + 1));
    hide Patched, RevisionPatch, RevisionCycles, IdsOk, AutoFinalize, Ids;
  }

  lemma RepositionKeepsIds(r: Run)
    requires IdsOk(r.steps)
    ensures IdsOk(Reposition(r).steps)
  {
    RepositionEffect(r);
    hide Reposition, IdsOk, Evolves, PendingFinal, Ids;
  }

  lemma RevisionMovesFinals(r: Run, maxCycles: nat)
    requires IdsOk(r.steps) && Repositions(r, maxCycles)
    ensures var moved := Reposition(WithRevision(r));
            && IdsOk(moved.steps) && FinalsMoved(r.steps, moved.steps, AutoFinalize(r.version + 2))
            && AddRevision(r, maxCycles) == EnsureFinalize(moved)
  {
    hide WithRevision, Reposition, EnsureFinalize, AddRevision, AutoFinalize, IdsOk, LastIsFinal, OpenFinal, Ids,
         FinalsMoved, RevisionCycles, RevGeneration, RevQa;
    RevisionLeavesFinalsBehind(r, maxCycles);
    RevisionIsMoved(r, maxCycles);
    RevisedFinals(r);
    RepositionKeepsIds(WithRevision(r));
    MovedFrom(r.steps, WithRevision(r), AutoFinalize(r.version + 2));
  }

  lemma FinalsAfterMove(a: seq<Step>, r: Run, id: string)
    requires IdsOk(r.steps) && FinalsMoved(a, r.steps, id)
    ensures var steps := EnsureFinalize(r).steps;
            HasFinalize(steps) && (PendingFinal(steps) <==> !(id in Ids(a) && DoneFinal(a)))
  {
    EnsureFinalizeEffect(r);
    hide EnsureFinalize, IdsOk, Ids;
    var steps := EnsureFinalize(r).steps;
    if id !in Ids(a) {
      assert FinalStep(id) in r.steps && FinalStep(id) in steps;
    } else if DoneFinal(a) {
      assert HasFinalize(r.steps);
    } else {
      assert FinalStep(FIRST_FINALIZE) in steps;
    }
  }

  /** The finalize steps after a revision that moves them. */
  lemma MovedFinals(r: Run, maxCycles: nat)
    requires IdsOk(r.steps) && Repositions(r, maxCycles)
    ensures var steps := AddRevision(r, maxCycles).steps;
            && HasFinalize(steps)
            && (PendingFinal(steps) <==> !(AutoFinalize(r.version + 2) in Ids(r.steps) && DoneFinal(r.steps)))
  {
    hide WithRevision, Reposition, EnsureFinalize, AddRevision, FinalsMoved, IdsOk, Repositions;
    RevisionMovesFinals(r, maxCycles);
    FinalsAfterMove(r.steps, Reposition(WithRevision(r)), AutoFinalize(r.version + 2));
  }

  lemma RevisionIsNotMoved(r: Run, maxCycles: nat)
    requires IdsOk(r.steps) && !Repositions(r, maxCycles) && r.needsRevision && RevisionCycles(r.steps) < maxCycles
    ensures Reposition(WithRevision(r)) == WithRevision(r)
  {
    hide Patched, RevisionPatch, LastIsFinal, IdsOk, RevGeneration, RevQa, OpenFinals, RevisionCycles, Ids,
         AutoFinalize;
    var n := RevisionCycles(r.steps) + 1;
    RevisionKeepsFinals(r, n);
    RevisionStandsLast(r, n);
    OpenFinalsIff(WithRevision(r).steps);
  }

  lemma ReadyThenPending(r: Run, steps: seq<Step>)
    requires IdsOk(r.steps) && FinalizeReady(steps) && forall t: Step | t.finalize :: t in r.steps <==> t in steps
    ensures PendingFinal(EnsureFinalize(r).steps)
  {
    EnsureFinalizeEffect(r);
    hide EnsureFinalize, IdsOk;
    if !HasFinalize(r.steps) {
      assert FinalStep(FIRST_FINALIZE) in EnsureFinalize(r).steps;
    }
  }

  lemma UnmovedFinals(r: Run, maxCycles: nat)
    requires IdsOk(r.steps) && !Repositions(r, maxCycles) && FinalizeReady(r.steps)
    ensures PendingFinal(AddRevision(r, maxCycles).steps)
  {
    if r.needsRevision && RevisionCycles(r.steps) < maxCycles {
      RevisionKeepsFinals(r, RevisionCycles(r.steps) + 1);
      RevisionIsNotMoved(r, maxCycles);
      RevisionIsMoved(r, maxCycles);
      assert WithRevision(r) == Patched(r, RevisionPatch(RevisionCycles(r.steps) + 1));
      hide WithRevision, Patched, Reposition, EnsureFinalize, AddRevision, IdsOk, FinalizeReady, PendingFinal,
           Repositions;
      ReadyThenPending(WithRevision(r), r.steps);
    } else {
      hide EnsureFinalize, IdsOk, FinalizeReady, PendingFinal, Repositions;
      ReadyThenPending(r, r.steps);
    }
  }

  /**
    A revision loses the last pending finalize step exactly when it moves it under a taken id beside
    a finished one.
   */
  lemma RevisionLosesFinalIff(r: Run, maxCycles: nat)
    requires IdsOk(r.steps) && FinalizeReady(r.steps)
    ensures FinalizeReady(AddRevision(r, maxCycles).steps) <==> !MintsTakenId(r, maxCycles)
  {
    hide AddRevision, IdsOk, PendingFinal, DoneFinal, Repositions, Ids;
    if Repositions(r, maxCycles) {
      MovedFinals(r, maxCycles);
    } else {
      UnmovedFinals(r, maxCycles);
    }
  }

  // ----- whole runs

  /** No behaviour leads to a revision that loses the last pending finalize step. */
  ghost predicate NeverMintsTakenId(r: Run, maxCycles: nat) {
    forall replies: seq<Reply> ::
      var s := After(r, replies, maxCycles); s.mode == Replanning ==> !MintsTakenId(s, maxCycles)
  }

  lemma {:induction false} AfterConcat(r: Run, a: seq<Reply>, b: seq<Reply>, maxCycles: nat)
    ensures After(r, a + b, maxCycles) == After(After(r, a, maxCycles), b, maxCycles)
    decreases a
  {
    hide Advance;
    if a == [] {
      assert a + b == b;
    } else {
      assert (a + b)[1..] == a[1..] + b;
      AfterConcat(Advance(r, a[0], maxCycles), a[1..], b, maxCycles);
    }
  }

  lemma NeverMintsLater(r: Run, reply: Reply, maxCycles: nat)
    requires NeverMintsTakenId(r, maxCycles)
    ensures NeverMintsTakenId(Advance(r, reply, maxCycles), maxCycles)
    ensures r.mode == Replanning ==> !MintsTakenId(r, maxCycles)
  {
    hide Advance, MintsTakenId;
    forall replies: seq<Reply>
      ensures var s := After(Advance(r, reply, maxCycles), replies, maxCycles);
              s.mode == Replanning ==> !MintsTakenId(s, maxCycles)
    {
      var all := [reply] + replies;
      assert all[1..] == replies;
      assert After(r, all, maxCycles) == After(Advance(r, reply, maxCycles), replies, maxCycles);
    }
    assert After(r, [], maxCycles) == r;
  }

  lemma AdvanceKeepsReady(r: Run, reply: Reply, maxCycles: nat)
    requires Good(r) && InLoop(r.mode) && FinalizeReady(r.steps)
    requires r.mode == Replanning ==> !MintsTakenId(r, maxCycles)
    ensures var r' := Advance(r, reply, maxCycles); InLoop(r'.mode) ==> FinalizeReady(r'.steps)
  {
    hide Noted, VerdictAfter, SetStatus, AddRevision, MintsTakenId;
    var r' := Advance(r, reply, maxCycles);
    match r.mode
    case Planning =>
      if NextPending(r.steps).None? {
        EnsureFinalizeEffect(r);
        if !HasFinalize(r.steps) { assert FinalStep(FIRST_FINALIZE) in r'.steps; }
      }
    case Stepping =>
      var s := BeginStep(r, reply, maxCycles);
      if !s.finalize { SameFinals(r.steps, r'.steps, s, InProgress); }
    case Running(_) =>
      var s := EndStep(r, reply, maxCycles);
      if r'.mode.Replanning? { SameFinals(r.steps, r'.steps, s, Done); }
    case Replanning => RevisionLosesFinalIff(r, maxCycles);
  }

  lemma {:induction false} EndsWithoutClash(r: Run, replies: seq<Reply>, maxCycles: nat)
    requires Good(r) && (InLoop(r.mode) ==> FinalizeReady(r.steps)) && NeverMintsTakenId(r, maxCycles)
    requires |replies| >= Measure(r, maxCycles)
    ensures After(r, replies, maxCycles).mode.Ended?
    decreases replies
  {
    if r.mode.Ended? {
      EndedStays(r, replies, maxCycles);
    } else {
      NotStuck(r);
      hide Good, Advance, Measure, NeverMintsTakenId, MintsTakenId, FinalizeReady;
      AdvanceProgress(r, replies[0], maxCycles);
      AdvanceKeepsGood(r, replies[0], maxCycles);
      MeasureIsPositive(r, maxCycles);
      NeverMintsLater(r, replies[0], maxCycles);
      if InLoop(r.mode) {
        AdvanceKeepsReady(r, replies[0], maxCycles);
      } else {
        FinalizingEnds(r, replies[0], maxCycles);
      }
      EndsWithoutClash(Advance(r, replies[0], maxCycles), replies[1..], maxCycles);
    }
  }

  lemma NotStuck(r: Run)
    requires InLoop(r.mode) ==> FinalizeReady(r.steps)
    ensures !Stuck(r)
  {
    NextPendingFound(r.steps);
  }

  /** Planning is only entered again when nothing is awaited and all answers are dealt with. */
  lemma ReplanningIsUnasked(r: Run, reply: Reply, maxCycles: nat)
    ensures var r' := Advance(r, reply, maxCycles); r'.mode == Replanning && r.mode != Replanning ==> Unasked(r')
  {
    if r.mode.Running? {
      var b := AfterStep(r.inbox, reply.asks);
      EvaluateDealsWithAll(b.hitl.requests, b.hitl, b.processed);
      StatusKeepsInbox(Noted(r, reply), r.mode.id, Done);
      hide SetStatus, AfterStep, Evaluate;
    }
  }

  lemma StatusKeepsInbox(r: Run, id: string, status: Status)
    ensures SetStatus(r, id, status, None).inbox == r.inbox
  {
  }

  lemma {:induction false} ReachedReplanning(r: Run, replies: seq<Reply>, maxCycles: nat)
    requires Good(r) && (r.mode == Replanning ==> Unasked(r))
    ensures var s := After(r, replies, maxCycles); Good(s) && (s.mode == Replanning ==> Unasked(s))
    decreases replies
  {
    if replies == [] {
    } else {
      AdvanceKeepsGood(r, replies[0], maxCycles);
      ReplanningIsUnasked(r, replies[0], maxCycles);
      assert r.mode == Replanning ==> Advance(r, replies[0], maxCycles).mode == Planning;
      hide Good, Advance, Unasked;
      ReachedReplanning(Advance(r, replies[0], maxCycles), replies[1..], maxCycles);
    }
  }

  lemma ClashNeverEnds(r: Run, maxCycles: nat, n: nat)
    requires Good(r) && r.mode == Replanning && Unasked(r) && MintsTakenId(r, maxCycles)
    ensures !After(r, [Reply(false, [])] + Quiet(n), maxCycles).mode.Ended?
  {
    var reply := Reply(false, []);
    var next := Advance(r, reply, maxCycles);
    AdvanceKeepsGood(r, reply, maxCycles);
    assert NoFinalPending(next) && Unasked(next) && next.mode == Planning by {
      hide AddRevision, Repositions, AllProcessed, Noted, SetStatus, NextPending, EnsureFinalize;
      MovedFinals(r, maxCycles);
      AddRevisionExecutesNothing(r, maxCycles);
    }
    hide Advance, Good, MintsTakenId, Quiet, After, NoFinalPending, Unasked;
    QuietRunNeverEnds(next, n, maxCycles);
    AfterFirst(r, reply, Quiet(n), maxCycles);
  }

  lemma AfterFirst(r: Run, reply: Reply, replies: seq<Reply>, maxCycles: nat)
    ensures After(r, [reply] + replies, maxCycles) == After(Advance(r, reply, maxCycles), replies, maxCycles)
  {
    hide Advance;
    assert ([reply] + replies)[1..] == replies;
  }

  /**
    Every behaviour of the specialists, of the quality assurance and of the operators leads to an end
    exactly when a pending request stops the first specialist step, or the plan has a pending finalize
    step or none at all and no behaviour leads to a revision that loses it.
   */
  lemma EndsIff(r: Run, maxCycles: nat)
    requires Good(r) && r.mode == Planning && Attentive(r.inbox)
    ensures (exists bound: nat :: EndsWithin(r, maxCycles, bound))
       <==> WillPause(r) || (FinalizeReady(r.steps) && NeverMintsTakenId(r, maxCycles))
  {
    hide Good, NeverMintsTakenId, FinalizeReady, Attentive, WillPause, EndsWithin;
    if WillPause(r) {
      EndsWhenPaused(r, maxCycles);
    } else if FinalizeReady(r.steps) && NeverMintsTakenId(r, maxCycles) {
      EndsWhenNothingClashes(r, maxCycles);
    } else if bound: nat :| EndsWithin(r, maxCycles, bound) {
      NeverEnds(r, maxCycles, bound);
    }
  }

  lemma EndsWhenPaused(r: Run, maxCycles: nat)
    requires Good(r) && r.mode == Planning && Attentive(r.inbox) && WillPause(r)
    ensures EndsWithin(r, maxCycles, 3)
  {
    hide Good, Attentive;
    forall replies: seq<Reply> | |replies| >= 3 ensures After(r, replies, maxCycles).mode.Ended? {
      PausesAtOnce(r, replies, maxCycles);
    }
  }

  lemma EndsWhenNothingClashes(r: Run, maxCycles: nat)
    requires Good(r) && FinalizeReady(r.steps) && NeverMintsTakenId(r, maxCycles)
    ensures EndsWithin(r, maxCycles, Measure(r, maxCycles))
  {
    hide Good, FinalizeReady, NeverMintsTakenId, Measure;
    forall replies: seq<Reply> | |replies| >= Measure(r, maxCycles) ensures After(r, replies, maxCycles).mode.Ended? {
      EndsWithoutClash(r, replies, maxCycles);
    }
  }

  lemma NeverEnds(r: Run, maxCycles: nat, bound: nat)
    requires Good(r) && r.mode == Planning && Attentive(r.inbox) && !WillPause(r)
    requires !FinalizeReady(r.steps) || !NeverMintsTakenId(r, maxCycles)
    ensures !EndsWithin(r, maxCycles, bound)
  {
    hide Good, MintsTakenId;
    if !FinalizeReady(r.steps) {
      if r.inbox.awaiting {
        NextIsPending(r.steps);
        StuckForEver(r, Quiet(bound), maxCycles);
      } else {
        QuietRunNeverEnds(r, bound, maxCycles);
      }
    } else {
      var replies: seq<Reply> :|
        var s := After(r, replies, maxCycles); s.mode == Replanning && MintsTakenId(s, maxCycles);
      var s, rest := After(r, replies, maxCycles), [Reply(false, [])] + Quiet(bound);
      ReachedReplanning(r, replies, maxCycles);
      ClashNeverEnds(s, maxCycles, bound);
      AfterConcat(r, replies, rest, maxCycles);
      assert |replies + rest| >= bound;
    }
  }

  // ----- fresh runs

  /** The exact condition for every fresh run whose planner gives no specialist step the engine's own finalize id. */
  lemma FreshRunEndsExactly(r: Run, answer: Answer, maxCycles: nat)
    requires r.mode == Planning && r.steps == [] && Attentive(r.inbox) && IdsOk(FirstPatched(r, answer).steps)
    ensures (exists bound: nat :: EndsWithin(Planned(r, answer), maxCycles, bound))
       <==> || WillPause(Planned(r, answer))
            || (FinalizeReady(FirstPatched(r, answer).steps) && NeverMintsTakenId(Planned(r, answer), maxCycles))
  {
    hide FirstPatched, IdsOk, FinalizeReady, EndsWithin, Good, Planned, Attentive, WillPause, NeverMintsTakenId;
    PlannedIsGoodIff(r, answer);
    PlannedKeepsReady(r, answer);
    EndsIff(Planned(r, answer), maxCycles);
  }

  /** What the planner's patch leads to when its steps have different ids and some step has a capability. */
  lemma FirstSteps(r: Run, add: seq<Step>)
    requires r.steps == [] && Distinct(Ids(add)) && HasFinalize(add) && HasCapabilitySteps(add)
    ensures var answer := Answered(Some(Patch(add, [], [])));
            && FirstPatched(r, answer) == Patched(r, Patch(add, [], [])) && FirstPatched(r, answer).steps == add
            && Planned(r, answer) == FirstPatched(r, answer)
  {
    hide Applied, Added, HasFinalize, HasCapabilitySteps, Fallback, WithFallback, Distinct;
    var patch := Patch(add, [], []);
    AddsOnly([], add);
    assert [] + add == add;
    AllAdded([], add);
    var first := Patched(r, patch);
    assert first.steps == add;
    assert EnsureFinalize(first) == first;
    hide Patched, EnsureFinalize;
  }

  lemma {:induction false} AllAdded(steps: seq<Step>, add: seq<Step>)
    requires Distinct(Ids(steps + add))
    ensures Added(steps, add) == steps + add
    decreases add
  {
    if add == [] {
      assert steps + add == steps;
    } else {
      assert steps + [add[0]] + add[1..] == steps + add;
      forall i | 0 <= i < |steps| ensures steps[i].id != add[0].id {
        assert Ids(steps + add)[i] != Ids(steps + add)[|steps|];
      }
      AllAdded(steps + [add[0]], add[1..]);
    }
  }

  function Generation(status: Status): Step {
    Step("g", Some("generation"), false, None, status, None)
  }

  function Final(id: string, status: Status): Step {
    Step(id, None, true, None, status, None)
  }

  /** A planner that calls the only finalize step done keeps the loop planning for ever. */
  lemma DoneFinalizeStepNeverEnds(r: Run, maxCycles: nat)
    requires r.mode == Planning && r.steps == [] && Attentive(r.inbox) && !r.inbox.awaiting
    ensures var add := [Generation(Pending), Final("f", Done)];
            var answer := Answered(Some(Patch(add, [], [])));
            && IdsOk(FirstPatched(r, answer).steps)
            && !exists bound: nat :: EndsWithin(Planned(r, answer), maxCycles, bound)
  {
    var add := [Generation(Pending), Final("f", Done)];
    var answer := Answered(Some(Patch(add, [], [])));
    DoneFinalizeShape();
    FirstSteps(r, add);
    assert Planned(r, answer).inbox == r.inbox;
    hide FirstPatched, Planned, EndsWithin, NeverMintsTakenId, Attentive, IdsOk, FinalizeReady;
    FreshRunEndsExactly(r, answer, maxCycles);
  }

  lemma DoneFinalizeShape()
    ensures var add := [Generation(Pending), Final("f", Done)];
            && IdsOk(add) && HasFinalize(add) && HasCapabilitySteps(add) && !FinalizeReady(add)
  {
    var add := [Generation(Pending), Final("f", Done)];
    assert add[0].capability.GetOr("") != "" && add[0] in add && add[1] in add && add[1].finalize;
    assert Ids(add)[0] == "g" && Ids(add)[1] == "f";
  }

  /**
    A finished finalize step with the id that the engine will mint: after one objection the engine moves
    the pending finalize step under that id, drops it, and plans for ever.
   */
  function Clashing(version: nat): seq<Step> {
    [Final("f", Pending), Generation(Pending), Final(AutoFinalize(version + 5), Done)]
  }

  lemma ClashingShape(version: nat)
    ensures var add := Clashing(version);
            && Distinct(Ids(add)) && IdsOk(add) && HasFinalize(add) && HasCapabilitySteps(add) && PendingFinal(add)
            && NextPending(add) == Some(add[1])
  {
    var add := Clashing(version);
    AutoFinalizeStartsWithA(version + 5);
    assert add[0] in add && add[1].capability.GetOr("") != "" && add[1] in add && add[0].finalize;
    assert FirstSpecialist(add) == FirstSpecialist(add[1..]) && add[1..][0] == add[1];
    hide AutoFinalize;
  }

  lemma SetsSecond(r: Run, status: Status)
    requires |r.steps| == 3 && r.steps[0].id != "g" && r.steps[1].id == "g"
    ensures SetStatus(r, "g", status, None)
            == r.(steps := [r.steps[0], r.steps[1].(status := status), r.steps[2]], version := r.version + 1,
                  emitted := r.emitted + [Patch([], [Update("g", Some(status), None)], [])])
  {
    var steps := r.steps;
    InIds(steps, "g");
    assert steps[1] in steps;
    assert SetFirst(steps[1..], "g", status, None) == [steps[1].(status := status)] + steps[1..][1..];
    assert SetFirst(steps, "g", status, None) == [steps[0], steps[1].(status := status), steps[2]];
    hide SetFirst;
  }

  lemma GenerationBegins(r: Run, reply: Reply, maxCycles: nat)
    requires r.mode == Stepping && r.version >= 1 && r.steps == Clashing(r.version - 1)
    ensures var r' := Advance(r, reply, maxCycles);
            && r'.mode == Running("g") && r'.version == r.version + 1 && r'.inbox == r.inbox
            && r'.steps == [Final("f", Pending), Generation(InProgress), Final(AutoFinalize(r.version + 4), Done)]
  {
    hide SetStatus, NextPending, AutoFinalize, Noted, VerdictAfter, AddRevision, EnsureFinalize;
    ClashingShape(r.version - 1);
    SetsSecond(r, InProgress);
  }

  lemma GenerationEnds(r: Run, maxCycles: nat, id: string)
    requires r.mode == Running("g") && Unasked(r) && id == AutoFinalize(r.version + 3)
    requires r.steps == [Final("f", Pending), Generation(InProgress), Final(id, Done)]
    ensures var r' := Advance(r, Reply(true, []), maxCycles);
            && r'.mode == Replanning && r'.needsRevision && r'.version == r.version + 1
            && r'.steps == [Final("f", Pending), Generation(Done), Final(id, Done)]
  {
    NotedQuietly(r, true);
    SetsSecond(r.(needsRevision := true), Done);
    hide SetStatus, Noted, VerdictAfter, AutoFinalize;
  }

  lemma OneObjection(r: Run, maxCycles: nat) returns (replies: seq<Reply>)
    requires r.mode == Planning && r.version >= 1 && r.steps == Clashing(r.version - 1) && Unasked(r) && maxCycles >= 1
    ensures var s := After(r, replies, maxCycles); s.mode == Replanning && MintsTakenId(s, maxCycles)
  {
    hide After, AutoFinalize, MintsTakenId, Clashing, NextPending, SetStatus, Noted, AddRevision, EnsureFinalize;
    var quiet, objection := Reply(false, []), Reply(true, []);
    replies := [quiet, quiet, objection];
    ClashingShape(r.version - 1);
    var r1 := r.(mode := Stepping);
    assert Advance(r, quiet, maxCycles) == r1;
    ThreeReplies(r, quiet, quiet, objection, maxCycles);
    hide Advance;
    GenerationBegins(r1, quiet, maxCycles);
    var r2 := Advance(r1, quiet, maxCycles);
    GenerationEnds(r2, maxCycles, AutoFinalize(r.version + 4));
    OneGenerationDone(Advance(r2, objection, maxCycles), maxCycles, AutoFinalize(r.version + 4));
  }

  lemma ThreeReplies(r: Run, a: Reply, b: Reply, c: Reply, maxCycles: nat)
    ensures After(r, [a, b, c], maxCycles) == Advance(Advance(Advance(r, a, maxCycles), b, maxCycles), c, maxCycles)
  {
    hide Advance;
    assert [a, b, c][1..] == [b, c] && [b, c][1..] == [c] && [c][1..] == [];
    assert After(r, [a, b, c], maxCycles) == After(Advance(r, a, maxCycles), [b, c], maxCycles);
    assert After(Advance(r, a, maxCycles), [b, c], maxCycles)
        == After(Advance(Advance(r, a, maxCycles), b, maxCycles), [c], maxCycles);
  }

  lemma OneGenerationDone(r: Run, maxCycles: nat, id: string)
    requires r.steps == [Final("f", Pending), Generation(Done), Final(id, Done)] && r.needsRevision && maxCycles >= 1
    requires id == AutoFinalize(r.version + 2)
    ensures MintsTakenId(r, maxCycles)
  {
    var steps := r.steps;
    hide AutoFinalize;
    assert steps[1..] == [steps[1], steps[2]] && [steps[1], steps[2]][1..] == [steps[2]] && [steps[2]][1..] == [];
    assert GenerationsDone(steps[1..][1..]) == 0;
    assert GenerationsDone(steps[1..]) == 1;
    assert GenerationsDone(steps) == 1;
    assert steps[0] in steps && steps[2] in steps;
    assert Ids(steps)[2] == id;
    assert RevGeneration(1) !in Ids(steps) by {
      InIds(steps, RevGeneration(1));
      MintedIdsDiffer(1, r.version + 2);
      assert RevGeneration(1)[0] == 'r';
    }
  }

  lemma ClashingPlanNeverEnds(r: Run, maxCycles: nat)
    requires r.mode == Planning && r.steps == [] && Attentive(r.inbox) && !r.inbox.awaiting && maxCycles >= 1
    ensures var answer := Answered(Some(Patch(Clashing(r.version), [], [])));
            && IdsOk(FirstPatched(r, answer).steps) && FinalizeReady(FirstPatched(r, answer).steps)
            && !exists bound: nat :: EndsWithin(Planned(r, answer), maxCycles, bound)
  {
    var answer := Answered(Some(Patch(Clashing(r.version), [], [])));
    ClashingShape(r.version);
    FirstSteps(r, Clashing(r.version));
    var start := Planned(r, answer);
    assert start.version == r.version + 1 && start.steps == Clashing(r.version);
    PlannedIsGoodIff(r, answer);
    AttentiveIsUnasked(start);
    hide FirstPatched, Planned, EndsWithin, MintsTakenId, Attentive, Clashing, Unasked;
    var replies := OneObjection(start, maxCycles);
    FreshRunEndsExactly(r, answer, maxCycles);
  }
}
