/** The first plan of a run: the planner's patch, the fallbacks, and the finalize step. */
module EnginePlanning {
  import opened Wrappers
  import opened Text
  import opened Plans
  import opened Engine
  import opened EngineRuns
  import opened EngineTheorems
  import opened Inboxes

  /** What becomes of the planner's call: it throws, or its text holds a usable patch or none. */
  datatype Answer = Threw | Answered(patch: Option<Patch>)

  function Fallback(suffix: string): Patch {
    Patch([Step("strategy_" + suffix, Some("strategy"), false, None, Pending, Some("Initial strategy")),
           Step("generation_" + suffix, Some("generation"), false, None, Pending, Some("Initial draft")),
           Step("qa_" + suffix, Some("qa"), false, None, Pending, Some("Initial QA"))], [], [])
  }

  predicate HasCapabilitySteps(steps: seq<Step>) {
    exists s | s in steps :: s.capability.GetOr("") != ""
  }

  /** The plan once the planner's patch, or the fallback for an empty plan, is in. */
  function FirstPatched(r: Run, answer: Answer): Run {
    match answer
    case Threw => r
    case Answered(Some(patch)) => Patched(r, patch)
    case Answered(None) => if r.steps == [] then Patched(r, Fallback("1")) else r
  }

  function Planned(r: Run, answer: Answer): Run {
    var r' := EnsureFinalize(FirstPatched(r, answer));
    if answer.Answered? && !HasCapabilitySteps(r'.steps)
    then WithFallback(r', Decimal(r'.version + 1))
    else r'
  }

  function WithFallback(r: Run, suffix: string): Run {
    EnsureFinalize(Patched(r, Fallback(suffix)))
  }

  lemma FallbackShape(suffix: string)
    ensures var add := Fallback(suffix).add;
            && Distinct(Ids(add))
            && forall s | s in add ::
                 IsPendingSpecialist(s) && s.id != FIRST_FINALIZE && s.id[0] != 'a' && s.capability.GetOr("") != ""
  {
    var add := Fallback(suffix).add;
    assert Ids(add)[0][0] == 's' && Ids(add)[1][0] == 'g' && Ids(add)[2][0] == 'q';
    assert FIRST_FINALIZE[0] == 'a';
    assert Some("strategy").GetOr("") != "" && Some("generation").GetOr("") != "" && Some("qa").GetOr("") != "";
  }

  lemma FallbackEffect(r: Run, suffix: string)
    requires Distinct(Ids(r.steps))
    ensures var steps := Patched(r, Fallback(suffix)).steps;
            && Distinct(Ids(steps)) && (r.steps != [] ==> steps != [])
            && forall t :: t in steps <==> t in r.steps || (t in Fallback(suffix).add && t.id !in Ids(r.steps))
  {
    var patch := Fallback(suffix);
    var steps := Patched(r, patch).steps;
    FallbackShape(suffix);
    AppliedMembers(r.steps, patch);
    forall t ensures t in steps <==> t in r.steps || (t in patch.add && t.id !in Ids(r.steps)) {
      PatchedMembers(r.steps, patch.add, [], t);
    }
    if r.steps != [] { assert r.steps[0] in steps; }
  }

  /** The plan that stands in for the planner, and the step that ends every plan. */
  function StandIn(suffix: string): seq<Step> {
    [Step("strategy_" + suffix, Some("strategy"), false, None, Pending, Some("Initial strategy")),
     Step("generation_" + suffix, Some("generation"), false, None, Pending, Some("Initial draft")),
     Step("qa_" + suffix, Some("qa"), false, None, Pending, Some("Initial QA"))]
  }

  ghost function Finished(steps: seq<Step>): seq<Step> {
    if exists s | s in steps :: s.finalize then steps
    else steps + [Step("auto_finalize_1", None, true, None, Pending, Some("Final review"))]
  }

  lemma EnsureFinalizeFinishes(r: Run)
    ensures EnsureFinalize(r).steps == Finished(r.steps)
    ensures EnsureFinalize(r).version == r.version + |Finished(r.steps)| - |r.steps|
  {
  }

  lemma StandInIdsDiffer(suffix: string)
    ensures Distinct(Ids(StandIn(suffix)))
  {
    var add := StandIn(suffix);
    assert add[0].id[0] == 's' && add[1].id[0] == 'g' && add[2].id[0] == 'q';
  }

  lemma AddedToNothing(suffix: string)
    ensures Applied([], Patch(StandIn(suffix), [], [])) == StandIn(suffix)
  {
    StandInIdsDiffer(suffix);
    hide StandIn, Added, Ids, Distinct;
    var add := StandIn(suffix);
    assert [] + add == add;
    DistinctAddsAll([], add);
    assert Updated(add, []) == add;
    KeptAllOrNone(add, []);
  }

  lemma {:induction false} DistinctAddsAll(steps: seq<Step>, add: seq<Step>)
    requires Distinct(Ids(steps + add))
    ensures Added(steps, add) == steps + add
    decreases add
  {
    if add == [] {
      assert steps + [] == steps;
    } else {
      var ids := Ids(steps + add);
      forall i | 0 <= i < |steps| ensures Ids(steps)[i] != add[0].id {
        assert ids[i] == steps[i].id && ids[|steps|] == add[0].id;
      }
      assert steps + [add[0]] + add[1..] == steps + add;
      DistinctAddsAll(steps + [add[0]], add[1..]);
    }
  }

  /**
    What planning makes of nothing: a finalize step alone when the planner throws; the stand-in plan when
    its answer holds no usable patch; and otherwise the steps of its patch, with the stand-in plan behind
    them when none of them has a capability. A finalize step is added wherever there is none.
   */
  lemma PlannedFromNothing(r: Run, answer: Answer)
    requires r.steps == [] && r.version == 0
    ensures var steps := Planned(r, answer).steps;
            match answer
            case Threw => steps == [Step("auto_finalize_1", None, true, None, Pending, Some("Final review"))]
            case Answered(None) =>
              steps == StandIn("1") + [Step("auto_finalize_1", None, true, None, Pending, Some("Final review"))]
            case Answered(Some(patch)) =>
              var first := Finished(Applied([], patch));
              if exists s | s in first :: s.capability.GetOr("") != "" then steps == first
              else
                var number := 2 + |first| - |Applied([], patch)|;
                steps == Finished(Applied(first, Patch(StandIn(Decimal(number)), [], [])))
  {
    hide FirstPatched, EnsureFinalize, Applied, Decimal, StandIn, Fallback, HasCapabilitySteps;
    var first := FirstPatched(r, answer);
    FirstPatchedFromNothing(r, answer);
    EnsureFinalizeFinishes(first);
    CapableIff(Finished(first.steps));
    if answer == Answered(None) {
      NoFinalInStandIn();
    } else if answer.Answered? {
      var planned := EnsureFinalize(first);
      FallbackIsStandIn(planned, Decimal(planned.version + 1));
      EnsureFinalizeFinishes(Patched(planned, Fallback(Decimal(planned.version + 1))));
    }
  }

  lemma FirstPatchedFromNothing(r: Run, answer: Answer)
    requires r.steps == [] && r.version == 0
    ensures var first := FirstPatched(r, answer);
            match answer
            case Threw => first.steps == [] && first.version == 0
            case Answered(None) => first.steps == StandIn("1") && first.version == 1
            case Answered(Some(patch)) => first.steps == Applied([], patch) && first.version == 1
  {
    AddedToNothing("1");
    hide Applied;
  }

  lemma CapableIff(steps: seq<Step>)
    ensures HasCapabilitySteps(steps) <==> exists s | s in steps :: s.capability.GetOr("") != ""
  {
  }

  lemma FallbackIsStandIn(r: Run, suffix: string)
    ensures Patched(r, Fallback(suffix)).steps == Applied(r.steps, Patch(StandIn(suffix), [], []))
  {
    hide Applied;
  }

  lemma PlannedFrame(r: Run, answer: Answer)
    ensures var planned := Planned(r, answer);
            && planned.mode == r.mode && planned.executed == r.executed
            && planned.needsRevision == r.needsRevision && planned.inbox == r.inbox
  {
    hide Applied, HasFinalize, HasCapabilitySteps, Fallback;
  }

  lemma NoFinalInStandIn()
    ensures forall s | s in StandIn("1") :: !s.finalize
    ensures exists s | s in Finished(StandIn("1")) :: s.capability.GetOr("") != ""
    ensures Finished(StandIn("1")) == StandIn("1") + Finished([])
  {
    var s := StandIn("1")[0];
    assert s in Finished(StandIn("1")) && s.capability == Some("strategy") && "strategy" != "";
  }

  lemma FirstPatchedIsDistinct(r: Run, answer: Answer)
    requires r.steps == []
    ensures Distinct(Ids(FirstPatched(r, answer).steps))
  {
    match answer
    case Threw =>
    case Answered(Some(patch)) => AppliedMembers([], patch);
    case Answered(None) => AppliedMembers([], Fallback("1"));
  }

  /** A finalize step is made only where there is none, so ids clash exactly when FIRST_FINALIZE was taken. */
  lemma EnsureFinalizeKeepsIdsIff(r: Run)
    requires Distinct(Ids(r.steps))
    ensures IdsOk(EnsureFinalize(r).steps) <==> IdsOk(r.steps)
    ensures EnsureFinalize(r).steps != [] && HasFinalize(EnsureFinalize(r).steps)
  {
  }

  lemma FallbackKeepsIdsIff(r: Run, suffix: string)
    requires Distinct(Ids(r.steps))
    ensures IdsOk(Patched(r, Fallback(suffix)).steps) <==> IdsOk(r.steps)
  {
    FallbackEffect(r, suffix);
    FallbackShape(suffix);
    hide Patched, Fallback;
    var steps := Patched(r, Fallback(suffix)).steps;
    if !IdsOk(r.steps) {
      var s :| s in r.steps && s.id == FIRST_FINALIZE && !s.finalize;
      assert s in steps;
    }
  }

  lemma AddOnlyKeepsPrefix(steps: seq<Step>, add: seq<Step>)
    ensures steps <= Applied(steps, Patch(add, [], []))
  {
    var added := Added(steps, add);
    AddedExtends(steps, add);
    assert Updated(added, []) == added;
    KeptAllOrNone(added, []);
  }

  lemma PrefixIsDistinct(a: seq<Step>, b: seq<Step>)
    requires a <= b && Distinct(Ids(b))
    ensures Distinct(Ids(a))
  {
  }

  lemma EnsureFinalizeFrame(r: Run)
    ensures r.steps <= EnsureFinalize(r).steps && EnsureFinalize(r).mode == r.mode
    ensures EnsureFinalize(r).steps != [] && HasFinalize(EnsureFinalize(r).steps)
    ensures EnsureFinalize(r).inbox == r.inbox && EnsureFinalize(r).executed == r.executed
    ensures EnsureFinalize(r).version >= r.version
  {
  }

  lemma PatchedFrame(r: Run, patch: Patch)
    ensures Patched(r, patch)
            == r.(steps := Applied(r.steps, patch), version := r.version + 1, emitted := r.emitted + [patch])
  {
  }

  /** Ids that the fallback brings never repair nor break anything. */
  lemma WithFallbackKeepsIdsIff(r: Run, suffix: string)
    ensures var r' := WithFallback(r, suffix);
            (IdsOk(r'.steps) <==> IdsOk(r.steps)) && r'.steps != [] && HasFinalize(r'.steps)
            && r'.mode == r.mode && r'.inbox == r.inbox && r'.executed == r.executed && r'.version > r.version
  {
    hide Applied, EnsureFinalize, Patched, Fallback, HasFinalize;
    var mid := Patched(r, Fallback(suffix));
    PatchedFrame(r, Fallback(suffix));
    EnsureFinalizeFrame(mid);
    if Distinct(Ids(r.steps)) {
      FallbackEffect(r, suffix);
      FallbackKeepsIdsIff(r, suffix);
      hide IdsOk, Distinct;
      EnsureFinalizeKeepsIdsIff(mid);
    } else {
      assert Fallback(suffix) == Patch(Fallback(suffix).add, [], []) by { FallbackOnlyAdds(suffix); }
      AddOnlyKeepsPrefix(r.steps, Fallback(suffix).add);
      if Distinct(Ids(EnsureFinalize(mid).steps)) {
        PrefixIsDistinct(r.steps, EnsureFinalize(mid).steps);
      }
    }
  }

  lemma FallbackOnlyAdds(suffix: string)
    ensures Fallback(suffix).update == [] && Fallback(suffix).remove == []
  {
  }

  /**
    Planning from nothing leaves a plan that the loop can take over, with distinct ids and a finalize
    step, exactly when the planner does not name a specialist step as the engine names its own
    finalize step.
   */
  lemma PlannedIsGoodIff(r: Run, answer: Answer)
    requires r.mode == Planning && r.steps == []
    ensures var r' := Planned(r, answer);
            && (Good(r') <==> IdsOk(FirstPatched(r, answer).steps))
            && HasFinalize(r'.steps) && r'.mode == Planning && r'.inbox == r.inbox && r'.executed == r.executed
  {
    hide FirstPatched, EnsureFinalize, IdsOk, HasFinalize, HasCapabilitySteps, WithFallback, Decimal, Good;
    FirstPatchedIsDistinct(r, answer);
    FirstPatchedFrame(r, answer);
    var first := FirstPatched(r, answer);
    EnsureFinalizeKeepsIdsIff(first);
    EnsureFinalizeFrame(first);
    var r1 := EnsureFinalize(first);
    WithFallbackKeepsIdsIff(r1, Decimal(r1.version + 1));
    GoodAtPlanning(Planned(r, answer));
  }

  lemma GoodAtPlanning(r: Run)
    requires r.mode == Planning
    ensures Good(r) <==> IdsOk(r.steps) && r.steps != []
  {
  }

  lemma FirstPatchedFrame(r: Run, answer: Answer)
    ensures var r' := FirstPatched(r, answer);
            r'.mode == r.mode && r'.inbox == r.inbox && r'.executed == r.executed && r'.version >= r.version
  {
  }

  // ----- the events of the planning phase replay as well

  lemma PlannedExtends(r: Run, answer: Answer)
    requires r.steps == [] && IdsOk(FirstPatched(r, answer).steps)
    ensures Extends(r, Planned(r, answer))
  {
    var first := FirstPatched(r, answer);
    FirstPatchedExtends(r, answer);
    hide FirstPatched, Extends, Patched, IdsOk, HasFinalize, HasCapabilitySteps, Fallback, EnsureFinalize;
    EnsureFinalizeExtends(first);
    ExtendsFurther(r, first, EnsureFinalize(first));
    var r1 := EnsureFinalize(first);
    EnsureFinalizeKeepsIds(first);
    var suffix := Decimal(r1.version + 1);
    var mid := Patched(r1, Fallback(suffix));
    PatchedExtends(r1, Fallback(suffix));
    ExtendsFurther(r, r1, mid);
    IdsOkIsDistinct(r1.steps);
    FallbackKeepsIdsIff(r1, suffix);
    EnsureFinalizeExtends(mid);
    ExtendsFurther(r, mid, EnsureFinalize(mid));
  }

  lemma IdsOkIsDistinct(steps: seq<Step>)
    requires IdsOk(steps)
    ensures Distinct(Ids(steps))
  {
  }

  lemma FirstPatchedExtends(r: Run, answer: Answer)
    ensures Extends(r, FirstPatched(r, answer))
  {
    hide Patched, Extends;
    ExtendsSelf(r, r);
    PatchedExtends(r, Fallback("1"));
    if answer.Answered? && answer.patch.Some? { PatchedExtends(r, answer.patch.value); }
  }

  lemma EnsureFinalizeExtends(r: Run)
    requires IdsOk(r.steps)
    ensures Extends(r, EnsureFinalize(r))
  {
    hide Extends, EnsureFinalize;
    FirstFinalizeIsFree(r.steps);
    EnsureFinalizeReplaysIff(r);
  }

  lemma EnsureFinalizeKeepsIds(r: Run)
    requires IdsOk(r.steps)
    ensures IdsOk(EnsureFinalize(r).steps)
  {
  }

  /** A run from nothing: all its events, the planner's patch among them, replay to its plan. */
  lemma FreshRunReplays(r: Run, answer: Answer, replies: seq<Reply>, maxCycles: nat)
    requires r.mode == Planning && r.steps == [] && IdsOk(FirstPatched(r, answer).steps)
    ensures Extends(r, After(Planned(r, answer), replies, maxCycles))
  {
    PlannedIsGoodIff(r, answer);
    PlannedExtends(r, answer);
    hide Planned, Extends, Good, After;
    ReplayTheorem(Planned(r, answer), replies, maxCycles);
    ExtendsFurther(r, Planned(r, answer), After(Planned(r, answer), replies, maxCycles));
  }

  // ----- when a fresh run ends

  lemma EnsureFinalizeKeepsReady(r: Run)
    requires IdsOk(r.steps)
    ensures var r' := EnsureFinalize(r);
            && (FinalizeReady(r'.steps) <==> FinalizeReady(r.steps))
            && (IdsBelow(r, r.version + 3) ==> IdsBelow(r', r'.version + 3))
  {
    var r' := EnsureFinalize(r);
    EnsureFinalizeEffect(r);
    FirstFinalizeIsOne();
    EnsureFinalizeFrame(r);
    if !HasFinalize(r.steps) {
      var last := FinalStep(FIRST_FINALIZE);
      assert last in r'.steps && last.finalize && last.status == Pending;
    }
    forall n: nat | IdsBelow(r, r.version + 3) && AutoFinalize(n) in Ids(r'.steps)
      ensures n <= r'.version || n <= r'.version + 3
    {
      InIds(r'.steps, AutoFinalize(n));
      InIds(r.steps, AutoFinalize(n));
      if AutoFinalize(n) !in Ids(r.steps) {
        AutoFinalizeInjective(n, 1);
      }
    }
  }

  lemma FallbackKeepsReady(r: Run, suffix: string)
    requires IdsOk(r.steps)
    ensures var r' := Patched(r, Fallback(suffix));
            && IdsOk(r'.steps) && (FinalizeReady(r'.steps) <==> FinalizeReady(r.steps))
            && (IdsBelow(r, r.version + 3) ==> IdsBelow(r', r'.version + 3))
  {
    FallbackEffect(r, suffix);
    FallbackKeepsIdsIff(r, suffix);
    FallbackShape(suffix);
    PatchedFrame(r, Fallback(suffix));
    hide Patched, Fallback, IdsOk, AutoFinalize;
    var r' := Patched(r, Fallback(suffix));
    SameFinalSteps(r.steps, r'.steps);
    forall n: nat | IdsBelow(r, r.version + 3) && AutoFinalize(n) in Ids(r'.steps)
      ensures n <= r'.version || n <= r'.version + 3
    {
      InIds(r'.steps, AutoFinalize(n));
      InIds(r.steps, AutoFinalize(n));
      AutoFinalizeStartsWithA(n);
    }
  }

  lemma AutoFinalizeStartsWithA(n: nat)
    ensures AutoFinalize(n) != "" && AutoFinalize(n)[0] == 'a'
  {
  }

  lemma SameFinalSteps(a: seq<Step>, b: seq<Step>)
    requires forall t: Step | t.finalize :: t in a <==> t in b
    ensures FinalizeReady(a) <==> FinalizeReady(b)
  {
  }

  lemma WithFallbackKeepsReady(r: Run, suffix: string)
    requires IdsOk(r.steps)
    ensures var r' := WithFallback(r, suffix);
            && (FinalizeReady(r'.steps) <==> FinalizeReady(r.steps))
            && (IdsBelow(r, r.version + 3) ==> IdsBelow(r', r'.version + 3))
  {
    hide Patched, Fallback, IdsOk, IdsBelow, FinalizeReady, EnsureFinalize;
    FallbackKeepsReady(r, suffix);
    EnsureFinalizeKeepsReady(Patched(r, Fallback(suffix)));
  }

  lemma PlannedKeepsReady(r: Run, answer: Answer)
    requires IdsOk(FirstPatched(r, answer).steps)
    ensures var first, r' := FirstPatched(r, answer), Planned(r, answer);
            && (FinalizeReady(r'.steps) <==> FinalizeReady(first.steps))
            && (IdsBelow(first, first.version + 3) ==> IdsBelow(r', r'.version + 3))
  {
    hide FirstPatched, EnsureFinalize, IdsOk, WithFallback, Decimal, HasCapabilitySteps, IdsBelow, FinalizeReady;
    var first := FirstPatched(r, answer);
    EnsureFinalizeKeepsReady(first);
    EnsureFinalizeKeepsIds(first);
    var r1 := EnsureFinalize(first);
    WithFallbackKeepsReady(r1, Decimal(r1.version + 1));
  }

  /**
    When the planner's patch holds no id that the engine could still mint: a fresh run ends, whatever
    the specialists, the quality assurance and the operators do, exactly when the patch holds a pending
    finalize step or none at all, or when a request is still pending from before and stops the first
    specialist step.
   */
  lemma FreshRunEndsIff(r: Run, answer: Answer, maxCycles: nat)
    requires r.mode == Planning && r.steps == [] && Attentive(r.inbox)
    requires var first := FirstPatched(r, answer); IdsOk(first.steps) && IdsBelow(first, first.version + 3)
    ensures (exists bound: nat :: EndsWithin(Planned(r, answer), maxCycles, bound))
       <==> FinalizeReady(FirstPatched(r, answer).steps) || WillPause(Planned(r, answer))
  {
    hide FirstPatched, IdsOk, IdsBelow, FinalizeReady, EndsWithin, Good, Planned, Attentive, WillPause;
    PlannedIsGoodIff(r, answer);
    PlannedKeepsReady(r, answer);
    EndsIffFinalizeReady(Planned(r, answer), maxCycles);
  }
}
