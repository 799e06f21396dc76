/** What the planner's texts mean for the normalized patch, from the raw input to the fields of each step. */
module PatchMeaning {
  import opened Wrappers
  import opened Basics
  import opened Text
  import opened Plans
  import opened PatchInput

  // ----- the texts

  ghost predicate SaysFinalize(text: string) {
    var s := Trim(Lower(text));
    s == "final" || s == "finalize" || Occurs(s, "finish") || Occurs(s, "complete")
  }

  /** The step is one of the kind that the text names: finalization, or the capability of that name. */
  ghost predicate IsNamed(step: Step, text: string) {
    if SaysFinalize(text) then step.finalize
    else !Blank(text) && step.capability == Some(Trim(Lower(text)))
  }

  /** The step has that kind and no other. */
  ghost predicate HasKind(step: Step, capability: Option<string>) {
    step.capability == capability && (step.finalize <==> capability == None)
  }

  ghost predicate HasNamedKind(step: Step, text: string) {
    HasKind(step, if SaysFinalize(text) then None else Some(Trim(Lower(text))))
  }

  /** A note that is given and not empty, or else the engine's own for the four kinds it knows. */
  ghost predicate HasNoteFor(step: Step, given: Option<string>) {
    if given.GetOr("") != "" then step.note == given
    else step.note == if step.finalize then Some("Final review")
                      else if step.capability == Some("strategy") then Some("Strategy plan")
                      else if step.capability == Some("generation") then Some("Draft content")
                      else if step.capability == Some("qa") then Some("QA review")
                      else None
  }

  ghost predicate SaysInProgress(text: string) {
    Lower(text) in {"in_progress", "inprogress", "active"}
  }

  ghost predicate SaysDone(text: string) {
    Lower(text) in {"done", "complete", "completed"}
  }

  ghost predicate SaysSkipped(text: string) {
    Lower(text) == "skipped"
  }

  /** Any other text of an addition means pending. */
  ghost predicate IsAddedAs(status: Status, text: string) {
    && (status == InProgress <==> SaysInProgress(text))
    && (status == Done <==> SaysDone(text))
    && (status == Skipped <==> SaysSkipped(text))
  }

  /** Any other text of an update, pending apart, leaves the status alone. */
  ghost predicate IsUpdatedTo(status: Option<Status>, text: string) {
    && (status == Some(InProgress) <==> SaysInProgress(text))
    && (status == Some(Done) <==> SaysDone(text))
    && (status == Some(Skipped) <==> SaysSkipped(text))
    && (status == Some(Pending) <==> Lower(text) == "pending")
  }

  // ----- the elements of the input

  ghost predicate AddRecognized(raw: RawAdd) {
    match raw
    case Named(text) => !Blank(text)
    case Entry(kind, isCapability, _, _, _, _) => !Blank(kind) || isCapability
    case Ignored => false
  }

  /** The step is what the addition asks for, its id apart when the planner gave none. */
  ghost predicate AddBecomes(raw: RawAdd, step: Step) {
    match raw
    case Named(text) =>
      HasNamedKind(step, text) && step.status == Pending && step.title == None && HasNoteFor(step, None)
    case Entry(kind, _, id, title, status, note) =>
      && (if Blank(kind) then HasKind(step, Some(kind)) else HasNamedKind(step, kind))
      && (id.Some? ==> step.id == id.value) && step.title == title
      && IsAddedAs(step.status, status) && HasNoteFor(step, note)
    case Ignored => false
  }

  ghost predicate OperationRecognized(op: Operation) {
    && op.AddAt?
    && ("/strategies" <= op.path || "/generations" <= op.path || "/qas" <= op.path || "/finalize" <= op.path)
  }

  ghost predicate OperationBecomes(op: Operation, step: Step) {
    && op.AddAt? && step.status == Pending && step.title == None && HasNoteFor(step, op.details)
    && ("/strategies" <= op.path ==> HasKind(step, Some("strategy")))
    && ("/generations" <= op.path ==> HasKind(step, Some("generation")))
    && ("/qas" <= op.path ==> HasKind(step, Some("qa")))
    && ("/finalize" <= op.path ==> HasKind(step, None))
  }

  ghost predicate FirstNamed(plan: seq<Step>, text: string, i: nat) {
    i < |plan| && IsNamed(plan[i], text) && forall j | 0 <= j < i :: !IsNamed(plan[j], text)
  }

  /** An update counts with an id that is not empty, with a kind some step has, or with an id and no kind. */
  ghost predicate UpdateRecognized(plan: seq<Step>, raw: RawUpdate) {
    && raw.Change?
    && (if raw.id.GetOr("") != "" || raw.step == "" then raw.id.Some? else exists s | s in plan :: IsNamed(s, raw.step))
  }

  ghost predicate UpdateBecomes(plan: seq<Step>, raw: RawUpdate, u: Update) {
    && raw.Change? && u.note == raw.note && IsUpdatedTo(u.status, raw.status)
    && (if raw.id.GetOr("") != "" || raw.step == "" then raw.id == Some(u.id)
        else exists i | 0 <= i < |plan| :: FirstNamed(plan, raw.step, i) && plan[i].id == u.id)
  }

  // ----- the functions mean that

  lemma BlankIffNothingLeft(text: string)
    ensures Blank(text) <==> Trim(Lower(text)) == ""
  {
    var lower := Lower(text);
    BlankIffTrimmedAway(lower);
    hide Trim;
    assert forall i | 0 <= i < |text| :: IsSpace(lower[i]) <==> IsSpace(text[i]);
    assert Blank(text) <==> forall i | 0 <= i < |text| :: IsSpace(text[i]);
    assert Blank(lower) <==> forall i | 0 <= i < |lower| :: IsSpace(lower[i]);
  }

  lemma TargetIsNamed(text: string)
    ensures match ToTarget(text)
            case None => Blank(text)
            case Some(Finalize) => !Blank(text) && SaysFinalize(text)
            case Some(Capability(name)) => !Blank(text) && !SaysFinalize(text) && name == Trim(Lower(text))
  {
    var s := Trim(Lower(text));
    BlankIffNothingLeft(text);
    IncludesIffOccurs(s, "finish");
    IncludesIffOccurs(s, "complete");
    hide Trim, Lower, Includes, Occurs, Blank;
  }

  lemma StatusIsSaid(text: string)
    ensures IsAddedAs(ToStatus(text).GetOr(Pending), text) && IsUpdatedTo(ToStatus(text), text)
  {
    hide Lower;
  }

  lemma KindIsNamed(step: Step, text: string)
    ensures match ToTarget(text)
            case None => !IsNamed(step, text)
            case Some(t) => IsNamed(step, text) <==> IsKind(step, t)
  {
    TargetIsNamed(text);
    hide Blank, SaysFinalize, Trim, Lower;
    if SaysFinalize(text) {
      SaysFinalizeIsNotBlank(text);
    }
  }

  lemma SaysFinalizeIsNotBlank(text: string)
    requires SaysFinalize(text)
    ensures !Blank(text)
  {
    BlankIffNothingLeft(text);
  }

  lemma NoteIsGivenOrDefault(id: string, t: Target, title: Option<string>, status: Status, note: Option<string>)
    ensures HasNoteFor(MakeStep(id, t, title, status, OrDefault(note, t)), note)
  {
  }

  lemma TargetIsKind(id: string, text: string, title: Option<string>, status: Status, note: Option<string>)
    ensures match ToTarget(text)
            case None => Blank(text)
            case Some(t) => !Blank(text) && HasNamedKind(MakeStep(id, t, title, status, note), text)
  {
    TargetIsNamed(text);
    hide Blank, SaysFinalize, Trim, Lower, ToTarget;
  }

  lemma NamedMeans(text: string, id: string)
    ensures RawDraft(Named(text)).Some? <==> !Blank(text)
    ensures match RawDraft(Named(text))
            case None => true
            case Some(d) =>
              d.id.None? && AddBecomes(Named(text), MakeStep(id, d.target, d.title, d.status, d.note))
  {
    hide Blank, HasNamedKind, ToTarget;
    if ToTarget(text).Some? {
      NoteIsGivenOrDefault(id, ToTarget(text).value, None, Pending, None);
    }
    hide DefaultNote, HasNoteFor;
    TargetIsKind(id, text, None, Pending, if ToTarget(text).Some? then DefaultNote(ToTarget(text).value) else None);
  }

  lemma EntryMeans(raw: RawAdd, id: string)
    requires raw.Entry?
    ensures RawDraft(raw).Some? <==> !Blank(raw.kind) || raw.isCapability
    ensures match RawDraft(raw)
            case None => true
            case Some(d) =>
              && d.id == raw.id
              && ((raw.id.Some? ==> id == raw.id.value) ==>
                    AddBecomes(raw, MakeStep(id, d.target, d.title, d.status, d.note)))
  {
    hide Blank, HasNamedKind, ToTarget, ToStatus, IsAddedAs, OrDefault, HasNoteFor;
    StatusIsSaid(raw.status);
    if RawDraft(raw).Some? {
      var d := RawDraft(raw).value;
      NoteIsGivenOrDefault(id, d.target, d.title, d.status, raw.note);
      TargetIsKind(id, raw.kind, d.title, d.status, d.note);
    } else {
      TargetIsKind(id, raw.kind, None, Pending, None);
    }
  }

  lemma RawDraftMeans(raw: RawAdd, id: string)
    ensures RawDraft(raw).Some? <==> AddRecognized(raw)
    ensures match RawDraft(raw)
            case None => true
            case Some(d) =>
              && (d.id.Some? <==> raw.Entry? && raw.id.Some?)
              && ((d.id.Some? ==> id == d.id.value) ==>
                    AddBecomes(raw, MakeStep(id, d.target, d.title, d.status, d.note)))
  {
    match raw
    case Ignored =>
    case Named(text) =>
      NamedMeans(text, id);
      hide RawDraft, AddBecomes, Blank;
    case Entry(_, _, _, _, _, _) =>
      EntryMeans(raw, id);
      hide RawDraft, AddBecomes, Blank;
  }

  lemma OperationDraftMeans(op: Operation)
    ensures OperationDraft(op).Some? <==> OperationRecognized(op)
    ensures match OperationDraft(op)
            case None => true
            case Some(d) =>
              && d.id.None?
              && forall id :: OperationBecomes(op, MakeStep(id, d.target, d.title, d.status, d.note))
  {
    if op.AddAt? {
      FourPaths(op.path);
    }
  }

  /** At most one of the four paths is at the start of a text. */
  lemma FourPaths(path: string)
    ensures "/strategies" <= path ==> path[1] == 's'
    ensures "/generations" <= path ==> path[1] == 'g'
    ensures "/qas" <= path ==> path[1] == 'q'
    ensures "/finalize" <= path ==> path[1] == 'f'
  {
  }

  /** The first step of the kind that a text names. */
  lemma FindKindIsFirstNamed(plan: seq<Step>, text: string)
    ensures match ToTarget(text)
            case None => forall s | s in plan :: !IsNamed(s, text)
            case Some(t) =>
              match FindKind(plan, t)
              case None => forall s | s in plan :: !IsNamed(s, text)
              case Some(id) => exists i | 0 <= i < |plan| :: FirstNamed(plan, text, i) && plan[i].id == id
  {
    forall s ensures match ToTarget(text)
                     case None => !IsNamed(s, text)
                     case Some(t) => IsNamed(s, text) <==> IsKind(s, t)
    {
      KindIsNamed(s, text);
    }
    hide IsNamed, ToTarget, IsKind;
    if ToTarget(text).Some? {
      var t := ToTarget(text).value;
      FindKindIsFirst(plan, t);
      hide FindKind;
      if FindKind(plan, t).Some? {
        var i: nat :| FirstOfKind(plan, t, i) && FindKind(plan, t) == Some(plan[i].id);
        assert FirstNamed(plan, text, i);
      }
    }
  }

  lemma FirstNamedIsThere(plan: seq<Step>, text: string, i: nat)
    requires FirstNamed(plan, text, i)
    ensures exists s | s in plan :: IsNamed(s, text)
  {
    assert plan[i] in plan;
  }

  /**
    An update keeps an id that is not empty. Without one it gets the id of the first step of the kind
    that it names, and is dropped when there is no such step or the name says nothing; an update that
    names no kind keeps even an empty id.
   */
  lemma UpdateNamesItsStep(plan: seq<Step>, raw: RawUpdate)
    ensures ToUpdate(plan, raw).Some? <==> UpdateRecognized(plan, raw)
    ensures ToUpdate(plan, raw).Some? ==> UpdateBecomes(plan, raw, ToUpdate(plan, raw).value)
  {
    hide IsNamed, ToTarget, ToStatus, IsUpdatedTo, FindKind, FirstNamed;
    if raw.Change? {
      StatusIsSaid(raw.status);
      FindKindIsFirstNamed(plan, raw.step);
      if ToTarget(raw.step).Some? && FindKind(plan, ToTarget(raw.step).value).Some? {
        var i :| 0 <= i < |plan| && FirstNamed(plan, raw.step, i);
        FirstNamedIsThere(plan, raw.step, i);
      }
    }
  }

  // ----- generated ids

  ghost predicate IsPlain(c: char) {
    'a' <= c <= 'z' || 'A' <= c <= 'Z' || '0' <= c <= '9' || c == '_' || c == '.' || c == '-'
  }

  /** The id is "auto", the kind with an underscore for every character that is not plain, and the number. */
  ghost predicate IsNumbered(id: string, kind: string, n: nat) {
    exists safe: string ::
      && id == "auto_" + safe + "_" + Decimal(n) && |safe| == |kind|
      && forall i | 0 <= i < |kind| :: safe[i] == if IsPlain(kind[i]) then kind[i] else '_'
  }

  lemma AutoIdIsNumbered(kind: string, n: nat)
    ensures IsNumbered(AutoId(kind, n), kind, n)
  {
    var safe := Safe(kind);
    assert AutoId(kind, n) == "auto_" + safe + "_" + Decimal(n);
    assert forall i | 0 <= i < |kind| :: safe[i] == SafeChar(kind[i]);
  }

  /** A step counts under the name of its capability, or without one as a finalize step. */
  ghost predicate CountsAs(step: Step, kind: string) {
    if step.capability.GetOr("") != "" then step.capability == Some(kind)
    else kind == if step.finalize then "finalize" else ""
  }

  ghost function StepsOf(plan: seq<Step>, kind: string): nat {
    Before(plan, step => CountsAs(step, kind), |plan|)
  }

  lemma {:induction false} CountOfSnoc(plan: seq<Step>, step: Step, kind: string)
    ensures CountOf(plan + [step], kind) == CountOf(plan, kind) + if CountsAs(step, kind) then 1 else 0
    decreases plan
  {
    if plan == [] {
      assert [] + [step] == [step] && [step][1..] == [];
      assert CountOf([step], kind) == (if KindOf(step) == kind then 1 else 0) + CountOf([], kind);
    } else {
      assert (plan + [step])[1..] == plan[1..] + [step];
      CountOfSnoc(plan[1..], step, kind);
    }
  }

  lemma {:induction false} CountOfPrefix(plan: seq<Step>, kind: string, k: nat)
    requires k <= |plan|
    ensures CountOf(plan[..k], kind) == Before(plan, step => CountsAs(step, kind), k)
    decreases k
  {
    if k == 0 {
    } else {
      hide CountsAs, CountOf, Before;
      CountOfPrefix(plan, kind, k - 1);
      assert plan[..k] == plan[..k - 1] + [plan[k - 1]];
      CountOfSnoc(plan[..k - 1], plan[k - 1], kind);
      BeforeNext(plan, step => CountsAs(step, kind), k - 1);
    }
  }

  lemma CountIsNumberOfSteps(plan: seq<Step>, kind: string)
    ensures CountOf(plan, kind) == StepsOf(plan, kind)
  {
    CountOfPrefix(plan, kind, |plan|);
    assert plan[..|plan|] == plan;
  }

  function KindText(step: Step): string {
    if step.finalize then "finalize" else step.capability.GetOr("")
  }

  ghost predicate IsTaken(plan: seq<Step>, add: seq<Step>, p: nat, kind: string, n: nat)
    requires p <= |add|
  {
    exists id: string :: IsNumbered(id, kind, n) && (id in Ids(plan) || id in Ids(add[..p]))
  }

  /** The id is new to the plan and has the first number after the steps of its kind that is not taken. */
  ghost predicate HasGeneratedId(plan: seq<Step>, add: seq<Step>, p: nat)
    requires p < |add|
  {
    var kind := KindText(add[p]);
    && add[p].id !in Ids(plan)
    && exists n: nat ::
         && StepsOf(plan, kind) < n && IsNumbered(add[p].id, kind, n)
         && forall m: nat | StepsOf(plan, kind) < m < n :: IsTaken(plan, add, p, kind, m)
  }

  lemma LeastFreeIsGenerated(plan: seq<Step>, add: seq<Step>, p: nat)
    requires p < |add| && IsLeastFree(plan, IdSet(plan), add, p, KindText(add[p]))
    ensures HasGeneratedId(plan, add, p)
  {
    var kind := KindText(add[p]);
    hide AutoId, IsNumbered, KindText, CountOf, StepsOf, IdSet;
    CountIsNumberOfSteps(plan, kind);
    var n: nat :| && CountOf(plan, kind) < n && add[p].id == AutoId(kind, n) && AutoId(kind, n) !in IdSet(plan)
                  && forall m: nat | CountOf(plan, kind) < m < n ::
                       AutoId(kind, m) in IdSet(plan) || exists j | 0 <= j < p :: add[j].id == AutoId(kind, m);
    AutoIdIsNumbered(kind, n);
    IdsAndIdSet(plan, AutoId(kind, n));
    forall m: nat | StepsOf(plan, kind) < m < n ensures IsTaken(plan, add, p, kind, m) {
      AutoIdIsNumbered(kind, m);
      IdsAndIdSet(plan, AutoId(kind, m));
      if AutoId(kind, m) !in IdSet(plan) {
        var j :| 0 <= j < p && add[j].id == AutoId(kind, m);
        assert Ids(add[..p])[j] == AutoId(kind, m);
      }
    }
  }

  // ----- the whole patch

  lemma SomesStand<T, U>(items: seq<T>, counts: T -> bool, becomes: (T, U) -> bool, values: seq<Option<U>>)
    requires |values| == |items|
    requires forall k | 0 <= k < |items| :: values[k].Some? <==> counts(items[k])
    requires forall k | 0 <= k < |items| && values[k].Some? :: becomes(items[k], values[k].value)
    ensures Stand(items, counts, becomes, Somes(values))
  {
    hide Somes;
    SomesKeepOrder(values);
    forall k: nat | k <= |items| ensures Before(items, counts, k) == Rank(values, k) {
      assert (set i: nat | i < k && counts(items[i])) == set i: nat | i < k && values[i].Some?;
    }
  }

  /** Every item that counts and has no id of its own gets a generated one, and all of these differ. */
  ghost predicate IdsAreGenerated<T>(plan: seq<Step>, items: seq<T>, counts: T -> bool, own: T -> bool,
                                     add: seq<Step>) {
    && (forall k | 0 <= k < |items| && counts(items[k]) && !own(items[k]) ::
          Before(items, counts, k) < |add| && HasGeneratedId(plan, add, Before(items, counts, k)))
    && forall j, k | 0 <= j < k < |items| && counts(items[j]) && !own(items[j]) && counts(items[k]) && !own(items[k]) ::
         && Before(items, counts, j) < |add| && Before(items, counts, k) < |add|
         && add[Before(items, counts, j)].id != add[Before(items, counts, k)].id
  }

  lemma BeforeGrows<T>(items: seq<T>, counts: T -> bool, j: nat, k: nat)
    requires j < k <= |items| && counts(items[j])
    ensures Before(items, counts, j) < Before(items, counts, k)
  {
    var a, b := set i: nat | i < j && counts(items[i]), set i: nat | i < k && counts(items[i]);
    assert a + {j} <= b;
    SubsetSize(a + {j}, b);
  }

  /** What a draft becomes, for every id that it may get. */
  ghost predicate DraftFits<T>(item: T, becomes: (T, Step) -> bool, own: T -> bool, d: Draft) {
    && (d.id.Some? <==> own(item))
    && forall id: string | d.id.Some? ==> id == d.id.value ::
         becomes(item, MakeStep(id, d.target, d.title, d.status, d.note))
  }

  lemma DraftsStand<T>(plan: seq<Step>, items: seq<T>, counts: T -> bool, becomes: (T, Step) -> bool, own: T -> bool,
                       values: seq<Option<Draft>>)
    requires |values| == |items|
    requires forall k | 0 <= k < |items| :: values[k].Some? <==> counts(items[k])
    requires forall k | 0 <= k < |items| && values[k].Some? :: DraftFits(items[k], becomes, own, values[k].value)
    ensures var add := Steps(plan, IdSet(plan), Somes(values));
            Stand(items, counts, becomes, add) && IdsAreGenerated(plan, items, counts, own, add)
  {
    hide Steps, Somes, IdSet, Before, HasGeneratedId, DraftFits, MakeStep, IsLeastFree;
    var drafts := Somes(values);
    var add := Steps(plan, IdSet(plan), drafts);
    var fits := (item: T, d: Draft) => DraftFits(item, becomes, own, d);
    SomesStand(items, counts, fits, values);
    StepsFields(plan, IdSet(plan), drafts);
    StepsAt(plan, IdSet(plan), drafts);
    StepsNumbered(plan, IdSet(plan), drafts);
    forall k | 0 <= k < |items| && counts(items[k])
      ensures var p := Before(items, counts, k);
              && p < |add| && becomes(items[k], add[p]) && (drafts[p].id.Some? <==> own(items[k]))
              && (!own(items[k]) ==> HasGeneratedId(plan, add, p))
    {
      var p := Before(items, counts, k);
      assert fits(items[k], drafts[p]);
      FitsMeans(items[k], becomes, own, drafts[p], add[p]);
      if !own(items[k]) {
        LeastFreeIsGenerated(plan, add, p);
      }
    }
    forall j, k | 0 <= j < k < |items| && counts(items[j]) && !own(items[j]) && counts(items[k]) && !own(items[k])
      ensures add[Before(items, counts, j)].id != add[Before(items, counts, k)].id
    {
      BeforeGrows(items, counts, j, k);
    }
  }

  lemma FitsMeans<T>(item: T, becomes: (T, Step) -> bool, own: T -> bool, d: Draft, step: Step)
    requires DraftFits(item, becomes, own, d) && step == MakeStep(step.id, d.target, d.title, d.status, d.note)
    requires d.id.Some? ==> step.id == d.id.value
    ensures becomes(item, step) && (d.id.Some? <==> own(item)) && KindText(step) == Base(d.target)
  {
  }

  ghost predicate HasOwnId(raw: RawAdd) {
    raw.Entry? && raw.id.Some?
  }

  lemma RawDraftFits(raw: RawAdd)
    ensures RawDraft(raw).Some? <==> AddRecognized(raw)
    ensures RawDraft(raw).Some? ==> DraftFits(raw, AddBecomes, HasOwnId, RawDraft(raw).value)
  {
    hide RawDraft, AddBecomes, AddRecognized, MakeStep;
    RawDraftMeans(raw, "");
    if RawDraft(raw).Some? {
      var d := RawDraft(raw).value;
      forall id: string | d.id.Some? ==> id == d.id.value
        ensures AddBecomes(raw, MakeStep(id, d.target, d.title, d.status, d.note))
      {
        RawDraftMeans(raw, id);
      }
    }
  }

  lemma AdditionsStand(plan: seq<Step>, raw: seq<RawAdd>)
    ensures var add := Steps(plan, IdSet(plan), Drafts(Fields(Some(raw), None, None, None)));
            Stand(raw, AddRecognized, AddBecomes, add) && IdsAreGenerated(plan, raw, AddRecognized, HasOwnId, add)
  {
    var values := seq(|raw|, i requires 0 <= i < |raw| => RawDraft(raw[i]));
    hide RawDraft, AddBecomes, AddRecognized, MakeStep, Steps, IdSet, Somes;
    forall k | 0 <= k < |raw|
      ensures values[k].Some? <==> AddRecognized(raw[k])
      ensures values[k].Some? ==> DraftFits(raw[k], AddBecomes, HasOwnId, values[k].value)
    {
      RawDraftFits(raw[k]);
    }
    DraftsStand(plan, raw, AddRecognized, AddBecomes, HasOwnId, values);
  }

  lemma OperationsStand(plan: seq<Step>, ops: seq<Operation>)
    ensures var add := Steps(plan, IdSet(plan), Drafts(Operations(ops)));
            && Stand(ops, OperationRecognized, OperationBecomes, add)
            && IdsAreGenerated(plan, ops, OperationRecognized, _ => false, add)
  {
    var values := seq(|ops|, i requires 0 <= i < |ops| => OperationDraft(ops[i]));
    hide OperationDraft, OperationBecomes, OperationRecognized, MakeStep, Steps, IdSet, Somes;
    forall k | 0 <= k < |ops|
      ensures values[k].Some? <==> OperationRecognized(ops[k])
      ensures values[k].Some? ==> DraftFits(ops[k], OperationBecomes, _ => false, values[k].value)
    {
      OperationDraftMeans(ops[k]);
    }
    DraftsStand(plan, ops, OperationRecognized, OperationBecomes, _ => false, values);
  }

  /**
    The patch has one step for every addition that is recognized, in order, with the fields that its
    texts ask for and the planner's id or a generated one; one update for every update that is
    recognized and one removal for every id that is not empty, in order.
   */
  lemma NormalizedContents(input: Input, plan: seq<Step>)
    requires Normalized(input, plan).Some?
    ensures var add := Normalized(input, plan).value.add;
            match input
            case Fields(Some(raw), _, _, _) =>
              && Stand(raw, AddRecognized, AddBecomes, add)
              && IdsAreGenerated(plan, raw, AddRecognized, HasOwnId, add)
            case Operations(ops) =>
              && Stand(ops, OperationRecognized, OperationBecomes, add)
              && IdsAreGenerated(plan, ops, OperationRecognized, _ => false, add)
            case _ => add == []
    ensures var update := Normalized(input, plan).value.update;
            if input.Fields? && input.update.Some?
            then Stand(input.update.value, u => UpdateRecognized(plan, u), (u, v) => UpdateBecomes(plan, u, v), update)
            else update == []
    ensures var remove := Normalized(input, plan).value.remove;
            if input.Fields? && input.remove.Some?
            then Stand(input.remove.value, id => id != "", (id, kept) => kept == id, remove)
            else remove == []
  {
    hide Steps, IdSet, Somes, Stand, IdsAreGenerated, ToUpdate, Trim, UpdateRecognized, UpdateBecomes, RawDraft;
    NoSteps(plan, IdSet(plan));
    match input
    case Fields(add, update, remove, _) =>
      if add.Some? { AdditionsStand(plan, add.value); }
      if update.Some? { UpdatesStand(plan, update.value); }
      if remove.Some? { RemovalsStand(remove.value); }
    case Operations(ops) => OperationsStand(plan, ops);
    case _ =>
  }

  lemma UpdatesStand(plan: seq<Step>, raw: seq<RawUpdate>)
    ensures Stand(raw, u => UpdateRecognized(plan, u), (u, v) => UpdateBecomes(plan, u, v), Updates(plan, raw))
  {
    var values := seq(|raw|, i requires 0 <= i < |raw| => ToUpdate(plan, raw[i]));
    hide ToUpdate, UpdateRecognized, UpdateBecomes, Somes;
    forall k | 0 <= k < |raw|
      ensures values[k].Some? <==> UpdateRecognized(plan, raw[k])
      ensures values[k].Some? ==> UpdateBecomes(plan, raw[k], values[k].value)
    {
      UpdateNamesItsStep(plan, raw[k]);
    }
    SomesStand(raw, u => UpdateRecognized(plan, u), (u, v) => UpdateBecomes(plan, u, v), values);
  }

  lemma RemovalsStand(ids: seq<string>)
    ensures Stand(ids, id => id != "", (id, kept) => kept == id, NonEmpty(ids))
  {
    SomesStand(ids, id => id != "", (id, kept) => kept == id, WhereNonEmpty(ids));
  }

  /** Something in the input is worth a patch. */
  ghost predicate Usable(input: Input, plan: seq<Step>) {
    match input
    case Operations(ops) => exists op | op in ops :: OperationRecognized(op)
    case Fields(add, update, remove, note) =>
      || (add.Some? && exists raw | raw in add.value :: AddRecognized(raw))
      || (update.Some? && exists raw | raw in update.value :: UpdateRecognized(plan, raw))
      || (remove.Some? && exists id | id in remove.value :: id != "")
      || (note.Some? && !Blank(note.value))
    case _ => false
  }

  /** There is a patch exactly when something in the input is usable. */
  lemma NormalizedIffUsable(input: Input, plan: seq<Step>)
    ensures Normalized(input, plan).Some? <==> Usable(input, plan)
  {
    hide Steps, IdSet, Somes, Stand, IdsAreGenerated, ToUpdate, Trim, UpdateRecognized, UpdateBecomes, RawDraft, Blank;
    hide AddRecognized, OperationRecognized, AddBecomes, OperationBecomes, OperationDraft, Updates, NonEmpty;
    NoSteps(plan, IdSet(plan));
    match input
    case Fields(add, update, remove, note) =>
      if add.Some? {
        AdditionsStand(plan, add.value);
        StandEmptyIff(add.value, AddRecognized, AddBecomes, Steps(plan, IdSet(plan), Drafts(input)));
      }
      if update.Some? {
        UpdatesStand(plan, update.value);
        StandEmptyIff(update.value, u => UpdateRecognized(plan, u), (u, v) => UpdateBecomes(plan, u, v),
                      Updates(plan, update.value));
      }
      if remove.Some? {
        RemovalsStand(remove.value);
        StandEmptyIff(remove.value, id => id != "", (id, kept) => kept == id, NonEmpty(remove.value));
      }
      if note.Some? { BlankIffTrimmedAway(note.value); }
    case Operations(ops) =>
      OperationsStand(plan, ops);
      StandEmptyIff(ops, OperationRecognized, OperationBecomes, Steps(plan, IdSet(plan), Drafts(input)));
    case _ =>
  }
}
