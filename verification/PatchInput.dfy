/** Turning what the planner wrote into a patch: loose shapes in, steps with ids of their own out. */
module PatchInput {
  import opened Wrappers
  import opened Basics
  import opened Text
  import opened Plans

  /** The decoded planner output, reduced to the fields that are looked at. */
  datatype Input =
    | Nothing
    | Scalar
    | Operations(ops: seq<Operation>)
    | Fields(add: Option<seq<RawAdd>>, update: Option<seq<RawUpdate>>, remove: Option<seq<string>>,
             note: Option<string>)

  /** One element of a JSON Patch array; everything but an add with a path is ignored. */
  datatype Operation = AddAt(path: string, details: Option<string>) | OtherOperation

  /**
    kind is the first of capabilityId, step, kind, type and name that is present, and isCapability
    says that it was a capabilityId string. note is the note or else the description.
   */
  datatype RawAdd =
    | Named(text: string)
    | Entry(kind: string, isCapability: bool, id: Option<string>, title: Option<string>,
            status: string, note: Option<string>)
    | Ignored

  datatype RawUpdate =
    | Change(id: Option<string>, step: string, status: string, note: Option<string>)
    | IgnoredUpdate

  datatype Target = Capability(name: string) | Finalize

  // ----- names and notes

  function ToTarget(value: string): Option<Target> {
    var s := Trim(Lower(value));
    if s == "" then None
    else if s == "final" || s == "finalize" || Includes(s, "finish") || Includes(s, "complete") then Some(Finalize)
    else Some(Capability(s))
  }

  function Base(t: Target): string {
    if t.Capability? then t.name else "finalize"
  }

  function DefaultNote(t: Target): Option<string> {
    match t
    case Finalize => Some("Final review")
    case Capability(name) =>
      if name == "strategy" then Some("Strategy plan")
      else if name == "generation" then Some("Draft content")
      else if name == "qa" then Some("QA review")
      else None
  }

  function ToStatus(text: string): Option<Status> {
    var s := Lower(text);
    if s == "in_progress" || s == "inprogress" || s == "active" then Some(InProgress)
    else if s == "done" || s == "complete" || s == "completed" then Some(Done)
    else if s == "skipped" then Some(Skipped)
    else if s == "pending" then Some(Pending)
    else None
  }

  function MakeStep(id: string, t: Target, title: Option<string>, status: Status, note: Option<string>): Step {
    Step(id, if t.Capability? then Some(t.name) else None, t.Finalize?, title, status, note)
  }

  /** A name that was recognized once is recognized again, as the same target. */
  lemma NamesAreStable(value: string)
    ensures var target := ToTarget(value); target.Some? ==> ToTarget(Base(target.value)) == target
  {
    hide Trim, Includes, Lower;
    var s := Trim(Lower(value));
    TrimmedLower(value);
    FinalizeIsTrimmed();
  }

  lemma TrimmedLower(value: string)
    ensures Trim(Lower(Trim(Lower(value)))) == Trim(Lower(value))
  {
    hide Trim;
    var lower := Lower(value);
    var s := Trim(lower);
    TrimIsTrimmed(lower);
    forall i | 0 <= i < |s| ensures Lower(s)[i] == s[i] {
      assert s[i] in lower;
      var j :| 0 <= j < |lower| && lower[j] == s[i];
    }
    assert Lower(s) == s;
    TrimIsTrimmed(s);
  }

  lemma FinalizeIsTrimmed()
    ensures Trim(Lower("finalize")) == "finalize"
  {
    hide Trim;
    var s := "finalize";
    assert forall i | 0 <= i < |s| :: 'a' <= s[i] <= 'z';
    assert Lower(s) == s;
    TrimIsTrimmed(s);
  }

  // ----- generated ids

  function SafeChar(c: char): char {
    if 'a' <= c <= 'z' || 'A' <= c <= 'Z' || '0' <= c <= '9' || c == '_' || c == '.' || c == '-' then c else '_'
  }

  function Safe(base: string): string {
    seq(|base|, i requires 0 <= i < |base| => SafeChar(base[i]))
  }

  function AutoId(base: string, idx: nat): string {
    "auto_" + Safe(base) + "_" + Decimal(idx)
  }

  lemma AutoIdInjective(base: string, i: nat, j: nat)
    requires AutoId(base, i) == AutoId(base, j)
    ensures i == j
  {
    var prefix := "auto_" + Safe(base) + "_";
    assert AutoId(base, i)[|prefix|..] == Decimal(i);
    assert AutoId(base, j)[|prefix|..] == Decimal(j);
    DecimalInjective(i, j);
  }

  function KindOf(step: Step): string {
    if step.capability.Some? && step.capability.value != "" then step.capability.value
    else if step.finalize then "finalize" else ""
  }

  function CountOf(steps: seq<Step>, base: string): nat {
    if steps == [] then 0 else (if KindOf(steps[0]) == base then 1 else 0) + CountOf(steps[1..], base)
  }

  /** The taken ids that the search from idx on can still run into. */
  ghost function Ahead(existing: set<string>, base: string, idx: nat): set<string> {
    set id | id in existing && exists k: nat :: idx <= k && id == AutoId(base, k)
  }

  lemma AheadShrinks(existing: set<string>, base: string, idx: nat)
    requires AutoId(base, idx) in existing
    ensures Ahead(existing, base, idx + 1) < Ahead(existing, base, idx)
    ensures |Ahead(existing, base, idx + 1)| < |Ahead(existing, base, idx)|
  {
    var now, next := Ahead(existing, base, idx), Ahead(existing, base, idx + 1);
    if AutoId(base, idx) in next {
      var k: nat :| idx + 1 <= k && AutoId(base, idx) == AutoId(base, k);
      AutoIdInjective(base, idx, k);
    }
    assert AutoId(base, idx) in now;
    assert next <= now - {AutoId(base, idx)};
    SubsetSize(next, now - {AutoId(base, idx)});
  }

  /** The first index from idx on whose id is free; at most |existing| ids have to be skipped. */
  function FirstFree(existing: set<string>, base: string, idx: nat): (k: nat)
    ensures idx <= k <= idx + |Ahead(existing, base, idx)|
    ensures AutoId(base, k) !in existing
    ensures forall j: nat | idx <= j < k :: AutoId(base, j) in existing
    decreases |Ahead(existing, base, idx)|
  {
    if AutoId(base, idx) !in existing then idx
    else
      AheadShrinks(existing, base, idx);
      FirstFree(existing, base, idx + 1)
  }

  lemma FewIdsAreSkipped(existing: set<string>, base: string, idx: nat)
    ensures FirstFree(existing, base, idx) <= idx + |existing|
  {
    SubsetSize(Ahead(existing, base, idx), existing);
  }

  function NextId(steps: seq<Step>, existing: set<string>, base: string): string {
    AutoId(base, FirstFree(existing, base, CountOf(steps, base) + 1))
  }

  method UniqueId(steps: seq<Step>, existing: set<string>, base: string) returns (id: string, now: set<string>)
    ensures id == NextId(steps, existing, base) && id !in existing && now == existing + {id}
  {
    var idx := 1;
    var i := 0;
    assert steps[0..] == steps;
    while i < |steps|
      invariant 0 <= i <= |steps|
      invariant CountOf(steps, base) + 1 == idx + CountOf(steps[i..], base)
    {
      assert steps[i..][1..] == steps[i + 1..];
      if KindOf(steps[i]) == base {
        idx := idx + 1;
      }
      i := i + 1;
    }
    id := AutoId(base, idx);
    ghost var start := idx;
    while id in existing
      invariant idx >= start && id == AutoId(base, idx)
      invariant FirstFree(existing, base, start) == FirstFree(existing, base, idx)
      decreases |Ahead(existing, base, idx)|
    {
      AheadShrinks(existing, base, idx);
      idx := idx + 1;
      id := AutoId(base, idx);
    }
    now := existing + {id};
  }

  // ----- the steps to add

  function OperationTarget(path: string): Option<Target> {
    if "/strategies" <= path then Some(Capability("strategy"))
    else if "/generations" <= path then Some(Capability("generation"))
    else if "/qas" <= path then Some(Capability("qa"))
    else if "/finalize" <= path then Some(Finalize)
    else None
  }

  function OrDefault(note: Option<string>, t: Target): Option<string> {
    if note.Some? && note.value != "" then note else DefaultNote(t)
  }

  /** A step to add: with the planner's own id, or with one still to be generated for its base. */
  datatype Draft = Draft(target: Target, id: Option<string>, title: Option<string>, status: Status,
                         note: Option<string>)

  function OperationDraft(op: Operation): Option<Draft> {
    match op
    case OtherOperation => None
    case AddAt(path, details) =>
      match OperationTarget(path)
      case None => None
      case Some(t) => Some(Draft(t, None, None, Pending, OrDefault(details, t)))
  }

  function RawDraft(raw: RawAdd): Option<Draft> {
    match raw
    case Ignored => None
    case Named(text) =>
      (match ToTarget(text)
       case None => None
       case Some(t) => Some(Draft(t, None, None, Pending, DefaultNote(t))))
    case Entry(kind, isCapability, id, title, status, note) =>
      var target := ToTarget(kind);
      if target.None? && !isCapability then None
      else
        var t := if target.Some? then target.value else Capability(kind);
        Some(Draft(t, id, title, ToStatus(status).GetOr(Pending), OrDefault(note, t)))
  }

  function Drafts(input: Input): seq<Draft> {
    match input
    case Operations(ops) => Somes(seq(|ops|, i requires 0 <= i < |ops| => OperationDraft(ops[i])))
    case Fields(Some(add), _, _, _) => Somes(seq(|add|, i requires 0 <= i < |add| => RawDraft(add[i])))
    case _ => []
  }

  function Somes<T>(values: seq<Option<T>>): seq<T> {
    if values == [] then []
    else
      var last := values[|values| - 1];
      Somes(values[..|values| - 1]) + (if last.Some? then [last.value] else [])
  }

  function DraftId(steps: seq<Step>, existing: set<string>, d: Draft): string {
    if d.id.Some? then d.id.value else NextId(steps, existing, Base(d.target))
  }

  /** Drafts become steps one after another; generated ids are marked as taken, the planner's are not. */
  function Steps(steps: seq<Step>, existing: set<string>, drafts: seq<Draft>): seq<Step>
    decreases drafts
  {
    if drafts == [] then []
    else
      var d := drafts[0];
      var id := DraftId(steps, existing, d);
      [MakeStep(id, d.target, d.title, d.status, d.note)]
      + Steps(steps, if d.id.Some? then existing else existing + {id}, drafts[1..])
  }

  function IdSet(steps: seq<Step>): set<string> {
    set s | s in steps :: s.id
  }

  // ----- the whole patch

  predicate IsKind(step: Step, t: Target) {
    if t.Capability? then step.capability == Some(t.name) else step.finalize
  }

  /** The first step of a kind, for an update that names a kind instead of an id. */
  function FindKind(steps: seq<Step>, t: Target): Option<string> {
    if steps == [] then None
    else if IsKind(steps[0], t) then Some(steps[0].id)
    else FindKind(steps[1..], t)
  }

  function ToUpdate(steps: seq<Step>, raw: RawUpdate): Option<Update> {
    match raw
    case IgnoredUpdate => None
    case Change(id, step, status, note) =>
      var found :=
        if id.GetOr("") == "" && step != "" then
          var t := ToTarget(step);
          if t.Some? then FindKind(steps, t.value) else None
        else id;
      if found.None? then None else Some(Update(found.value, ToStatus(status), note))
  }

  function Updates(steps: seq<Step>, raw: seq<RawUpdate>): seq<Update> {
    Somes(seq(|raw|, i requires 0 <= i < |raw| => ToUpdate(steps, raw[i])))
  }

  function WhereNonEmpty(ids: seq<string>): seq<Option<string>> {
    seq(|ids|, i requires 0 <= i < |ids| => if ids[i] != "" then Some(ids[i]) else None)
  }

  function NonEmpty(ids: seq<string>): seq<string> {
    Somes(WhereNonEmpty(ids))
  }

  predicate HasNote(input: Input) {
    input.Fields? && input.note.Some? && Trim(input.note.value) != ""
  }

  function Normalized(input: Input, plan: seq<Step>): Option<Patch> {
    var add := Steps(plan, IdSet(plan), Drafts(input));
    var update := if input.Fields? && input.update.Some? then Updates(plan, input.update.value) else [];
    var remove := if input.Fields? && input.remove.Some? then NonEmpty(input.remove.value) else [];
    if add == [] && update == [] && remove == [] && !HasNote(input) then None
    else Some(Patch(add, update, remove))
  }

  lemma {:induction false} StepsSnoc(plan: seq<Step>, existing: set<string>, drafts: seq<Draft>, d: Draft)
    ensures var now := existing + Generated(plan, existing, drafts);
            Steps(plan, existing, drafts + [d])
            == Steps(plan, existing, drafts) + [MakeStep(DraftId(plan, now, d), d.target, d.title, d.status, d.note)]
            && Generated(plan, existing, drafts + [d])
            == Generated(plan, existing, drafts) + (if d.id.Some? then {} else {DraftId(plan, now, d)})
    decreases drafts
  {
    hide NextId;
    if drafts == [] {
      assert drafts + [d] == [d];
      assert existing + {} == existing;
    } else {
      assert (drafts + [d])[1..] == drafts[1..] + [d];
      var id := DraftId(plan, existing, drafts[0]);
      var next := if drafts[0].id.Some? then existing else existing + {id};
      StepsSnoc(plan, next, drafts[1..], d);
      assert existing + Generated(plan, existing, drafts) == next + Generated(plan, next, drafts[1..]);
    }
  }

  /** The ids generated for a list of drafts. */
  function Generated(plan: seq<Step>, existing: set<string>, drafts: seq<Draft>): set<string>
    decreases drafts
  {
    if drafts == [] then {}
    else
      var id := DraftId(plan, existing, drafts[0]);
      if drafts[0].id.Some? then Generated(plan, existing, drafts[1..])
      else {id} + Generated(plan, existing + {id}, drafts[1..])
  }

  method CollectSteps(plan: seq<Step>, items: seq<Option<Draft>>) returns (add: seq<Step>)
    ensures add == Steps(plan, IdSet(plan), Somes(items))
  {
    hide Generated, DraftId, IdSet, Steps;
    var existingIds := IdSet(plan);
    ghost var start, drafts: seq<Draft> := existingIds, [];
    add := [];
    NoSteps(plan, start);
    var k := 0;
    while k < |items|
      invariant 0 <= k <= |items|
      invariant drafts == Somes(items[..k])
      invariant add == Steps(plan, start, drafts)
      invariant existingIds == start + Generated(plan, start, drafts)
    {
      var item := items[k];
      assert items[..k + 1][..k] == items[..k];
      if item.Some? {
        var d := item.value;
        StepsSnoc(plan, start, drafts, d);
        TakeId(plan, existingIds, d);
        var id;
        if d.id.Some? {
          id := d.id.value;
        } else {
          id, existingIds := UniqueId(plan, existingIds, Base(d.target));
        }
        add := add + [MakeStep(id, d.target, d.title, d.status, d.note)];
        drafts := drafts + [d];
      }
      k := k + 1;
    }
    assert items[..k] == items;
  }

  lemma NoSteps(plan: seq<Step>, existing: set<string>)
    ensures Steps(plan, existing, []) == [] && Generated(plan, existing, []) == {}
  {
  }

  lemma TakeId(plan: seq<Step>, existing: set<string>, d: Draft)
    ensures DraftId(plan, existing, d) == if d.id.Some? then d.id.value else NextId(plan, existing, Base(d.target))
  {
  }

  method CollectUpdates(plan: seq<Step>, raw: seq<RawUpdate>) returns (update: seq<Update>)
    ensures update == Updates(plan, raw)
  {
    hide ToUpdate;
    update := [];
    ghost var all := seq(|raw|, i requires 0 <= i < |raw| => ToUpdate(plan, raw[i]));
    var k := 0;
    while k < |raw|
      invariant 0 <= k <= |raw| && update == Somes(all[..k])
    {
      var u := ToUpdate(plan, raw[k]);
      assert all[..k + 1][..k] == all[..k];
      if u.Some? {
        update := update + [u.value];
      }
      k := k + 1;
    }
    assert all[..k] == all;
  }

  method NormalizePlanPatchInput(input: Input, plan: seq<Step>) returns (out: Option<Patch>)
    ensures out == Normalized(input, plan)
  {
    hide Steps, IdSet, Updates, NonEmpty, Trim, Somes;
    if input == Nothing {
      NothingToNormalize(plan);
      return None;
    }
    var add, update, remove := [], [], [];
    if input.Operations? {
      add := CollectSteps(plan, seq(|input.ops|, i requires 0 <= i < |input.ops| => OperationDraft(input.ops[i])));
    } else if input.Fields? && input.add.Some? {
      var raw := input.add.value;
      add := CollectSteps(plan, seq(|raw|, i requires 0 <= i < |raw| => RawDraft(raw[i])));
    } else {
      NoSteps(plan, IdSet(plan));
    }
    if input.Fields? && input.update.Some? {
      update := CollectUpdates(plan, input.update.value);
    }
    if input.Fields? && input.remove.Some? {
      remove := NonEmpty(input.remove.value);
    }
    if add == [] && update == [] && remove == [] && !HasNote(input) {
      return None;
    }
    return Some(Patch(add, update, remove));
  }

  lemma NothingToNormalize(plan: seq<Step>)
    ensures Normalized(Nothing, plan) == None
  {
  }

  // ----- what the patch holds

  /** How many of the first k values are there. */
  ghost function Rank<T>(values: seq<Option<T>>, k: nat): nat
    requires k <= |values|
  {
    |set i: nat | i < k && values[i].Some?|
  }

  lemma RankNext<T>(values: seq<Option<T>>, k: nat)
    requires k < |values|
    ensures Rank(values, k + 1) == Rank(values, k) + if values[k].Some? then 1 else 0
  {
    var before, now := set i: nat | i < k && values[i].Some?, set i: nat | i < k + 1 && values[i].Some?;
    assert now == if values[k].Some? then before + {k} else before;
  }

  lemma RankOfPrefix<T>(values: seq<Option<T>>, n: nat, k: nat)
    requires k <= n <= |values|
    ensures Rank(values[..n], k) == Rank(values, k)
  {
    assert (set i: nat | i < k && values[..n][i].Some?) == (set i: nat | i < k && values[i].Some?);
  }

  /** Exactly the values that are there are kept, each at the position that the number of those before it gives. */
  lemma {:induction false} SomesKeepOrder<T>(values: seq<Option<T>>)
    ensures |Somes(values)| == Rank(values, |values|)
    ensures forall k | 0 <= k < |values| && values[k].Some? ::
              Rank(values, k) < |Somes(values)| && Somes(values)[Rank(values, k)] == values[k].value
    decreases values
  {
    if values == [] {
      RankOfNone(values);
    } else {
      hide Rank;
      var n := |values| - 1;
      SomesKeepOrder(values[..n]);
      RankNext(values, n);
      forall k | 0 <= k <= n ensures Rank(values[..n], k) == Rank(values, k) {
        RankOfPrefix(values, n, k);
      }
    }
  }

  lemma RankOfNone<T>(values: seq<Option<T>>)
    ensures Rank(values, 0) == 0
  {
  }

  ghost predicate FirstOfKind(plan: seq<Step>, t: Target, i: nat) {
    i < |plan| && IsKind(plan[i], t) && forall j | 0 <= j < i :: !IsKind(plan[j], t)
  }

  lemma {:induction false} FindKindIsFirst(plan: seq<Step>, t: Target)
    ensures FindKind(plan, t) == None <==> forall i | 0 <= i < |plan| :: !IsKind(plan[i], t)
    ensures FindKind(plan, t).Some? ==>
              exists i: nat :: FirstOfKind(plan, t, i) && FindKind(plan, t) == Some(plan[i].id)
    decreases plan
  {
    if plan == [] {
    } else {
      FindKindIsFirst(plan[1..], t);
      if IsKind(plan[0], t) {
        assert FirstOfKind(plan, t, 0);
      } else if FindKind(plan, t).Some? {
        var i: nat :| FirstOfKind(plan[1..], t, i) && FindKind(plan[1..], t) == Some(plan[1..][i].id);
        assert FirstOfKind(plan, t, i + 1);
      }
    }
  }

  lemma {:induction false} StepsFields(plan: seq<Step>, existing: set<string>, drafts: seq<Draft>)
    ensures var out := Steps(plan, existing, drafts);
            && |out| == |drafts|
            && forall i | 0 <= i < |drafts| ::
                 out[i] == MakeStep(out[i].id, drafts[i].target, drafts[i].title, drafts[i].status, drafts[i].note)
    decreases drafts
  {
    if drafts == [] {
    } else {
      var id := DraftId(plan, existing, drafts[0]);
      StepsFields(plan, if drafts[0].id.Some? then existing else existing + {id}, drafts[1..]);
    }
  }

  // ----- fresh ids, and which additions land

  lemma {:induction false} StepsAt(plan: seq<Step>, existing: set<string>, drafts: seq<Draft>)
    ensures var out := Steps(plan, existing, drafts);
            && |out| == |drafts|
            && (forall i | 0 <= i < |drafts| && drafts[i].id.Some? :: out[i].id == drafts[i].id.value)
            && (forall i | 0 <= i < |drafts| && drafts[i].id.None? :: out[i].id !in existing)
            && (forall i, j | 0 <= i < j < |drafts| && drafts[i].id.None? && drafts[j].id.None? ::
                  out[i].id != out[j].id)
    decreases drafts
  {
    if drafts == [] {
    } else {
      hide NextId, MakeStep;
      var id := DraftId(plan, existing, drafts[0]);
      var next := if drafts[0].id.Some? then existing else existing + {id};
      StepsAt(plan, next, drafts[1..]);
      var rest := Steps(plan, next, drafts[1..]);
      assert forall i | 0 < i < |drafts| ::
               Steps(plan, existing, drafts)[i] == rest[i - 1] && drafts[i] == drafts[1..][i - 1];
    }
  }

  /** A generated id is new to the plan and to every other generated id. */
  lemma GeneratedIdsAreFresh(plan: seq<Step>, input: Input)
    ensures var drafts := Drafts(input);
            var out := Steps(plan, IdSet(plan), drafts);
            && |out| == |drafts|
            && (forall i | 0 <= i < |drafts| && drafts[i].id.None? :: out[i].id !in Ids(plan))
            && (forall i, j | 0 <= i < j < |drafts| && drafts[i].id.None? && drafts[j].id.None? ::
                  out[i].id != out[j].id)
  {
    StepsAt(plan, IdSet(plan), Drafts(input));
    forall id | id in Ids(plan) ensures id in IdSet(plan) {
      var i :| 0 <= i < |plan| && Ids(plan)[i] == id;
      assert plan[i] in plan;
    }
  }

  /** The step's id has the least number beyond the steps of its kind that neither plan nor patch has used. */
  ghost predicate IsLeastFree(plan: seq<Step>, existing: set<string>, out: seq<Step>, i: nat, base: string)
    requires i < |out|
  {
    exists n: nat ::
      && CountOf(plan, base) < n && out[i].id == AutoId(base, n) && AutoId(base, n) !in existing
      && forall m: nat | CountOf(plan, base) < m < n ::
           AutoId(base, m) in existing || exists j | 0 <= j < i :: out[j].id == AutoId(base, m)
  }

  lemma {:induction false} StepsNumbered(plan: seq<Step>, existing: set<string>, drafts: seq<Draft>)
    ensures var out := Steps(plan, existing, drafts);
            && |out| == |drafts|
            && forall i | 0 <= i < |drafts| && drafts[i].id.None? ::
                 IsLeastFree(plan, existing, out, i, Base(drafts[i].target))
    decreases drafts
  {
    if drafts == [] {
    } else {
      hide NextId, Base, IsLeastFree;
      var id := DraftId(plan, existing, drafts[0]);
      var next := if drafts[0].id.Some? then existing else existing + {id};
      var out, rest := Steps(plan, existing, drafts), Steps(plan, next, drafts[1..]);
      assert out == [out[0]] + rest && out[0].id == id;
      hide Steps;
      StepsNumbered(plan, next, drafts[1..]);
      if drafts[0].id.None? {
        FirstIsLeastFree(plan, existing, out, Base(drafts[0].target));
      }
      hide DraftId;
      LeastFreeFirstAndAfter(plan, existing, next, drafts, out, rest);
    }
  }

  lemma LeastFreeFirstAndAfter(plan: seq<Step>, existing: set<string>, next: set<string>, drafts: seq<Draft>,
                               out: seq<Step>, rest: seq<Step>)
    requires |out| == |drafts| == |rest| + 1 && out == [out[0]] + rest
    requires next == existing || next == existing + {out[0].id}
    requires drafts[0].id.None? ==> IsLeastFree(plan, existing, out, 0, Base(drafts[0].target))
    requires forall i | 0 <= i < |rest| && drafts[1..][i].id.None? ::
               IsLeastFree(plan, next, rest, i, Base(drafts[1..][i].target))
    ensures forall i | 0 <= i < |drafts| && drafts[i].id.None? ::
              IsLeastFree(plan, existing, out, i, Base(drafts[i].target))
  {
    hide Base, IsLeastFree;
    forall i | 0 < i < |drafts| && drafts[i].id.None?
      ensures IsLeastFree(plan, existing, out, i, Base(drafts[i].target))
    {
      assert drafts[i] == drafts[1..][i - 1];
      LeastFreeAfter(plan, existing, next, out, rest, i, Base(drafts[i].target));
    }
  }

  lemma FirstIsLeastFree(plan: seq<Step>, existing: set<string>, out: seq<Step>, base: string)
    requires out != [] && out[0].id == NextId(plan, existing, base)
    ensures IsLeastFree(plan, existing, out, 0, base)
  {
    var n := FirstFree(existing, base, CountOf(plan, base) + 1);
    hide AutoId, CountOf;
    assert out[0].id == AutoId(base, n);
  }

  lemma LeastFreeAfter(plan: seq<Step>, existing: set<string>, next: set<string>, out: seq<Step>, rest: seq<Step>,
                       i: nat, base: string)
    requires 0 < i < |out| == |rest| + 1 && forall j | 0 < j < |out| :: out[j] == rest[j - 1]
    requires next == existing || next == existing + {out[0].id}
    requires IsLeastFree(plan, next, rest, i - 1, base)
    ensures IsLeastFree(plan, existing, out, i, base)
  {
    hide AutoId, CountOf;
    var n: nat :| && CountOf(plan, base) < n && rest[i - 1].id == AutoId(base, n) && AutoId(base, n) !in next
                  && forall m: nat | CountOf(plan, base) < m < n ::
                       AutoId(base, m) in next || exists j | 0 <= j < i - 1 :: rest[j].id == AutoId(base, m);
    forall m: nat | CountOf(plan, base) < m < n
      ensures AutoId(base, m) in existing || exists j | 0 <= j < i :: out[j].id == AutoId(base, m)
    {
      if AutoId(base, m) !in next {
        var j :| 0 <= j < i - 1 && rest[j].id == AutoId(base, m);
        assert out[j + 1].id == AutoId(base, m);
      } else if AutoId(base, m) !in existing {
        assert out[0].id == AutoId(base, m);
      }
    }
  }

  /** Every addition lands exactly when the ids, old and added, are pairwise different. */
  lemma {:induction false} AllLandIffDistinct(ids: seq<string>, add: seq<string>)
    requires Distinct(ids)
    ensures NewIds(ids, add) == add <==> Distinct(ids + add)
    decreases add
  {
    if add == [] {
      assert ids + add == ids;
    } else {
      assert ids + add == ids + [add[0]] + add[1..];
      if add[0] in ids {
        NewIdsIsShorter(ids, add[1..]);
        var i :| 0 <= i < |ids| && ids[i] == add[0];
        assert (ids + add)[i] == (ids + add)[|ids|];
      } else {
        AllLandIffDistinct(ids + [add[0]], add[1..]);
        assert [add[0]] + add[1..] == add;
        assert NewIds(ids, add)[1..] == NewIds(ids + [add[0]], add[1..]);
      }
    }
  }

  lemma {:induction false} NewIdsIsShorter(ids: seq<string>, add: seq<string>)
    ensures |NewIds(ids, add)| <= |add|
    decreases add
  {
    if add == [] {
    } else {
      NewIdsIsShorter(if add[0] in ids then ids else ids + [add[0]], add[1..]);
    }
  }

  lemma {:induction false} GeneratedAre(plan: seq<Step>, existing: set<string>, drafts: seq<Draft>, id: string)
    ensures var out := Steps(plan, existing, drafts);
            |out| == |drafts|
            && (id in Generated(plan, existing, drafts)
               <==> exists i | 0 <= i < |drafts| :: drafts[i].id.None? && out[i].id == id)
    decreases drafts
  {
    if drafts == [] {
    } else {
      hide NextId;
      var first := DraftId(plan, existing, drafts[0]);
      var next := if drafts[0].id.Some? then existing else existing + {first};
      GeneratedAre(plan, next, drafts[1..], id);
      var out, rest := Steps(plan, existing, drafts), Steps(plan, next, drafts[1..]);
      assert forall i | 0 < i < |drafts| :: out[i] == rest[i - 1] && drafts[i] == drafts[1..][i - 1];
      assert forall i | 0 <= i < |drafts| - 1 :: rest[i] == out[i + 1] && drafts[1..][i] == drafts[i + 1];
      assert out[0].id == first;
    }
  }

  /** The planner's own ids are pairwise different, new to the plan, and none of the generated ones. */
  ghost predicate OwnIdsAreFree(plan: seq<Step>, drafts: seq<Draft>) {
    && (forall i, j | 0 <= i < j < |drafts| && drafts[i].id.Some? && drafts[j].id.Some? :: drafts[i].id != drafts[j].id)
    && forall i | 0 <= i < |drafts| && drafts[i].id.Some? ::
         drafts[i].id.value !in Ids(plan) && drafts[i].id.value !in Generated(plan, IdSet(plan), drafts)
  }

  lemma DistinctConcatIff(a: seq<string>, b: seq<string>)
    requires Distinct(a)
    ensures Distinct(a + b) <==> Distinct(b) && forall i | 0 <= i < |b| :: b[i] !in a
  {
    var ids := a + b;
    if Distinct(ids) {
      forall i, j | 0 <= i < j < |b| ensures b[i] != b[j] {
        assert ids[|a| + i] != ids[|a| + j];
      }
      forall i | 0 <= i < |b| ensures b[i] !in a {
        assert ids[|a| + i] == b[i];
        assert forall k | 0 <= k < |a| :: ids[k] == a[k];
      }
    }
  }

  lemma StepIdsDistinctIff(plan: seq<Step>, drafts: seq<Draft>)
    requires Distinct(Ids(plan))
    ensures Distinct(Ids(plan) + Ids(Steps(plan, IdSet(plan), drafts))) <==> OwnIdsAreFree(plan, drafts)
  {
    hide Steps, Generated, IdSet, Ids;
    var out := Steps(plan, IdSet(plan), drafts);
    StepsAt(plan, IdSet(plan), drafts);
    DistinctConcatIff(Ids(plan), Ids(out));
    forall id ensures id in Generated(plan, IdSet(plan), drafts)
                      <==> exists i | 0 <= i < |drafts| :: drafts[i].id.None? && out[i].id == id
    {
      GeneratedAre(plan, IdSet(plan), drafts, id);
    }
    forall id ensures id in Ids(plan) <==> id in IdSet(plan) {
      IdsAndIdSet(plan, id);
    }
    if OwnIdsAreFree(plan, drafts) {
      forall i, j | 0 <= i < j < |out| ensures out[i].id != out[j].id {
        OneIdEach(plan, drafts, out, i, j);
      }
    }
    if Distinct(Ids(out)) && forall i | 0 <= i < |out| :: out[i].id !in Ids(plan) {
      DifferentIdsAreFree(plan, drafts, out);
    }
  }

  lemma DifferentIdsAreFree(plan: seq<Step>, drafts: seq<Draft>, out: seq<Step>)
    requires |out| == |drafts| && Distinct(Ids(out)) && forall i | 0 <= i < |out| :: out[i].id !in Ids(plan)
    requires forall k | 0 <= k < |drafts| && drafts[k].id.Some? :: out[k].id == drafts[k].id.value
    requires forall id :: id in Generated(plan, IdSet(plan), drafts)
                          <==> exists i | 0 <= i < |drafts| :: drafts[i].id.None? && out[i].id == id
    ensures OwnIdsAreFree(plan, drafts)
  {
    hide Generated, IdSet;
    assert forall i, j | 0 <= i < j < |out| :: Ids(out)[i] != Ids(out)[j];
  }

  lemma IdsAndIdSet(plan: seq<Step>, id: string)
    ensures id in Ids(plan) <==> id in IdSet(plan)
  {
    if id in Ids(plan) {
      var i :| 0 <= i < |plan| && Ids(plan)[i] == id;
      assert plan[i] in plan;
    }
    if id in IdSet(plan) {
      var step :| step in plan && step.id == id;
      var i :| 0 <= i < |plan| && plan[i] == step;
      assert Ids(plan)[i] == id;
    }
  }

  lemma OneIdEach(plan: seq<Step>, drafts: seq<Draft>, out: seq<Step>, i: nat, j: nat)
    requires i < j < |drafts| && |out| == |drafts| && OwnIdsAreFree(plan, drafts)
    requires forall k | 0 <= k < |drafts| && drafts[k].id.Some? :: out[k].id == drafts[k].id.value
    requires forall k, l | 0 <= k < l < |drafts| && drafts[k].id.None? && drafts[l].id.None? :: out[k].id != out[l].id
    requires forall k | 0 <= k < |drafts| && drafts[k].id.None? :: out[k].id in Generated(plan, IdSet(plan), drafts)
    ensures out[i].id != out[j].id
  {
    hide Generated, IdSet;
  }

  /**
    Every step of a normalized patch reaches the plan exactly when the ids that the planner gave are
    pairwise different, new to the plan, and different from all ids that are generated for the others.
   */
  lemma AllAdditionsLandIff(input: Input, plan: seq<Step>)
    requires Distinct(Ids(plan)) && Normalized(input, plan).Some?
    ensures var patch := Normalized(input, plan).value;
            && (Ids(Added(plan, patch.add)) == Ids(plan) + Ids(patch.add) <==> OwnIdsAreFree(plan, Drafts(input)))
            && (patch.remove == [] ==>
                  (Ids(Applied(plan, patch)) == Ids(plan) + Ids(patch.add) <==> OwnIdsAreFree(plan, Drafts(input))))
  {
    var patch := Normalized(input, plan).value;
    hide Normalized, Drafts, Steps, Generated, IdSet, Added, NewIds, Without, OwnIdsAreFree, Applied;
    assert patch.add == Steps(plan, IdSet(plan), Drafts(input)) by { NormalizedAdds(input, plan); }
    StepIdsDistinctIff(plan, Drafts(input));
    AddedExtends(plan, patch.add);
    AllLandIffDistinct(Ids(plan), Ids(patch.add));
    AppliedIds(plan, patch);
    if patch.remove == [] {
      WithoutNone(Ids(plan) + NewIds(Ids(plan), Ids(patch.add)));
    }
    SameTail(Ids(plan), NewIds(Ids(plan), Ids(patch.add)), Ids(patch.add));
  }

  lemma NormalizedAdds(input: Input, plan: seq<Step>)
    ensures Normalized(input, plan).Some?
            ==> Normalized(input, plan).value.add == Steps(plan, IdSet(plan), Drafts(input))
  {
    hide Steps, IdSet, Updates, NonEmpty, Drafts, Trim;
  }

  lemma SameTail(a: seq<string>, b: seq<string>, c: seq<string>)
    ensures a + b == a + c <==> b == c
  {
    assert (a + b)[|a|..] == b && (a + c)[|a|..] == c;
  }

  lemma {:induction false} WithoutNone(ids: seq<string>)
    ensures Without(ids, []) == ids
    decreases ids
  {
    if ids == [] {
    } else {
      WithoutNone(ids[..|ids| - 1]);
    }
  }

  /**
    The planner's own ids are not marked as taken, so one of them can equal an id generated
    before it; the engine then drops the later step.
   */
  lemma OwnIdCanClashWithGeneratedOne(t: Target)
    ensures var generated := Draft(t, None, None, Pending, None);
            var own := Draft(t, Some(NextId([], {}, Base(t))), None, Pending, None);
            var add := Steps([], IdSet([]), [generated, own]);
            |add| == 2 && |Applied([], Patch(add, [], []))| == 1
  {
    var generated := Draft(t, None, None, Pending, None);
    var id := NextId([], {}, Base(t));
    var own := Draft(t, Some(id), None, Pending, None);
    var step := MakeStep(id, t, None, Pending, None);
    assert IdSet([]) == {};
    assert [generated, own][1..] == [own] && [own][1..] == [];
    var add := Steps([], {}, [generated, own]);
    assert DraftId([], {}, generated) == id && DraftId([], {} + {id}, own) == id;
    assert Steps([], {} + {id}, [own]) == [step] + Steps([], {} + {id}, []);
    assert add == [step] + Steps([], {} + {id}, [own]);
    assert add == [step, step];
    hide NextId, Steps;
    AddedTwice(step);
  }

  lemma AddedTwice(step: Step)
    ensures Applied([], Patch([step, step], [], [])) == [step]
  {
    assert [step, step][1..] == [step] && [step][1..] == [];
    assert [] + [step] == [step];
    assert step.id in Ids([step]) by { assert Ids([step])[0] == step.id; }
    assert Added([step], [step]) == Added([step], []);
    assert Added([], [step, step]) == [step];
    assert Updated([step], []) == [step];
    KeptAllOrNone([step], []);
  }
}
