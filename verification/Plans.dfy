/** The orchestrator's ordered plan and the patch language that evolves it. */
module Plans {
  import opened Wrappers

  datatype Status = Pending | InProgress | Done | Skipped

  /** finalize is the action field, whose only value is 'finalize'; title is the label field. */
  datatype Step = Step(id: string, capability: Option<string>, finalize: bool, title: Option<string>,
                       status: Status, note: Option<string>)

  datatype Update = Update(id: string, status: Option<Status>, note: Option<string>)

  datatype Patch = Patch(add: seq<Step>, update: seq<Update>, remove: seq<string>)

  // ----- what a patch means

  function Ids(steps: seq<Step>): (ids: seq<string>)
    ensures |ids| == |steps| && forall i | 0 <= i < |steps| :: ids[i] == steps[i].id
  {
    seq(|steps|, i requires 0 <= i < |steps| => steps[i].id)
  }

  predicate Distinct(ids: seq<string>) {
    forall i, j | 0 <= i < j < |ids| :: ids[i] != ids[j]
  }

  /** Appends the steps whose ids are not in the plan yet. */
  function Added(steps: seq<Step>, add: seq<Step>): seq<Step>
    decreases add
  {
    if add == [] then steps
    else if add[0].id in Ids(steps) then Added(steps, add[1..])
    else Added(steps + [add[0]], add[1..])
  }

  function Touched(step: Step, u: Update): Step {
    step.(status := if u.status.Some? then u.status.value else step.status,
          note := if u.note.Some? then u.note else step.note)
  }

  /** Touches the first step that has the update's id. */
  function UpdatedOnce(steps: seq<Step>, u: Update): seq<Step> {
    if steps == [] then []
    else if steps[0].id == u.id then [Touched(steps[0], u)] + steps[1..]
    else [steps[0]] + UpdatedOnce(steps[1..], u)
  }

  function Updated(steps: seq<Step>, update: seq<Update>): seq<Step>
    decreases update
  {
    if update == [] then steps else Updated(UpdatedOnce(steps, update[0]), update[1..])
  }

  function Kept(steps: seq<Step>, remove: seq<string>): seq<Step> {
    if steps == [] then []
    else if steps[|steps| - 1].id in remove then Kept(steps[..|steps| - 1], remove)
    else Kept(steps[..|steps| - 1], remove) + [steps[|steps| - 1]]
  }

  function Applied(steps: seq<Step>, patch: Patch): seq<Step> {
    Kept(Updated(Added(steps, patch.add), patch.update), patch.remove)
  }

  // ----- the plan object

  class Plan {
    var version: nat
    var steps: seq<Step>

    constructor (version: nat, steps: seq<Step>)
      ensures this.version == version && this.steps == steps
    {
      this.version, this.steps := version, steps;
    }

    method ApplyPlanPatch(patch: Patch)
      modifies this`steps
      ensures steps == Applied(old(steps), patch)
    {
      AddSteps(patch.add);
      var k := 0;
      ghost var added := steps;
      while k < |patch.update|
        invariant 0 <= k <= |patch.update|
        invariant Updated(steps, patch.update[k..]) == Updated(added, patch.update)
      {
        assert patch.update[k..][1..] == patch.update[k + 1..];
        UpdateStep(patch.update[k]);
        k := k + 1;
      }
      assert patch.update[k..] == [];
      RemoveSteps(patch.remove);
    }

    method AddSteps(add: seq<Step>)
      modifies this`steps
      ensures steps == Added(old(steps), add)
    {
      var existingIds := set s | s in steps :: s.id;
      var k := 0;
      while k < |add|
        invariant 0 <= k <= |add|
        invariant forall id :: id in existingIds <==> id in Ids(steps)
        invariant Added(steps, add[k..]) == Added(old(steps), add)
      {
        var s := add[k];
        assert add[k..][1..] == add[k + 1..];
        if s.id !in existingIds {
          assert Ids(steps + [s]) == Ids(steps) + [s.id];
          steps := steps + [s];
          existingIds := existingIds + {s.id};
        }
        k := k + 1;
      }
    }

    method UpdateStep(u: Update)
      modifies this`steps
      ensures steps == UpdatedOnce(old(steps), u)
    {
      UpdatedOnceAt(steps, u);
      var i := 0;
      while i < |steps| && steps[i].id != u.id
        invariant 0 <= i <= |steps| && steps == old(steps)
        invariant forall j | 0 <= j < i :: steps[j].id != u.id
      {
        i := i + 1;
      }
      if i == |steps| {
        return;
      }
      var step := steps[i];
      if u.status.Some? {
        step := step.(status := u.status.value);
      }
      if u.note.Some? {
        step := step.(note := u.note);
      }
      steps := steps[i := step];
    }

    method RemoveSteps(remove: seq<string>)
      modifies this`steps
      ensures steps == Kept(old(steps), remove)
    {
      var kept, i := [], 0;
      while i < |steps|
        invariant 0 <= i <= |steps| && steps == old(steps)
        invariant kept == Kept(steps[..i], remove)
      {
        assert steps[..i + 1][..i] == steps[..i];
        if steps[i].id !in remove {
          kept := kept + [steps[i]];
        }
        i := i + 1;
      }
      assert steps[..i] == steps;
      steps := kept;
    }
  }

  // ----- which steps a patch leaves, and in which order

  /** The ids of add that are new to ids, each at its first occurrence. */
  function NewIds(ids: seq<string>, add: seq<string>): seq<string>
    decreases add
  {
    if add == [] then []
    else if add[0] in ids then NewIds(ids, add[1..])
    else [add[0]] + NewIds(ids + [add[0]], add[1..])
  }

  function Without(ids: seq<string>, remove: seq<string>): seq<string> {
    if ids == [] then []
    else if ids[|ids| - 1] in remove then Without(ids[..|ids| - 1], remove)
    else Without(ids[..|ids| - 1], remove) + [ids[|ids| - 1]]
  }

  lemma {:induction false} AddedExtends(steps: seq<Step>, add: seq<Step>)
    ensures steps <= Added(steps, add)
    ensures Ids(Added(steps, add)) == Ids(steps) + NewIds(Ids(steps), Ids(add))
    decreases add
  {
    if add == [] {
      assert Ids(steps) + [] == Ids(steps);
    } else {
      assert Ids(add)[1..] == Ids(add[1..]);
      if add[0].id in Ids(steps) {
        AddedExtends(steps, add[1..]);
      } else {
        var more := steps + [add[0]];
        assert Ids(more) == Ids(steps) + [add[0].id];
        AddedExtends(more, add[1..]);
        assert Ids(more) + NewIds(Ids(more), Ids(add[1..]))
            == Ids(steps) + ([add[0].id] + NewIds(Ids(more), Ids(add[1..])));
      }
    }
  }

  lemma {:induction false} UpdatedOnceKeepsIds(steps: seq<Step>, u: Update)
    ensures Ids(UpdatedOnce(steps, u)) == Ids(steps)
    decreases steps
  {
    if steps == [] {
    } else {
      UpdatedOnceKeepsIds(steps[1..], u);
      var r := UpdatedOnce(steps, u);
      forall i | 0 <= i < |steps| ensures i < |r| && r[i].id == steps[i].id {
        if i > 0 {
          assert Ids(steps[1..])[i - 1] == steps[i].id;
          assert steps[0].id != u.id ==> Ids(UpdatedOnce(steps[1..], u))[i - 1] == r[i].id;
        }
      }
      assert |Ids(UpdatedOnce(steps[1..], u))| == |steps| - 1;
    }
  }

  lemma {:induction false} UpdatedKeepsIds(steps: seq<Step>, update: seq<Update>)
    ensures Ids(Updated(steps, update)) == Ids(steps)
    decreases update
  {
    if update == [] {
    } else {
      UpdatedOnceKeepsIds(steps, update[0]);
      UpdatedKeepsIds(UpdatedOnce(steps, update[0]), update[1..]);
    }
  }

  lemma {:induction false} KeptIds(steps: seq<Step>, remove: seq<string>)
    ensures Ids(Kept(steps, remove)) == Without(Ids(steps), remove)
    decreases steps
  {
    if steps == [] {
    } else {
      var init := steps[..|steps| - 1];
      KeptIds(init, remove);
      assert Ids(steps)[..|steps| - 1] == Ids(init);
      assert Ids(Kept(init, remove) + [steps[|steps| - 1]]) == Ids(Kept(init, remove)) + [steps[|steps| - 1].id];
    }
  }

  /** Surviving steps stay in order, new ones follow in the order of their first mention. */
  lemma AppliedIds(steps: seq<Step>, patch: Patch)
    ensures Ids(Applied(steps, patch)) == Without(Ids(steps) + NewIds(Ids(steps), Ids(patch.add)), patch.remove)
  {
    AddedExtends(steps, patch.add);
    UpdatedKeepsIds(Added(steps, patch.add), patch.update);
    KeptIds(Updated(Added(steps, patch.add), patch.update), patch.remove);
  }

  lemma {:induction false} WithoutMembers(ids: seq<string>, remove: seq<string>)
    ensures forall id :: id in Without(ids, remove) <==> id in ids && id !in remove
    ensures Distinct(ids) ==> Distinct(Without(ids, remove))
    decreases ids
  {
    if ids == [] {
    } else {
      var init := ids[..|ids| - 1];
      WithoutMembers(init, remove);
      assert ids == init + [ids[|ids| - 1]];
    }
  }

  lemma {:induction false} NewIdsMembers(ids: seq<string>, add: seq<string>)
    ensures forall id :: id in NewIds(ids, add) <==> id in add && id !in ids
    ensures Distinct(ids) ==> Distinct(ids + NewIds(ids, add))
    decreases add
  {
    if add == [] {
      assert ids + [] == ids;
    } else {
      assert add == [add[0]] + add[1..];
      if add[0] in ids {
        NewIdsMembers(ids, add[1..]);
      } else {
        NewIdsMembers(ids + [add[0]], add[1..]);
        assert ids + NewIds(ids, add) == ids + [add[0]] + NewIds(ids + [add[0]], add[1..]);
      }
    }
  }

  /** A patched plan holds the old and the added ids that were not removed, each once. */
  lemma AppliedMembers(steps: seq<Step>, patch: Patch)
    ensures forall id :: id in Ids(Applied(steps, patch))
                         <==> id !in patch.remove && (id in Ids(steps) || id in Ids(patch.add))
    ensures Distinct(Ids(steps)) ==> Distinct(Ids(Applied(steps, patch)))
  {
    AppliedIds(steps, patch);
    NewIdsMembers(Ids(steps), Ids(patch.add));
    WithoutMembers(Ids(steps) + NewIds(Ids(steps), Ids(patch.add)), patch.remove);
  }

  // ----- what a patch leaves in each step

  /** The status that the last update of id sets, or the given one. */
  function LastStatus(update: seq<Update>, id: string, status: Status): Status {
    if update == [] then status
    else
      var last := update[|update| - 1];
      if last.id == id && last.status.Some? then last.status.value
      else LastStatus(update[..|update| - 1], id, status)
  }

  function LastNote(update: seq<Update>, id: string, note: Option<string>): Option<string> {
    if update == [] then note
    else
      var last := update[|update| - 1];
      if last.id == id && last.note.Some? then last.note
      else LastNote(update[..|update| - 1], id, note)
  }

  function Settled(step: Step, update: seq<Update>): Step {
    step.(status := LastStatus(update, step.id, step.status), note := LastNote(update, step.id, step.note))
  }

  /** Position i holds the first step with its id. */
  ghost predicate FirstAt(steps: seq<Step>, i: nat)
    requires i < |steps|
  {
    forall j | 0 <= j < i :: steps[j].id != steps[i].id
  }

  lemma {:induction false} UpdatedOnceAt(steps: seq<Step>, u: Update)
    ensures |UpdatedOnce(steps, u)| == |steps|
    ensures forall i | 0 <= i < |steps| ::
              UpdatedOnce(steps, u)[i]
              == if FirstAt(steps, i) && steps[i].id == u.id then Touched(steps[i], u) else steps[i]
    decreases steps
  {
    if steps == [] {
    } else {
      UpdatedOnceAt(steps[1..], u);
      forall i | 0 < i < |steps| && steps[0].id != u.id && steps[i].id == u.id
        ensures FirstAt(steps, i) <==> FirstAt(steps[1..], i - 1)
      {
        if FirstAt(steps[1..], i - 1) {
          forall j | 0 <= j < i ensures steps[j].id != steps[i].id {
            if j > 0 { assert steps[1..][j - 1] == steps[j]; }
          }
        }
      }
    }
  }

  lemma {:induction false} LastOfCons(u: Update, rest: seq<Update>, step: Step)
    ensures Settled(step, [u] + rest) == Settled(if u.id == step.id then Touched(step, u) else step, rest)
    decreases rest
  {
    if rest == [] {
      assert [u] + rest == [u] && [u][..0] == [];
    } else {
      var init := rest[..|rest| - 1];
      assert ([u] + rest)[..|rest|] == [u] + init;
      LastOfCons(u, init, step);
    }
  }

  lemma {:induction false} UpdatedAt(steps: seq<Step>, update: seq<Update>)
    ensures |Updated(steps, update)| == |steps|
    ensures forall i | 0 <= i < |steps| ::
              Updated(steps, update)[i] == if FirstAt(steps, i) then Settled(steps[i], update) else steps[i]
    decreases update
  {
    if update == [] {
    } else {
      var u := update[0];
      var once := UpdatedOnce(steps, u);
      UpdatedOnceAt(steps, u);
      UpdatedAt(once, update[1..]);
      assert update == [u] + update[1..];
      forall i | 0 <= i < |steps| && FirstAt(steps, i)
        ensures Settled(steps[i], update) == Settled(once[i], update[1..])
      {
        LastOfCons(u, update[1..], steps[i]);
      }
    }
  }

  /** The step that a patched plan starts from for an id: the old one, or else the first added one. */
  function Source(steps: seq<Step>, id: string): Option<Step> {
    if steps == [] then None else if steps[0].id == id then Some(steps[0]) else Source(steps[1..], id)
  }

  lemma {:induction false} SourceOfDistinct(steps: seq<Step>, i: nat)
    requires i < |steps| && FirstAt(steps, i)
    ensures Source(steps, steps[i].id) == Some(steps[i])
    decreases steps
  {
    if i == 0 {
    } else {
      assert steps[0].id != steps[i].id;
      forall j | 0 <= j < i - 1 ensures steps[1..][j].id != steps[1..][i - 1].id {
        assert steps[j + 1].id != steps[i].id;
      }
      SourceOfDistinct(steps[1..], i - 1);
    }
  }

  lemma {:induction false} AddedSource(steps: seq<Step>, add: seq<Step>, id: string)
    ensures Source(Added(steps, add), id) == Source(steps + add, id)
    decreases add
  {
    if add == [] {
      assert steps + add == steps;
    } else if add[0].id in Ids(steps) {
      AddedSource(steps, add[1..], id);
      SourceOfConcat(steps, add, id);
      SourceOfConcat(steps, add[1..], id);
    } else {
      AddedSource(steps + [add[0]], add[1..], id);
      assert steps + [add[0]] + add[1..] == steps + add;
    }
  }

  lemma {:induction false} SourceOfConcat(a: seq<Step>, b: seq<Step>, id: string)
    ensures Source(a + b, id) == if id in Ids(a) then Source(a, id) else Source(b, id)
    decreases a
  {
    if a == [] {
      assert a + b == b;
    } else {
      assert (a + b)[1..] == a[1..] + b;
      SourceOfConcat(a[1..], b, id);
      assert forall k | 0 < k < |a| :: Ids(a)[k] == Ids(a[1..])[k - 1];
      assert id in Ids(a) <==> id == a[0].id || id in Ids(a[1..]);
    }
  }

  /** Every step of a patched plan is its source step with the last status and note given for it. */
  lemma AppliedSteps(steps: seq<Step>, patch: Patch, step: Step)
    requires Distinct(Ids(steps)) && step in Applied(steps, patch)
    ensures var source := Source(steps + patch.add, step.id);
            source.Some? && step == Settled(source.value, patch.update)
  {
    var added := Added(steps, patch.add);
    AddedExtends(steps, patch.add);
    NewIdsMembers(Ids(steps), Ids(patch.add));
    UpdatedAt(added, patch.update);
    KeptMembers(Updated(added, patch.update), patch.remove, step);
    var i :| 0 <= i < |added| && Updated(added, patch.update)[i] == step;
    assert FirstAt(added, i) by {
      forall j | 0 <= j < i ensures added[j].id != added[i].id {
        assert Ids(added)[j] != Ids(added)[i];
      }
    }
    SourceOfDistinct(added, i);
    AddedSource(steps, patch.add, step.id);
  }

  lemma {:induction false} KeptMembers(steps: seq<Step>, remove: seq<string>, step: Step)
    ensures step in Kept(steps, remove) <==> step in steps && step.id !in remove
    decreases steps
  {
    if steps == [] {
    } else {
      var init := steps[..|steps| - 1];
      assert steps == init + [steps[|steps| - 1]];
      KeptMembers(init, remove, step);
    }
  }

  // ----- the same patch twice

  ghost predicate Stable(steps: seq<Step>, update: seq<Update>) {
    forall i | 0 <= i < |steps| && FirstAt(steps, i) :: Settled(steps[i], update) == steps[i]
  }

  lemma {:induction false} SettledTwice(step: Step, update: seq<Update>)
    ensures Settled(Settled(step, update), update) == Settled(step, update)
    decreases update
  {
    if update == [] {
    } else {
      SettledTwice(step, update[..|update| - 1]);
      LastIgnoresBase(update, step);
    }
  }

  lemma {:induction false} LastIgnoresBase(update: seq<Update>, step: Step)
    ensures var s := LastStatus(update, step.id, step.status);
            LastStatus(update, step.id, s) == s
    ensures var n := LastNote(update, step.id, step.note);
            LastNote(update, step.id, n) == n
    decreases update
  {
    if update == [] {
    } else {
      LastIgnoresBase(update[..|update| - 1], step);
    }
  }

  lemma UpdatedIsStable(steps: seq<Step>, update: seq<Update>)
    ensures Stable(Updated(steps, update), update)
  {
    var r := Updated(steps, update);
    UpdatedAt(steps, update);
    UpdatedKeepsIds(steps, update);
    forall i | 0 <= i < |r| && FirstAt(r, i) ensures Settled(r[i], update) == r[i] {
      forall j | 0 <= j < i ensures steps[j].id != steps[i].id {
        assert Ids(r)[j] == Ids(steps)[j] && Ids(r)[i] == Ids(steps)[i];
      }
      assert Ids(r)[i] == Ids(steps)[i];
      SettledTwice(steps[i], update);
    }
  }

  lemma StableSnoc(init: seq<Step>, last: Step, update: seq<Update>)
    ensures Stable(init + [last], update)
            <==> Stable(init, update) && (last.id in Ids(init) || Settled(last, update) == last)
  {
    var n, r := |init|, init + [last];
    forall i | 0 <= i < n ensures r[i] == init[i] && (FirstAt(r, i) <==> FirstAt(init, i)) {
      assert forall j | 0 <= j <= i :: r[j] == init[j];
    }
    assert FirstAt(r, n) <==> last.id !in Ids(init) by {
      if !FirstAt(r, n) {
        var j :| 0 <= j < n && r[j].id == last.id;
        assert Ids(init)[j] == last.id;
      }
    }
  }

  lemma {:induction false} KeptIsStable(steps: seq<Step>, update: seq<Update>, remove: seq<string>)
    requires Stable(steps, update)
    ensures Stable(Kept(steps, remove), update)
    decreases steps
  {
    if steps == [] {
    } else {
      var init, last := steps[..|steps| - 1], steps[|steps| - 1];
      assert steps == init + [last];
      StableSnoc(init, last, update);
      KeptIsStable(init, update, remove);
      StableSnoc(Kept(init, remove), last, update);
      KeptIds(init, remove);
      WithoutMembers(Ids(init), remove);
    }
  }

  lemma StableIsUnchanged(steps: seq<Step>, more: seq<Step>, update: seq<Update>)
    requires Stable(steps, update)
    ensures |Updated(steps + more, update)| == |steps + more|
    ensures Updated(steps + more, update)[..|steps|] == steps
  {
    var whole := steps + more;
    UpdatedAt(whole, update);
    forall i | 0 <= i < |steps| ensures Updated(whole, update)[i] == steps[i] {
      assert forall j | 0 <= j <= i :: whole[j] == steps[j];
      assert FirstAt(whole, i) <==> FirstAt(steps, i);
    }
  }

  lemma {:induction false} KeptConcat(a: seq<Step>, b: seq<Step>, remove: seq<string>)
    ensures Kept(a + b, remove) == Kept(a, remove) + Kept(b, remove)
    decreases b
  {
    if b == [] {
      assert a + b == a;
    } else {
      assert (a + b)[..|a + b| - 1] == a + b[..|b| - 1];
      KeptConcat(a, b[..|b| - 1], remove);
    }
  }

  lemma {:induction false} KeptAllOrNone(steps: seq<Step>, remove: seq<string>)
    ensures (forall i | 0 <= i < |steps| :: steps[i].id !in remove) ==> Kept(steps, remove) == steps
    ensures (forall i | 0 <= i < |steps| :: steps[i].id in remove) ==> Kept(steps, remove) == []
    decreases steps
  {
    if steps == [] {
    } else {
      KeptAllOrNone(steps[..|steps| - 1], remove);
    }
  }

  /** A patch does nothing to a plan in which its updates, additions and removals already show. */
  lemma NothingToDo(r: seq<Step>, patch: Patch)
    requires Stable(r, patch.update)
    requires forall id :: id in Ids(r) ==> id !in patch.remove
    requires forall id :: id in Ids(patch.add) ==> id in Ids(r) || id in patch.remove
    ensures Applied(r, patch) == r
  {
    hide Kept, Updated, Added, NewIds, Stable, Settled;
    var again := Added(r, patch.add);
    AddedExtends(r, patch.add);
    NewIdsMembers(Ids(r), Ids(patch.add));
    StableIsUnchanged(r, again[|r|..], patch.update);
    assert again == r + again[|r|..];
    UpdatedKeepsIds(again, patch.update);
    var result := Updated(again, patch.update);
    forall i | |r| <= i < |result| ensures result[i].id in patch.remove {
      assert Ids(result)[i] == NewIds(Ids(r), Ids(patch.add))[i - |r|];
    }
    KeptPrefix(r, result, patch.remove);
  }

  lemma KeptPrefix(r: seq<Step>, whole: seq<Step>, remove: seq<string>)
    requires r <= whole
    requires forall id :: id in Ids(r) ==> id !in remove
    requires forall i | |r| <= i < |whole| :: whole[i].id in remove
    ensures Kept(whole, remove) == r
  {
    hide Kept;
    var tail := whole[|r|..];
    assert whole == r + tail;
    forall i | 0 <= i < |r| ensures r[i].id !in remove {
      assert Ids(r)[i] in Ids(r);
    }
    KeptConcat(r, tail, remove);
    KeptAllOrNone(r, remove);
    KeptAllOrNone(tail, remove);
    assert r + [] == r;
  }

  /** Applying a patch again changes nothing, whatever the plan, even one with repeated ids. */
  lemma ApplyTwice(steps: seq<Step>, patch: Patch)
    ensures Applied(Applied(steps, patch), patch) == Applied(steps, patch)
  {
    var added := Added(steps, patch.add);
    var updated := Updated(added, patch.update);
    UpdatedIsStable(added, patch.update);
    KeptIsStable(updated, patch.update, patch.remove);
    AppliedMembers(steps, patch);
    NothingToDo(Applied(steps, patch), patch);
  }
}
