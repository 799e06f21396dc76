/** The two repositories for operator requests, for all runs at once. */
module HitlRepositories {
  import opened Wrappers
  import opened Hitl

  /** The request with the id becomes another record. */
  function Replaced(requests: seq<Request>, id: string, next: Request): seq<Request> {
    if requests == [] then []
    else [if requests[0].id == id then next else requests[0]] + Replaced(requests[1..], id, next)
  }

  lemma {:induction false} ReplacedIsRestatused(requests: seq<Request>, q: Request, status: RequestStatus,
                                                reason: Option<string>)
    requires forall p | p in requests :: p.id == q.id ==> p == q
    ensures Replaced(requests, q.id, q.(status := status, denialReason := reason))
            == Restatused(requests, q.id, status, reason, false)
    decreases requests
  {
    if requests == [] {
    } else {
      assert requests[0] in requests && forall p | p in requests[1..] :: p in requests;
      ReplacedIsRestatused(requests[1..], q, status, reason);
    }
  }

  // ----- in memory

  type Records = map<string, Request>
  type Snapshots = map<string, RunState>

  ghost predicate Holds(requests: Records, run: string, state: RunState) {
    && DistinctIds(state.requests)
    && forall q | q in state.requests :: q.run == run && q.id in requests && requests[q.id] == q
  }

  ghost predicate Filed(id: string, q: Request, snapshots: Snapshots) {
    q.id == id && q.run in snapshots && q in snapshots[q.run].requests
  }

  /** The request map and the snapshots hold the same records. */
  ghost predicate InSync(requests: Records, snapshots: Snapshots) {
    && (forall run | run in snapshots :: Holds(requests, run, snapshots[run]))
    && (forall id | id in requests :: Filed(id, requests[id], snapshots))
  }

  lemma EmptyStaysInSync(requests: Records, snapshots: Snapshots, run: string)
    requires InSync(requests, snapshots) && run !in snapshots
    ensures InSync(requests, snapshots[run := EMPTY])
  {
  }

  lemma {:induction false} WithoutMembers(requests: seq<Request>, id: string)
    ensures forall q :: q in Without(requests, id) <==> q in requests && q.id != id
    ensures DistinctIds(requests) ==> DistinctIds(Without(requests, id))
    decreases requests
  {
    if requests == [] {
    } else {
      assert requests == [requests[0]] + requests[1..];
      assert forall i | 0 <= i < |requests| - 1 :: requests[1..][i] == requests[i + 1];
      WithoutMembers(requests[1..], id);
      var rest := Without(requests[1..], id);
      if DistinctIds(requests) && requests[0].id != id {
        forall i | 0 <= i < |rest| ensures rest[i].id != requests[0].id {
          assert rest[i] in requests[1..];
        }
      }
    }
  }

  /** The id of a request is new, or has been given to a request of the same run. */
  predicate OwnId(requests: Records, q: Request) {
    q.id in requests ==> requests[q.id].run == q.run
  }

  lemma AddedIsHeld(requests: Records, q: Request, before: RunState, state: RunState)
    requires Holds(requests, q.run, before) && state.requests == Without(before.requests, q.id) + [q]
    ensures Holds(requests[q.id := q], q.run, state)
    ensures forall p :: p in state.requests <==> p == q || (p in before.requests && p.id != q.id)
  {
    WithoutMembers(before.requests, q.id);
    hide Without;
    forall i | 0 <= i < |state.requests| - 1 ensures state.requests[i].id != q.id {
      assert state.requests[i] in Without(before.requests, q.id);
    }
  }

  lemma OthersSurviveAdd(requests: Records, q: Request, run: string, state: RunState)
    requires Holds(requests, run, state) && OwnId(requests, q) && run != q.run
    ensures Holds(requests[q.id := q], run, state)
  {
  }

  lemma AddStaysInSync(requests: Records, snapshots: Snapshots, q: Request, state: RunState)
    requires InSync(requests, snapshots) && OwnId(requests, q) && q.run in snapshots
    requires state.requests == Without(snapshots[q.run].requests, q.id) + [q]
    ensures InSync(requests[q.id := q], snapshots[q.run := state])
  {
    hide Without, Holds, OwnId;
    var requests', snapshots' := requests[q.id := q], snapshots[q.run := state];
    AddedIsHeld(requests, q, snapshots[q.run], state);
    forall run | run in snapshots' ensures Holds(requests', run, snapshots'[run]) {
      if run != q.run {
        OthersSurviveAdd(requests, q, run, snapshots[run]);
      }
    }
    forall id | id in requests' ensures Filed(id, requests'[id], snapshots') {
      assert id != q.id ==> Filed(id, requests[id], snapshots);
    }
  }

  lemma ReplaceStaysInSync(requests: Records, snapshots: Snapshots, id: string, next: Request, state: RunState)
    requires InSync(requests, snapshots) && id in requests && next.id == id && next.run == requests[id].run
             && next.run in snapshots
    requires DistinctIds(state.requests)
    requires forall p :: p in state.requests <==> (p in snapshots[next.run].requests && p.id != id) || p == next
    ensures InSync(requests[id := next], snapshots[next.run := state])
  {
  }

  lemma RelistStaysInSync(requests: Records, snapshots: Snapshots, run: string, state: RunState)
    requires InSync(requests, snapshots) && run in snapshots && state.requests == snapshots[run].requests
    ensures InSync(requests, snapshots[run := state])
  {
  }

  lemma UnknownHere(requests: Records, snapshots: Snapshots, id: string, run: string)
    requires InSync(requests, snapshots) && id !in requests && run in snapshots
    ensures !Knows(snapshots[run].requests, id)
  {
  }

  lemma KnownHere(requests: Records, snapshots: Snapshots, id: string)
    requires InSync(requests, snapshots) && id in requests
    ensures var q := requests[id];
            && q.id == id && q.run in snapshots && q in snapshots[q.run].requests
            && Knows(snapshots[q.run].requests, id)
            && DistinctIds(snapshots[q.run].requests)
            && forall p | p in snapshots[q.run].requests :: p.id == id ==> p == q
  {
  }

  lemma ReplacedMembers(requests: seq<Request>, q: Request, next: Request)
    requires q in requests && forall p | p in requests :: p.id == q.id ==> p == q
    ensures forall p :: p in Replaced(requests, q.id, next) <==> (p in requests && p.id != q.id) || p == next
  {
    forall p ensures p in Replaced(requests, q.id, next) <==> (p in requests && p.id != q.id) || p == next {
      ReplacedMember(requests, q.id, next, p);
    }
  }

  lemma {:induction false} ReplacedKeepsIds(requests: seq<Request>, id: string, next: Request)
    requires next.id == id
    ensures |Replaced(requests, id, next)| == |requests|
    ensures forall i | 0 <= i < |requests| :: Replaced(requests, id, next)[i].id == requests[i].id
    ensures DistinctIds(requests) ==> DistinctIds(Replaced(requests, id, next))
    decreases requests
  {
    if requests == [] {
    } else {
      ReplacedKeepsIds(requests[1..], id, next);
      assert Replaced(requests, id, next)[1..] == Replaced(requests[1..], id, next);
    }
  }

  lemma {:induction false} ReplacedMember(requests: seq<Request>, id: string, next: Request, p: Request)
    ensures p in Replaced(requests, id, next)
            <==> (p in requests && p.id != id) || (p == next && exists q | q in requests :: q.id == id)
    decreases requests
  {
    if requests == [] {
    } else {
      assert requests == [requests[0]] + requests[1..];
      ReplacedMember(requests[1..], id, next, p);
    }
  }

  function PutAll(requests: Records, list: seq<Request>): Records {
    if list == [] then requests
    else PutAll(requests, list[..|list| - 1])[list[|list| - 1].id := list[|list| - 1]]
  }

  lemma {:induction false} PutAllAt(requests: Records, list: seq<Request>)
    requires DistinctIds(list)
    ensures var r := PutAll(requests, list);
            && (forall i | 0 <= i < |list| :: list[i].id in r && r[list[i].id] == list[i])
            && (forall id | id in r :: Knows(list, id) || (id in requests && r[id] == requests[id]))
            && (forall id | id in requests :: id in r)
    decreases list
  {
    if list == [] {
    } else {
      var before, last := list[..|list| - 1], list[|list| - 1];
      PutAllAt(requests, before);
      assert list == before + [last];
    }
  }

  /** A state of the run that forgets none of its requests and takes none from other runs. */
  ghost predicate Covers(requests: Records, run: string, state: RunState) {
    && DistinctIds(state.requests)
    && (forall q | q in state.requests :: q.run == run && (q.id in requests ==> requests[q.id].run == run))
    && (forall id | id in requests :: requests[id].run == run ==> Knows(state.requests, id))
  }

  lemma OthersStayHeld(requests: Records, run: string, state: RunState, other: string, kept: RunState)
    requires Covers(requests, run, state) && Holds(requests, other, kept) && other != run
    ensures Holds(PutAll(requests, state.requests), other, kept)
  {
    PutAllAt(requests, state.requests);
    hide PutAll;
    forall q | q in kept.requests
      ensures q.id in PutAll(requests, state.requests) && PutAll(requests, state.requests)[q.id] == q
    {
      forall p | p in state.requests ensures p.id != q.id {
      }
    }
  }

  lemma StateIsHeld(requests: Records, run: string, state: RunState)
    requires Covers(requests, run, state)
    ensures Holds(PutAll(requests, state.requests), run, state)
  {
    PutAllAt(requests, state.requests);
    hide PutAll;
    forall q | q in state.requests
      ensures q.id in PutAll(requests, state.requests) && PutAll(requests, state.requests)[q.id] == q
    {
      var i :| 0 <= i < |state.requests| && state.requests[i] == q;
    }
  }

  lemma StaysFiled(requests: Records, snapshots: Snapshots, run: string, state: RunState, id: string)
    requires InSync(requests, snapshots) && Covers(requests, run, state) && id in PutAll(requests, state.requests)
    ensures Filed(id, PutAll(requests, state.requests)[id], snapshots[run := state])
  {
    PutAllAt(requests, state.requests);
    hide PutAll, Holds;
    if Knows(state.requests, id) {
      var i :| 0 <= i < |state.requests| && state.requests[i].id == id;
    } else {
      assert Filed(id, requests[id], snapshots);
    }
  }

  lemma SetStaysInSync(requests: Records, snapshots: Snapshots, run: string, state: RunState)
    requires InSync(requests, snapshots) && Covers(requests, run, state)
    ensures InSync(PutAll(requests, state.requests), snapshots[run := state])
  {
    hide PutAll, Holds, Covers, Filed;
    var requests', snapshots' := PutAll(requests, state.requests), snapshots[run := state];
    forall r | r in snapshots' ensures Holds(requests', r, snapshots'[r]) {
      if r == run {
        StateIsHeld(requests, run, state);
      } else {
        OthersStayHeld(requests, run, state, r, snapshots[r]);
      }
    }
    forall id | id in requests' ensures Filed(id, requests'[id], snapshots') {
      StaysFiled(requests, snapshots, run, state, id);
    }
  }

  function StateIn(snapshots: Snapshots, run: string): RunState {
    if run in snapshots then snapshots[run] else EMPTY
  }

  lemma StateCovers(requests: Records, snapshots: Snapshots, run: string)
    requires InSync(requests, snapshots)
    ensures Covers(requests, run, StateIn(snapshots, run))
  {
    if run in snapshots {
      assert Holds(requests, run, snapshots[run]);
    }
    forall id | id in requests && requests[id].run == run ensures Knows(StateIn(snapshots, run).requests, id) {
      assert Filed(id, requests[id], snapshots);
    }
  }

  class InMemoryHitlRepository {
    var requests: Records
    var snapshots: Snapshots

    ghost predicate Valid()
      reads this
    {
      InSync(requests, snapshots)
    }

    constructor ()
      ensures Valid() && requests == map[] && forall run :: StateIn(snapshots, run) == EMPTY
    {
      requests, snapshots := map[], map[];
    }

    /** A run seen for the first time gets an empty snapshot. */
    method GetRunState(run: string) returns (state: RunState)
      requires Valid()
      modifies this`snapshots
      ensures Valid() && run in snapshots && state == snapshots[run]
      ensures forall r :: StateIn(snapshots, r) == StateIn(old(snapshots), r)
    {
      hide InSync;
      if run !in snapshots {
        EmptyStaysInSync(requests, snapshots, run);
        snapshots := snapshots[run := EMPTY];
      }
      return snapshots[run];
    }

    /** A request written under an id of another run leaves that run's snapshot behind. */
    method Create(q: Request)
      requires Valid()
      modifies this
      ensures requests == old(requests)[q.id := q] && (OwnId(old(requests), q) ==> Valid())
      ensures forall run ::
                StateIn(snapshots, run)
                == if run == q.run then MemoryStep(StateIn(old(snapshots), run), Raise(q))
                   else StateIn(old(snapshots), run)
    {
      hide InSync, Without, Knows;
      var state := GetRunState(q.run);
      var next := RunState(
        Without(state.requests, q.id) + [q], state.responses, if q.status == Pending then Some(q.id) else state.pending,
        state.denied + if q.status == Denied then 1 else 0);
      if OwnId(requests, q) {
        AddStaysInSync(requests, snapshots, q, next);
      }
      requests := requests[q.id := q];
      snapshots := snapshots[q.run := next];
    }

    method UpdateStatus(id: string, status: RequestStatus, reason: Option<string>)
      requires Valid()
      modifies this
      ensures Valid()
      ensures requests == if id in old(requests)
                          then old(requests)[id := old(requests)[id].(status := status, denialReason := reason)]
                          else old(requests)
      ensures forall run ::
                StateIn(snapshots, run)
                == if id in old(requests) && run == old(requests)[id].run
                   then Derived(Restatused(StateIn(old(snapshots), run).requests, id, status, reason, false),
                       StateIn(old(snapshots), run).responses)
                   else StateIn(old(snapshots), run)
    {
      hide InSync, Replaced, Restatused, Derived, Knows;
      if id !in requests {
        return;
      }
      var record := requests[id];
      var next := record.(status := status, denialReason := reason);
      KnownHere(requests, snapshots, id);
      var state := GetRunState(record.run);
      KnownHere(requests, snapshots, id);
      ReplacedIsRestatused(state.requests, record, status, reason);
      ReplacedMembers(state.requests, record, next);
      ReplacedKeepsIds(state.requests, id, next);
      var updated := Derived(Replaced(state.requests, id, next), state.responses);
      DerivedRequests(Replaced(state.requests, id, next), state.responses);
      ReplaceStaysInSync(requests, snapshots, id, next, updated);
      requests := requests[id := next];
      snapshots := snapshots[record.run := updated];
    }

    method AppendResponse(response: Response)
      requires Valid()
      modifies this
      ensures Valid() && requests.Keys == old(requests).Keys
      ensures forall run ::
                StateIn(snapshots, run)
                == if response.requestId in old(requests) && run == old(requests)[response.requestId].run
                   then MemoryStep(StateIn(old(snapshots), run), Respond(response)) else StateIn(old(snapshots), run)
    {
      hide InSync, Restatused, Knows, Derived;
      if response.requestId !in requests {
        return;
      }
      var run := requests[response.requestId].run;
      KnownHere(requests, snapshots, response.requestId);
      UpdateStatus(response.requestId, Resolved, None);
      var state := GetRunState(run);
      var next := state.(
        responses := state.responses + [response],
        pending := if state.pending == Some(response.requestId) then None else state.pending);
      RelistStaysInSync(requests, snapshots, run, next);
      snapshots := snapshots[run := next];
    }

    /** The snapshots stay in agreement with the map unless the state forgets requests or takes those of other runs. */
    method SetRunState(run: string, state: RunState)
      modifies this
      ensures requests == PutAll(old(requests), state.requests)
      ensures old(Valid() && Covers(requests, run, state)) ==> Valid()
      ensures forall r :: StateIn(snapshots, r) == if r == run then state else StateIn(old(snapshots), r)
    {
      hide InSync, Covers;
      if InSync(requests, snapshots) && Covers(requests, run, state) {
        SetStaysInSync(requests, snapshots, run, state);
      }
      snapshots := snapshots[run := state];
      var i := 0;
      while i < |state.requests|
        invariant 0 <= i <= |state.requests| && snapshots == old(snapshots)[run := state]
        invariant requests == PutAll(old(requests), state.requests[..i])
      {
        assert state.requests[..i + 1][..i] == state.requests[..i];
        requests := requests[state.requests[i].id := state.requests[i]];
        i := i + 1;
      }
      assert state.requests[..i] == state.requests;
    }
  }

  lemma DerivedRequests(requests: seq<Request>, responses: seq<Response>)
    ensures Derived(requests, responses).requests == requests
  {
  }

  // ----- in the database

  datatype RunStatus = NotStarted | Running | AwaitingHitl | Completed | Cancelled | Failed

  /** What the runs table stores about the requests of a run. */
  datatype Saved = Saved(hitl: RunState, pending: Option<string>, status: RunStatus)

  const NEW_RUN := Saved(EMPTY, None, NotStarted)

  function StatusAfter(pending: Option<string>, status: RunStatus): RunStatus {
    if pending.Some? then AwaitingHitl
    else if status == AwaitingHitl || status == NotStarted then Running
    else status
  }

  function SavedState(saved: Saved, state: RunState): Saved {
    Saved(state, state.pending, StatusAfter(state.pending, saved.status))
  }

  function RowsOf(rows: seq<Request>, run: string): seq<Request> {
    if rows == [] then [] else (if rows[0].run == run then [rows[0]] else []) + RowsOf(rows[1..], run)
  }

  function ResponsesTo(responses: seq<Response>, requests: seq<Request>): seq<Response> {
    if responses == [] then []
    else ResponsesTo(responses[..|responses| - 1], requests)
         + if Knows(requests, responses[|responses| - 1].requestId) then [responses[|responses| - 1]] else []
  }

  function StateFrom(rows: seq<Request>, responses: seq<Response>, run: string): RunState {
    Derived(RowsOf(rows, run), ResponsesTo(responses, RowsOf(rows, run)))
  }

  lemma {:induction false} RowsSnoc(rows: seq<Request>, q: Request, run: string)
    ensures RowsOf(rows + [q], run) == RowsOf(rows, run) + if q.run == run then [q] else []
    decreases rows
  {
    var more := rows + [q];
    if rows == [] {
      assert more == [q] && more[1..] == [];
      assert RowsOf(more[1..], run) == [];
    } else {
      assert more[0] == rows[0] && more[1..] == rows[1..] + [q];
      RowsSnoc(rows[1..], q, run);
      var first, last := if rows[0].run == run then [rows[0]] else [], if q.run == run then [q] else [];
      assert RowsOf(more, run) == first + (RowsOf(rows[1..], run) + last);
      assert RowsOf(rows, run) == first + RowsOf(rows[1..], run);
    }
  }

  lemma {:induction false} RowsMembers(rows: seq<Request>, run: string)
    ensures forall q :: q in RowsOf(rows, run) <==> q in rows && q.run == run
    decreases rows
  {
    if rows == [] {
    } else {
      assert rows == [rows[0]] + rows[1..];
      RowsMembers(rows[1..], run);
    }
  }

  lemma RestatusedCons(q: Request, rest: seq<Request>, id: string, status: RequestStatus, reason: Option<string>,
                       keep: bool)
    ensures var r := Restatused([q] + rest, id, status, reason, keep);
            r == [r[0]] + Restatused(rest, id, status, reason, keep)
  {
    assert ([q] + rest)[1..] == rest;
  }

  /** Changing the row of a request and selecting the rows of a run commute. */
  lemma {:induction false} RowsRestatused(rows: seq<Request>, id: string, status: RequestStatus, reason: Option<string>,
                                          keep: bool, run: string)
    ensures RowsOf(Restatused(rows, id, status, reason, keep), run)
            == Restatused(RowsOf(rows, run), id, status, reason, keep)
    decreases rows
  {
    if rows == [] {
    } else {
      RowsRestatused(rows[1..], id, status, reason, keep, run);
      var r, rest := Restatused(rows, id, status, reason, keep), RowsOf(rows[1..], run);
      assert r[0].run == rows[0].run && r[1..] == Restatused(rows[1..], id, status, reason, keep);
      if rows[0].run == run {
        RestatusedCons(rows[0], rest, id, status, reason, keep);
        assert RowsOf(rows, run) == [rows[0]] + rest;
        assert r[0] == Restatused([rows[0]] + rest, id, status, reason, keep)[0];
      } else {
        assert RowsOf(rows, run) == rest && RowsOf(r, run) == RowsOf(r[1..], run);
      }
    }
  }

  lemma {:induction false} RestatusedKnows(rows: seq<Request>, id: string, status: RequestStatus,
                                           reason: Option<string>, keep: bool)
    ensures forall x :: Knows(Restatused(rows, id, status, reason, keep), x) <==> Knows(rows, x)
    decreases rows
  {
    RestatusedAt(rows, id, status, reason, keep);
    var r := Restatused(rows, id, status, reason, keep);
    hide Restatused;
    forall x ensures Knows(r, x) <==> Knows(rows, x) {
      if q :| q in rows && q.id == x { var i :| 0 <= i < |rows| && rows[i] == q; assert r[i] in r; }
      if q :| q in r && q.id == x { var i :| 0 <= i < |r| && r[i] == q; assert rows[i] in rows; }
    }
  }

  lemma {:induction false} SameResponses(responses: seq<Response>, a: seq<Request>, b: seq<Request>)
    requires forall i | 0 <= i < |responses| :: Knows(a, responses[i].requestId) <==> Knows(b, responses[i].requestId)
    ensures ResponsesTo(responses, a) == ResponsesTo(responses, b)
    decreases responses
  {
    if responses == [] {
    } else {
      SameResponses(responses[..|responses| - 1], a, b);
    }
  }

  lemma ResponsesSnoc(responses: seq<Response>, r: Response, requests: seq<Request>)
    ensures ResponsesTo(responses + [r], requests)
            == ResponsesTo(responses, requests) + if Knows(requests, r.requestId) then [r] else []
  {
  }

  class DatabaseHitlRepository {
    var rows: seq<Request>
    var responses: seq<Response>
    var runs: map<string, Saved>

    function StateOf(run: string): RunState
      reads this`rows, this`responses
    {
      StateFrom(rows, responses, run)
    }

    function SavedOf(run: string): Saved
      reads this`runs
    {
      if run in runs then runs[run] else NEW_RUN
    }

    /** Ids are a key, and responses refer to requests. */
    ghost predicate Valid()
      reads this
    {
      DistinctIds(rows) && forall i | 0 <= i < |responses| :: Knows(rows, responses[i].requestId)
    }

    constructor ()
      ensures Valid() && forall run :: StateOf(run) == EMPTY && SavedOf(run) == NEW_RUN
    {
      rows, responses, runs := [], [], map[];
    }

    method SetRunState(run: string, state: RunState)
      modifies this`runs
      ensures SavedOf(run) == SavedState(old(SavedOf(run)), state)
      ensures SavedOf(run).hitl == state && SavedOf(run).pending == state.pending
      ensures SavedOf(run).status == AwaitingHitl <==> state.pending.Some?
      ensures state.pending.None? ==>
                SavedOf(run).status
                == if old(SavedOf(run).status) in {AwaitingHitl, NotStarted} then Running else old(SavedOf(run).status)
      ensures forall other | other != run :: SavedOf(other) == old(SavedOf(other))
    {
      runs := runs[run := SavedState(SavedOf(run), state)];
    }

    /** A row with the id gets the new status and reason and keeps its run; without one a row is inserted. */
    method Create(q: Request) returns (ghost row: Option<Request>)
      requires Valid()
      modifies this
      ensures Valid() && row.Some? == Knows(old(rows), q.id)
              && (row.Some? ==> row.value in old(rows) && row.value.id == q.id)
      ensures rows == if row.Some? then Restatused(old(rows), q.id, q.status, q.denialReason, false)
              else old(rows) + [q]
      ensures forall run ::
                StateOf(run)
                == if row.None? && run == q.run then DatabaseStep(old(StateOf(run)), Raise(q))
                   else if row.Some? && run == row.value.run
                   then Derived(Restatused(old(StateOf(run)).requests, q.id, q.status, q.denialReason, false),
                       old(StateOf(run)).responses)
                   else old(StateOf(run))
      ensures forall run :: SavedOf(run) == old(SavedOf(run))
    {
      var record := FindRow(q.id);
      row := record;
      runs := runs[q.run := SavedOf(q.run)];
      if record.Some? {
        RestatusedStep(rows, responses, record, q.id, q.status, q.denialReason, false);
        rows := Restatused(rows, q.id, q.status, q.denialReason, false);
      } else {
        CreateStep(rows, responses, q);
        CreateIsValid(rows, responses, q);
        rows := rows + [q];
      }
      hide StateFrom, DistinctIds;
    }

    method FindRow(id: string) returns (row: Option<Request>)
      ensures row.Some? <==> Knows(rows, id)
      ensures row.Some? ==> row.value in rows && row.value.id == id
    {
      var i := 0;
      while i < |rows| && rows[i].id != id
        invariant 0 <= i <= |rows| && forall j | 0 <= j < i :: rows[j].id != id
      {
        i := i + 1;
      }
      return if i < |rows| then Some(rows[i]) else None;
    }

    method UpdateStatus(id: string, status: RequestStatus, reason: Option<string>) returns (ghost row: Option<Request>)
      requires Valid()
      modifies this
      ensures Valid() && row.Some? == Knows(old(rows), id)
              && (row.Some? ==> row.value in old(rows) && row.value.id == id)
      ensures forall run ::
                StateOf(run) == if row.Some? && run == row.value.run
                                then Derived(Restatused(old(StateOf(run)).requests, id, status, reason, false),
                                    old(StateOf(run)).responses)
                                else old(StateOf(run))
      ensures forall run :: SavedOf(run) == if row.Some? && run == row.value.run
                                            then SavedState(old(SavedOf(run)), StateOf(run)) else old(SavedOf(run))
    {
      var record := FindRow(id);
      row := record;
      RestatusedStep(rows, responses, record, id, status, reason, false);
      rows := Restatused(rows, id, status, reason, false);
      hide StateFrom, DistinctIds;
      if record.None? {
        return;
      }
      SetRunState(record.value.run, StateOf(record.value.run));
    }

    method AppendResponse(response: Response) returns (ghost row: Option<Request>)
      requires Valid()
      modifies this
      ensures Valid() && row.Some? == Knows(old(rows), response.requestId)
      ensures row.Some? ==> row.value in old(rows) && row.value.id == response.requestId
      ensures forall run ::
                StateOf(run) == if row.Some? && run == row.value.run
                                then DatabaseStep(old(StateOf(run)), Respond(response)) else old(StateOf(run))
      ensures forall run :: SavedOf(run) == if row.Some? && run == row.value.run
                                            then SavedState(old(SavedOf(run)), StateOf(run)) else old(SavedOf(run))
    {
      var record := FindRow(response.requestId);
      row := record;
      if record.None? {
        return;
      }
      RespondStep(rows, responses, record.value, response);
      RestatusedStep(rows, responses, record, response.requestId, Resolved, None, true);
      responses := responses + [response];
      rows := Restatused(rows, response.requestId, Resolved, None, true);
      hide StateFrom, DistinctIds;
      SetRunState(record.value.run, StateOf(record.value.run));
    }
  }

  lemma CreateIsValid(rows: seq<Request>, responses: seq<Response>, q: Request)
    requires DistinctIds(rows) && !Knows(rows, q.id)
    requires forall i | 0 <= i < |responses| :: Knows(rows, responses[i].requestId)
    ensures DistinctIds(rows + [q])
    ensures forall i | 0 <= i < |responses| :: Knows(rows + [q], responses[i].requestId)
  {
  }

  lemma CreateStep(rows: seq<Request>, responses: seq<Response>, q: Request)
    requires !Knows(rows, q.id) && forall i | 0 <= i < |responses| :: Knows(rows, responses[i].requestId)
    ensures StateFrom(rows + [q], responses, q.run) == DatabaseStep(StateFrom(rows, responses, q.run), Raise(q))
    ensures forall run | run != q.run :: StateFrom(rows + [q], responses, run) == StateFrom(rows, responses, run)
  {
    hide FirstPending, CountDenied, RowsOf, ResponsesTo;
    forall run ensures RowsOf(rows + [q], run) == RowsOf(rows, run) + if q.run == run then [q] else [] {
      RowsSnoc(rows, q, run);
    }
    var mine := RowsOf(rows, q.run);
    forall i | 0 <= i < |responses|
      ensures Knows(mine + [q], responses[i].requestId) <==> Knows(mine, responses[i].requestId)
    {
      assert responses[i].requestId != q.id;
      KnowsSnoc(mine, q, responses[i].requestId);
    }
    SameResponses(responses, mine + [q], mine);
    forall run | run != q.run ensures RowsOf(rows + [q], run) == RowsOf(rows, run) {
      assert RowsOf(rows, run) + [] == RowsOf(rows, run);
    }
  }

  lemma KnowsSnoc(requests: seq<Request>, q: Request, id: string)
    ensures Knows(requests + [q], id) <==> Knows(requests, id) || q.id == id
  {
  }

  /** Updating one row changes the state of one run. */
  lemma RestatusedStep(rows: seq<Request>, responses: seq<Response>, row: Option<Request>, id: string,
                       status: RequestStatus, reason: Option<string>, keep: bool)
    requires DistinctIds(rows) && forall i | 0 <= i < |responses| :: Knows(rows, responses[i].requestId)
    requires row.Some? == Knows(rows, id) && (row.Some? ==> row.value in rows && row.value.id == id)
    ensures var r := Restatused(rows, id, status, reason, keep);
            && DistinctIds(r)
            && (forall x :: Knows(r, x) <==> Knows(rows, x))
            && forall run ::
                 StateFrom(r, responses, run)
                 == if row.Some? && run == row.value.run
                    then Derived(Restatused(RowsOf(rows, run), id, status, reason, keep),
                        ResponsesTo(responses, RowsOf(rows, run)))
                    else StateFrom(rows, responses, run)
  {
  }

  lemma NotInRun(rows: seq<Request>, row: Option<Request>, id: string, run: string)
    requires DistinctIds(rows) && row.Some? == Knows(rows, id)
             && (row.Some? ==> row.value in rows && row.value.id == id)
    requires !(row.Some? && run == row.value.run)
    ensures !Knows(RowsOf(rows, run), id)
  {
    RowsMembers(rows, run);
    if q :| q in RowsOf(rows, run) && q.id == id {
      assert q in rows && Knows(rows, id);
      SameRow(rows, q, row.value);
    }
  }

  lemma SameRow(rows: seq<Request>, a: Request, b: Request)
    requires DistinctIds(rows) && a in rows && b in rows && a.id == b.id
    ensures a == b
  {
  }

  /** A response adds to the responses of one run and resolves its request there. */
  lemma RespondStep(rows: seq<Request>, responses: seq<Response>, row: Request, r: Response)
    requires DistinctIds(rows) && forall i | 0 <= i < |responses| :: Knows(rows, responses[i].requestId)
    requires row in rows && row.id == r.requestId
    ensures var updated := Restatused(rows, r.requestId, Resolved, None, true);
            forall run ::
              StateFrom(updated, responses + [r], run)
              == if run == row.run then DatabaseStep(StateFrom(rows, responses, run), Respond(r))
                 else StateFrom(rows, responses, run)
  {
    var updated := Restatused(rows, r.requestId, Resolved, None, true);
    hide Restatused, RowsOf, ResponsesTo, FirstPending, CountDenied, DistinctIds;
    RestatusedStep(rows, responses, Some(row), r.requestId, Resolved, None, true);
    forall run
      ensures StateFrom(updated, responses + [r], run)
              == if run == row.run then DatabaseStep(StateFrom(rows, responses, run), Respond(r))
                 else StateFrom(rows, responses, run)
    {
      RowsRestatused(rows, r.requestId, Resolved, None, true, run);
      ResponsesSnoc(responses, r, RowsOf(updated, run));
      RestatusedKnows(RowsOf(rows, run), r.requestId, Resolved, None, true);
      RowsMembers(rows, run);
      if run != row.run {
        NotInRun(rows, Some(row), r.requestId, run);
      }
    }
  }
}
