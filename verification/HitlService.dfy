/** Raising requests under a budget, and what an operator's response decides. */
module HitlService {
  import opened Wrappers
  import opened Basics
  import opened Text
  import opened Hitl
  import opened HitlRepositories

  const TOO_MANY := "Too many HITL requests"

  /** The requests that count against the budget. */
  function Accepted(requests: seq<Request>): nat {
    |requests| - CountDenied(requests)
  }

  function RequestFor(id: string, run: string, origin: string, granted: bool): Request {
    if granted then Request(id, run, origin, Pending, None) else Request(id, run, origin, Denied, Some(TOO_MANY))
  }

  /** The context of one step: the budget's counter and the step's view of the run. */
  class HitlContext {
    const run: string
    const max: int
    var current: nat
    var snapshot: RunState

    /** The engine counts the requests that are not denied when it enters a step. */
    constructor (run: string, max: int, state: RunState)
      ensures this.run == run && this.max == max && snapshot == state && current == Accepted(state.requests)
    {
      this.run, this.max := run, max;
      current, snapshot := Accepted(state.requests), state;
    }

    /** With a new id, the counter keeps agreeing with the requests of the run. */
    method RaiseRequest(id: string, origin: string) returns (granted: bool)
      modifies this`current, this`snapshot
      ensures granted <==> old(current) < max
      ensures snapshot == MemoryStep(old(snapshot), Raise(RequestFor(id, run, origin, granted)))
      ensures current == old(current) + if granted then 1 else 0
      ensures old(current == Accepted(snapshot.requests) && !Knows(snapshot.requests, id))
              ==> current == Accepted(snapshot.requests)
    {
      RaiseCounts(snapshot, RequestFor(id, run, origin, true));
      RaiseCounts(snapshot, RequestFor(id, run, origin, false));
      hide Without, CountDenied, Knows;
      if current >= max {
        var request := RequestFor(id, run, origin, false);
        snapshot := snapshot.(requests := Without(snapshot.requests, id) + [request], denied := snapshot.denied + 1);
        return false;
      }
      var request := RequestFor(id, run, origin, true);
      current := current + 1;
      snapshot := snapshot.(requests := Without(snapshot.requests, id) + [request], pending := Some(request.id));
      return true;
    }
  }

  lemma RaiseCounts(s: RunState, q: Request)
    ensures !Knows(s.requests, q.id) ==>
              Accepted(MemoryStep(s, Raise(q)).requests) == Accepted(s.requests) + if q.status == Denied then 0 else 1
  {
    if !Knows(s.requests, q.id) {
      WithoutUnknown(s.requests, q.id);
      FirstPendingSnoc(s.requests, q);
    }
  }

  /** The in-memory repository ends up with the step's view, and no other run notices. */
  method RaiseInMemory(ctx: HitlContext, repo: InMemoryHitlRepository, id: string, origin: string)
    returns (granted: bool)
    requires repo.Valid() && id !in repo.requests && ctx.snapshot == StateIn(repo.snapshots, ctx.run)
    requires ctx.current == Accepted(ctx.snapshot.requests)
    modifies ctx`current, ctx`snapshot, repo
    ensures repo.Valid() && ctx.snapshot == StateIn(repo.snapshots, ctx.run)
    ensures ctx.current == Accepted(ctx.snapshot.requests)
    ensures granted <==> Accepted(old(ctx.snapshot.requests)) < ctx.max
    ensures ctx.snapshot == MemoryStep(old(ctx.snapshot), Raise(RequestFor(id, ctx.run, origin, granted)))
    ensures forall run | run != ctx.run :: StateIn(repo.snapshots, run) == StateIn(old(repo.snapshots), run)
  {
    hide Accepted, MemoryStep, InSync, Knows, Covers;
    NotKnown(repo.requests, repo.snapshots, ctx.run, id);
    granted := ctx.RaiseRequest(id, origin);
    repo.Create(RequestFor(id, ctx.run, origin, granted));
    StateCovers(repo.requests, repo.snapshots, ctx.run);
    repo.SetRunState(ctx.run, ctx.snapshot);
  }

  lemma NotKnown(requests: Records, snapshots: Snapshots, run: string, id: string)
    requires InSync(requests, snapshots) && id !in requests
    ensures !Knows(StateIn(snapshots, run).requests, id)
  {
    if run in snapshots {
      UnknownHere(requests, snapshots, id, run);
    }
  }

  /** The database repository stores the step's view with the run and shows the step of a raise. */
  method RaiseInDatabase(ctx: HitlContext, repo: DatabaseHitlRepository, id: string, origin: string)
    returns (granted: bool)
    requires repo.Valid() && !Knows(repo.rows, id) && ctx.snapshot == repo.StateOf(ctx.run)
    requires ctx.current == Accepted(ctx.snapshot.requests)
    modifies ctx`current, ctx`snapshot, repo
    ensures repo.Valid() && ctx.current == Accepted(ctx.snapshot.requests)
    ensures granted <==> Accepted(old(ctx.snapshot.requests)) < ctx.max
    ensures var op := Raise(RequestFor(id, ctx.run, origin, granted));
            && ctx.snapshot == MemoryStep(old(ctx.snapshot), op)
            && repo.StateOf(ctx.run) == DatabaseStep(old(ctx.snapshot), op)
    ensures repo.SavedOf(ctx.run) == SavedState(old(repo.SavedOf(ctx.run)), ctx.snapshot)
    ensures forall run | run != ctx.run :: repo.StateOf(run) == old(repo.StateOf(run))
    ensures forall run | run != ctx.run :: repo.SavedOf(run) == old(repo.SavedOf(run))
  {
    hide Accepted, MemoryStep, DatabaseStep, StateFrom, Knows, DistinctIds;
    NotInRows(repo.rows, repo.responses, ctx.run, id);
    granted := ctx.RaiseRequest(id, origin);
    ghost var _ := repo.Create(RequestFor(id, ctx.run, origin, granted));
    repo.SetRunState(ctx.run, ctx.snapshot);
  }

  lemma NotInRows(rows: seq<Request>, responses: seq<Response>, run: string, id: string)
    requires !Knows(rows, id)
    ensures !Knows(StateFrom(rows, responses, run).requests, id)
  {
    RowsMembers(rows, run);
  }

  // ----- the budget over a run

  lemma {:induction false} RestatusedCount(requests: seq<Request>, id: string, status: RequestStatus,
                                           reason: Option<string>, keep: bool)
    requires DistinctIds(requests)
    ensures var r := Restatused(requests, id, status, reason, keep);
            CountDenied(r) == CountDenied(requests)
              + (if status == Denied && Knows(requests, id) then 1 else 0)
              - (if DeniedIn(requests, id) then 1 else 0)
    decreases requests
  {
    if requests == [] {
    } else {
      TailIsDistinct(requests);
      FirstIsOnly(requests);
      KnowsCons(requests, id);
      hide Knows, DeniedIn, DistinctIds;
      RestatusedCount(requests[1..], id, status, reason, keep);
    }
  }

  lemma KnowsCons(requests: seq<Request>, id: string)
    requires requests != []
    ensures Knows(requests, id) <==> requests[0].id == id || Knows(requests[1..], id)
    ensures DeniedIn(requests, id)
            <==> (requests[0].id == id && requests[0].status == Denied) || DeniedIn(requests[1..], id)
    ensures DeniedIn(requests[1..], id) ==> Knows(requests[1..], id)
  {
  }

  lemma TailIsDistinct(requests: seq<Request>)
    requires DistinctIds(requests) && requests != []
    ensures DistinctIds(requests[1..])
  {
  }

  lemma FirstIsOnly(requests: seq<Request>)
    requires DistinctIds(requests) && requests != []
    ensures !Knows(requests[1..], requests[0].id)
  {
  }

  predicate DeniedIn(requests: seq<Request>, id: string) {
    exists q | q in requests :: q.id == id && q.status == Denied
  }

  lemma DeniedIsKnown(requests: seq<Request>, id: string)
    ensures DeniedIn(requests, id) ==> Knows(requests, id)
  {
  }

  /** How an operation changes what counts against the budget. */
  lemma AcceptedAfter(s: RunState, op: Op)
    requires DistinctIds(s.requests)
    ensures var s' := DatabaseStep(s, op);
            match op
            case Raise(q) => Accepted(s'.requests) == Accepted(s.requests) + if q.status == Denied then 0 else 1
            case Deny(id, _) =>
              Accepted(s'.requests)
              == Accepted(s.requests) - if Knows(s.requests, id) && !DeniedIn(s.requests, id) then 1 else 0
            case Respond(r) =>
              Accepted(s'.requests) == Accepted(s.requests) + if DeniedIn(s.requests, r.requestId) then 1 else 0
  {
    match op
    case Raise(q) => FirstPendingSnoc(s.requests, q);
    case Deny(id, reason) => RestatusedCount(s.requests, id, Denied, Some(reason), false);
    case Respond(r) => RestatusedCount(s.requests, r.requestId, Resolved, None, true);
  }

  lemma DistinctAfter(s: RunState, op: Op)
    requires DistinctIds(s.requests) && (op.Raise? ==> !Knows(s.requests, op.request.id))
    ensures DistinctIds(DatabaseStep(s, op).requests)
  {
    hide Restatused, FirstPending, CountDenied, Knows;
    match op
    case Raise(q) =>
      forall i | 0 <= i < |s.requests| ensures s.requests[i].id != q.id { KnownAt(s.requests, i); }
    case Deny(id, reason) => RestatusedAt(s.requests, id, Denied, Some(reason), false);
    case Respond(r) => RestatusedAt(s.requests, r.requestId, Resolved, None, true);
  }

  /** Requests are raised under the budget with fresh ids, and nobody responds to a denied request. */
  ghost predicate Budgeted(s: RunState, op: Op, max: int) {
    match op
    case Raise(q) => !Knows(s.requests, q.id) && (q.status == Denied <==> Accepted(s.requests) >= max)
    case Deny(_, _) => true
    case Respond(r) => !DeniedIn(s.requests, r.requestId)
  }

  ghost predicate BudgetedRun(s: RunState, ops: seq<Op>, max: int)
    decreases ops
  {
    ops == [] || (Budgeted(s, ops[0], max) && BudgetedRun(DatabaseStep(s, ops[0]), ops[1..], max))
  }

  /** The requests of a run that are not denied never exceed the limit, or what there was at the start. */
  lemma {:induction false} BudgetHolds(s: RunState, ops: seq<Op>, max: int, atStart: int)
    requires DistinctIds(s.requests) && BudgetedRun(s, ops, max) && Accepted(s.requests) <= Max(atStart, max)
    ensures Accepted(DatabaseAfter(s, ops).requests) <= Max(atStart, max)
    decreases ops
  {
    if ops == [] {
    } else {
      AcceptedAfter(s, ops[0]);
      DistinctAfter(s, ops[0]);
      hide Accepted, DatabaseStep, Knows, DeniedIn, DistinctIds;
      BudgetHolds(DatabaseStep(s, ops[0]), ops[1..], max, atStart);
    }
  }

  lemma {:induction false} CountsOfPrefix(requests: seq<Request>, k: nat)
    requires k <= |requests|
    ensures CountDenied(requests[..k]) == Before(requests, (q: Request) => q.status == Denied, k)
    ensures k - CountDenied(requests[..k]) == Before(requests, (q: Request) => q.status != Denied, k)
    decreases k
  {
    if k == 0 {
    } else {
      hide CountDenied, FirstPending, Before;
      CountsOfPrefix(requests, k - 1);
      assert requests[..k] == requests[..k - 1] + [requests[k - 1]];
      FirstPendingSnoc(requests[..k - 1], requests[k - 1]);
      BeforeNext(requests, (q: Request) => q.status == Denied, k - 1);
      BeforeNext(requests, (q: Request) => q.status != Denied, k - 1);
    }
  }

  /** What is counted against the budget is the number of requests that are not denied. */
  lemma AcceptedAreCounted(requests: seq<Request>)
    ensures Accepted(requests) == Before(requests, (q: Request) => q.status != Denied, |requests|)
    ensures CountDenied(requests) == Before(requests, (q: Request) => q.status == Denied, |requests|)
  {
    CountsOfPrefix(requests, |requests|);
    assert requests[..|requests|] == requests;
  }

  /** The stored denied count is the number of denied requests. */
  lemma {:induction false} DeniedCountIsExact(s: RunState, ops: seq<Op>)
    requires IsDerived(s)
    ensures var after := DatabaseAfter(s, ops);
            && IsDerived(after)
            && after.denied == Before(after.requests, (q: Request) => q.status == Denied, |after.requests|)
    decreases ops
  {
    if ops == [] {
      AcceptedAreCounted(s.requests);
    } else {
      hide FirstPending, CountDenied, Restatused;
      DeniedCountIsExact(DatabaseStep(s, ops[0]), ops[1..]);
    }
  }

  /**
    A response to a denied request makes it count: a run within its limit leaves it exactly when its
    budget is used up and the request was denied.
   */
  lemma ResponseKeepsBudgetIff(s: RunState, r: Response, max: int)
    requires DistinctIds(s.requests) && Accepted(s.requests) <= max
    ensures Accepted(DatabaseStep(s, Respond(r)).requests) <= max
            <==> Accepted(s.requests) < max || !DeniedIn(s.requests, r.requestId)
  {
    AcceptedAfter(s, Respond(r));
  }

  /** A response to the only request, a denied one, leaves a run with a limit of zero above it. */
  lemma AnsweredDenialExceedsBudget(run: string, response: Response)
    requires response.requestId == "a"
    ensures var s := RunState([RequestFor("a", run, "qa", false)], [], None, 1);
            Accepted(s.requests) == 0 && Accepted(DatabaseStep(s, Respond(response)).requests) == 1
  {
    var requests := [RequestFor("a", run, "qa", false)];
    assert requests[0] in requests && requests[1..] == [];
    assert CountDenied(requests) == 1 by { assert requests == [] + [requests[0]]; FirstPendingSnoc([], requests[0]); }
    AcceptedAfter(RunState(requests, [], None, 1), Respond(response));
  }

  // ----- decisions

  datatype Decision = Approve(response: Response) | Reject(response: Response)

  datatype Action = Fail | Emit | Resume

  /** What one response says. */
  function Reading(r: Response): Option<Decision> {
    if r.approved == Some(true) then Some(Approve(r))
    else if r.approved == Some(false) then Some(Reject(r))
    else if r.kind == Approval then Some(Approve(r))
    else if r.kind == Rejection then Some(Reject(r))
    else None
  }

  function ResponsesFor(responses: seq<Response>, id: string): seq<Response> {
    if responses == [] then []
    else ResponsesFor(responses[..|responses| - 1], id)
         + if responses[|responses| - 1].requestId == id then [responses[|responses| - 1]] else []
  }

  function FindRequest(requests: seq<Request>, id: string): Option<Request> {
    if requests == [] then None else if requests[0].id == id then Some(requests[0]) else FindRequest(requests[1..], id)
  }

  function ResolveDecision(s: RunState, id: string): Option<Decision> {
    var request := FindRequest(s.requests, id);
    if request.None? || request.value.status != Resolved then None
    else
      var responses := ResponsesFor(s.responses, id);
      if responses == [] then None else Reading(responses[|responses| - 1])
  }

  function ParseAction(r: Response): Option<Action> {
    if r.action.None? then None
    else
      var text := Lower(Trim(r.action.value));
      if text == "fail" then Some(Fail)
      else if text == "emit" then Some(Emit)
      else if text == "resume" || text == "continue" then Some(Resume)
      else None
  }

  lemma {:induction false} FindRestatused(requests: seq<Request>, id: string, status: RequestStatus,
                                          reason: Option<string>, keep: bool)
    requires Knows(requests, id)
    ensures var f := FindRequest(Restatused(requests, id, status, reason, keep), id);
            f.Some? && f.value.status == status
    decreases requests
  {
    if requests[0].id != id {
      assert requests == [requests[0]] + requests[1..];
      FindRestatused(requests[1..], id, status, reason, keep);
    }
  }

  /** A response's own yes or no comes before its kind. */
  predicate Approves(r: Response) {
    r.approved == Some(true) || (r.approved == None && r.kind == Approval)
  }

  predicate Rejects(r: Response) {
    r.approved == Some(false) || (r.approved == None && r.kind == Rejection)
  }

  /** The attached action is this word, in any case and with any space around it. */
  predicate ActionSays(r: Response, word: string) {
    r.action.Some? && Lower(Trim(r.action.value)) == word
  }

  lemma ReadingIsSaid(r: Response)
    ensures Reading(r) == Some(Approve(r)) <==> Approves(r)
    ensures Reading(r) == Some(Reject(r)) <==> Rejects(r)
    ensures Reading(r) == None <==> !Approves(r) && !Rejects(r)
  {
    match r.approved
    case Some(true) =>
    case Some(false) =>
    case None =>
  }

  lemma ActionIsSaid(r: Response)
    ensures ParseAction(r) == Some(Fail) <==> ActionSays(r, "fail")
    ensures ParseAction(r) == Some(Emit) <==> ActionSays(r, "emit")
    ensures ParseAction(r) == Some(Resume) <==> ActionSays(r, "resume") || ActionSays(r, "continue")
  {
    hide Lower, Trim;
  }

  /** The last response decides, whatever was answered before, in both repositories. */
  lemma LastResponseDecides(kind: Kind, s: RunState, r: Response)
    requires Knows(s.requests, r.requestId)
    ensures var decision := ResolveDecision(StepIn(kind, s, Respond(r)), r.requestId);
            && (decision == Some(Approve(r)) <==> Approves(r))
            && (decision == Some(Reject(r)) <==> Rejects(r))
            && (decision == None <==> !Approves(r) && !Rejects(r))
  {
    FindRestatused(s.requests, r.requestId, Resolved, None, kind == InDatabase);
    assert (s.responses + [r])[..|s.responses|] == s.responses;
    ReadingIsSaid(r);
    hide Restatused, FindRequest, FirstPending, CountDenied, Reading;
  }

  /** The first request with the id is answered. */
  ghost predicate IsAnswered(requests: seq<Request>, id: string) {
    exists i | 0 <= i < |requests| ::
      requests[i].id == id && requests[i].status == Resolved && forall j | 0 <= j < i :: requests[j].id != id
  }

  /** Position k holds the last response to the request. */
  ghost predicate IsLastFor(responses: seq<Response>, id: string, k: int) {
    && 0 <= k < |responses| && responses[k].requestId == id
    && forall j | k < j < |responses| :: responses[j].requestId != id
  }

  lemma {:induction false} AnsweredIsFound(requests: seq<Request>, id: string)
    ensures IsAnswered(requests, id)
            <==> FindRequest(requests, id).Some? && FindRequest(requests, id).value.status == Resolved
    decreases requests
  {
    if requests == [] {
    } else if requests[0].id != id {
      AnsweredIsFound(requests[1..], id);
      var rest := requests[1..];
      if IsAnswered(rest, id) {
        var i :| && 0 <= i < |rest| && rest[i].id == id && rest[i].status == Resolved
                 && forall j | 0 <= j < i :: rest[j].id != id;
        assert requests[i + 1] == rest[i] && forall j | 0 < j < i + 1 :: requests[j] == rest[j - 1];
      }
      if IsAnswered(requests, id) {
        var i :| && 0 <= i < |requests| && requests[i].id == id && requests[i].status == Resolved
                 && forall j | 0 <= j < i :: requests[j].id != id;
        assert rest[i - 1] == requests[i] && forall j | 0 <= j < i - 1 :: rest[j] == requests[j + 1];
      }
    }
  }

  lemma {:induction false} LastOfResponses(responses: seq<Response>, id: string)
    ensures var mine := ResponsesFor(responses, id);
            if mine == [] then forall k | 0 <= k < |responses| :: responses[k].requestId != id
            else exists k :: IsLastFor(responses, id, k) && mine[|mine| - 1] == responses[k]
    decreases responses
  {
    if responses == [] {
    } else {
      var n := |responses| - 1;
      LastOfResponses(responses[..n], id);
      if responses[n].requestId == id {
        assert IsLastFor(responses, id, n);
      } else if ResponsesFor(responses[..n], id) != [] {
        var mine := ResponsesFor(responses[..n], id);
        var k :| IsLastFor(responses[..n], id, k) && mine[|mine| - 1] == responses[..n][k];
        assert IsLastFor(responses, id, k);
      }
    }
  }

  /** In any state a request is approved or rejected exactly when it is answered and its last response says so. */
  lemma DecisionIsOfLastResponse(s: RunState, id: string, r: Response)
    ensures ResolveDecision(s, id) == Some(Approve(r))
            <==> IsAnswered(s.requests, id) && (exists k :: IsLastFor(s.responses, id, k) && s.responses[k] == r)
                 && Approves(r)
    ensures ResolveDecision(s, id) == Some(Reject(r))
            <==> IsAnswered(s.requests, id) && (exists k :: IsLastFor(s.responses, id, k) && s.responses[k] == r)
                 && Rejects(r)
  {
    AnsweredIsFound(s.requests, id);
    LastOfResponses(s.responses, id);
    ReadingIsSaid(r);
    hide IsAnswered, FindRequest, ResponsesFor;
    var mine := ResponsesFor(s.responses, id);
    if mine != [] {
      ReadingIsSaid(mine[|mine| - 1]);
    }
    forall k, l | IsLastFor(s.responses, id, k) && IsLastFor(s.responses, id, l) ensures k == l {
    }
  }
}
