/** Requests to a human operator: the state of one run under the two repositories, and the request budget. */
module Hitl {
  import opened Wrappers

  datatype RequestStatus = Pending | Resolved | Denied

  datatype Request = Request(id: string, run: string, origin: string, status: RequestStatus,
                             denialReason: Option<string>)

  datatype ResponseType = Approval | Rejection | OptionChosen | Freeform

  /** action is the type field of the action that the operator's client attached, as text. */
  datatype Response = Response(id: string, requestId: string, kind: ResponseType, approved: Option<bool>,
                               action: Option<string>)

  datatype RunState = RunState(requests: seq<Request>, responses: seq<Response>, pending: Option<string>, denied: nat)

  const EMPTY := RunState([], [], None, 0)

  // ----- what both repositories compute with

  function FirstPending(requests: seq<Request>): Option<string> {
    if requests == [] then None
    else if requests[0].status == Pending then Some(requests[0].id)
    else FirstPending(requests[1..])
  }

  function CountDenied(requests: seq<Request>): (n: nat)
    ensures n <= |requests|
  {
    if requests == [] then 0 else (if requests[0].status == Denied then 1 else 0) + CountDenied(requests[1..])
  }

  predicate Knows(requests: seq<Request>, id: string) {
    exists q | q in requests :: q.id == id
  }

  function Without(requests: seq<Request>, id: string): seq<Request> {
    if requests == [] then []
    else (if requests[0].id == id then [] else [requests[0]]) + Without(requests[1..], id)
  }

  /** The request with the id gets the status; the reason is replaced, or left alone when keep is set. */
  function Restatused(requests: seq<Request>, id: string, status: RequestStatus, reason: Option<string>,
                      keep: bool): (r: seq<Request>)
    ensures |r| == |requests|
  {
    if requests == [] then []
    else
      var q := requests[0];
      [if q.id == id then q.(status := status, denialReason := if keep then q.denialReason else reason) else q]
      + Restatused(requests[1..], id, status, reason, keep)
  }

  /** A state whose pending id and denied count are read off its requests. */
  function Derived(requests: seq<Request>, responses: seq<Response>): RunState {
    RunState(requests, responses, FirstPending(requests), CountDenied(requests))
  }

  // ----- the operations

  datatype Op =
    | Raise(request: Request)
    | Deny(id: string, reason: string)
    | Respond(response: Response)

  /** The in-memory repository, for the run that the operation belongs to. */
  function MemoryStep(s: RunState, op: Op): RunState {
    match op
    case Raise(q) =>
      RunState(Without(s.requests, q.id) + [q], s.responses, if q.status == Pending then Some(q.id) else s.pending,
               s.denied + if q.status == Denied then 1 else 0)
    case Deny(id, reason) =>
      if Knows(s.requests, id) then Derived(Restatused(s.requests, id, Denied, Some(reason), false), s.responses) else s
    case Respond(response) =>
      if !Knows(s.requests, response.requestId) then s
      else
        var updated := Derived(Restatused(s.requests, response.requestId, Resolved, None, false), s.responses);
        updated.(responses := updated.responses + [response],
                 pending := if updated.pending == Some(response.requestId) then None else updated.pending)
  }

  /** The database repository: rows are changed, and everything else is read off the rows. */
  function DatabaseStep(s: RunState, op: Op): RunState {
    match op
    case Raise(q) => Derived(s.requests + [q], s.responses)
    case Deny(id, reason) =>
      if Knows(s.requests, id) then Derived(Restatused(s.requests, id, Denied, Some(reason), false), s.responses) else s
    case Respond(response) =>
      if !Knows(s.requests, response.requestId) then s
      else Derived(Restatused(s.requests, response.requestId, Resolved, None, true), s.responses + [response])
  }

  datatype Kind = InMemory | InDatabase

  function StepIn(kind: Kind, s: RunState, op: Op): RunState {
    match kind
    case InMemory => MemoryStep(s, op)
    case InDatabase => DatabaseStep(s, op)
  }

  // ----- lemmas about the lists

  ghost predicate DistinctIds(requests: seq<Request>) {
    forall i, j | 0 <= i < j < |requests| :: requests[i].id != requests[j].id
  }

  lemma {:induction false} WithoutUnknown(requests: seq<Request>, id: string)
    requires !Knows(requests, id)
    ensures Without(requests, id) == requests
    decreases requests
  {
    if requests == [] {
    } else {
      assert requests == [requests[0]] + requests[1..];
      WithoutUnknown(requests[1..], id);
    }
  }

  lemma {:induction false} FirstPendingSnoc(requests: seq<Request>, q: Request)
    ensures FirstPending(requests + [q])
            == if FirstPending(requests).Some? then FirstPending(requests)
               else if q.status == Pending then Some(q.id) else None
    ensures CountDenied(requests + [q]) == CountDenied(requests) + if q.status == Denied then 1 else 0
    decreases requests
  {
    if requests == [] {
      assert requests + [q] == [q] && [q][1..] == [];
    } else {
      assert (requests + [q])[1..] == requests[1..] + [q];
      FirstPendingSnoc(requests[1..], q);
    }
  }

  /** The pending id is that of the first pending request. */
  lemma {:induction false} FirstPendingIsPending(requests: seq<Request>)
    ensures var f := FirstPending(requests);
            if f.Some? then
              exists i | 0 <= i < |requests| ::
                && requests[i].id == f.value && requests[i].status == Pending
                && forall j | 0 <= j < i :: requests[j].status != Pending
            else forall q | q in requests :: q.status != Pending
    decreases requests
  {
    if requests == [] {
    } else {
      var rest := requests[1..];
      assert requests == [requests[0]] + rest;
      FirstPendingIsPending(rest);
      if requests[0].status != Pending && FirstPending(requests).Some? {
        var i :| && 0 <= i < |rest| && rest[i].id == FirstPending(requests).value && rest[i].status == Pending
                 && forall j | 0 <= j < i :: rest[j].status != Pending;
        assert requests[i + 1] == rest[i] && forall j | 0 < j < i + 1 :: requests[j] == rest[j - 1];
      }
    }
  }

  lemma {:induction false} RestatusedAt(requests: seq<Request>, id: string, status: RequestStatus,
                                        reason: Option<string>, keep: bool)
    ensures forall i | 0 <= i < |requests| ::
              Restatused(requests, id, status, reason, keep)[i]
              == if requests[i].id == id
                 then requests[i].(status := status, denialReason := if keep then requests[i].denialReason else reason)
                 else requests[i]
    decreases requests
  {
    if requests == [] {
    } else {
      RestatusedAt(requests[1..], id, status, reason, keep);
    }
  }

  // ----- observational equality

  /** Two requests that differ in the recorded reason at most. */
  predicate SameRequest(a: Request, b: Request) {
    a.id == b.id && a.run == b.run && a.origin == b.origin && a.status == b.status
  }

  ghost predicate SameRequests(a: seq<Request>, b: seq<Request>) {
    |a| == |b| && forall i | 0 <= i < |a| :: SameRequest(a[i], b[i])
  }

  /** Same request ids and statuses, same responses, same pending id, same denied count. */
  ghost predicate Same(m: RunState, d: RunState) {
    SameRequests(m.requests, d.requests) && m.responses == d.responses && m.pending == d.pending && m.denied == d.denied
  }

  ghost predicate IsDerived(s: RunState) {
    s == Derived(s.requests, s.responses)
  }

  lemma {:induction false} SameDerived(a: seq<Request>, b: seq<Request>)
    requires SameRequests(a, b)
    ensures FirstPending(a) == FirstPending(b) && CountDenied(a) == CountDenied(b)
    ensures forall id :: Knows(a, id) <==> Knows(b, id)
    decreases a
  {
    if a != [] {
      assert SameRequest(a[0], b[0]);
      forall i | 0 <= i < |a[1..]| ensures SameRequest(a[1..][i], b[1..][i]) {
        assert SameRequest(a[i + 1], b[i + 1]);
      }
      SameDerived(a[1..], b[1..]);
    }
    forall id ensures Knows(a, id) <==> Knows(b, id) {
      if q :| q in a && q.id == id {
        var i :| 0 <= i < |a| && a[i] == q;
        assert SameRequest(a[i], b[i]) && b[i] in b;
      }
      if q :| q in b && q.id == id {
        var i :| 0 <= i < |b| && b[i] == q;
        assert SameRequest(a[i], b[i]) && a[i] in a;
      }
    }
  }

  lemma SameRestatused(a: seq<Request>, b: seq<Request>, id: string, status: RequestStatus, reason: Option<string>,
                       keep: bool)
    requires SameRequests(a, b)
    ensures SameRequests(Restatused(a, id, status, reason, false), Restatused(b, id, status, reason, keep))
  {
    RestatusedAt(a, id, status, reason, false);
    RestatusedAt(b, id, status, reason, keep);
    hide Restatused;
    forall i | 0 <= i < |a|
      ensures SameRequest(Restatused(a, id, status, reason, false)[i], Restatused(b, id, status, reason, keep)[i])
    {
      assert SameRequest(a[i], b[i]);
    }
  }

  /** An operation that a run with one pending request at a time makes. */
  ghost predicate Allowed(s: RunState, op: Op) {
    op.Raise? ==>
      && !Knows(s.requests, op.request.id)
      && op.request.status != Resolved
      && (op.request.status == Pending ==> s.pending == None)
  }

  lemma RaiseIsDerived(m: RunState, q: Request)
    requires IsDerived(m) && !Knows(m.requests, q.id)
    ensures MemoryStep(m, Raise(q)).requests == m.requests + [q]
    ensures IsDerived(MemoryStep(m, Raise(q))) <==> q.status != Pending || m.pending == None
  {
    WithoutUnknown(m.requests, q.id);
    FirstPendingSnoc(m.requests, q);
    FirstPendingIsPending(m.requests);
    hide Without, FirstPending, CountDenied;
    if m.pending.Some? {
      var i :| 0 <= i < |m.requests| && m.requests[i].id == m.pending.value;
      assert m.requests[i] in m.requests;
    }
  }

  lemma RespondIsDerived(m: RunState, r: Response)
    requires IsDerived(m)
    ensures IsDerived(MemoryStep(m, Respond(r)))
  {
    var requests := Restatused(m.requests, r.requestId, Resolved, None, false);
    FirstPendingIsPending(requests);
    RestatusedAt(m.requests, r.requestId, Resolved, None, false);
  }

  /** One operation keeps the two repositories observationally equal. */
  lemma StepKeepsSame(m: RunState, d: RunState, op: Op)
    requires Same(m, d) && IsDerived(m) && IsDerived(d) && Allowed(d, op)
    ensures Same(MemoryStep(m, op), DatabaseStep(d, op))
    ensures IsDerived(MemoryStep(m, op)) && IsDerived(DatabaseStep(d, op))
  {
    SameDerived(m.requests, d.requests);
    hide FirstPending, CountDenied, Restatused, Without, Knows, SameRequest;
    match op
    case Raise(q) =>
      RaiseIsDerived(m, q);
      hide MemoryStep;
      SameSnoc(m.requests, d.requests, q);
      SameDerived(m.requests + [q], d.requests + [q]);
      RaiseKeepsResponses(m, q);
    case Deny(id, reason) =>
      SameRestatused(m.requests, d.requests, id, Denied, Some(reason), false);
      SameDerived(Restatused(m.requests, id, Denied, Some(reason), false),
                  Restatused(d.requests, id, Denied, Some(reason), false));
    case Respond(r) =>
      RespondIsDerived(m, r);
      SameRestatused(m.requests, d.requests, r.requestId, Resolved, None, true);
      SameDerived(Restatused(m.requests, r.requestId, Resolved, None, false),
                  Restatused(d.requests, r.requestId, Resolved, None, true));
  }

  lemma RaiseKeepsResponses(m: RunState, q: Request)
    ensures MemoryStep(m, Raise(q)).responses == m.responses
  {
  }

  lemma SameSnoc(a: seq<Request>, b: seq<Request>, q: Request)
    requires SameRequests(a, b)
    ensures SameRequests(a + [q], b + [q])
  {
  }

  ghost predicate AllowedRun(d: RunState, ops: seq<Op>)
    decreases ops
  {
    ops == [] || (Allowed(d, ops[0]) && AllowedRun(DatabaseStep(d, ops[0]), ops[1..]))
  }

  function MemoryAfter(m: RunState, ops: seq<Op>): RunState
    decreases ops
  {
    if ops == [] then m else MemoryAfter(MemoryStep(m, ops[0]), ops[1..])
  }

  function DatabaseAfter(d: RunState, ops: seq<Op>): RunState
    decreases ops
  {
    if ops == [] then d else DatabaseAfter(DatabaseStep(d, ops[0]), ops[1..])
  }

  /** Whatever a run with one pending request at a time does, the repositories cannot be told apart. */
  lemma {:induction false} RepositoriesAgree(m: RunState, d: RunState, ops: seq<Op>)
    requires Same(m, d) && IsDerived(m) && IsDerived(d) && AllowedRun(d, ops)
    ensures Same(MemoryAfter(m, ops), DatabaseAfter(d, ops))
    decreases ops
  {
    if ops == [] {
    } else {
      StepKeepsSame(m, d, ops[0]);
      hide Same, IsDerived, Allowed, MemoryStep, DatabaseStep;
      RepositoriesAgree(MemoryStep(m, ops[0]), DatabaseStep(d, ops[0]), ops[1..]);
    }
  }

  /**
    A second request while one is pending: the in-memory repository answers with the new one, the
    database repository with the old one. This is the only case in which raising sets them apart.
   */
  lemma RaiseAgreesIff(m: RunState, d: RunState, q: Request)
    requires Same(m, d) && IsDerived(m) && IsDerived(d) && !Knows(d.requests, q.id)
    ensures Same(MemoryStep(m, Raise(q)), DatabaseStep(d, Raise(q))) <==> q.status != Pending || d.pending == None
  {
    SameDerived(m.requests, d.requests);
    RaiseIsDerived(m, q);
    SameSnoc(m.requests, d.requests, q);
    SameDerived(m.requests + [q], d.requests + [q]);
    FirstPendingSnoc(d.requests, q);
    FirstPendingIsPending(d.requests);
    hide FirstPending, CountDenied, Without, SameRequests;
    if d.pending.Some? {
      var i :| 0 <= i < |d.requests| && d.requests[i].id == d.pending.value;
      assert d.requests[i] in d.requests;
    }
  }

  /**
    A response clears the recorded reason in memory but not in the database, so equal states stay
    equal exactly when the request had no reason.
   */
  lemma ReasonsAgreeIff(s: RunState, r: Response, i: nat)
    requires IsDerived(s) && DistinctIds(s.requests) && i < |s.requests| && s.requests[i].id == r.requestId
    ensures MemoryStep(s, Respond(r)) == DatabaseStep(s, Respond(r)) <==> s.requests[i].denialReason == None
  {
    assert s.requests[i] in s.requests;
    RespondIsDerived(s, r);
    RestatusedAt(s.requests, r.requestId, Resolved, None, false);
    RestatusedAt(s.requests, r.requestId, Resolved, None, true);
    var a := Restatused(s.requests, r.requestId, Resolved, None, false);
    var b := Restatused(s.requests, r.requestId, Resolved, None, true);
    hide Restatused, FirstPending, CountDenied;
    if s.requests[i].denialReason == None {
      forall j | 0 <= j < |a| ensures a[j] == b[j] {
        assert j != i ==> s.requests[j].id != r.requestId;
      }
      assert a == b;
    } else {
      assert a[i] != b[i];
    }
  }

  // ----- the pending id

  /** The pending id is that of a pending request, and there is one whenever a request is pending. */
  ghost predicate NamesPending(s: RunState) {
    match s.pending
    case Some(id) => exists i | 0 <= i < |s.requests| :: s.requests[i].id == id && s.requests[i].status == Pending
    case None => forall i | 0 <= i < |s.requests| :: s.requests[i].status != Pending
  }

  ghost predicate WellFormed(s: RunState) {
    NamesPending(s) && DistinctIds(s.requests)
  }

  lemma DerivedNamesPending(requests: seq<Request>, responses: seq<Response>)
    ensures NamesPending(Derived(requests, responses))
  {
    FirstPendingIsPending(requests);
  }

  lemma KnownAt(requests: seq<Request>, i: nat)
    requires i < |requests|
    ensures Knows(requests, requests[i].id)
  {
  }

  lemma DistinctSnoc(requests: seq<Request>, q: Request)
    requires DistinctIds(requests) && !Knows(requests, q.id)
    ensures DistinctIds(requests + [q])
  {
    forall i | 0 <= i < |requests| ensures requests[i].id != q.id { KnownAt(requests, i); }
  }

  lemma RestatusedKeepsDistinct(requests: seq<Request>, id: string, status: RequestStatus, reason: Option<string>,
                                keep: bool)
    requires DistinctIds(requests)
    ensures DistinctIds(Restatused(requests, id, status, reason, keep))
  {
    RestatusedAt(requests, id, status, reason, keep);
  }

  /** Raising a new request in memory, also beside a pending one, keeps a well-formed state. */
  lemma RaiseIsWellFormed(s: RunState, q: Request)
    requires WellFormed(s) && !Knows(s.requests, q.id) && q.status != Resolved
    ensures var t := MemoryStep(s, Raise(q));
            && WellFormed(t) && t.requests == s.requests + [q] && t.responses == s.responses
            && t.pending == (if q.status == Pending then Some(q.id) else s.pending)
  {
    WithoutUnknown(s.requests, q.id);
    DistinctSnoc(s.requests, q);
    var more := s.requests + [q];
    hide Without, Knows;
    if q.status == Pending {
      assert more[|s.requests|] == q;
    } else if s.pending.Some? {
      var i :| 0 <= i < |s.requests| && s.requests[i].id == s.pending.value && s.requests[i].status == Pending;
      assert more[i] == s.requests[i];
    }
  }

  /** Denials and responses keep a well-formed state in both repositories. */
  lemma AnswerIsWellFormed(kind: Kind, s: RunState, op: Op)
    requires WellFormed(s) && !op.Raise?
    ensures WellFormed(StepIn(kind, s, op))
  {
    var id := if op.Deny? then op.id else op.response.requestId;
    var status := if op.Deny? then Denied else Resolved;
    var reason := if op.Deny? then Some(op.reason) else None;
    var keep := op.Respond? && kind.InDatabase?;
    var requests := Restatused(s.requests, id, status, reason, keep);
    RestatusedKeepsDistinct(s.requests, id, status, reason, keep);
    FirstPendingIsPending(requests);
    RestatusedAt(s.requests, id, status, reason, keep);
    hide Restatused, Knows, FirstPending, CountDenied;
  }

  /** What a new session loads: the state that the repository reached through the operators' answers. */
  function Loaded(kind: Kind, s: RunState, answers: seq<Op>): RunState {
    match kind
    case InMemory => MemoryAfter(s, answers)
    case InDatabase => DatabaseAfter(Derived(s.requests, s.responses), answers)
  }

  lemma {:induction false} AnswersAreWellFormed(kind: Kind, s: RunState, answers: seq<Op>)
    requires WellFormed(s) && forall op | op in answers :: !op.Raise?
    ensures WellFormed(if kind.InMemory? then MemoryAfter(s, answers) else DatabaseAfter(s, answers))
    decreases answers
  {
    if answers == [] {
    } else {
      assert answers[0] in answers && forall op | op in answers[1..] :: op in answers;
      AnswerIsWellFormed(kind, s, answers[0]);
      hide WellFormed, MemoryStep, DatabaseStep;
      AnswersAreWellFormed(kind, StepIn(kind, s, answers[0]), answers[1..]);
    }
  }

  lemma LoadedIsWellFormed(kind: Kind, s: RunState, answers: seq<Op>)
    requires WellFormed(s) && forall op | op in answers :: !op.Raise?
    ensures WellFormed(Loaded(kind, s, answers))
  {
    DerivedNamesPending(s.requests, s.responses);
    AnswersAreWellFormed(kind, if kind.InMemory? then s else Derived(s.requests, s.responses), answers);
  }

  /** What an operation leaves of a request that was there: the one it names is settled, with the reason it gets. */
  ghost predicate Settles(kind: Kind, op: Op, before: Request, after: Request) {
    match op
    case Raise(_) => after == before
    case Deny(id, reason) =>
      after == if before.id == id then before.(status := Denied, denialReason := Some(reason)) else before
    case Respond(r) =>
      if before.id != r.requestId then after == before
      else after.id == before.id && after.run == before.run && after.origin == before.origin && after.status == Resolved
           && after.denialReason == if kind == InDatabase then before.denialReason else None
  }

  /**
    What is recorded, in both repositories: a raise under a new id appends its request, a denial and a
    response change the requests with their id and no other, and a response to a known request is kept.
   */
  lemma StepRecords(kind: Kind, s: RunState, op: Op)
    requires op.Raise? ==> !Knows(s.requests, op.request.id)
    ensures var after, n := StepIn(kind, s, op), |s.requests|;
            && |after.requests| == n + (if op.Raise? then 1 else 0)
            && (forall i | 0 <= i < n :: Settles(kind, op, s.requests[i], after.requests[i]))
            && (op.Raise? ==> after.requests[n] == op.request)
            && after.responses
               == if op.Respond? && Knows(s.requests, op.response.requestId) then s.responses + [op.response]
                  else s.responses
  {
    match op
    case Raise(q) => WithoutUnknown(s.requests, q.id);
    case Deny(id, reason) =>
      RestatusedAt(s.requests, id, Denied, Some(reason), false);
      hide Restatused, FirstPending, CountDenied;
      if !Knows(s.requests, id) { NobodyHas(s.requests, id); }
    case Respond(r) =>
      RestatusedAt(s.requests, r.requestId, Resolved, None, kind == InDatabase);
      hide Restatused, FirstPending, CountDenied;
      if !Knows(s.requests, r.requestId) { NobodyHas(s.requests, r.requestId); }
  }

  lemma NobodyHas(requests: seq<Request>, id: string)
    requires !Knows(requests, id)
    ensures forall i | 0 <= i < |requests| :: requests[i].id != id
  {
    assert forall i | 0 <= i < |requests| :: requests[i] in requests;
  }
}
