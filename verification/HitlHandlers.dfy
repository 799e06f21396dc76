/** The stored status of a run while requests are raised, answered and removed. */
module HitlHandlers {
  import opened Wrappers
  import opened Hitl
  import opened HitlRepositories
  import opened HitlService
  import opened Inboxes

  datatype AuditEntry = ResumedBy(requestId: string) | CancelledBy(requestId: string, reason: string)

  /** One run: what the repository says about it and what the runs table stores. */
  datatype System = System(repo: RunState, saved: Saved, audit: seq<AuditEntry>)

  datatype Refusal = NothingPending | RequestNotFound | AlreadyResolved | OtherPending

  /**
    The stored pending id. Each repository goes with a store of runs of its own, and the one in the
    database falls back to the pending id inside the stored state.
   */
  function LoadedPending(kind: Kind, saved: Saved): Option<string> {
    if saved.pending.Some? || kind == InMemory then saved.pending else saved.hitl.pending
  }

  /** The database repository stores the new state with the run, the in-memory one does not. */
  function RepoStep(kind: Kind, s: System, op: Op): System {
    match kind
    case InMemory => s.(repo := MemoryStep(s.repo, op))
    case InDatabase =>
      var repo := DatabaseStep(s.repo, op);
      if op.Raise? || !Knows(s.repo.requests, if op.Deny? then op.id else op.response.requestId) then s.(repo := repo)
      else s.(repo := repo, saved := SavedState(s.saved, repo))
  }

  /** A step raises a request, and the engine stores its view with the status that it signals. */
  function Raised(kind: Kind, s: System, q: Request): System {
    var view := MemoryStep(s.repo, Raise(q));
    var status := if q.status == Pending then AwaitingHitl else Running;
    RepoStep(kind, s, Raise(q)).(saved := Saved(view, view.pending, status))
  }

  /** A session starts: the engine stores the state that it loaded. */
  function Stored(s: System): System {
    s.(saved := Saved(s.repo, s.repo.pending, if PendingRecord(s.repo).Some? then AwaitingHitl else Running))
  }

  function Applied(kind: Kind, s: System, responses: seq<Response>): System {
    if responses == [] then s
    else RepoStep(kind, Applied(kind, s, responses[..|responses| - 1]), Respond(responses[|responses| - 1]))
  }

  function StatusAfterResponse(state: RunState, id: string): RunStatus {
    var decision := ResolveDecision(state, id);
    var usual := if state.pending.Some? then AwaitingHitl else Running;
    if decision.Some? && decision.value.Reject? then
      var action := ParseAction(decision.value.response);
      if action.None? || action.value == Fail then Failed
      else if action.value == Emit then Completed
      else usual
    else usual
  }

  function Guard(s: System, id: string): Option<Refusal> {
    var request := FindRequest(s.saved.hitl.requests, id);
    if request.None? then Some(RequestNotFound)
    else if request.value.status != Pending then Some(AlreadyResolved)
    else None
  }

  function Resumed(kind: Kind, s: System, id: string, responses: seq<Response>): Result<System, Refusal> {
    if Guard(s, id).Some? then Err(Guard(s, id).value)
    else if LoadedPending(kind, s.saved).Some? && LoadedPending(kind, s.saved).value != id then Err(OtherPending)
    else
      var t := Applied(kind, s, responses);
      Ok(t.(saved := t.saved.(pending := t.repo.pending, status := StatusAfterResponse(t.repo, id)),
            audit := t.audit + [ResumedBy(id)]))
  }

  function Target(kind: Kind, s: System, id: Option<string>): Option<string> {
    if id.Some? then id else LoadedPending(kind, s.saved)
  }

  function Removed(kind: Kind, s: System, target: Option<string>, reason: string): Result<System, Refusal> {
    if Target(kind, s, target).None? then Err(NothingPending)
    else
      var id := Target(kind, s, target).value;
      if Guard(s, id).Some? then Err(Guard(s, id).value)
      else
        var t := RepoStep(kind, s, Deny(id, reason));
        Ok(t.(saved := t.saved.(pending := None, status := Cancelled), audit := t.audit + [CancelledBy(id, reason)]))
  }

  // ----- the handlers

  class HitlApi {
    const kind: Kind
    var system: System

    constructor (kind: Kind, system: System)
      ensures this.kind == kind && this.system == system
    {
      this.kind, this.system := kind, system;
    }

    method Resume(id: string, responses: seq<Response>) returns (refusal: Option<Refusal>)
      modifies this`system
      ensures match Resumed(kind, old(system), id, responses)
              case Ok(next) => refusal == None && system == next
              case Err(why) => refusal == Some(why) && system == old(system)
    {
      hide ResolveDecision, ParseAction, RepoStep, FindRequest;
      var snapshot := system.saved;
      var request := FindRequest(snapshot.hitl.requests, id);
      if request.None? {
        return Some(RequestNotFound);
      }
      if request.value.status != Pending {
        return Some(AlreadyResolved);
      }
      var pending := LoadedPending(kind, snapshot);
      if pending.Some? && pending.value != id {
        return Some(OtherPending);
      }
      var i := 0;
      while i < |responses|
        invariant 0 <= i <= |responses| && system == Applied(kind, old(system), responses[..i])
      {
        assert responses[..i + 1][..i] == responses[..i];
        system := RepoStep(kind, system, Respond(responses[i]));
        i := i + 1;
      }
      assert responses[..i] == responses;
      var updated := system.repo;
      var decision := ResolveDecision(updated, id);
      var nextStatus := if updated.pending.Some? then AwaitingHitl else Running;
      if decision.Some? && decision.value.Reject? {
        var action := ParseAction(decision.value.response);
        if action.None? || action.value == Fail {
          nextStatus := Failed;
        } else if action.value == Emit {
          nextStatus := Completed;
        }
      }
      system := system.(saved := system.saved.(pending := updated.pending, status := nextStatus),
                        audit := system.audit + [ResumedBy(id)]);
      return None;
    }

    method Remove(target: Option<string>, reason: string) returns (refusal: Option<Refusal>)
      modifies this`system
      ensures match Removed(kind, old(system), target, reason)
              case Ok(next) => refusal == None && system == next
              case Err(why) => refusal == Some(why) && system == old(system)
    {
      hide RepoStep, FindRequest;
      var snapshot := system.saved;
      var id := if target.Some? then target else LoadedPending(kind, snapshot);
      if id.None? {
        return Some(NothingPending);
      }
      var request := FindRequest(snapshot.hitl.requests, id.value);
      if request.None? {
        return Some(RequestNotFound);
      }
      if request.value.status != Pending {
        return Some(AlreadyResolved);
      }
      system := RepoStep(kind, system, Deny(id.value, reason));
      system := system.(saved := system.saved.(pending := None, status := Cancelled),
                        audit := system.audit + [CancelledBy(id.value, reason)]);
      return None;
    }
  }

  // ----- the law of a run with one pending request at a time

  ghost predicate OnePending(requests: seq<Request>) {
    forall i, j | 0 <= i < j < |requests| :: requests[i].status != Pending || requests[j].status != Pending
  }

  /** The status is awaiting exactly when a pending id is stored, and that id names the only pending request. */
  ghost predicate Lawful(s: System) {
    && s.saved.hitl == s.repo && IsDerived(s.repo) && DistinctIds(s.repo.requests) && OnePending(s.repo.requests)
    && s.saved.pending == s.repo.pending
    && (s.saved.status == AwaitingHitl <==> s.saved.pending.Some?)
  }

  lemma {:induction false} FindIs(requests: seq<Request>, id: string)
    ensures var f := FindRequest(requests, id);
            if f.Some? then exists i | 0 <= i < |requests| :: requests[i] == f.value && requests[i].id == id
            else !Knows(requests, id)
    decreases requests
  {
    if requests == [] {
    } else {
      assert requests == [requests[0]] + requests[1..];
      FindIs(requests[1..], id);
      if requests[0].id != id && FindRequest(requests, id).Some? {
        var i :| 0 <= i < |requests[1..]| && requests[1..][i] == FindRequest(requests[1..], id).value
            && requests[1..][i].id == id;
        assert requests[i + 1] == requests[1..][i];
      }
    }
  }

  /** The pending id of a lawful run is that of the request that the guards let through. */
  lemma GuardIsPending(s: System, id: string)
    requires Lawful(s)
    ensures Guard(s, id).None? <==> s.repo.pending == Some(id)
  {
    var requests := s.repo.requests;
    FindIs(requests, id);
    FirstPendingIsPending(requests);
    hide FindRequest, FirstPending, CountDenied, Knows;
    if s.repo.pending.Some? {
      var j :| 0 <= j < |requests| && requests[j].id == s.repo.pending.value && requests[j].status == Pending;
      assert requests[j] in requests;
      KnownAt(requests, j);
      if FindRequest(requests, id).Some? {
        var i :| 0 <= i < |requests| && requests[i] == FindRequest(requests, id).value && requests[i].id == id;
        assert i != j ==> requests[i].id != requests[j].id;
      }
    } else if FindRequest(requests, id).Some? {
      var i :| 0 <= i < |requests| && requests[i] == FindRequest(requests, id).value;
      assert requests[i] in requests;
    }
  }

  /** Exactly the pending request can be answered or removed. */
  lemma HandlersAcceptIff(s: System, id: string, target: Option<string>, responses: seq<Response>, reason: string)
    requires Lawful(s)
    ensures Resumed(InDatabase, s, id, responses).Ok? <==> s.repo.pending == Some(id)
    ensures Removed(InDatabase, s, target, reason).Ok?
            <==> s.repo.pending.Some? && (target == None || target == s.repo.pending)
  {
    GuardIsPending(s, id);
    hide Guard, Applied, RepoStep, StatusAfterResponse;
    if Target(InDatabase, s, target).Some? {
      GuardIsPending(s, Target(InDatabase, s, target).value);
    }
  }

  /** Position i holds the request that a search for the id finds. */
  ghost predicate FirstWith(requests: seq<Request>, id: string, i: int) {
    0 <= i < |requests| && requests[i].id == id && forall j | 0 <= j < i :: requests[j].id != id
  }

  lemma {:induction false} FirstIsFound(requests: seq<Request>, id: string)
    ensures match FindRequest(requests, id)
            case None => forall q | q in requests :: q.id != id
            case Some(q) => exists i | 0 <= i < |requests| :: FirstWith(requests, id, i) && requests[i] == q
    decreases requests
  {
    if requests == [] {
    } else if requests[0].id == id {
      assert FirstWith(requests, id, 0);
    } else {
      assert requests == [requests[0]] + requests[1..];
      FirstIsFound(requests[1..], id);
      if FindRequest(requests, id).Some? {
        var i :| 0 <= i < |requests[1..]| && FirstWith(requests[1..], id, i)
                 && requests[1..][i] == FindRequest(requests, id).value;
        assert FirstWith(requests, id, i + 1);
      }
    }
  }

  lemma OneFirst(requests: seq<Request>, id: string, i: int, j: int)
    requires FirstWith(requests, id, i) && FirstWith(requests, id, j)
    ensures i == j
  {
  }

  ghost predicate NotThere(s: System, id: string) {
    forall q | q in s.saved.hitl.requests :: q.id != id
  }

  ghost predicate Settled(s: System, id: string) {
    exists i :: FirstWith(s.saved.hitl.requests, id, i) && s.saved.hitl.requests[i].status != Pending
  }

  lemma GuardIs(s: System, id: string)
    ensures Guard(s, id) == Some(RequestNotFound) <==> NotThere(s, id)
    ensures Guard(s, id) == Some(AlreadyResolved) <==> Settled(s, id)
    ensures Guard(s, id) == None <==> !NotThere(s, id) && !Settled(s, id)
  {
    var requests := s.saved.hitl.requests;
    FirstIsFound(requests, id);
    hide FindRequest, FirstWith;
    if FindRequest(requests, id).Some? {
      var i :| 0 <= i < |requests| && FirstWith(requests, id, i) && requests[i] == FindRequest(requests, id).value;
      FirstIsThere(requests, id, i);
      forall j | FirstWith(requests, id, j) ensures j == i { OneFirst(requests, id, i, j); }
    } else {
      forall j | FirstWith(requests, id, j) ensures false { FirstIsThere(requests, id, j); }
    }
  }

  lemma FirstIsThere(requests: seq<Request>, id: string, i: int)
    requires FirstWith(requests, id, i)
    ensures requests[i] in requests && requests[i].id == id
  {
  }

  /**
    The refusals, whatever is stored: an answer to a request that is not there, that is settled, or
    beside the one that the run waits for; a removal without any id, of a request that is not there, or
    of one that is settled. Each is told by what is stored, and is accepted without them.
   */
  lemma HandlersRefuseIff(kind: Kind, s: System, id: string, target: Option<string>, responses: seq<Response>,
                          reason: string)
    ensures var waits :=
              if s.saved.pending.None? && kind == InDatabase then s.saved.hitl.pending else s.saved.pending;
            var answered, removed := Resumed(kind, s, id, responses), Removed(kind, s, target, reason);
            && (answered == Err(RequestNotFound) <==> NotThere(s, id))
            && (answered == Err(AlreadyResolved) <==> Settled(s, id))
            && (answered == Err(OtherPending) <==>
                  !NotThere(s, id) && !Settled(s, id) && waits.Some? && waits.value != id)
            && answered != Err(NothingPending) && removed != Err(OtherPending)
            && (removed == Err(NothingPending) <==> target == None && waits == None)
            && var named := if target.Some? then target else waits;
               && (removed == Err(RequestNotFound) <==> named.Some? && NotThere(s, named.value))
               && (removed == Err(AlreadyResolved) <==> named.Some? && Settled(s, named.value))
  {
    GuardIs(s, id);
    hide Guard, NotThere, Settled, Applied, RepoStep, StatusAfterResponse;
    var named := Target(kind, s, target);
    if named.Some? { GuardIs(s, named.value); }
  }

  /** What the handlers write beside the requests: the status, the pending id, and one entry in the audit log. */
  lemma HandlersWrite(kind: Kind, s: System, id: string, target: Option<string>, responses: seq<Response>,
                      reason: string)
    ensures var answered, removed := Resumed(kind, s, id, responses), Removed(kind, s, target, reason);
            && (answered.Ok? ==> answered.value.saved.pending == answered.value.repo.pending
                                 && answered.value.audit == s.audit + [ResumedBy(id)])
            && (removed.Ok? ==>
                  && removed.value.saved.pending == None && removed.value.saved.status == Cancelled
                  && exists named: string ::
                       (target.Some? ==> target.value == named)
                       && removed.value.audit == s.audit + [CancelledBy(named, reason)])
  {
    AppliedKeepsAudit(kind, s, responses);
    hide Guard, Applied, StatusAfterResponse, DatabaseStep, MemoryStep, Knows;
    if Removed(kind, s, target, reason).Ok? {
      var named := Target(kind, s, target).value;
      assert Removed(kind, s, target, reason).value.audit == s.audit + [CancelledBy(named, reason)];
    }
  }

  lemma {:induction false} AppliedKeepsAudit(kind: Kind, s: System, responses: seq<Response>)
    ensures Applied(kind, s, responses).audit == s.audit
    decreases responses
  {
    if responses == [] {
    } else {
      hide DatabaseStep, MemoryStep, Knows;
      AppliedKeepsAudit(kind, s, responses[..|responses| - 1]);
    }
  }

  /** b has the requests of a, the one with the id in another status. */
  ghost predicate Moved(a: seq<Request>, b: seq<Request>, id: string, status: RequestStatus) {
    && |a| == |b|
    && forall i | 0 <= i < |a| ::
         b[i].id == a[i].id && b[i].status == if a[i].id == id then status else a[i].status
  }

  lemma NothingLeftPending(a: seq<Request>, b: seq<Request>, id: string, status: RequestStatus)
    requires DistinctIds(a) && OnePending(a) && FirstPending(a) == Some(id) && Moved(a, b, id, status)
             && status != Pending
    ensures FirstPending(b) == None && OnePending(b) && DistinctIds(b)
  {
    FirstPendingIsPending(a);
    FirstPendingIsPending(b);
    hide FirstPending;
    var i :| 0 <= i < |a| && a[i].id == id && a[i].status == Pending;
    forall j | 0 <= j < |b| ensures b[j].status != Pending {
      if j != i { OnlyPending(a, i, j); }
    }
  }

  lemma OnlyPending(requests: seq<Request>, i: nat, j: nat)
    requires OnePending(requests) && i < |requests| && j < |requests| && i != j && requests[i].status == Pending
    ensures requests[j].status != Pending
  {
  }

  lemma PendingIsKnown(s: RunState, id: string)
    requires IsDerived(s) && s.pending == Some(id)
    ensures Knows(s.requests, id)
  {
    FirstPendingIsPending(s.requests);
    var i :| 0 <= i < |s.requests| && s.requests[i].id == id;
    KnownAt(s.requests, i);
  }

  lemma MovedKnows(a: seq<Request>, b: seq<Request>, id: string, status: RequestStatus)
    requires Moved(a, b, id, status) && Knows(a, id)
    ensures Knows(b, id)
  {
  }

  lemma RespondMovesInDatabase(s: RunState, r: Response)
    requires Knows(s.requests, r.requestId)
    ensures IsDerived(DatabaseStep(s, Respond(r)))
    ensures Moved(s.requests, DatabaseStep(s, Respond(r)).requests, r.requestId, Resolved)
  {
    RestatusedAt(s.requests, r.requestId, Resolved, None, true);
    hide FirstPending, CountDenied, Restatused;
  }

  lemma {:induction false} ApplyMoves(s: System, id: string, responses: seq<Response>)
    requires Lawful(s) && Knows(s.repo.requests, id)
    requires forall i | 0 <= i < |responses| :: responses[i].requestId == id
    ensures var t := Applied(InDatabase, s, responses);
            && IsDerived(t.repo) && t.audit == s.audit && t.saved.hitl == t.repo
            && (if responses == [] then t == s else Moved(s.repo.requests, t.repo.requests, id, Resolved))
    decreases responses
  {
    if responses == [] {
    } else {
      var before, last := responses[..|responses| - 1], responses[|responses| - 1];
      ApplyMoves(s, id, before);
      var t := Applied(InDatabase, s, before);
      if before != [] { MovedKnows(s.repo.requests, t.repo.requests, id, Resolved); }
      RespondMovesInDatabase(t.repo, last);
      hide IsDerived, DatabaseStep, Knows;
    }
  }

  /** Answering the pending request keeps the law. */
  lemma ResumeIsLawful(s: System, id: string, responses: seq<Response>)
    requires Lawful(s) && Resumed(InDatabase, s, id, responses).Ok?
    requires responses != [] && forall i | 0 <= i < |responses| :: responses[i].requestId == id
    ensures var t := Resumed(InDatabase, s, id, responses).value;
            && Lawful(t) && t.repo.pending == None && t.audit == s.audit + [ResumedBy(id)]
            && Moved(s.repo.requests, t.repo.requests, id, Resolved)
  {
    GuardIsPending(s, id);
    PendingIsKnown(s.repo, id);
    ApplyMoves(s, id, responses);
    hide Guard, Applied, FirstPending, CountDenied, Knows, ResolveDecision, ParseAction;
    NothingLeftPending(s.repo.requests, Applied(InDatabase, s, responses).repo.requests, id, Resolved);
  }

  /** Removing the pending request keeps the law. */
  lemma RemoveIsLawful(s: System, target: Option<string>, reason: string)
    requires Lawful(s) && Removed(InDatabase, s, target, reason).Ok?
    ensures var t, id := Removed(InDatabase, s, target, reason).value, Target(InDatabase, s, target).value;
            && Lawful(t) && t.repo.pending == None && t.saved.status == Cancelled
            && t.audit == s.audit + [CancelledBy(id, reason)]
            && Moved(s.repo.requests, t.repo.requests, id, Denied)
  {
    var id := Target(InDatabase, s, target).value;
    GuardIsPending(s, id);
    PendingIsKnown(s.repo, id);
    RestatusedAt(s.repo.requests, id, Denied, Some(reason), false);
    hide Guard, FirstPending, CountDenied, Knows, Restatused;
    NothingLeftPending(s.repo.requests, DatabaseStep(s.repo, Deny(id, reason)).requests, id, Denied);
  }

  /**
    Raising keeps the law exactly when nothing is pending. A second pending request is one too many;
    a denied request sets the status to running although the run still waits.
   */
  lemma RaiseIsLawfulIff(s: System, q: Request)
    requires Lawful(s) && !Knows(s.repo.requests, q.id) && q.status != Resolved
    ensures Lawful(Raised(InDatabase, s, q)) <==> s.repo.pending == None
  {
    RaiseIsDerived(s.repo, q);
    FirstPendingSnoc(s.repo.requests, q);
    FirstPendingIsPending(s.repo.requests);
    forall i | 0 <= i < |s.repo.requests|
      ensures s.repo.requests[i].id != q.id && s.repo.requests[i] in s.repo.requests
    {
      KnownAt(s.repo.requests, i);
    }
    hide FirstPending, CountDenied, Without, Knows;
    var more := s.repo.requests + [q];
    if s.repo.pending.Some? && q.status == Pending {
      var i :| 0 <= i < |s.repo.requests| && s.repo.requests[i].status == Pending;
      assert more[i].status == Pending && more[|s.repo.requests|].status == Pending;
    }
  }

  predicate KeepsStatus(s: System, t: System, i: nat) {
    i < |s.repo.requests| && i < |t.repo.requests| && t.repo.requests[i].id == s.repo.requests[i].id
    && t.repo.requests[i].status == s.repo.requests[i].status
  }

  /** A request that is no longer pending keeps its status through both handlers. */
  lemma SettledStays(s: System, i: nat, id: string, responses: seq<Response>, target: Option<string>, reason: string)
    requires Lawful(s) && i < |s.repo.requests| && s.repo.requests[i].status != Pending
    requires responses != [] && forall k | 0 <= k < |responses| :: responses[k].requestId == id
    ensures Resumed(InDatabase, s, id, responses).Ok? ==>
              KeepsStatus(s, Resumed(InDatabase, s, id, responses).value, i)
    ensures Removed(InDatabase, s, target, reason).Ok? ==>
              KeepsStatus(s, Removed(InDatabase, s, target, reason).value, i)
  {
    hide Resumed, Removed;
    HandlersAcceptIff(s, id, target, responses, reason);
    if Resumed(InDatabase, s, id, responses).Ok? {
      ResumeIsLawful(s, id, responses);
      OnlyOneIs(s, i, id);
    }
    if Removed(InDatabase, s, target, reason).Ok? {
      RemoveIsLawful(s, target, reason);
      OnlyOneIs(s, i, Target(InDatabase, s, target).value);
    }
  }

  lemma OnlyOneIs(s: System, i: nat, id: string)
    requires Lawful(s) && i < |s.repo.requests| && s.repo.requests[i].status != Pending && s.repo.pending == Some(id)
    ensures s.repo.requests[i].id != id
  {
    FirstPendingIsPending(s.repo.requests);
    var j :| 0 <= j < |s.repo.requests| && s.repo.requests[j].id == id && s.repo.requests[j].status == Pending;
  }

  // ----- runs

  datatype Event =
    | RaiseEvent(request: Request)
    | StoreEvent
    | ResumeEvent(id: string, responses: seq<Response>)
    | RemoveEvent(target: Option<string>, reason: string)

  /** Requests are new and raised while nothing is pending; the schema makes all responses answer the request. */
  ghost predicate Admissible(s: System, e: Event) {
    match e
    case RaiseEvent(q) => !Knows(s.repo.requests, q.id) && q.status != Resolved && s.repo.pending == None
    case StoreEvent => true
    case ResumeEvent(id, responses) => AllAnswer(responses, id)
    case RemoveEvent(_, _) => true
  }

  ghost predicate AllAnswer(responses: seq<Response>, id: string) {
    responses != [] && forall i | 0 <= i < |responses| :: responses[i].requestId == id
  }

  function Next(kind: Kind, s: System, e: Event): System {
    match e
    case RaiseEvent(q) => Raised(kind, s, q)
    case StoreEvent => Stored(s)
    case ResumeEvent(id, responses) => (match Resumed(kind, s, id, responses) case Ok(t) => t case Err(_) => s)
    case RemoveEvent(target, reason) => (match Removed(kind, s, target, reason) case Ok(t) => t case Err(_) => s)
  }

  ghost predicate AdmissibleRun(kind: Kind, s: System, events: seq<Event>)
    decreases events
  {
    events == [] || (Admissible(s, events[0]) && AdmissibleRun(kind, Next(kind, s, events[0]), events[1..]))
  }

  function After(kind: Kind, s: System, events: seq<Event>): System
    decreases events
  {
    if events == [] then s else After(kind, Next(kind, s, events[0]), events[1..])
  }

  lemma StoreIsLawful(s: System)
    requires Lawful(s)
    ensures Lawful(Stored(s))
  {
    FirstPendingIsPending(s.repo.requests);
    PendingIsFound(s.repo);
  }

  lemma NextIsLawful(s: System, e: Event)
    requires Lawful(s) && Admissible(s, e)
    ensures Lawful(Next(InDatabase, s, e))
  {
    hide Resumed, Removed, Raised, Stored, Lawful, Knows;
    match e
    case RaiseEvent(q) => RaiseIsLawfulIff(s, q);
    case StoreEvent => StoreIsLawful(s);
    case ResumeEvent(id, responses) =>
      if Resumed(InDatabase, s, id, responses).Ok? { ResumeIsLawful(s, id, responses); }
    case RemoveEvent(target, reason) =>
      if Removed(InDatabase, s, target, reason).Ok? { RemoveIsLawful(s, target, reason); }
  }

  /** Every state of such a run over the database repository is lawful. */
  lemma {:induction false} EveryStateIsLawful(s: System, events: seq<Event>)
    requires Lawful(s) && AdmissibleRun(InDatabase, s, events)
    ensures Lawful(After(InDatabase, s, events))
    decreases events
  {
    if events == [] {
    } else {
      NextIsLawful(s, events[0]);
      hide Lawful, Next, Admissible;
      EveryStateIsLawful(Next(InDatabase, s, events[0]), events[1..]);
    }
  }

  // ----- the status that an answer stores

  lemma RespondKnows(kind: Kind, s: RunState, r: Response)
    ensures forall id :: Knows(StepIn(kind, s, Respond(r)).requests, id) <==> Knows(s.requests, id)
  {
    RestatusedKnows(s.requests, r.requestId, Resolved, None, kind == InDatabase);
    hide FirstPending, CountDenied, Restatused;
  }

  lemma {:induction false} AppliedKnows(kind: Kind, s: System, responses: seq<Response>, id: string)
    ensures Knows(Applied(kind, s, responses).repo.requests, id) <==> Knows(s.repo.requests, id)
    decreases responses
  {
    if responses == [] {
    } else {
      var before := responses[..|responses| - 1];
      AppliedKnows(kind, s, before, id);
      RespondKnows(kind, Applied(kind, s, before).repo, responses[|responses| - 1]);
      hide Knows, MemoryStep, DatabaseStep;
    }
  }

  /** The response rejects its request and asks for an event only. */
  predicate RejectsWithEvent(r: Response) {
    Rejects(r) && ActionSays(r, "emit")
  }

  /** The response rejects its request, and asks neither for an event nor to go on. */
  predicate RejectsForGood(r: Response) {
    Rejects(r) && !ActionSays(r, "emit") && !ActionSays(r, "resume") && !ActionSays(r, "continue")
  }

  /**
    What an accepted answer stores, from its last response: completed when that rejects the request
    and asks for an event only, failed when it rejects and asks for nothing or for something else, and
    otherwise awaiting or running. The next session would rule the same on that request.
   */
  lemma ResumeStoresStatusIff(kind: Kind, s: System, id: string, responses: seq<Response>)
    requires Knows(s.repo.requests, id) && AllAnswer(responses, id) && Resumed(kind, s, id, responses).Ok?
    ensures var t, last := Resumed(kind, s, id, responses).value, responses[|responses| - 1];
            && (t.saved.status == Completed <==> RejectsWithEvent(last))
            && (t.saved.status == Failed <==> RejectsForGood(last))
            && (t.saved.status == AwaitingHitl <==>
                  !RejectsWithEvent(last) && !RejectsForGood(last) && t.repo.pending.Some?)
            && (t.saved.status == Running <==>
                  !RejectsWithEvent(last) && !RejectsForGood(last) && t.repo.pending.None?)
    ensures var t := Resumed(kind, s, id, responses).value;
            && (t.saved.status == Completed <==> RejectionOf(t.repo, id) == Some(Emitting))
            && (t.saved.status == Failed <==> RejectionOf(t.repo, id) == Some(Failing))
  {
    var before, last := responses[..|responses| - 1], responses[|responses| - 1];
    AppliedKnows(kind, s, before, id);
    var t := Applied(kind, s, before);
    assert last.requestId == id;
    LastResponseDecides(kind, t.repo, last);
    ActionIsSaid(last);
    assert Applied(kind, s, responses).repo == StepIn(kind, t.repo, Respond(last));
    hide Applied, Guard, ResolveDecision, ParseAction, MemoryStep, DatabaseStep, Knows, Rejects, Approves, ActionSays;
    hide StepIn;
    StatusOfDecision(Applied(kind, s, responses).repo, id, last);
  }

  lemma StatusOfDecision(state: RunState, id: string, last: Response)
    requires ResolveDecision(state, id) in {Some(Approve(last)), Some(Reject(last)), None}
    ensures var status, rejects := StatusAfterResponse(state, id), ResolveDecision(state, id) == Some(Reject(last));
            && (status == Completed <==> rejects && ParseAction(last) == Some(Emit))
            && (status == Failed <==> rejects && ParseAction(last) in {Some(Fail), None})
            && (status == AwaitingHitl <==>
                  (rejects ==> ParseAction(last) == Some(Action.Resume)) && state.pending.Some?)
            && (status == Running <==> (rejects ==> ParseAction(last) == Some(Action.Resume)) && state.pending.None?)
            && (status == Completed <==> RejectionOf(state, id) == Some(Emitting))
            && (status == Failed <==> RejectionOf(state, id) == Some(Failing))
  {
    hide ResolveDecision, ParseAction;
  }

  // ----- what remains of the law with the in-memory repository

  /** The stored state has a request as pending that the repository has as answered or removed. */
  ghost predicate StaleAt(s: System, i: nat) {
    && i < |s.repo.requests| && i < |s.saved.hitl.requests|
    && s.saved.hitl.requests[i].status == Pending && s.repo.requests[i].status != Pending
  }

  ghost predicate Stale(s: System) {
    exists i: nat :: StaleAt(s, i)
  }

  /** The stored statuses are those of the repository, but for requests that the stored state still has as pending. */
  ghost predicate Trails(s: System) {
    && |s.saved.hitl.requests| == |s.repo.requests|
    && forall i | 0 <= i < |s.repo.requests| ::
         && s.saved.hitl.requests[i].id == s.repo.requests[i].id
         && (s.saved.hitl.requests[i].status == s.repo.requests[i].status || StaleAt(s, i))
  }

  /** The status is still awaiting exactly when a pending id is stored, and that id is the repository's. */
  ghost predicate MemoryLawful(s: System) {
    && IsDerived(s.repo) && DistinctIds(s.repo.requests) && OnePending(s.repo.requests)
    && IsDerived(s.saved.hitl) && OnePending(s.saved.hitl.requests) && Trails(s)
    && s.saved.pending == s.repo.pending
    && (s.saved.status == AwaitingHitl <==> s.saved.pending.Some?)
  }

  lemma TrailingIds(s: System)
    requires Trails(s) && DistinctIds(s.repo.requests)
    ensures DistinctIds(s.saved.hitl.requests)
    ensures forall id :: Knows(s.saved.hitl.requests, id) ==> Knows(s.repo.requests, id)
  {
    forall i, j | 0 <= i < j < |s.repo.requests| ensures s.saved.hitl.requests[i].id != s.saved.hitl.requests[j].id {
      assert s.repo.requests[i].id != s.repo.requests[j].id;
    }
    forall id | Knows(s.saved.hitl.requests, id) ensures Knows(s.repo.requests, id) {
      var q :| q in s.saved.hitl.requests && q.id == id;
      var i :| 0 <= i < |s.repo.requests| && s.saved.hitl.requests[i] == q;
      KnownAt(s.repo.requests, i);
    }
  }

  /** Position i holds the request that a handler's guard lets through. */
  lemma GuardAt(s: System, i: nat)
    requires Trails(s) && DistinctIds(s.repo.requests) && i < |s.repo.requests|
    ensures Guard(s, s.repo.requests[i].id).None? <==> s.saved.hitl.requests[i].status == Pending
  {
    TrailingIds(s);
    FindsFirst(s.saved.hitl.requests, i);
  }

  lemma GuardPosition(s: System, id: string) returns (i: nat)
    requires Guard(s, id).None?
    ensures i < |s.saved.hitl.requests| && s.saved.hitl.requests[i].id == id
            && s.saved.hitl.requests[i].status == Pending
  {
    FindIs(s.saved.hitl.requests, id);
    i :| 0 <= i < |s.saved.hitl.requests| && s.saved.hitl.requests[i] == FindRequest(s.saved.hitl.requests, id).value;
  }

  /** When the stored state has request i as pending, nothing else is pending in the repository. */
  lemma OnlyStoredPending(s: System, i: nat)
    requires MemoryLawful(s) && i < |s.repo.requests| && s.saved.hitl.requests[i].status == Pending
    ensures s.repo.pending == (if StaleAt(s, i) then None else Some(s.repo.requests[i].id))
    ensures LoadedPending(InMemory, s.saved) == s.repo.pending
    ensures forall j | 0 <= j < |s.repo.requests| && j != i :: s.repo.requests[j].status != Pending && !StaleAt(s, j)
  {
    FirstPendingIsPending(s.repo.requests);
    FirstPendingIsPending(s.saved.hitl.requests);
    hide FirstPending, CountDenied;
    forall j | 0 <= j < |s.repo.requests| && j != i ensures s.saved.hitl.requests[j].status != Pending {
      OnlyPending(s.saved.hitl.requests, i, j);
    }
    assert s.saved.hitl.requests[i] in s.saved.hitl.requests;
    assert s.repo.requests[i] in s.repo.requests;
  }

  lemma RespondMoves(s: RunState, r: Response)
    requires IsDerived(s) && Knows(s.requests, r.requestId)
    ensures IsDerived(MemoryStep(s, Respond(r)))
    ensures Moved(s.requests, MemoryStep(s, Respond(r)).requests, r.requestId, Resolved)
  {
    RespondIsDerived(s, r);
    RestatusedAt(s.requests, r.requestId, Resolved, None, false);
    hide FirstPending, CountDenied, Restatused;
  }

  lemma {:induction false} ApplyMovesInMemory(s: System, id: string, responses: seq<Response>)
    requires IsDerived(s.repo) && Knows(s.repo.requests, id)
    requires forall i | 0 <= i < |responses| :: responses[i].requestId == id
    ensures var t := Applied(InMemory, s, responses);
            && IsDerived(t.repo) && t.audit == s.audit && t.saved == s.saved
            && (if responses == [] then t == s else Moved(s.repo.requests, t.repo.requests, id, Resolved))
    decreases responses
  {
    if responses == [] {
    } else {
      var before, last := responses[..|responses| - 1], responses[|responses| - 1];
      ApplyMovesInMemory(s, id, before);
      var t := Applied(InMemory, s, before);
      if before != [] { MovedKnows(s.repo.requests, t.repo.requests, id, Resolved); }
      RespondMoves(t.repo, last);
      hide IsDerived, MemoryStep, Knows;
    }
  }

  /** What an accepted answer or removal does to the repository: request i moves, and nothing is pending any more. */
  lemma MovedIsLawful(s: System, t: System, i: nat, status: RequestStatus)
    requires MemoryLawful(s) && i < |s.repo.requests| && s.saved.hitl.requests[i].status == Pending && status != Pending
    requires Moved(s.repo.requests, t.repo.requests, s.repo.requests[i].id, status) && IsDerived(t.repo)
    requires t.saved.hitl == s.saved.hitl && t.saved.pending == None && t.saved.status != AwaitingHitl
    ensures MemoryLawful(t) && t.repo.pending == None && StaleAt(t, i)
  {
    OnlyStoredPending(s, i);
    var a, b := s.repo.requests, t.repo.requests;
    forall j | 0 <= j < |b| ensures b[j].status != Pending && (j != i ==> b[j].status == a[j].status) {
      if j != i { assert a[j].id != a[i].id; }
    }
    FirstPendingIsPending(b);
    hide FirstPending, CountDenied;
    assert forall j | 0 <= j < |b| :: b[j] in b;
  }

  lemma ResumeInMemory(s: System, id: string, responses: seq<Response>) returns (i: nat)
    requires MemoryLawful(s) && AllAnswer(responses, id) && Resumed(InMemory, s, id, responses).Ok?
    ensures var t := Resumed(InMemory, s, id, responses).value;
            && MemoryLawful(t) && t.repo.pending == None && StaleAt(t, i)
            && i < |s.repo.requests| && s.repo.requests[i].id == id && s.saved.hitl.requests[i].status == Pending
            && Moved(s.repo.requests, t.repo.requests, id, Resolved)
  {
    i := GuardPosition(s, id);
    KnownAt(s.repo.requests, i);
    ApplyMovesInMemory(s, id, responses);
    var u := Applied(InMemory, s, responses);
    var t := Resumed(InMemory, s, id, responses).value;
    hide Guard, Applied, FirstPending, CountDenied, Knows, ResolveDecision, ParseAction;
    MovedIsLawful(s, u.(saved := u.saved.(pending := None, status := Running)), i, Resolved);
    MovedIsLawful(s, t, i, Resolved);
  }

  lemma RemoveInMemory(s: System, target: Option<string>, reason: string) returns (i: nat)
    requires MemoryLawful(s) && Removed(InMemory, s, target, reason).Ok?
    ensures var t := Removed(InMemory, s, target, reason).value;
            && MemoryLawful(t) && t.repo.pending == None && StaleAt(t, i)
            && i < |s.repo.requests| && Target(InMemory, s, target) == Some(s.repo.requests[i].id)
            && s.saved.hitl.requests[i].status == Pending
            && Moved(s.repo.requests, t.repo.requests, s.repo.requests[i].id, Denied)
  {
    var id := Target(InMemory, s, target).value;
    i := GuardPosition(s, id);
    KnownAt(s.repo.requests, i);
    RestatusedAt(s.repo.requests, id, Denied, Some(reason), false);
    var t := Removed(InMemory, s, target, reason).value;
    hide Guard, FirstPending, CountDenied, Knows, Restatused;
    MovedIsLawful(s, t, i, Denied);
  }

  /**
    A request that is no longer pending keeps its status through a handler, unless the handler is
    called with its id while the stored state still has it as pending: then an answer turns a denied
    request into a resolved one, and a removal a resolved request into a denied one. A removal without
    an id finds no stored pending id by then.
   */
  lemma SettledInMemoryIff(s: System, i: nat, id: string, responses: seq<Response>, target: Option<string>,
                           reason: string)
    requires MemoryLawful(s) && i < |s.repo.requests| && s.repo.requests[i].status != Pending
             && AllAnswer(responses, id)
    ensures (Resumed(InMemory, s, id, responses).Ok? ==> KeepsStatus(s, Resumed(InMemory, s, id, responses).value, i))
            <==> !(StaleAt(s, i) && id == s.repo.requests[i].id && s.repo.requests[i].status == Denied)
    ensures (Removed(InMemory, s, target, reason).Ok? ==> KeepsStatus(s, Removed(InMemory, s, target, reason).value, i))
            <==> !(StaleAt(s, i) && target == Some(s.repo.requests[i].id) && s.repo.requests[i].status == Resolved)
  {
    hide MemoryLawful, StaleAt, Resumed, Removed, AllAnswer, KeepsStatus;
    ResumeSettledIff(s, i, id, responses);
    RemoveSettledIff(s, i, target, reason);
  }

  lemma ResumeSettledIff(s: System, i: nat, id: string, responses: seq<Response>)
    requires MemoryLawful(s) && i < |s.repo.requests| && s.repo.requests[i].status != Pending
             && AllAnswer(responses, id)
    ensures (Resumed(InMemory, s, id, responses).Ok? ==> KeepsStatus(s, Resumed(InMemory, s, id, responses).value, i))
            <==> !(StaleAt(s, i) && id == s.repo.requests[i].id && s.repo.requests[i].status == Denied)
  {
    GuardAt(s, i);
    if StaleAt(s, i) { OnlyStoredPending(s, i); }
    ResumeAccepts(s, id, responses);
    hide Resumed, Guard, LoadedPending;
    if Resumed(InMemory, s, id, responses).Ok? {
      var k := ResumeInMemory(s, id, responses);
      OneIndex(s.repo.requests, i, k);
    }
  }

  lemma RemoveSettledIff(s: System, i: nat, target: Option<string>, reason: string)
    requires MemoryLawful(s) && i < |s.repo.requests| && s.repo.requests[i].status != Pending
    ensures (Removed(InMemory, s, target, reason).Ok? ==> KeepsStatus(s, Removed(InMemory, s, target, reason).value, i))
            <==> !(StaleAt(s, i) && target == Some(s.repo.requests[i].id) && s.repo.requests[i].status == Resolved)
  {
    GuardAt(s, i);
    if StaleAt(s, i) { OnlyStoredPending(s, i); }
    RemoveAccepts(s, target, reason);
    hide Removed, Guard;
    if Removed(InMemory, s, target, reason).Ok? {
      var k := RemoveInMemory(s, target, reason);
      OneIndex(s.repo.requests, i, k);
    }
  }

  lemma OneIndex(requests: seq<Request>, i: nat, k: nat)
    requires DistinctIds(requests) && i < |requests| && k < |requests|
    ensures requests[i].id == requests[k].id <==> i == k
  {
    if i < k { assert requests[i].id != requests[k].id; }
    if k < i { assert requests[k].id != requests[i].id; }
  }

  lemma ResumeAccepts(s: System, id: string, responses: seq<Response>)
    ensures Resumed(InMemory, s, id, responses).Ok?
            <==> var pending := LoadedPending(InMemory, s.saved);
                 Guard(s, id).None? && (pending.None? || pending == Some(id))
  {
    hide Guard, Applied, StatusAfterResponse;
  }

  lemma RemoveAccepts(s: System, target: Option<string>, reason: string)
    ensures Removed(InMemory, s, target, reason).Ok?
            <==> Target(InMemory, s, target).Some? && Guard(s, Target(InMemory, s, target).value).None?
  {
    hide Guard, RepoStep;
  }

  lemma FreshIsLawful(t: System)
    requires t.saved.hitl == t.repo && IsDerived(t.repo) && DistinctIds(t.repo.requests) && OnePending(t.repo.requests)
    requires t.saved.pending == t.repo.pending && (t.saved.status == AwaitingHitl <==> t.repo.pending.Some?)
    ensures MemoryLawful(t) && !Stale(t)
  {
  }

  lemma RaiseInMemoryIsLawful(s: System, q: Request)
    requires MemoryLawful(s) && Admissible(s, RaiseEvent(q))
    ensures MemoryLawful(Raised(InMemory, s, q)) && !Stale(Raised(InMemory, s, q))
  {
    RaiseIsDerived(s.repo, q);
    FirstPendingIsPending(s.repo.requests);
    FirstPendingSnoc(s.repo.requests, q);
    DistinctSnoc(s.repo.requests, q);
    var t := Raised(InMemory, s, q);
    assert forall i | 0 <= i < |s.repo.requests| :: s.repo.requests[i] in s.repo.requests;
    hide Without, Knows, FirstPending, CountDenied;
    FreshIsLawful(t);
  }

  lemma StoreInMemoryIsLawful(s: System)
    requires MemoryLawful(s)
    ensures MemoryLawful(Stored(s)) && !Stale(Stored(s))
  {
    DerivedNamesPending(s.repo.requests, s.repo.responses);
    PendingIsFound(s.repo);
    FreshIsLawful(Stored(s));
  }

  predicate Accepts(kind: Kind, s: System, e: Event) {
    match e
    case ResumeEvent(id, responses) => Resumed(kind, s, id, responses).Ok?
    case RemoveEvent(target, reason) => Removed(kind, s, target, reason).Ok?
    case _ => false
  }

  predicate Stores(e: Event) {
    e.RaiseEvent? || e.StoreEvent?
  }

  /**
    Every event keeps what remains of the law; accepted answers make the stored state stale, raises
    and starts renew it.
   */
  lemma NextInMemory(s: System, e: Event)
    requires MemoryLawful(s) && Admissible(s, e)
    ensures var t := Next(InMemory, s, e);
            MemoryLawful(t) && (Stale(t) <==> !Stores(e) && (Accepts(InMemory, s, e) || Stale(s)))
  {
    hide Resumed, Removed, Raised, Stored, MemoryLawful, Knows;
    match e
    case RaiseEvent(q) => RaiseInMemoryIsLawful(s, q);
    case StoreEvent => StoreInMemoryIsLawful(s);
    case ResumeEvent(id, responses) =>
      if Resumed(InMemory, s, id, responses).Ok? { var _ := ResumeInMemory(s, id, responses); }
    case RemoveEvent(target, reason) =>
      if Removed(InMemory, s, target, reason).Ok? { var _ := RemoveInMemory(s, target, reason); }
  }

  /** An answer or a removal was accepted and no state was stored since. */
  predicate AnsweredSinceStore(s: System, events: seq<Event>, before: bool)
    decreases events
  {
    if events == [] then before
    else AnsweredSinceStore(Next(InMemory, s, events[0]), events[1..],
                            !Stores(events[0]) && (Accepts(InMemory, s, events[0]) || before))
  }

  /**
    Every run over the in-memory repository keeps the status in step with the stored pending id, and its
    stored state is stale exactly when an answer or removal was accepted since the engine last stored one.
   */
  lemma {:induction false} EveryMemoryState(s: System, events: seq<Event>)
    requires MemoryLawful(s) && AdmissibleRun(InMemory, s, events)
    ensures MemoryLawful(After(InMemory, s, events))
    ensures Stale(After(InMemory, s, events)) <==> AnsweredSinceStore(s, events, Stale(s))
    decreases events
  {
    if events == [] {
    } else {
      NextInMemory(s, events[0]);
      hide MemoryLawful, Next, Admissible, Stale, Accepts;
      EveryMemoryState(Next(InMemory, s, events[0]), events[1..]);
    }
  }

  /**
    With the in-memory repository the stored state does not follow, so the guard reads an old status:
    a request that was answered can still be removed, and changes from resolved to denied.
   */
  lemma AnsweredRequestCanBeRemovedInMemory(approval: Response)
    requires approval.requestId == "a" && approval.approved == Some(true)
    ensures var q := Request("a", "run", "qa", Pending, None);
            var raised := Raised(InMemory, System(EMPTY, NEW_RUN, []), q);
            var resumed := Resumed(InMemory, raised, "a", [approval]);
            resumed.Ok? && resumed.value.repo.requests == [q.(status := Resolved)]
            && var removed := Removed(InMemory, resumed.value, Some("a"), "late");
               removed.Ok? && removed.value.repo.requests == [q.(status := Denied, denialReason := Some("late"))]
  {
    var q := Request("a", "run", "qa", Pending, None);
    var raised := Raised(InMemory, System(EMPTY, NEW_RUN, []), q);
    assert Without([], "a") == [];
    assert [] + [q] == [q];
    assert raised.repo == RunState([q], [], Some("a"), 0)
           && raised.saved == Saved(raised.repo, Some("a"), AwaitingHitl);
    OneRequest(q);
    var t := Applied(InMemory, raised, [approval]);
    assert [approval][..0] == [] && Applied(InMemory, raised, []) == raised;
    assert t == RepoStep(InMemory, raised, Respond(approval));
    OneRestatused(q, Resolved, None);
    assert t.repo.requests == [q.(status := Resolved)] && t.saved == raised.saved;
    OneRequest(q.(status := Resolved));
    OneRestatused(q.(status := Resolved), Denied, Some("late"));
  }

  lemma OneRequest(q: Request)
    ensures FindRequest([q], q.id) == Some(q) && Knows([q], q.id)
  {
  }

  lemma OneRestatused(q: Request, status: RequestStatus, reason: Option<string>)
    ensures Restatused([q], q.id, status, reason, false) == [q.(status := status, denialReason := reason)]
  {
  }
}
