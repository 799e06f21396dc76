/**
  The engine's view of the operator requests of its run: what it refreshes after every change, which
  request it awaits, and what answered requests rule.
 */
module Inboxes {
  import opened Wrappers
  import opened Basics
  import opened Hitl
  import opened HitlService

  /**
    hitl is the engine's copy of the run's state, awaiting says that it waits for an answer, processed
    holds the answered requests it has dealt with, and limit is the request budget of the run.
   */
  datatype Inbox = Inbox(run: string, hitl: RunState, awaiting: bool, processed: set<string>, limit: int)

  /** A request that a specialist raises within a step. */
  datatype Ask = Ask(id: string, origin: string)

  /** How a rejection ends a run: it fails, or it only emits an event. */
  datatype Verdict = Failing | Emitting

  /** The first rejection that ends the run, if any, and the requests dealt with by then. */
  datatype Ruling = Ruling(verdict: Option<Verdict>, processed: set<string>)

  // ----- refreshing and signalling

  function PendingRecord(s: RunState): Option<Request> {
    if s.pending.Some? then FindRequest(s.requests, s.pending.value) else None
  }

  function Refreshed(b: Inbox, state: RunState): Inbox {
    b.(hitl := state, awaiting := b.awaiting && PendingRecord(state).Some?)
  }

  function Signalled(b: Inbox, record: Request, state: RunState): Inbox {
    Refreshed(b, state).(awaiting := record.status == Pending)
  }

  /** One raise, granted while the step's counter is below the limit. */
  function Asked(b: Inbox, ask: Ask, current: nat): Inbox {
    var request := RequestFor(ask.id, b.run, ask.origin, current < b.limit);
    var view := MemoryStep(b.hitl, Raise(request));
    if current < b.limit then Signalled(b, request, view) else Refreshed(b, view)
  }

  function AskedAll(b: Inbox, asks: seq<Ask>, current: nat): Inbox
    decreases asks
  {
    if asks == [] then b
    else AskedAll(Asked(b, asks[0], current), asks[1..], current + if current < b.limit then 1 else 0)
  }

  /** A step starts its counter at the requests that are not denied, and ends with a refresh. */
  function AfterStep(b: Inbox, asks: seq<Ask>): Inbox {
    var asked := AskedAll(b, asks, Accepted(b.hitl.requests));
    Refreshed(asked, asked.hitl)
  }

  // ----- answered requests

  function VerdictOf(r: Response): Option<Verdict> {
    var action := ParseAction(r);
    if action == Some(Resume) then None
    else if action == Some(Emit) then Some(Emitting)
    else Some(Failing)
  }

  /** A rejection of the request that ends the run. */
  function RejectionOf(hitl: RunState, id: string): Option<Verdict> {
    var decision := ResolveDecision(hitl, id);
    if decision.Some? && decision.value.Reject? then VerdictOf(decision.value.response) else None
  }

  /** What a rejection rules: nothing to resume, an event only to emit, and a failure in every other case. */
  ghost predicate RejectsWith(r: Response, verdict: Option<Verdict>) {
    && (verdict == Some(Emitting) <==> Rejects(r) && ActionSays(r, "emit"))
    && (verdict == None <==> !Rejects(r) || ActionSays(r, "resume") || ActionSays(r, "continue"))
  }

  lemma VerdictIsSaid(r: Response)
    ensures RejectsWith(r, if Rejects(r) then VerdictOf(r) else None)
  {
    ActionIsSaid(r);
    hide ParseAction;
  }

  /** In any state the ruling on a request is that of its last response, once the request is answered. */
  lemma RejectionIsOfLastResponse(hitl: RunState, id: string)
    ensures if exists k :: IsLastFor(hitl.responses, id, k) && IsAnswered(hitl.requests, id)
            then exists k :: IsLastFor(hitl.responses, id, k) && RejectsWith(hitl.responses[k], RejectionOf(hitl, id))
            else RejectionOf(hitl, id) == None
  {
    AnsweredIsFound(hitl.requests, id);
    LastOfResponses(hitl.responses, id);
    hide IsAnswered, FindRequest, ResponsesFor, Reading, VerdictOf, RejectsWith;
    if k :| IsLastFor(hitl.responses, id, k) && IsAnswered(hitl.requests, id) {
      var mine := ResponsesFor(hitl.responses, id);
      var last := mine[|mine| - 1];
      ReadingIsSaid(last);
      VerdictIsSaid(last);
      hide Rejects, Approves;
      var l :| IsLastFor(hitl.responses, id, l) && last == hitl.responses[l];
      assert RejectsWith(hitl.responses[l], RejectionOf(hitl, id));
    }
  }

  function Evaluate(requests: seq<Request>, hitl: RunState, processed: set<string>): Ruling
    decreases requests
  {
    if requests == [] then Ruling(None, processed)
    else
      var q := requests[0];
      if q.status != Resolved || q.id in processed then Evaluate(requests[1..], hitl, processed)
      else
        var verdict := RejectionOf(hitl, q.id);
        if verdict.Some? then Ruling(verdict, processed + {q.id})
        else Evaluate(requests[1..], hitl, processed + {q.id})
  }

  function Rule(b: Inbox): Ruling {
    Evaluate(b.hitl.requests, b.hitl, b.processed)
  }

  // ----- the start of a session

  function Loading(run: string, hitl: RunState, limit: int): Inbox {
    Inbox(run, hitl, PendingRecord(hitl).Some?, {}, limit)
  }

  /** The inbox a session starts with, when no answered request ends it at once. */
  function Opened(run: string, hitl: RunState, limit: int): Inbox {
    var b := Loading(run, hitl, limit);
    var ruled := b.(processed := Rule(b).processed);
    if PendingRecord(hitl).Some? then Signalled(ruled, PendingRecord(hitl).value, hitl) else ruled
  }

  // ----- the law of the inbox

  ghost predicate AllProcessed(hitl: RunState, processed: set<string>) {
    forall i | 0 <= i < |hitl.requests| :: hitl.requests[i].status == Resolved ==> hitl.requests[i].id in processed
  }

  /** The engine awaits an answer exactly while a request is pending, and has dealt with every answer. */
  ghost predicate Attentive(b: Inbox) {
    WellFormed(b.hitl) && (b.awaiting <==> b.hitl.pending.Some?) && AllProcessed(b.hitl, b.processed)
  }

  ghost predicate NonePending(hitl: RunState) {
    forall q | q in hitl.requests :: q.status != Pending
  }

  lemma {:induction false} FindsFirst(requests: seq<Request>, i: nat)
    requires DistinctIds(requests) && i < |requests|
    ensures FindRequest(requests, requests[i].id) == Some(requests[i])
    decreases requests
  {
    if i == 0 {
    } else {
      assert requests[0].id != requests[i].id;
      TailIsDistinct(requests);
      FindsFirst(requests[1..], i - 1);
    }
  }

  /** In a well-formed state the pending record is found, and it is pending. */
  lemma PendingIsFound(s: RunState)
    requires WellFormed(s)
    ensures PendingRecord(s).Some? <==> s.pending.Some?
    ensures s.pending.Some? ==> PendingRecord(s).value.status == Pending
  {
    if s.pending.Some? {
      var i :| 0 <= i < |s.requests| && s.requests[i].id == s.pending.value && s.requests[i].status == Pending;
      FindsFirst(s.requests, i);
    }
  }

  /** Awaiting an answer and having a pending request are the same. */
  lemma AwaitingIsPending(b: Inbox)
    requires Attentive(b)
    ensures b.awaiting <==> !NonePending(b.hitl)
  {
    if b.hitl.pending.Some? {
      var i :| 0 <= i < |b.hitl.requests| && b.hitl.requests[i].status == Pending;
      assert b.hitl.requests[i] in b.hitl.requests;
    }
  }

  // ----- raises within a step

  /** Ids of raises are new. */
  ghost predicate NewAsks(requests: seq<Request>, asks: seq<Ask>) {
    && (forall i | 0 <= i < |asks| :: !Knows(requests, asks[i].id))
    && (forall i, j | 0 <= i < j < |asks| :: asks[i].id != asks[j].id)
  }

  lemma NewTail(requests: seq<Request>, asks: seq<Ask>, q: Request)
    requires asks != [] && NewAsks(requests, asks) && q.id == asks[0].id
    ensures NewAsks(requests + [q], asks[1..])
  {
    forall i | 0 <= i < |asks[1..]| ensures !Knows(requests + [q], asks[1..][i].id) {
      assert !Knows(requests, asks[i + 1].id) && asks[0].id != asks[i + 1].id;
    }
  }

  /** Every raise keeps the law, grants exactly below the limit, and keeps the counter exact. */
  lemma AskKeepsAttentive(b: Inbox, ask: Ask, current: nat)
    requires Attentive(b) && !Knows(b.hitl.requests, ask.id) && current == Accepted(b.hitl.requests)
    ensures var b' := Asked(b, ask, current);
            var request := if current < b.limit then Request(ask.id, b.run, ask.origin, Pending, None)
                           else Request(ask.id, b.run, ask.origin, Denied, Some("Too many HITL requests"));
            && Attentive(b') && b'.hitl.requests == b.hitl.requests + [request]
            && Accepted(b'.hitl.requests) == current + (if current < b.limit then 1 else 0)
            && (b.awaiting ==> b'.awaiting) && b'.processed == b.processed && b'.limit == b.limit && b'.run == b.run
  {
    var request := RequestFor(ask.id, b.run, ask.origin, current < b.limit);
    RaiseIsWellFormed(b.hitl, request);
    RaiseCounts(b.hitl, request);
    PendingIsFound(MemoryStep(b.hitl, Raise(request)));
    hide MemoryStep, Accepted, PendingRecord, Knows, WellFormed;
  }

  lemma {:induction false} AsksKeepAttentive(b: Inbox, asks: seq<Ask>, current: nat)
    requires Attentive(b) && NewAsks(b.hitl.requests, asks) && current == Accepted(b.hitl.requests)
    ensures var b' := AskedAll(b, asks, current);
            && Attentive(b') && (b.awaiting ==> b'.awaiting)
            && b'.processed == b.processed && b'.limit == b.limit && b'.run == b.run
            && Accepted(b'.hitl.requests) <= Max(current, b.limit)
    decreases asks
  {
    hide Attentive, Asked, Accepted, NewAsks;
    if asks != [] {
      var request := RequestFor(asks[0].id, b.run, asks[0].origin, current < b.limit);
      FirstIsNew(b.hitl.requests, asks);
      AskKeepsAttentive(b, asks[0], current);
      NewTail(b.hitl.requests, asks, request);
      AsksKeepAttentive(Asked(b, asks[0], current), asks[1..], current + if current < b.limit then 1 else 0);
    }
  }

  lemma FirstIsNew(requests: seq<Request>, asks: seq<Ask>)
    requires asks != [] && NewAsks(requests, asks)
    ensures !Knows(requests, asks[0].id)
  {
  }

  /** A step keeps the law and the budget; a request that is pending stays awaited. */
  lemma StepKeepsAttentive(b: Inbox, asks: seq<Ask>)
    requires Attentive(b) && NewAsks(b.hitl.requests, asks)
    ensures var b' := AfterStep(b, asks);
            && Attentive(b') && (b.awaiting ==> b'.awaiting)
            && b'.processed == b.processed && b'.limit == b.limit && b'.run == b.run
            && Accepted(b'.hitl.requests) <= Max(Accepted(b.hitl.requests), b.limit)
            && (asks == [] ==> b' == b)
  {
    AsksKeepAttentive(b, asks, Accepted(b.hitl.requests));
    var asked := AskedAll(b, asks, Accepted(b.hitl.requests));
    PendingIsFound(asked.hitl);
    hide AskedAll, Accepted, PendingRecord;
    if asks == [] { NoAsks(b); }
  }

  lemma NoAsks(b: Inbox)
    ensures AskedAll(b, [], Accepted(b.hitl.requests)) == b
  {
  }

  // ----- an awaited request stays awaited, whatever ids are raised

  lemma {:induction false} FindAfterRaise(requests: seq<Request>, q: Request, id: string)
    requires FindRequest(requests, id).Some? || q.id == id
    ensures FindRequest(Without(requests, q.id) + [q], id).Some?
    decreases requests
  {
    if requests == [] {
      assert [] + [q] == [q];
    } else {
      var rest := Without(requests[1..], q.id);
      if requests[0].id == q.id {
        assert [] + rest == rest;
        if q.id == id { FoundAtEnd(rest, q); } else { FindAfterRaise(requests[1..], q, id); }
      } else {
        assert ([requests[0]] + rest) + [q] == [requests[0]] + (rest + [q]);
        if requests[0].id != id { FindAfterRaise(requests[1..], q, id); }
      }
    }
  }

  lemma {:induction false} FoundAtEnd(requests: seq<Request>, q: Request)
    ensures FindRequest(requests + [q], q.id).Some?
    decreases requests
  {
    if requests == [] {
      assert [] + [q] == [q];
    } else {
      assert (requests + [q])[1..] == requests[1..] + [q];
      FoundAtEnd(requests[1..], q);
    }
  }

  lemma {:induction false} AwaitedStays(b: Inbox, asks: seq<Ask>, current: nat)
    requires b.awaiting && PendingRecord(b.hitl).Some?
    ensures var b' := AskedAll(b, asks, current); b'.awaiting && PendingRecord(b'.hitl).Some?
    decreases asks
  {
    if asks == [] {
    } else {
      var request := RequestFor(asks[0].id, b.run, asks[0].origin, current < b.limit);
      FindAfterRaise(b.hitl.requests, request, if request.status == Pending then request.id else b.hitl.pending.value);
      hide Without, FindRequest;
      AwaitedStays(Asked(b, asks[0], current), asks[1..], current + if current < b.limit then 1 else 0);
    }
  }

  lemma AwaitedStaysAfterStep(b: Inbox, asks: seq<Ask>)
    requires b.awaiting && PendingRecord(b.hitl).Some?
    ensures AfterStep(b, asks).awaiting && PendingRecord(AfterStep(b, asks).hitl).Some?
  {
    hide AskedAll, PendingRecord, Accepted;
    AwaitedStays(b, asks, Accepted(b.hitl.requests));
  }

  // ----- rulings

  lemma {:induction false} NothingToRule(requests: seq<Request>, hitl: RunState, processed: set<string>)
    requires forall i | 0 <= i < |requests| :: requests[i].status == Resolved ==> requests[i].id in processed
    ensures Evaluate(requests, hitl, processed) == Ruling(None, processed)
    decreases requests
  {
    if requests == [] {
    } else {
      NothingToRule(requests[1..], hitl, processed);
    }
  }

  /** Once every answer is dealt with, evaluating again ends nothing: no run is rejected after a step. */
  lemma AttentiveRulesNothing(b: Inbox)
    requires Attentive(b)
    ensures Rule(b) == Ruling(None, b.processed)
  {
    NothingToRule(b.hitl.requests, b.hitl, b.processed);
  }

  /** Without a rejection that ends the run every answer is dealt with. */
  lemma {:induction false} EvaluateDealsWithAll(requests: seq<Request>, hitl: RunState, processed: set<string>)
    ensures var ruling := Evaluate(requests, hitl, processed);
            && processed <= ruling.processed
            && (ruling.verdict == None ==>
                  forall i | 0 <= i < |requests| ::
                    requests[i].status == Resolved ==> requests[i].id in ruling.processed)
    decreases requests
  {
    hide RejectionOf;
    if requests != [] {
      var q := requests[0];
      var now := if q.status != Resolved || q.id in processed then processed else processed + {q.id};
      EvaluateDealsWithAll(requests[1..], hitl, now);
    }
  }

  /** Request i is answered, not dealt with, and rejected in a way that ends the run. */
  ghost predicate Ends(requests: seq<Request>, hitl: RunState, processed: set<string>, i: nat) {
    && i < |requests| && requests[i].status == Resolved && requests[i].id !in processed
    && RejectionOf(hitl, requests[i].id).Some?
  }

  /** The first answered request whose rejection ends the run decides; without one all answers are dealt with. */
  lemma {:induction false} EvaluateFindsFirst(requests: seq<Request>, hitl: RunState, processed: set<string>)
    returns (k: nat)
    requires DistinctIds(requests)
    ensures var ruling := Evaluate(requests, hitl, processed);
            && k <= |requests|
            && (forall i | 0 <= i < k :: !Ends(requests, hitl, processed, i))
            && (if k == |requests| then
                  && ruling.verdict == None
                  && forall i | 0 <= i < |requests| ::
                       requests[i].status == Resolved ==> requests[i].id in ruling.processed
                else Ends(requests, hitl, processed, k) && ruling.verdict == RejectionOf(hitl, requests[k].id))
            && (forall i | 0 <= i < |requests| && i <= k ::
                  requests[i].status == Resolved ==> requests[i].id in ruling.processed)
            && processed <= ruling.processed
    decreases requests
  {
    hide RejectionOf;
    if requests == [] {
      k := 0;
    } else {
      var q, rest := requests[0], requests[1..];
      TailIsDistinct(requests);
      if q.status == Resolved && q.id !in processed && RejectionOf(hitl, q.id).Some? {
        k := 0;
      } else {
        var now := if q.status != Resolved || q.id in processed then processed else processed + {q.id};
        var l := EvaluateFindsFirst(rest, hitl, now);
        k := l + 1;
        forall i | 0 < i <= |rest| ensures Ends(requests, hitl, processed, i) <==> Ends(rest, hitl, now, i - 1) {
          if i < |requests| { assert requests[0].id != requests[i].id; }
        }
      }
    }
  }

  /** A session that no answered request ends starts attentive. */
  lemma OpenedIsAttentive(run: string, hitl: RunState, limit: int)
    requires WellFormed(hitl) && Rule(Loading(run, hitl, limit)).verdict == None
    ensures var b := Opened(run, hitl, limit); Attentive(b) && b.run == run && b.hitl == hitl && b.limit == limit
  {
    var k := EvaluateFindsFirst(hitl.requests, hitl, {});
    PendingIsFound(hitl);
    hide Evaluate, PendingRecord, WellFormed;
  }
}
