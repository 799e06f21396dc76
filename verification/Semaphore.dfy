/** The counting semaphore in front of long-running routes, under every interleaving. */
module Semaphores {

  type Client = nat

  /**
    woken holds the waiters whose promise is resolved but who have not run yet; overtakes counts the
    acquisitions that took a permit meant for one of them. arrivals and wakes are the clients
    that ever had to wait and that were ever woken.
   */
  datatype State = State(capacity: nat, available: int, queue: seq<Client>, woken: set<Client>, holders: set<Client>,
                         overtakes: nat, arrivals: seq<Client>, wakes: seq<Client>)

  datatype Event = Acquire(client: Client) | Resume(client: Client) | Release(client: Client)

  /** The limit rounded down, and one for a limit below two; a limit of zero counts as none given. */
  function CapacityFor(limit: real): (capacity: nat)
    ensures capacity >= 1
    ensures limit >= 1.0 ==> capacity as real <= limit < capacity as real + 1.0
    ensures limit < 1.0 ==> capacity == 1
  {
    var floor := (if limit == 0.0 then 1.0 else limit).Floor;
    if floor < 1 then 1 else floor
  }

  function Initial(capacity: nat): State {
    State(capacity, capacity, [], {}, {}, 0, [], [])
  }

  predicate Present(s: State, c: Client) {
    c in s.queue || c in s.woken || c in s.holders
  }

  predicate Enabled(s: State, e: Event) {
    match e
    case Acquire(c) => !Present(s, c)
    case Resume(c) => c in s.woken
    case Release(c) => c in s.holders
  }

  function Next(s: State, e: Event): State
    requires Enabled(s, e)
  {
    match e
    case Acquire(c) =>
      if s.available > 0
      then s.(available := s.available - 1, holders := s.holders + {c},
              overtakes := s.overtakes + if s.available <= |s.woken| then 1 else 0)
      else s.(queue := s.queue + [c], arrivals := s.arrivals + [c])
    case Resume(c) =>
      s.(available := s.available - 1, woken := s.woken - {c}, holders := s.holders + {c})
    case Release(c) =>
      var available := if s.available + 1 > s.capacity then s.capacity else s.available + 1;
      if s.queue == [] then s.(available := available, holders := s.holders - {c})
      else s.(available := available, holders := s.holders - {c}, queue := s.queue[1..],
              woken := s.woken + {s.queue[0]}, wakes := s.wakes + [s.queue[0]])
  }

  // ----- the laws of every state

  ghost predicate Separate(s: State) {
    && (forall i, j | 0 <= i < j < |s.queue| :: s.queue[i] != s.queue[j])
    && (forall c | c in s.queue :: c !in s.woken && c !in s.holders)
    && s.woken !! s.holders
  }

  ghost predicate Lawful(s: State) {
    && Separate(s)
    // permits are conserved
    && s.available + |s.holders| == s.capacity
    // nobody waits while a permit is free that no woken waiter is about to take
    && (s.queue != [] ==> s.available <= |s.woken|)
    // waiters are woken in the order in which they arrived
    && s.wakes + s.queue == s.arrivals
    // more clients are in or on their way in than there are permits only after overtaking
    && |s.holders| + |s.woken| <= s.capacity + s.overtakes
  }

  lemma NextKeepsSeparate(s: State, e: Event)
    requires Separate(s) && Enabled(s, e)
    ensures Separate(Next(s, e))
  {
    var n := Next(s, e);
    match e
    case Acquire(c) =>
      forall d | d in n.queue ensures d !in n.woken && d !in n.holders {}
    case Resume(c) =>
    case Release(c) =>
      if s.queue != [] {
        var first := s.queue[0];
        forall d | d in s.queue[1..] ensures d != first && d in s.queue {
          var i :| 0 <= i < |s.queue[1..]| && s.queue[1..][i] == d;
          assert s.queue[i + 1] == d;
        }
      }
  }

  lemma NextIsLawful(s: State, e: Event)
    requires Lawful(s) && Enabled(s, e)
    ensures Lawful(Next(s, e))
  {
    NextKeepsSeparate(s, e);
    NextKeepsCounts(s, e);
    NextKeepsOrder(s, e);
    hide Separate;
  }

  lemma NextKeepsOrder(s: State, e: Event)
    requires s.wakes + s.queue == s.arrivals && Enabled(s, e)
    ensures Next(s, e).wakes + Next(s, e).queue == Next(s, e).arrivals
  {
  }

  lemma NextKeepsCounts(s: State, e: Event)
    requires Separate(s) && Enabled(s, e)
    ensures var n := Next(s, e);
            && |n.holders| == |s.holders| + (match e
                                             case Acquire(_) => (if s.available > 0 then 1 else 0)
                                             case Resume(_) => 1
                                             case Release(_) => -1)
            && |n.woken| == |s.woken| + (match e
                                         case Acquire(_) => 0
                                         case Resume(_) => -1
                                         case Release(_) => (if s.queue != [] then 1 else 0))
  {
  }

  // ----- runs

  ghost predicate IsRun(s: State, events: seq<Event>)
    decreases events
  {
    events == [] || (Enabled(s, events[0]) && IsRun(Next(s, events[0]), events[1..]))
  }

  ghost function After(s: State, events: seq<Event>): State
    requires IsRun(s, events)
    decreases events
  {
    if events == [] then s else After(Next(s, events[0]), events[1..])
  }

  lemma {:induction false} RunIsLawful(s: State, events: seq<Event>)
    requires Lawful(s) && IsRun(s, events)
    ensures Lawful(After(s, events)) && After(s, events).capacity == s.capacity
    ensures After(s, events).overtakes >= s.overtakes
    decreases events
  {
    if events == [] {
    } else {
      NextIsLawful(s, events[0]);
      RunIsLawful(Next(s, events[0]), events[1..]);
    }
  }

  /** No wake-up is lost: once everybody who got in has left, nobody is still waiting. */
  lemma NobodyIsForgotten(s: State)
    requires Lawful(s) && s.capacity >= 1 && s.holders == {} && s.woken == {}
    ensures s.queue == []
  {
  }

  /**
    The laws hold at every point of every run, without overtaking the capacity is respected, and
    nobody waits once everybody who got in has left.
   */
  lemma EveryRun(limit: real, events: seq<Event>)
    requires IsRun(Initial(CapacityFor(limit)), events)
    ensures var s := After(Initial(CapacityFor(limit)), events);
            && Lawful(s) && s.capacity == CapacityFor(limit) && (s.overtakes == 0 ==> |s.holders| <= s.capacity)
            && (s.holders == {} && s.woken == {} ==> s.queue == [])
  {
    RunIsLawful(Initial(CapacityFor(limit)), events);
    var s := After(Initial(CapacityFor(limit)), events);
    if s.holders == {} && s.woken == {} {
      NobodyIsForgotten(s);
    }
  }

  /** Clients are neither lost nor duplicated: only a release lets one go. */
  lemma ClientsAreConserved(s: State, e: Event, c: Client)
    requires Separate(s) && Enabled(s, e)
    ensures Present(Next(s, e), c) <==> if c == e.client then !e.Release? else Present(s, c)
  {
  }

  // ----- overbooking

  /** All the woken waiters run, in the given order, before anything else happens. */
  function Resumes(order: seq<Client>): seq<Event> {
    seq(|order|, i requires 0 <= i < |order| => Resume(order[i]))
  }

  ghost predicate IsOrder(order: seq<Client>, clients: set<Client>) {
    && (forall i, j | 0 <= i < j < |order| :: order[i] != order[j])
    && clients == set c | c in order
  }

  lemma TailIsOrder(order: seq<Client>, clients: set<Client>)
    requires order != [] && IsOrder(order, clients)
    ensures IsOrder(order[1..], clients - {order[0]}) && order[0] in clients
  {
  }

  lemma ResumesCons(order: seq<Client>)
    requires order != []
    ensures Resumes(order) == [Resume(order[0])] + Resumes(order[1..])
  {
  }

  /** t is s after all its woken waiters have run. */
  ghost predicate AllResumed(s: State, t: State) {
    t == s.(woken := {}, holders := s.holders + s.woken, available := s.available - |s.woken|)
  }

  lemma ResumeFirst(s: State, c: Client, t: State)
    requires c in s.woken && AllResumed(Next(s, Resume(c)), t)
    ensures AllResumed(s, t)
  {
  }

  lemma {:induction false} ResumeAll(s: State, order: seq<Client>)
    requires Lawful(s) && IsOrder(order, s.woken)
    ensures IsRun(s, Resumes(order)) && AllResumed(s, After(s, Resumes(order)))
    decreases order
  {
    if order == [] {
      assert s.woken == {};
      assert Resumes(order) == [];
      assert s.holders + {} == s.holders;
    } else {
      var e := Resume(order[0]);
      TailIsOrder(order, s.woken);
      NextIsLawful(s, e);
      hide Lawful, IsOrder, Resumes, IsRun, After, AllResumed;
      ResumeAll(Next(s, e), order[1..]);
      ResumesCons(order);
      OneStep(s, e, Resumes(order[1..]));
      ResumeFirst(s, order[0], After(Next(s, e), Resumes(order[1..])));
    }
  }

  /** Letting the woken waiters run exceeds the capacity exactly when fewer permits are left than they need. */
  lemma OverbookedIff(s: State, order: seq<Client>)
    requires Lawful(s) && IsOrder(order, s.woken)
    ensures IsRun(s, Resumes(order))
    ensures |After(s, Resumes(order)).holders| > s.capacity <==> s.available < |s.woken|
  {
    ResumeAll(s, order);
    RunIsLawful(s, Resumes(order));
  }

  /** One permit, three clients: the third takes the permit that the first one's release meant for the second. */
  lemma CapacityCanBeExceeded()
    ensures var events := [Acquire(1)] + ([Acquire(2)] + ([Release(1)] + ([Acquire(3)] + [Resume(2)])));
            && IsRun(Initial(1), events) && After(Initial(1), events).holders == {2, 3}
            && After(Initial(1), events).available == -1
  {
    hide IsRun, After;
    var s1 := Next(Initial(1), Acquire(1));
    var s2 := Next(s1, Acquire(2));
    var s3 := Next(s2, Release(1));
    assert s3 == State(1, 1, [], {2}, {}, 0, [2], [2]);
    var s4 := Next(s3, Acquire(3));
    assert s4 == State(1, 0, [], {2}, {3}, 1, [2], [2]);
    var s5 := Next(s4, Resume(2));
    assert s5.holders == {2, 3};
    LastStep(s4, Resume(2));
    OneStep(s3, Acquire(3), [Resume(2)]);
    OneStep(s2, Release(1), [Acquire(3)] + [Resume(2)]);
    OneStep(s1, Acquire(2), [Release(1)] + ([Acquire(3)] + [Resume(2)]));
    OneStep(Initial(1), Acquire(1), [Acquire(2)] + ([Release(1)] + ([Acquire(3)] + [Resume(2)])));
  }

  lemma OneStep(s: State, e: Event, rest: seq<Event>)
    requires Enabled(s, e) && IsRun(Next(s, e), rest)
    ensures IsRun(s, [e] + rest) && After(s, [e] + rest) == After(Next(s, e), rest)
  {
  }

  lemma LastStep(s: State, e: Event)
    requires Enabled(s, e)
    ensures IsRun(s, [e]) && After(s, [e]) == Next(s, e)
  {
  }

  // ----- the object

  class Semaphore {
    var available: int
    var queue: seq<Client>
    const capacity: nat
    ghost var woken: set<Client>
    ghost var holders: set<Client>
    ghost var overtakes: nat
    ghost var arrivals: seq<Client>
    ghost var wakes: seq<Client>

    ghost function View(): State
      reads this
    {
      State(capacity, available, queue, woken, holders, overtakes, arrivals, wakes)
    }

    constructor (limit: real)
      ensures View() == Initial(CapacityFor(limit)) && Lawful(View())
    {
      available := CapacityFor(limit);
      capacity := CapacityFor(limit);
      queue, woken, holders, overtakes, arrivals, wakes := [], {}, {}, 0, [], [];
    }

    function Used(): int
      reads this
    {
      capacity - available
    }

    /** acquire() up to its await: the permit is granted at once, or the client queues up. */
    method Acquire(c: Client) returns (granted: bool)
      requires Lawful(View()) && Enabled(View(), Event.Acquire(c))
      modifies this
      ensures View() == Next(old(View()), Event.Acquire(c)) && Lawful(View())
      ensures granted <==> c in holders
      ensures Used() == |holders|
    {
      NextIsLawful(View(), Event.Acquire(c));
      if available > 0 {
        if available <= |woken| {
          overtakes := overtakes + 1;
        }
        available := available - 1;
        holders := holders + {c};
        return true;
      }
      queue := queue + [c];
      arrivals := arrivals + [c];
      return false;
    }

    /** acquire() after its await. */
    method Resume(c: Client)
      requires Lawful(View()) && Enabled(View(), Event.Resume(c))
      modifies this
      ensures View() == Next(old(View()), Event.Resume(c)) && Lawful(View())
      ensures Used() == |holders|
    {
      NextIsLawful(View(), Event.Resume(c));
      available := available - 1;
      woken, holders := woken - {c}, holders + {c};
    }

    /** The cap on the permits never applies: they are all accounted for. */
    method Release(c: Client)
      requires Lawful(View()) && Enabled(View(), Event.Release(c))
      modifies this
      ensures View() == Next(old(View()), Event.Release(c)) && Lawful(View())
      ensures available == old(available) + 1
      ensures Used() == |holders|
    {
      NextIsLawful(View(), Event.Release(c));
      available := if available + 1 > capacity then capacity else available + 1;
      holders := holders - {c};
      if |queue| > 0 {
        var next := queue[0];
        queue := queue[1..];
        woken, wakes := woken + {next}, wakes + [next];
      }
    }
  }
}
