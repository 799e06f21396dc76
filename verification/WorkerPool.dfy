/** The pool of workers that processes the due sources. */
module WorkerPool {

  /** How the task of a source ends; a task that throws counts as failed. */
  datatype End = Succeeded | Failed | Skipped

  datatype Stats = Stats(totalDue: nat, processed: nat, succeeded: nat, failed: nat, skipped: nat)

  /** What a wait finds: tasks running and sources still queued. */
  datatype Wait = Wait(running: nat, queued: nat)

  function CountEnds(ends: nat -> End, tasks: set<nat>, e: End): nat {
    |set t | t in tasks && ends(t) == e|
  }

  /** The tasks that complete at a wait: any pick among the running ones, but at least one. */
  function Completing(pick: set<nat>, running: set<nat>): (done: set<nat>)
    requires running != {}
    ensures done != {} && done <= running
    ensures pick != {} && pick <= running ==> done == pick
  {
    if pick * running == {} then running else pick * running
  }

  function Upto(n: nat): set<nat> {
    if n == 0 then {} else Upto(n - 1) + {n - 1}
  }

  lemma {:induction false} UptoSize(n: nat)
    ensures |Upto(n)| == n && forall i: nat :: i in Upto(n) <==> i < n
    decreases n
  {
    if n == 0 {
    } else {
      UptoSize(n - 1);
    }
  }

  lemma {:induction false} EndsPartition(ends: nat -> End, tasks: set<nat>)
    ensures CountEnds(ends, tasks, Succeeded) + CountEnds(ends, tasks, Failed) + CountEnds(ends, tasks, Skipped)
            == |tasks|
    decreases tasks
  {
    if t :| t in tasks {
      EndsPartition(ends, tasks - {t});
      CountWith(ends, tasks - {t}, t);
      assert tasks - {t} + {t} == tasks;
    } else {
      NoEnds(ends);
    }
  }

  lemma NoEnds(ends: nat -> End)
    ensures forall e :: CountEnds(ends, {}, e) == 0
  {
  }

  lemma CountWith(ends: nat -> End, tasks: set<nat>, t: nat)
    requires t !in tasks
    ensures forall e :: CountEnds(ends, tasks + {t}, e) == CountEnds(ends, tasks, e) + if ends(t) == e then 1 else 0
  {
    forall e ensures CountEnds(ends, tasks + {t}, e) == CountEnds(ends, tasks, e) + if ends(t) == e then 1 else 0 {
      var before := set u | u in tasks && ends(u) == e;
      if ends(t) == e {
        assert (set u | u in tasks + {t} && ends(u) == e) == before + {t};
      } else {
        assert (set u | u in tasks + {t} && ends(u) == e) == before;
      }
    }
  }

  function Settled(stats: Stats, done: set<nat>, ends: nat -> End): Stats {
    stats.(succeeded := stats.succeeded + CountEnds(ends, done, Succeeded),
           failed := stats.failed + CountEnds(ends, done, Failed),
           skipped := stats.skipped + CountEnds(ends, done, Skipped))
  }

  /** Counts one task after the other, as each of them does when it ends. */
  method Settle(stats: Stats, done: set<nat>, ends: nat -> End) returns (r: Stats)
    ensures r == Settled(stats, done, ends)
  {
    hide CountEnds;
    r := stats;
    var left, settled := done, {};
    NoEnds(ends);
    while left != {}
      invariant left !! settled && left + settled == done
      invariant r == Settled(stats, settled, ends)
      decreases left
    {
      var t :| t in left;
      CountWith(ends, settled, t);
      match ends(t) {
        case Succeeded => r := r.(succeeded := r.succeeded + 1);
        case Failed => r := r.(failed := r.failed + 1);
        case Skipped => r := r.(skipped := r.skipped + 1);
      }
      left, settled := left - {t}, settled + {t};
    }
    assert settled == done;
  }

  // ----- the state of the pool

  /** The sources from the given one on, in the order of the query. */
  function Tail(due: nat, from: nat): (queue: seq<nat>)
    requires from <= due
    ensures |queue| == due - from
  {
    seq(due - from, i requires i >= 0 => from + i)
  }

  function Limit(workerLimit: int): nat {
    if workerLimit < 0 then 0 else workerLimit
  }

  /** Launched tasks are exactly the sources taken from the queue, in order; each is running or finished. */
  ghost predicate Lawful(due: nat, workerLimit: int, queue: seq<nat>, active: set<nat>, finished: set<nat>,
                         stats: Stats) {
    && |queue| <= due && queue == Tail(due, due - |queue|)
    && active !! finished && active + finished == Upto(due - |queue|)
    && |active| <= Limit(workerLimit)
    && stats.totalDue == due && stats.processed == due - |queue|
    && stats.processed == stats.succeeded + stats.failed + stats.skipped + |active|
  }

  lemma NextOfTail(due: nat, from: nat)
    requires from < due
    ensures Tail(due, from)[0] == from && Tail(due, from)[1..] == Tail(due, from + 1)
  {
  }

  lemma NextIsNew(from: nat)
    ensures from !in Upto(from) && Upto(from + 1) == Upto(from) + {from}
  {
    UptoSize(from);
  }

  lemma LaunchIsLawful(due: nat, workerLimit: int, queue: seq<nat>, active: set<nat>, finished: set<nat>, stats: Stats)
    requires Lawful(due, workerLimit, queue, active, finished, stats) && |active| < workerLimit && |queue| > 0
    ensures queue[0] !in active
    ensures Lawful(due, workerLimit, queue[1..], active + {queue[0]}, finished,
                   stats.(processed := stats.processed + 1))
  {
    var from := due - |queue|;
    NextOfTail(due, from);
    NextIsNew(from);
    hide Tail, Upto;
    assert active + {from} + finished == active + finished + {from};
  }

  lemma CompleteIsLawful(due: nat, workerLimit: int, queue: seq<nat>, active: set<nat>, finished: set<nat>,
                         stats: Stats,
                         done: set<nat>, ends: nat -> End)
    requires Lawful(due, workerLimit, queue, active, finished, stats) && done <= active
    ensures Lawful(due, workerLimit, queue, active - done, finished + done, Settled(stats, done, ends))
  {
    EndsPartition(ends, done);
    hide CountEnds, Upto, Tail;
    assert (active - done) + done == active;
    assert (active - done) + (finished + done) == active + finished;
  }

  class Pool {
    /** Sources are numbered in the order of the query; queue holds the ones not launched yet. */
    var queue: seq<nat>
    var active: set<nat>
    var stats: Stats
    const due: nat
    const workerLimit: int
    ghost var finished: set<nat>

    ghost predicate Valid()
      reads this
    {
      Lawful(due, workerLimit, queue, active, finished, stats)
    }

    constructor (due: nat, workerLimit: int)
      ensures Valid() && active == {} && finished == {} && |queue| == due
      ensures this.due == due && this.workerLimit == workerLimit && stats == Stats(due, 0, 0, 0, 0)
    {
      queue := Tail(due, 0);
      active, finished := {}, {};
      stats := Stats(due, 0, 0, 0, 0);
      this.due, this.workerLimit := due, workerLimit;
      new;
      assert Upto(0) == {};
    }

    /** Launches queued sources in order until the pool is full or the queue is empty. */
    method Refill()
      requires Valid()
      modifies this`queue, this`active, this`stats
      ensures Valid()
      ensures |active| == Limit(workerLimit) || queue == []
      ensures |queue| + |active| == old(|queue| + |active|) && |queue| <= old(|queue|)
      ensures stats == old(stats).(processed := stats.processed)
    {
      hide Tail, Upto;
      while |active| < workerLimit && |queue| > 0
        invariant Valid() && |queue| + |active| == old(|queue| + |active|) && |queue| <= old(|queue|)
        invariant stats == old(stats).(processed := stats.processed)
        decreases |queue|
      {
        LaunchIsLawful(due, workerLimit, queue, active, finished, stats);
        var next := queue[0];
        queue := queue[1..];
        stats := stats.(processed := stats.processed + 1);
        active := active + {next};
      }
    }

    method Complete(done: set<nat>, ends: nat -> End)
      requires Valid() && done <= active
      modifies this`active, this`stats, this`finished
      ensures Valid() && active == old(active) - done && finished == old(finished) + done
      ensures stats == Settled(old(stats), done, ends)
    {
      hide Lawful;
      CompleteIsLawful(due, workerLimit, queue, active, finished, stats, done, ends);
      stats := Settle(stats, done, ends);
      active, finished := active - done, finished + done;
    }
  }

  lemma CountUnion(ends: nat -> End, a: set<nat>, b: set<nat>, e: End)
    requires a !! b
    ensures CountEnds(ends, a + b, e) == CountEnds(ends, a, e) + CountEnds(ends, b, e)
  {
    var x, y := set t | t in a && ends(t) == e, set t | t in b && ends(t) == e;
    assert (set t | t in a + b && ends(t) == e) == x + y;
  }

  ghost predicate Tallied(stats: Stats, ends: nat -> End, finished: set<nat>) {
    && stats.succeeded == CountEnds(ends, finished, Succeeded)
    && stats.failed == CountEnds(ends, finished, Failed)
    && stats.skipped == CountEnds(ends, finished, Skipped)
  }

  lemma TalliedFurther(stats: Stats, ends: nat -> End, finished: set<nat>, done: set<nat>)
    requires Tallied(stats, ends, finished) && finished !! done
    ensures Tallied(Settled(stats, done, ends), ends, finished + done)
  {
    hide CountEnds;
    CountUnion(ends, finished, done, Succeeded);
    CountUnion(ends, finished, done, Failed);
    CountUnion(ends, finished, done, Skipped);
  }

  lemma NoTasks(ends: nat -> End)
    ensures forall e :: CountEnds(ends, {}, e) == 0
    ensures Upto(0) == {}
  {
  }

  lemma Shrinks(running: set<nat>, done: set<nat>)
    requires done != {} && done <= running
    ensures |running - done| < |running|
  {
  }

  /** The pool is full, or nothing is queued. */
  predicate IsBusy(w: Wait, workerLimit: int) {
    w.running <= workerLimit && (w.running == workerLimit || w.queued == 0)
  }

  /**
    Runs the job on so many due sources. With at least one worker every source is processed exactly
    once, and otherwise none is; the pool never exceeds its limit and never idles beside a queue.
   */
  method RunJob(due: nat, workerLimit: int, schedule: (nat, set<nat>) -> set<nat>, ends: nat -> End)
    returns (stats: Stats, waits: seq<Wait>)
    ensures stats.totalDue == due
    ensures stats.processed == stats.succeeded + stats.failed + stats.skipped
    ensures stats.processed == (if workerLimit >= 1 then due else 0)
    ensures workerLimit >= 1 ==> Tallied(stats, ends, Upto(due))
    ensures |waits| <= due && forall w | w in waits :: IsBusy(w, workerLimit)
  {
    hide CountEnds, Settled, Upto, Lawful, IsBusy, Completing, Limit;
    waits := [];
    NoTasks(ends);
    if due == 0 {
      return Stats(0, 0, 0, 0, 0), waits;
    }
    var pool := new Pool(due, workerLimit);
    pool.Refill();
    while pool.active != {}
      invariant pool.Valid() && pool.due == due && pool.workerLimit == workerLimit
      invariant |pool.active| == Limit(workerLimit) || pool.queue == []
      invariant |waits| + |pool.queue| + |pool.active| <= due && forall w | w in waits :: IsBusy(w, workerLimit)
      invariant Tallied(pool.stats, ends, pool.finished) && (workerLimit < 1 ==> pool.finished == {})
      decreases |pool.queue| + |pool.active|
    {
      waits := waits + [Wait(|pool.active|, |pool.queue|)];
      BusyNow(due, workerLimit, pool.queue, pool.active, pool.finished, pool.stats);
      var done := Completing(schedule(|waits|, pool.active), pool.active);
      Shrinks(pool.active, done);
      TalliedFurther(pool.stats, ends, pool.finished, done);
      pool.Complete(done, ends);
      pool.Refill();
    }
    stats := pool.stats;
    AtTheEnd(due, workerLimit, pool.queue, pool.finished, stats);
  }

  lemma BusyNow(due: nat, workerLimit: int, queue: seq<nat>, active: set<nat>, finished: set<nat>, stats: Stats)
    requires Lawful(due, workerLimit, queue, active, finished, stats) && active != {}
    requires |active| == Limit(workerLimit) || queue == []
    ensures IsBusy(Wait(|active|, |queue|), workerLimit) && workerLimit >= 1 && active !! finished
  {
  }

  lemma AtTheEnd(due: nat, workerLimit: int, queue: seq<nat>, finished: set<nat>, stats: Stats)
    requires Lawful(due, workerLimit, queue, {}, finished, stats)
    requires Limit(workerLimit) == 0 || queue == []
    requires workerLimit < 1 ==> finished == {}
    ensures workerLimit >= 1 ==> finished == Upto(due)
    ensures stats.processed == if workerLimit >= 1 then due else 0
    ensures stats.totalDue == due && stats.processed == stats.succeeded + stats.failed + stats.skipped
  {
  }
}
