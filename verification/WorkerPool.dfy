/** The bounded pool of connection workers (crates/keyro-core/src/main.rs,
  `DevConnections`). */
module WorkerPool {
  import opened Wrappers

  const MAX_DEV_CONNECTIONS: nat := 8
  const U64_RANGE: nat := 0x1_0000_0000_0000_0000

  /** A thread, named by the order of spawning. */
  type Thread = nat

  /** The threads of the process: they end whenever they like and never come back. */
  class Threads {
    var live: set<Thread>
    var spawned: nat
    /** How many attempts to start a thread have failed. */
    ghost var failures: nat
    /** The live threads at every point so far. */
    ghost var history: seq<set<Thread>>

    constructor ()
      ensures live == {} && spawned == 0 && failures == 0 && history == []
    {
      live, spawned, failures, history := {}, 0, 0, [];
    }

    /** Some time passes. */
    method SomeEnd()
      modifies this
      ensures live <= old(live) && spawned == old(spawned) && failures == old(failures)
      ensures history == old(history) + [live]
    {
      var ended: set<Thread> := *;
      live := live - ended;
      history := history + [live];
    }

    method IsFinished(worker: Thread) returns (finished: bool)
      modifies this
      ensures live <= old(live) && spawned == old(spawned) && failures == old(failures)
      ensures history == old(history) + [live]
      ensures finished <==> worker !in live
    {
      SomeEnd();
      finished := worker !in live;
    }

    /** Starting a thread can fail. */
    method Spawn() returns (worker: Option<Thread>)
      modifies this
      ensures worker.Some? ==>
        && worker.value == old(spawned) && spawned == old(spawned) + 1 && failures == old(failures)
        && live == old(live) + {worker.value}
      ensures worker.None? ==> spawned == old(spawned) && failures == old(failures) + 1 && live == old(live)
      ensures history == old(history) + [live]
    {
      var starts: bool := *;
      worker := None;
      if starts {
        worker := Some(spawned);
        live, spawned := live + {spawned}, spawned + 1;
      } else {
        failures := failures + 1;
      }
      history := history + [live];
    }
  }

  function SwapRemove<T>(s: seq<T>, index: nat): seq<T>
    requires index < |s|
  {
    s[index := s[|s| - 1]][..|s| - 1]
  }

  /** The last element takes the place of the one that goes. */
  lemma {:induction false} SwapRemovePlaces<T>(s: seq<T>, index: nat)
    requires index < |s|
    ensures |SwapRemove(s, index)| == |s| - 1
    ensures forall i | 0 <= i < |s| - 1 :: SwapRemove(s, index)[i] == if i == index then s[|s| - 1] else s[i]
  {
  }

  /** One element goes, and every other stays; those before it stay in place. */
  lemma {:induction false} SwapRemoveTakesOne<T>(s: seq<T>, index: nat)
    requires index < |s|
    ensures var left := SwapRemove(s, index);
      left[..index] == s[..index] && multiset(left[index..]) + multiset{s[index]} == multiset(s[index..])
  {
    var tail := s[index..];
    var moved := tail[0 := s[|s| - 1]];
    assert moved == moved[..|tail| - 1] + [s[|s| - 1]];
    assert multiset(moved) == multiset(tail) - multiset{s[index]} + multiset{s[|s| - 1]};
    assert SwapRemove(s, index)[index..] == moved[..|tail| - 1];
  }

  ghost predicate Distinct<T>(s: seq<T>) {
    forall i, j | 0 <= i < j < |s| :: s[i] != s[j]
  }

  lemma {:induction false} SwapRemoveKeepsDistinct<T>(s: seq<T>, index: nat)
    requires index < |s| && Distinct(s)
    ensures Distinct(SwapRemove(s, index))
    ensures forall t :: t in SwapRemove(s, index) <==> t in s && t != s[index]
  {
    forall t | t in s && t != s[index]
      ensures t in SwapRemove(s, index)
    {
      var i :| 0 <= i < |s| && s[i] == t;
      assert SwapRemove(s, index)[if i == |s| - 1 then index else i] == t;
    }
  }

  /** One `is_finished` call and its answer. */
  datatype Check = Check(worker: Thread, finished: bool)

  function Checked(checks: seq<Check>): multiset<Thread> {
    if checks == [] then multiset{} else Checked(checks[..|checks| - 1]) + multiset{checks[|checks| - 1].worker}
  }

  function Unfinished(checks: seq<Check>): multiset<Thread> {
    if checks == [] then multiset{}
    else
      var last := checks[|checks| - 1];
      Unfinished(checks[..|checks| - 1]) + (if last.finished then multiset{} else multiset{last.worker})
  }

  lemma {:induction false} OneMoreCheck(checks: seq<Check>, c: Check)
    ensures Checked(checks + [c]) == Checked(checks) + multiset{c.worker}
    ensures Unfinished(checks + [c]) == Unfinished(checks) + if c.finished then multiset{} else multiset{c.worker}
  {
    assert (checks + [c])[..|checks|] == checks;
  }

  lemma {:induction false} DistinctAreMany(live: set<Thread>, workers: seq<Thread>)
    requires Distinct(workers) && forall t | t in workers :: t in live
    ensures |workers| <= |live|
  {
    if workers != [] {
      var last := |workers| - 1;
      DistinctAreMany(live - {workers[last]}, workers[..last]);
    }
  }

  /** The answers: a finished worker stays finished, and an unfinished one was live. */
  ghost predicate Told(checks: seq<Check>, before: set<Thread>, now: set<Thread>) {
    forall c | c in checks :: if c.finished then c.worker !in now else c.worker in before
  }

  lemma {:induction false} ToldMore(checks: seq<Check>, before: set<Thread>, earlier: set<Thread>, now: set<Thread>,
                                    c: Check)
    requires Told(checks, before, earlier) && now <= earlier <= before
    requires c.finished <==> c.worker !in now
    ensures Told(checks + [c], before, now)
  {
  }

  /** Where the reap loop stands: `all` workers are either checked or at `index` or
    later, and those found unfinished are the ones before it. */
  ghost predicate Reaping(checks: seq<Check>, workers: seq<Thread>, index: nat, all: multiset<Thread>) {
    && index <= |workers|
    && Checked(checks) + multiset(workers[index..]) == all
    && Unfinished(checks) == multiset(workers[..index])
  }

  lemma {:induction false} ReapFinished(checks: seq<Check>, workers: seq<Thread>, index: nat, all: multiset<Thread>)
    requires index < |workers| && Reaping(checks, workers, index, all)
    ensures Reaping(checks + [Check(workers[index], true)], SwapRemove(workers, index), index, all)
  {
    OneMoreCheck(checks, Check(workers[index], true));
    SwapRemoveTakesOne(workers, index);
  }

  lemma {:induction false} ReapUnfinished(checks: seq<Check>, workers: seq<Thread>, index: nat, all: multiset<Thread>)
    requires index < |workers| && Reaping(checks, workers, index, all)
    ensures Reaping(checks + [Check(workers[index], false)], workers, index + 1, all)
  {
    OneMoreCheck(checks, Check(workers[index], false));
    OneMoreBefore(workers, index);
  }

  lemma {:induction false} OneMoreBefore(workers: seq<Thread>, index: nat)
    requires index < |workers|
    ensures multiset(workers[index..]) == multiset{workers[index]} + multiset(workers[index + 1..])
    ensures multiset(workers[..index + 1]) == multiset(workers[..index]) + multiset{workers[index]}
  {
    assert workers[index..] == [workers[index]] + workers[index + 1..];
    assert workers[..index + 1] == workers[..index] + [workers[index]];
  }

  lemma {:induction false} ReapEnd(checks: seq<Check>, workers: seq<Thread>, all: multiset<Thread>, live: set<Thread>,
                                   now: set<Thread>)
    requires Reaping(checks, workers, |workers|, all)
    requires Told(checks, live, now)
    ensures Checked(checks) == all && Unfinished(checks) == multiset(workers)
    ensures forall t | t in workers :: t in live
  {
    assert workers[..|workers|] == workers;
    forall t | t in workers
      ensures t in live
    {
      assert t in multiset(workers);
      WasUnfinished(checks, t);
    }
  }

  lemma {:induction false} WasUnfinished(checks: seq<Check>, t: Thread)
    requires t in Unfinished(checks)
    ensures Check(t, false) in checks
  {
    var last := checks[|checks| - 1];
    if last != Check(t, false) {
      WasUnfinished(checks[..|checks| - 1], t);
    }
  }

  /** Threads that are all in a list are no more than the list is long. */
  lemma {:induction false} ListedAreFew(live: set<Thread>, workers: seq<Thread>)
    requires forall t | t in live :: t in workers
    ensures |live| <= |workers|
  {
    if workers != [] {
      var last := |workers| - 1;
      ListedAreFew(live - {workers[last]}, workers[..last]);
    }
  }

  /** The handles of all live threads are in the list, which has room for 8. */
  ghost predicate Tracks(workers: seq<Thread>, live: set<Thread>, spawned: nat) {
    && |workers| <= MAX_DEV_CONNECTIONS && Distinct(workers)
    && (forall t | t in live :: t in workers)
    && (forall t | t in workers :: t < spawned)
  }

  lemma {:induction false} TracksSpawned(workers: seq<Thread>, live: set<Thread>, spawned: nat)
    requires Tracks(workers, live, spawned) && |workers| < MAX_DEV_CONNECTIONS
    ensures Tracks(workers + [spawned], live + {spawned}, spawned + 1)
    ensures |live| <= |live + {spawned}| <= MAX_DEV_CONNECTIONS
  {
    ListedAreFew(live, workers);
    assert forall i | 0 <= i < |workers| :: workers[i] in workers;
  }

  datatype Accepted = Handling(connection: nat) | Refused | SpawnFailed

  /** At no point so far were there more than 8 live threads; the last point is now. */
  ghost predicate AtMostEight(history: seq<set<Thread>>, live: set<Thread>) {
    && (if history == [] then live == {} else history[|history| - 1] == live)
    && (forall i | 0 <= i < |history| :: |history[i]| <= MAX_DEV_CONNECTIONS)
  }

  /** At some point 8 threads were live. */
  ghost predicate WasFull(history: seq<set<Thread>>) {
    exists i | 0 <= i < |history| :: |history[i]| == MAX_DEV_CONNECTIONS
  }

  lemma {:induction false} StillWasFull(before: seq<set<Thread>>, history: seq<set<Thread>>)
    requires before <= history && WasFull(before)
    ensures WasFull(history)
  {
    var i :| 0 <= i < |before| && |before[i]| == MAX_DEV_CONNECTIONS;
    assert history[i] == before[i];
  }

  /** If 8 workers are unfinished, there were 8 when the reaping began. */
  lemma {:induction false} FullOnArrival(workers: seq<Thread>, listed: seq<Thread>, live: set<Thread>,
                                         before: seq<set<Thread>>, history: seq<set<Thread>>)
    requires Distinct(workers) && |workers| >= MAX_DEV_CONNECTIONS && forall t | t in workers :: t in live
    requires |listed| <= MAX_DEV_CONNECTIONS && forall t | t in live :: t in listed
    requires (if before == [] then live == {} else before[|before| - 1] == live) && before <= history
    ensures |workers| == MAX_DEV_CONNECTIONS == |live| && WasFull(history)
  {
    DistinctAreMany(live, workers);
    ListedAreFew(live, listed);
    assert |before[|before| - 1]| == MAX_DEV_CONNECTIONS;
    StillWasFull(before, history);
  }

  function Started(outcomes: seq<Accepted>): nat {
    if outcomes == [] then 0
    else Started(outcomes[..|outcomes| - 1]) + (if outcomes[|outcomes| - 1].Handling? then 1 else 0)
  }

  function Failed(outcomes: seq<Accepted>): nat {
    if outcomes == [] then 0
    else Failed(outcomes[..|outcomes| - 1]) + (if outcomes[|outcomes| - 1].SpawnFailed? then 1 else 0)
  }

  lemma {:induction false} OneMoreOutcome(outcomes: seq<Accepted>, outcome: Accepted)
    ensures Started(outcomes + [outcome]) == Started(outcomes) + (if outcome.Handling? then 1 else 0)
    ensures Failed(outcomes + [outcome]) == Failed(outcomes) + (if outcome.SpawnFailed? then 1 else 0)
  {
    assert (outcomes + [outcome])[..|outcomes|] == outcomes;
  }

  class DevConnections {
    const threads: Threads
    var workers: seq<Thread>
    var nextId: nat

    /** Every live thread can still be joined, no thread is listed twice, and at no
      point so far were there more than 8 live threads. */
    ghost predicate Valid()
      reads this, threads
    {
      && nextId < U64_RANGE
      && Tracks(workers, threads.live, threads.spawned)
      && AtMostEight(threads.history, threads.live)
    }

    constructor (threads: Threads)
      requires threads.live == {} && threads.history == []
      ensures Valid() && this.threads == threads && workers == [] && nextId == 0
    {
      this.threads, workers, nextId := threads, [], 0;
    }

    /** Joins the workers that are found finished. Each worker is checked once, though
      the list is reordered, and those found unfinished are exactly the ones kept. */
    method Reap() returns (ghost checks: seq<Check>)
      requires Valid()
      modifies this, threads
      ensures Valid() && threads.live <= old(threads.live)
      ensures threads.spawned == old(threads.spawned) && threads.failures == old(threads.failures)
      ensures nextId == old(nextId)
      ensures old(threads.history) <= threads.history
      ensures Checked(checks) == multiset(old(workers))
      ensures multiset(workers) == Unfinished(checks)
      ensures Told(checks, old(threads.live), threads.live)
      ensures forall t | t in workers :: t in old(threads.live)
    {
      checks := [];
      var index: nat := 0;
      while index < |workers|
        invariant Valid() && index <= |workers| && Reaping(checks, workers, index, multiset(old(workers)))
        invariant threads.live <= old(threads.live) && nextId == old(nextId)
        invariant threads.spawned == old(threads.spawned) && threads.failures == old(threads.failures)
        invariant old(threads.history) <= threads.history
        invariant Told(checks, old(threads.live), threads.live)
        decreases |workers| - index
      {
        index, checks := ReapAt(index, checks, multiset(old(workers)), old(threads.live));
      }
      ReapEnd(checks, workers, multiset(old(workers)), old(threads.live), threads.live);
    }

    /** One round of the loop: checks a worker, and joins it if it is finished. */
    method ReapAt(index: nat, ghost checks: seq<Check>, ghost all: multiset<Thread>, ghost before: set<Thread>)
      returns (next: nat, ghost more: seq<Check>)
      requires Valid() && index < |workers| && Reaping(checks, workers, index, all)
      requires threads.live <= before && Told(checks, before, threads.live)
      modifies this, threads
      ensures Valid() && Reaping(more, workers, next, all) && Told(more, before, threads.live)
      ensures threads.live <= old(threads.live) && old(threads.history) <= threads.history
      ensures threads.spawned == old(threads.spawned) && threads.failures == old(threads.failures)
      ensures nextId == old(nextId) && |workers| - next < |old(workers)| - index
    {
      var finished := threads.IsFinished(workers[index]);
      ListedAreFew(threads.live, workers);
      ToldMore(checks, before, old(threads.live), threads.live, Check(workers[index], finished));
      more := checks + [Check(workers[index], finished)];
      if finished {
        ReapFinished(checks, workers, index, all);
        SwapRemoveKeepsDistinct(workers, index);
        workers, next := SwapRemove(workers, index), index;
      } else {
        ReapUnfinished(checks, workers, index, all);
        next := index + 1;
      }
    }

    /** A connection is refused only if 8 threads were live when it arrived; any other
      makes one attempt to start a worker, and is handled if that starts. */
    method Accept() returns (r: Accepted)
      requires Valid()
      modifies this, threads
      ensures Valid() && old(threads.history) <= threads.history
      ensures r.Refused? ==>
        && |workers| == MAX_DEV_CONNECTIONS == |old(threads.live)|
        && (forall t | t in workers :: t in old(threads.live))
        && nextId == old(nextId)
        && threads.spawned == old(threads.spawned) && threads.failures == old(threads.failures)
        && WasFull(threads.history)
      ensures r.Handling? ==>
        && threads.spawned == old(threads.spawned) + 1 && threads.failures == old(threads.failures)
        && workers != [] && workers[|workers| - 1] == old(threads.spawned) && old(threads.spawned) in threads.live
      ensures r.SpawnFailed? ==>
        threads.spawned == old(threads.spawned) && threads.failures == old(threads.failures) + 1
      ensures !r.Refused? ==> nextId == (old(nextId) + 1) % U64_RANGE
      ensures r.Handling? ==> r.connection == old(nextId)
    {
      ghost var checks := Reap();
      if |workers| >= MAX_DEV_CONNECTIONS {
        FullOnArrival(workers, old(workers), old(threads.live), old(threads.history), threads.history);
        return Refused;
      }
      var connectionId := nextId;
      nextId := (nextId + 1) % U64_RANGE;
      TracksSpawned(workers, threads.live, threads.spawned);
      var worker := threads.Spawn();
      if worker.Some? {
        workers := workers + [worker.value];
      }
      r := if worker.Some? then Handling(connectionId) else SpawnFailed;
    }

    /** Threads end between two arrivals, too. */
    method TimePasses()
      requires Valid()
      modifies threads
      ensures Valid() && old(threads.history) <= threads.history && threads.live <= old(threads.live)
      ensures threads.spawned == old(threads.spawned) && threads.failures == old(threads.failures)
    {
      threads.SomeEnd();
      ListedAreFew(threads.live, workers);
    }

    /** Any run of arrivals and terminations: at no point of it are more than 8 threads
      live, every live thread can be joined afterwards, and the workers started are those
      of the connections handled, the failed attempts those of the others not refused.
      If one was refused, 8 were live at some point. */
    method Run(steps: seq<Step>) returns (outcomes: seq<Accepted>)
      requires Valid()
      modifies this, threads
      ensures Valid() && old(threads.history) <= threads.history
      ensures forall i | 0 <= i < |threads.history| :: |threads.history[i]| <= MAX_DEV_CONNECTIONS
      ensures forall t | t in threads.live :: t in workers
      ensures |outcomes| == Arrivals(steps, |steps|)
      ensures threads.spawned == old(threads.spawned) + Started(outcomes)
      ensures threads.failures == old(threads.failures) + Failed(outcomes)
      ensures Refused in outcomes ==> WasFull(threads.history)
    {
      outcomes := [];
      for k := 0 to |steps|
        invariant Valid() && old(threads.history) <= threads.history
        invariant |outcomes| == Arrivals(steps, k)
        invariant threads.spawned == old(threads.spawned) + Started(outcomes)
        invariant threads.failures == old(threads.failures) + Failed(outcomes)
        invariant Refused in outcomes ==> WasFull(threads.history)
      {
        ghost var before := threads.history;
        if steps[k] == Arrival {
          var outcome := Accept();
          OneMoreOutcome(outcomes, outcome);
          outcomes := outcomes + [outcome];
        } else {
          TimePasses();
        }
        if WasFull(before) {
          StillWasFull(before, threads.history);
        }
      }
    }
  }

  datatype Step = Arrival | Passing

  function Arrivals(steps: seq<Step>, k: nat): nat
    requires k <= |steps|
  {
    if k == 0 then 0 else Arrivals(steps, k - 1) + (if steps[k - 1] == Arrival then 1 else 0)
  }
}
