/** One trial of `runTestsMonkey` / `runTestsTBB` (main.cpp): construct a fresh
    map, read the clock, spawn one putter and `numThreads` getters on it, join
    them all, read the clock again, then delete the map and the threads. Threads
    become spawn, join and delete events; the clock becomes an elapsed time given
    as input; each thread's work is its workload's log. */
module Trials {
  import opened RandomStrings
  import opened Workloads

  /** A thread of a trial. The getters carry the `me` argument they are given, `i+1`. */
  datatype Thread = PutterThread | GetterThread(me: nat)

  /** What the runner does to a thread. */
  datatype Action = Spawn | Join | Delete

  datatype Event =
    | NewMap(construction: Construction)
    | ClockStart
    | ThreadEvent(action: Action, thread: Thread)
    | ClockStop(elapsedMs: int)
    | DeleteMap

  /** The getters of a trial with `readers` getters, in spawn order. */
  function Getters(readers: nat): seq<Thread> {
    seq(readers, i requires 0 <= i < readers => GetterThread(i + 1))
  }

  /** All threads of the trial: the putter, then the getters. */
  function Threads(readers: nat): (ts: seq<Thread>)
    ensures |ts| == readers + 1
  {
    [PutterThread] + Getters(readers)
  }

  /** `action` applied to each of `ts`, in order. */
  function Apply(action: Action, ts: seq<Thread>): seq<Event> {
    seq(|ts|, i requires 0 <= i < |ts| => ThreadEvent(action, ts[i]))
  }

  /** Index of the clock reading that ends the timed window. */
  function StopIndex(readers: nat): nat {
    4 + 2 * readers
  }

  /** The order of the runner's steps in one trial: construct the map, start
      the clock, spawn the putter and the `readers` getters, join them, stop the
      clock, delete the map, delete the threads. That is `3 * readers + 7` steps;
      `TrialEventAt` gives each one's position. */
  function TrialEvents(c: Construction, readers: nat, elapsedMs: int): seq<Event> {
    [NewMap(c), ClockStart]
    + Apply(Spawn, Threads(readers))
    + Apply(Join, Threads(readers))
    + [ClockStop(elapsedMs), DeleteMap]
    + Apply(Delete, Threads(readers))
  }

  /** What one trial records: the events of the runner, the insertion calls the
      putter issued, and the traversal steps of each getter. */
  datatype Trial = Trial(readers: nat, events: seq<Event>, puts: seq<MapCall>, scans: seq<seq<nat>>)

  /** The inputs standing for what the model cannot compute for one trial: the
      `rand()` draws the putter consumes, the sizes each getter's traversals see,
      and the elapsed milliseconds the clock reports. */
  datatype Observation = Observation(keyDraws: seq<nat>, scanSizes: seq<seq<nat>>, elapsedMs: int)

  /** The inputs cover the whole trial. */
  predicate Sufficient(obs: Observation, readers: nat, iter: int) {
    && Width(iter) * KeySize <= |obs.keyDraws|
    && readers <= |obs.scanSizes|
    && forall g :: 0 <= g < readers ==> Traversals <= |obs.scanSizes[g]|
  }

  /** `t` is what a trial of `impl` with `readers` getters produces from `obs`. */
  predicate IsTrialOf(t: Trial, impl: MapImpl, readers: nat, iter: int, obs: Observation)
    requires Sufficient(obs, readers, iter)
  {
    && t.readers == readers
    && t.events == TrialEvents(MapFor(impl, iter), readers, obs.elapsedMs)
    && t.puts == PutLog(impl, Width(iter), obs.keyDraws)
    && |t.scans| == readers
    && forall g :: 0 <= g < readers ==> t.scans[g] == obs.scanSizes[g][..Traversals]
  }

  /** Inside the timed window, opened by `ClockStart` at `start` and closed by
      `ClockStop` at `stop`, every thread is spawned and then joined; no thread is
      spawned outside it. */
  ghost predicate JoinBarrier(ev: seq<Event>, start: nat, stop: nat) {
    && start < stop < |ev|
    && ev[start] == ClockStart
    && ev[stop].ClockStop?
    && forall p :: 0 <= p < |ev| && ev[p].ThreadEvent? && ev[p].action == Spawn ==>
         start < p < stop
         && exists q :: p < q < stop && ev[q] == ThreadEvent(Join, ev[p].thread)
  }

  /** The trial's map is constructed by its first step and deleted right after the
      clock stops; no other step constructs or deletes a map. */
  ghost predicate MapScoped(ev: seq<Event>, stop: nat) {
    && stop + 1 < |ev|
    && ev[0].NewMap?
    && ev[stop + 1] == DeleteMap
    && forall p :: 0 < p < |ev| ==> !ev[p].NewMap? && (ev[p] == DeleteMap ==> p == stop + 1)
  }

  /** The threads an event log applies `action` to, in order. */
  function ThreadsWith(action: Action, ev: seq<Event>): seq<Thread> {
    if |ev| == 0 then []
    else
      ThreadsWith(action, ev[..|ev| - 1])
      + (if ev[|ev| - 1].ThreadEvent? && ev[|ev| - 1].action == action
         then [ev[|ev| - 1].thread] else [])
  }

  // ---------------------------------------------------------------- lemmas

  lemma {:induction false} ThreadsWithAppend(action: Action, a: seq<Event>, b: seq<Event>)
    ensures ThreadsWith(action, a + b) == ThreadsWith(action, a) + ThreadsWith(action, b)
  {
    if |b| == 0 {
      assert a + b == a;
    } else {
      ThreadsWithAppend(action, a, b[..|b| - 1]);
      assert (a + b)[..|a + b| - 1] == a + b[..|b| - 1];
    }
  }

  lemma {:induction false} ThreadsWithApply(action: Action, other: Action, ts: seq<Thread>)
    ensures ThreadsWith(action, Apply(other, ts)) == if action == other then ts else []
  {
    if |ts| > 0 {
      ThreadsWithApply(action, other, ts[..|ts| - 1]);
      assert Apply(other, ts)[..|ts| - 1] == Apply(other, ts[..|ts| - 1]);
    }
  }

  lemma ThreadsWithPair(action: Action, x: Event, y: Event)
    requires !x.ThreadEvent? && !y.ThreadEvent?
    ensures ThreadsWith(action, [x, y]) == []
  {
    assert [x, y][..1] == [x];
    assert [x][..0] == [];
    assert ThreadsWith(action, [x]) == [];
  }

  lemma ThreadsWithFive(action: Action, a: seq<Event>, b: seq<Event>, c: seq<Event>, d: seq<Event>, e: seq<Event>)
    ensures ThreadsWith(action, a + b + c + d + e)
         == ThreadsWith(action, a) + ThreadsWith(action, b) + ThreadsWith(action, c)
            + ThreadsWith(action, d) + ThreadsWith(action, e)
  {
    ThreadsWithAppend(action, a + b + c + d, e);
    ThreadsWithAppend(action, a + b + c, d);
    ThreadsWithAppend(action, a + b, c);
    ThreadsWithAppend(action, a, b);
  }

  lemma ThreadsWithTrialEvents(action: Action, c: Construction, readers: nat, elapsedMs: int)
    ensures ThreadsWith(action, TrialEvents(c, readers, elapsedMs)) == Threads(readers)
  {
    var ts := Threads(readers);
    var start, stop := [NewMap(c), ClockStart], [ClockStop(elapsedMs), DeleteMap];
    var spawns, joins, deletes := Apply(Spawn, ts), Apply(Join, ts), Apply(Delete, ts);
    var only := (a: Action) => if action == a then ts else [];
    assert TrialEvents(c, readers, elapsedMs) == start + spawns + joins + stop + deletes;
    assert ThreadsWith(action, start) == [] by { ThreadsWithPair(action, NewMap(c), ClockStart); }
    assert ThreadsWith(action, stop) == [] by { ThreadsWithPair(action, ClockStop(elapsedMs), DeleteMap); }
    assert ThreadsWith(action, spawns) == only(Spawn) by { ThreadsWithApply(action, Spawn, ts); }
    assert ThreadsWith(action, joins) == only(Join) by { ThreadsWithApply(action, Join, ts); }
    assert ThreadsWith(action, deletes) == only(Delete) by { ThreadsWithApply(action, Delete, ts); }
    ThreadsWithFive(action, start, spawns, joins, stop, deletes);
  }

  /** A trial spawns exactly the putter and `readers` getters, joins exactly those
      threads and deletes exactly those threads, each in the same order. */
  lemma TrialThreads(c: Construction, readers: nat, elapsedMs: int)
    ensures var ev := TrialEvents(c, readers, elapsedMs);
      && ThreadsWith(Spawn, ev) == Threads(readers)
      && ThreadsWith(Join, ev) == Threads(readers)
      && ThreadsWith(Delete, ev) == Threads(readers)
      && |Threads(readers)| == readers + 1
  {
    ThreadsWithTrialEvents(Spawn, c, readers, elapsedMs);
    ThreadsWithTrialEvents(Join, c, readers, elapsedMs);
    ThreadsWithTrialEvents(Delete, c, readers, elapsedMs);
  }

  /** Position of every step of a trial. */
  lemma TrialEventAt(c: Construction, readers: nat, elapsedMs: int, p: nat)
    requires p < 3 * readers + 7
    ensures var ev := TrialEvents(c, readers, elapsedMs);
      && |ev| == 3 * readers + 7
      && ev[p] == (
        if p == 0 then NewMap(c)
        else if p == 1 then ClockStart
        else if p == 2 then ThreadEvent(Spawn, PutterThread)
        else if p < 3 + readers then ThreadEvent(Spawn, GetterThread(p - 2))
        else if p == 3 + readers then ThreadEvent(Join, PutterThread)
        else if p < 4 + 2 * readers then ThreadEvent(Join, GetterThread(p - 3 - readers))
        else if p == 4 + 2 * readers then ClockStop(elapsedMs)
        else if p == 5 + 2 * readers then DeleteMap
        else if p == 6 + 2 * readers then ThreadEvent(Delete, PutterThread)
        else ThreadEvent(Delete, GetterThread(p - 6 - 2 * readers)))
  {
  }

  /** The clock that times a trial starts before any thread is spawned and stops
      only after every spawned thread has been joined. */
  lemma TrialJoinBarrier(c: Construction, readers: nat, elapsedMs: int)
    ensures JoinBarrier(TrialEvents(c, readers, elapsedMs), 1, StopIndex(readers))
  {
    var ev := TrialEvents(c, readers, elapsedMs);
    var stop := StopIndex(readers);
    TrialEventAt(c, readers, elapsedMs, 1);
    TrialEventAt(c, readers, elapsedMs, stop);
    forall p | 0 <= p < |ev| && ev[p].ThreadEvent? && ev[p].action == Spawn
      ensures 1 < p < stop
      ensures exists q :: p < q < stop && ev[q] == ThreadEvent(Join, ev[p].thread)
    {
      TrialEventAt(c, readers, elapsedMs, p);
      var q := p + readers + 1;
      TrialEventAt(c, readers, elapsedMs, q);
      assert ev[q] == ThreadEvent(Join, ev[p].thread);
    }
  }

  /** Each trial owns exactly one map, constructed first and deleted once the
      clock has stopped, so no map outlives its trial. */
  lemma TrialMapScoped(c: Construction, readers: nat, elapsedMs: int)
    ensures MapScoped(TrialEvents(c, readers, elapsedMs), StopIndex(readers))
  {
    var ev := TrialEvents(c, readers, elapsedMs);
    TrialEventAt(c, readers, elapsedMs, 0);
    TrialEventAt(c, readers, elapsedMs, StopIndex(readers) + 1);
    forall p | 0 < p < |ev|
      ensures !ev[p].NewMap? && (ev[p] == DeleteMap ==> p == StopIndex(readers) + 1)
    {
      TrialEventAt(c, readers, elapsedMs, p);
    }
  }

  /** One trial: the steps of main.cpp in order, with the putter's and the
      getters' work taken from their workloads. */
  method RunTrial(impl: MapImpl, readers: nat, iter: int, obs: Observation) returns (t: Trial)
    requires Sufficient(obs, readers, iter)
    ensures IsTrialOf(t, impl, readers, iter, obs)
  {
    var c := MapFor(impl, iter);
    var events := [NewMap(c), ClockStart];
    // the putter thread
    events := events + [ThreadEvent(Spawn, PutterThread)];
    assert Apply(Spawn, Threads(0)) == [ThreadEvent(Spawn, PutterThread)];
    var puts := Putter(impl, iter, obs.keyDraws);
    // the getter threads
    var scans: seq<seq<nat>> := [];
    var i := 0;
    while i < readers
      invariant i <= readers
      invariant events == [NewMap(c), ClockStart] + Apply(Spawn, Threads(i))
      invariant |scans| == i
      invariant forall g :: 0 <= g < i ==> scans[g] == obs.scanSizes[g][..Traversals]
    {
      LogSnoc([NewMap(c), ClockStart], Spawn, i);
      events := events + [ThreadEvent(Spawn, GetterThread(i + 1))];
      var steps := Getter(obs.scanSizes[i]);
      scans := scans + [steps];
      i := i + 1;
    }
    var spawned := events;
    events := events + [ThreadEvent(Join, PutterThread)];
    assert Apply(Join, Threads(0)) == [ThreadEvent(Join, PutterThread)];
    i := 0;
    while i < readers
      invariant i <= readers
      invariant events == spawned + Apply(Join, Threads(i))
    {
      LogSnoc(spawned, Join, i);
      events := events + [ThreadEvent(Join, GetterThread(i + 1))];
      i := i + 1;
    }
    // the clock stops once every thread has been joined
    events := events + [ClockStop(obs.elapsedMs), DeleteMap];
    var stopped := events;
    events := events + [ThreadEvent(Delete, PutterThread)];
    assert Apply(Delete, Threads(0)) == [ThreadEvent(Delete, PutterThread)];
    i := 0;
    while i < readers
      invariant i <= readers
      invariant events == stopped + Apply(Delete, Threads(i))
    {
      LogSnoc(stopped, Delete, i);
      events := events + [ThreadEvent(Delete, GetterThread(i + 1))];
      i := i + 1;
    }
    t := Trial(readers, events, puts, scans);
  }

  /** Acting on getter `i + 1` extends a log that has acted on the first `i`
      getters to one that has acted on the first `i + 1`. */
  lemma LogSnoc(front: seq<Event>, action: Action, i: nat)
    ensures front + Apply(action, Threads(i)) + [ThreadEvent(action, GetterThread(i + 1))]
         == front + Apply(action, Threads(i + 1))
  {
    var e := ThreadEvent(action, GetterThread(i + 1));
    assert Apply(action, Threads(i + 1)) == Apply(action, Threads(i)) + [e];
    assert front + Apply(action, Threads(i)) + [e] == front + (Apply(action, Threads(i)) + [e]);
  }
}
