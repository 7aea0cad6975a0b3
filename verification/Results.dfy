/** What dispatching computes: asynchronous runs agree with the synchronous loop. */
module Results {
  import opened Common
  import opened Protocol
  import opened Safety
  import opened Liveness

  /** The results of the synchronous loop, which always runs on device `d`: whole batches of the work
      from `lo` on, the last one clipped. */
  function SyncResults<X, Y>(c: Config<X, Y>, d: nat, lo: nat): seq<Y>
    requires d < |c.batch| && c.batch[d] > 0
    decreases |c.input| - lo
  {
    if lo >= |c.input| then [] else
    var hi := Min(lo + c.batch[d], |c.input|);
    [(c.compute)(c.input[lo..hi], d)] + SyncResults(c, d, hi)
  }

  function Concat<Z>(parts: seq<seq<Z>>): seq<Z> {
    if parts == [] then [] else parts[0] + Concat(parts[1..])
  }

  function Map<X, Z>(g: X -> Z, xs: seq<X>): (zs: seq<Z>)
    ensures |zs| == |xs| && forall i | 0 <= i < |xs| :: zs[i] == g(xs[i])
  {
    seq(|xs|, i requires 0 <= i < |xs| => g(xs[i]))
  }

  /** The values of the result slots, once they are all filled. */
  function Filled<Y>(results: seq<Option<Y>>): (ys: seq<Y>)
    requires forall i | 0 <= i < |results| :: results[i].Some?
    ensures |ys| == |results| && forall i | 0 <= i < |ys| :: results[i] == Some(ys[i])
  {
    seq(|results|, i requires 0 <= i < |results| => results[i].value)
  }

  /** A run has returned, and these are the results it returned. */
  ghost predicate ReturnedBy<X, Y>(c: Config<X, Y>, states: seq<State<Y>>, ys: seq<Y>) {
    && |c.batch| == |c.capacity| && Run(c, states)
    && var outcome := states[|states| - 1].outcome;
       outcome.Returned? && |outcome.results| == |ys| && forall i | 0 <= i < |ys| :: outcome.results[i] == Some(ys[i])
  }

  function Batches(tasks: seq<Task>): int {
    if tasks == [] then 0 else tasks[0].hi - tasks[0].lo + Batches(tasks[1..])
  }

  /** The tasks reported to the scheduler as dispatched and not yet as completed: what was queued and not
      started, what the worker is busy with, and what the main thread is about to queue. */
  function InFlight(m: Main, d: nat, v: Device): seq<Task> {
    (if (v.worker.Running? || v.worker.Reporting?) && v.started != [] then [v.started[|v.started| - 1]] else [])
      + v.queue + (if m.Push? && m.entry.dev == d then [m.entry.task] else [])
  }

  lemma {:induction false} BatchesConcat(a: seq<Task>, b: seq<Task>)
    ensures Batches(a + b) == Batches(a) + Batches(b)
  {
    if a == [] {
      assert a + b == b;
    } else {
      BatchesConcat(a[1..], b);
      assert (a + b)[1..] == a[1..] + b;
    }
  }

  lemma {:induction false} QueueBatches(q: seq<Task>)
    requires forall t | t in q :: t.lo < t.hi
    ensures Batches(q) == QueueSize(q)
  {
    if q != [] {
      assert q[0] in q;
      forall t | t in q[1..] ensures t in q {}
      QueueBatches(q[1..]);
    }
  }

  /** In every state of every run, the load of a device is the number of batches reported dispatched and not yet
      completed, and fits its capacity; it is zero exactly when nothing is in flight. Its worker has not failed
      on load underflow, and sleeps with work to do or with the stop flag set only while it is being notified. */
  lemma RunsAreSafe<X, Y>(c: Config<X, Y>, states: seq<State<Y>>, d: nat)
    requires |c.batch| == |c.capacity| && Run(c, states) && d < |c.batch|
    ensures var s := states[|states| - 1];
      && |s.devices| == |c.batch|
      && var v := s.devices[d];
      && v.load == Batches(InFlight(s.main, d, v)) <= c.capacity[d]
      && (v.load == 0 <==> InFlight(s.main, d, v) == [])
      && (v.worker.Running? ==> v.started != [] && v.started[|v.started| - 1] == v.worker.task)
      && v.pushed == v.started + v.queue
      && !v.worker.Crashed?
      && (v.worker.Asleep? && (v.queue != [] || s.stop) ==> Notifying(s.main))
  {
    hide SlotsOk, OutcomeOk, Batches, QueueSize, InFlight, Increasing;
    RunsAreShort(c, states);
    var s := states[|states| - 1];
    var v := s.devices[d];
    assert DeviceOk(c.capacity[d], s.log, s.stop, Notifying(s.main), Held(s.main, d), d, v);
    forall t | t in v.pushed ensures t.lo < t.hi { assert Logged(s.log, d, t); }
    LoadIsInFlight(s.main, d, v);
  }

  lemma LoadIsInFlight(m: Main, d: nat, v: Device)
    requires v.pushed == v.started + v.queue && forall t | t in v.pushed :: t.lo < t.hi
    requires m.Push? ==> m.entry.task.lo < m.entry.task.hi
    requires v.worker.Running? ==> v.started != [] && v.started[|v.started| - 1] == v.worker.task
    requires v.worker.Reporting? ==> v.started != [] && v.started[|v.started| - 1].Size() == v.worker.m
    ensures Batches(InFlight(m, d, v)) == Held(m, d) + QueueSize(v.queue) + WorkerSize(v.worker)
    ensures Batches(InFlight(m, d, v)) == 0 <==> InFlight(m, d, v) == []
  {
    var busy := if (v.worker.Running? || v.worker.Reporting?) && v.started != [] then [v.started[|v.started| - 1]] else [];
    var held := if m.Push? && m.entry.dev == d then [m.entry.task] else [];
    BatchesConcat(busy + v.queue, held);
    BatchesConcat(busy, v.queue);
    forall t | t in v.queue ensures t in v.pushed {}
    forall t | t in busy ensures t in v.pushed {}
    QueueBatches(v.queue);
    QueueWeighs(v.queue);
  }

  /** The tasks dispatched by a run that has returned tile the whole work, slot by slot in order, and
      every result is what its task computes. */
  lemma ReturnedIsComputed<X, Y>(c: Config<X, Y>, states: seq<State<Y>>, ys: seq<Y>) returns (log: seq<Entry>)
    requires ReturnedBy(c, states, ys)
    ensures |log| == |ys| && Tiled(log, |c.input|, |c.batch|) && forall i | 0 <= i < |log| :: FullBatch(c, log[i])
    ensures forall i | 0 <= i < |ys| :: ys[i] == (c.compute)(c.input[log[i].task.lo..log[i].task.hi], log[i].dev)
  {
    RunsAreShort(c, states);
    var s := states[|states| - 1];
    log := s.log;
    forall i | 0 <= i < |ys| ensures ys[i] == Value(c, log[i]) {
      assert SlotOk(c, s.log[i], s.devices[s.log[i].dev], Holds(s.main, s.log[i]), s.results[i]);
    }
  }

  /** With a single device, every interleaving returns exactly the vector of the synchronous loop. */
  lemma OneDeviceIsSync<X, Y>(c: Config<X, Y>, states: seq<State<Y>>, ys: seq<Y>)
    requires ReturnedBy(c, states, ys) && |c.batch| == 1 && c.batch[0] > 0
    ensures ys == SyncResults(c, 0, 0)
  {
    var log := ReturnedIsComputed(c, states, ys);
    SuffixIsSync(c, log, ys, 0);
  }

  lemma TiledAt(log: seq<Entry>, offset: nat, devices: nat, k: nat)
    requires Tiled(log, offset, devices) && k <= |log|
    ensures k < |log| ==> log[k].dev < devices && log[k].task.lo < log[k].task.hi <= offset
    ensures k < |log| ==> log[k].task.lo == Start(log, k)
    ensures k == |log| ==> offset == Start(log, k)
  {
  }

  /** Where the tasks from the `k`-th on start. */
  function Start(log: seq<Entry>, k: nat): nat
    requires k <= |log|
  {
    if k == 0 then 0 else log[k - 1].task.hi
  }

  lemma {:induction false} SuffixIsSync<X, Y>(c: Config<X, Y>, log: seq<Entry>, ys: seq<Y>, k: nat)
    requires |c.batch| == 1 && c.batch[0] > 0 && k <= |log| == |ys|
    requires Tiled(log, |c.input|, 1) && forall i | 0 <= i < |log| :: FullBatch(c, log[i])
    requires forall i | 0 <= i < |ys| :: ys[i] == Value(c, log[i])
    ensures ys[k..] == SyncResults(c, 0, Start(log, k))
    decreases |log| - k
  {
    hide Tiled;
    TiledAt(log, |c.input|, 1, k);
    if k < |log| {
      assert FullBatch(c, log[k]);
      SuffixIsSync(c, log, ys, k + 1);
      assert ys[k..] == [ys[k]] + ys[k + 1..];
    } else {
      assert ys[k..] == [];
    }
  }

  /** When the work is pointwise and does not depend on the device, the concatenated results of any run
      are the pointwise image of the whole work, whatever devices and batch sizes were used. */
  lemma PointwiseAsync<X(!new), Z>(c: Config<X, seq<Z>>, states: seq<State<seq<Z>>>, ys: seq<seq<Z>>, g: X -> Z)
    requires ReturnedBy(c, states, ys) && Pointwise(c, g)
    ensures Concat(ys) == Map(g, c.input)
  {
    var log := ReturnedIsComputed(c, states, ys);
    SuffixIsPointwise(c, log, ys, g, 0);
  }

  ghost predicate Pointwise<X(!new), Z>(c: Config<X, seq<Z>>, g: X -> Z) {
    forall xs, d :: (c.compute)(xs, d) == Map(g, xs)
  }

  lemma {:induction false} SuffixIsPointwise<X(!new), Z>(c: Config<X, seq<Z>>, log: seq<Entry>, ys: seq<seq<Z>>, g: X -> Z, k: nat)
    requires Pointwise(c, g) && k <= |log| == |ys| && Tiled(log, |c.input|, |c.batch|)
    requires forall i | 0 <= i < |ys| :: ys[i] == Value(c, log[i])
    ensures Start(log, k) <= |c.input| && Concat(ys[k..]) == Map(g, c.input[Start(log, k)..])
    decreases |log| - k
  {
    hide Tiled;
    TiledAt(log, |c.input|, |c.batch|, k);
    if k < |log| {
      var lo, hi := log[k].task.lo, log[k].task.hi;
      SuffixIsPointwise(c, log, ys, g, k + 1);
      assert ys[k..][1..] == ys[k + 1..];
      assert ys[k] == Map(g, c.input[lo..hi]);
      MapSplit(g, c.input, lo, hi);
    } else {
      assert ys[k..] == [];
    }
  }

  lemma MapSplit<X, Z>(g: X -> Z, xs: seq<X>, lo: nat, hi: nat)
    requires lo <= hi <= |xs|
    ensures Map(g, xs[lo..]) == Map(g, xs[lo..hi]) + Map(g, xs[hi..])
  {
    assert xs[lo..] == xs[lo..hi] + xs[hi..];
  }

  lemma {:induction false} PointwiseSync<X(!new), Z>(c: Config<X, seq<Z>>, d: nat, lo: nat, g: X -> Z)
    requires Pointwise(c, g) && d < |c.batch| && c.batch[d] > 0 && lo <= |c.input|
    ensures Concat(SyncResults(c, d, lo)) == Map(g, c.input[lo..])
    decreases |c.input| - lo
  {
    if lo < |c.input| {
      var hi := Min(lo + c.batch[d], |c.input|);
      PointwiseSync(c, d, hi, g);
      MapSplit(g, c.input, lo, hi);
      assert SyncResults(c, d, lo)[1..] == SyncResults(c, d, hi);
    }
  }

  /** The reduction by concatenation is the same for every asynchronous run and for the synchronous loop on
      any device. */
  lemma AsyncIsSync<X(!new), Z>(c: Config<X, seq<Z>>, states: seq<State<seq<Z>>>, ys: seq<seq<Z>>, d: nat, g: X -> Z)
    requires ReturnedBy(c, states, ys) && Pointwise(c, g) && d < |c.batch| && c.batch[d] > 0
    ensures Concat(ys) == Concat(SyncResults(c, d, 0))
  {
    PointwiseAsync(c, states, ys, g);
    PointwiseSync(c, d, 0, g);
    assert c.input[0..] == c.input;
  }

  /** All queues are drained: each task was started exactly once, in the order in which it was queued on
      its device, and its result is stored. */
  ghost predicate Drained<X, Y>(c: Config<X, Y>, s: State<Y>) {
    && (forall v | v in s.devices :: v.queue == [] && v.started == v.pushed && v.load == 0 && Increasing(v.started))
    && (forall d, t | 0 <= d < |s.devices| && t in s.devices[d].started :: Logged(s.log, d, t))
    && |s.results| == |s.log|
    && (forall i | 0 <= i < |s.log| ::
          && s.results[i] == Some(Value(c, s.log[i]))
          && s.log[i].dev < |s.devices| && s.log[i].task in s.devices[s.log[i].dev].started)
  }

  /** Every run that cannot go on has joined its workers with all queues drained, even when the dispatcher
      is destroyed because the scheduler handed out an empty batch; otherwise it has returned its results. */
  lemma MaximalRuns<X, Y>(c: Config<X, Y>, states: seq<State<Y>>) returns (ys: seq<Y>)
    requires |c.batch| == |c.capacity| && Live(c) && Run(c, states) && Stuck(c, states[|states| - 1])
    ensures states[|states| - 1].main.Joined? && Drained(c, states[|states| - 1])
    ensures (forall d | 0 <= d < |c.batch| :: c.batch[d] > 0) ==> ReturnedBy(c, states, ys)
  {
    RunsAreShort(c, states);
    MaximalRunsJoin(c, states);
    JoinedIsDrained(c, states[|states| - 1]);
    ys := Filled(states[|states| - 1].results);
  }

  lemma JoinedIsDrained<X, Y>(c: Config<X, Y>, s: State<Y>)
    requires Inv(c, s) && s.main.Joined?
    ensures Drained(c, s)
  {
    forall d | 0 <= d < |s.devices|
      ensures s.devices[d].queue == [] && s.devices[d].started == s.devices[d].pushed && s.devices[d].load == 0
    {
      assert DeviceOk(c.capacity[d], s.log, s.stop, Notifying(s.main), Held(s.main, d), d, s.devices[d]);
    }
    forall i | 0 <= i < |s.log|
      ensures s.results[i] == Some(Value(c, s.log[i])) && s.log[i].task in s.devices[s.log[i].dev].started
    {
      IdleIsComputed(c, s, i);
      assert SlotOk(c, s.log[i], s.devices[s.log[i].dev], Holds(s.main, s.log[i]), s.results[i]);
    }
  }

  // ---------------------------------------------------------------------------------------------
  // When no batch fits
  // ---------------------------------------------------------------------------------------------

  /** The main thread sleeps, and so do the first `k` workers. */
  ghost function Dozing<X, Y>(c: Config<X, Y>, k: nat): State<Y> {
    State(ScheduleAsleep, 0, seq(|c.batch|, d => Device(0, [], if d < k then Asleep else Ready, [], [])), [], [], false, Busy)
  }

  lemma DozeOff<X, Y>(c: Config<X, Y>, k: nat)
    requires |c.batch| == |c.capacity| && k < |c.batch|
    ensures Next(c, Dozing(c, k), Dozing(c, k + 1))
  {
    var s: State<Y>, t: State<Y> := Dozing(c, k), Dozing(c, k + 1);
    assert Enabled(c, s, WorkerStep(k));
    assert t.devices == s.devices[k := s.devices[k].(worker := Asleep)];
    assert t == Apply(c, s, WorkerStep(k));
  }

  /** The liveness condition is exact: if there is work and no device can ever take a batch, the main thread
      and all workers end up waiting for each other. */
  lemma OtherwiseDeadlock<X, Y>(c: Config<X, Y>) returns (states: seq<State<Y>>)
    requires |c.batch| == |c.capacity| && !Live(c)
    ensures Run(c, states) && Stuck(c, states[|states| - 1]) && states[|states| - 1].main.ScheduleAsleep?
  {
    var s0: State<Y> := Initial(c);
    var s1 := s0.(main := Schedule);
    assert Enabled(c, s0, MainStep(0)) && s1 == Apply(c, s0, MainStep(0));
    forall d ensures !Available(c, s1.devices, d) {}
    assert Enabled(c, s1, MainStep(0)) && s1.(main := ScheduleAsleep) == Apply(c, s1, MainStep(0));
    assert s1.(main := ScheduleAsleep) == Dozing(c, 0);
    states := [s0, s1, Dozing(c, 0)];
    assert Run(c, states) by {
      assert Next(c, states[0], states[1]) && Next(c, states[1], states[2]);
    }
    for k := 0 to |c.batch|
      invariant Run(c, states) && states[|states| - 1] == Dozing(c, k)
    {
      DozeOff(c, k);
      ghost var before := states;
      states := states + [Dozing(c, k + 1)];
      forall i | 0 <= i < |states| - 1 ensures Next(c, states[i], states[i + 1]) {
        if i < |before| - 1 { assert Next(c, before[i], before[i + 1]); }
      }
    }
  }
}
