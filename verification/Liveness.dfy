/** Progress and termination of the dispatching protocol. */
module Liveness {
  import opened Common
  import opened Protocol
  import opened Safety

  /** There is nothing to do, or some device can take a batch when it is idle. */
  predicate Live<X, Y>(c: Config<X, Y>) {
    |c.input| == 0 || exists d :: 0 <= d < Min(|c.batch|, |c.capacity|) && c.batch[d] <= c.capacity[d]
  }

  // ---------------------------------------------------------------------------------------------
  // No deadlock
  // ---------------------------------------------------------------------------------------------

  /** A device that has some load while the main thread holds nothing has a worker that can step: no
      wake-up has been lost. */
  lemma LoadedCanStep<X, Y>(c: Config<X, Y>, s: State<Y>, d: nat)
    requires Inv(c, s) && d < |s.devices| && s.devices[d].load > 0
    requires !s.main.Push? && !Notifying(s.main)
    ensures Enabled(c, s, WorkerStep(d))
  {
    assert DeviceOk(c.capacity[d], s.log, s.stop, Notifying(s.main), Held(s.main, d), d, s.devices[d]);
  }

  /** In every reachable state that is not the last one, some thread can step. */
  lemma Progress<X, Y>(c: Config<X, Y>, s: State<Y>) returns (e: Event)
    requires Inv(c, s) && Live(c) && !s.main.Joined?
    ensures Enabled(c, s, e)
  {
    if s.main.Schedule? {
      if d :| Available(c, s.devices, d) { e := MainStep(d); } else { e := MainStep(0); }
    } else if s.main.ScheduleAsleep? {
      var d :| 0 <= d < |c.batch| && c.batch[d] <= c.capacity[d];
      assert !Available(c, s.devices, d);
      LoadedCanStep(c, s, d);
      e := WorkerStep(d);
    } else if s.main.WaitAsleep? {
      var d :| 0 <= d < |s.devices| && s.devices[d].load != 0;
      LoadedCanStep(c, s, d);
      e := WorkerStep(d);
    } else if s.main.Join? {
      if d :| 0 <= d < |s.devices| && !s.devices[d].worker.Exited? {
        assert DeviceOk(c.capacity[d], s.log, s.stop, Notifying(s.main), Held(s.main, d), d, s.devices[d]);
        e := WorkerStep(d);
      } else {
        e := MainStep(0);
      }
    } else {
      e := MainStep(0);
    }
  }

  // ---------------------------------------------------------------------------------------------
  // Termination
  // ---------------------------------------------------------------------------------------------

  function Potential(v: Device): nat {
    4 * |v.queue| +
    match v.worker
    case Ready => 1
    case Running(_) => 4
    case Reporting(_) => 3
    case _ => 0
  }

  function Potentials(devices: seq<Device>): nat {
    if devices == [] then 0 else Potential(devices[0]) + Potentials(devices[1..])
  }

  function MainPotential(m: Main, n: nat): nat {
    match m
    case Loop => n + 7
    case Schedule => n + 6
    case ScheduleAsleep => n + 5
    case Generate(_) => n + 5
    case Report(_) => 2 * n + 14
    case Push(_) => 2 * n + 13
    case Notify => 2 * n + 8
    case Wait => n + 5
    case WaitAsleep => n + 4
    case Stop => n + 3
    case StopNotify => n + 2
    case Join => 1
    case Joined => 0
  }

  function WorkPotential(n: nat, remaining: nat): nat {
    if remaining == 0 then 0 else n + 10 + WorkPotential(n, remaining - 1)
  }

  /** An upper bound on the number of steps still to come. */
  ghost function Measure<X, Y>(c: Config<X, Y>, s: State<Y>): nat
    requires s.offset <= |c.input|
  {
    WorkPotential(|s.devices|, |c.input| - s.offset) + MainPotential(s.main, |s.devices|) + Potentials(s.devices)
  }

  lemma {:induction false} ReplacePotential(devices: seq<Device>, d: nat, w: Device)
    requires d < |devices|
    ensures Potentials(devices[d := w]) + Potential(devices[d]) == Potentials(devices) + Potential(w)
  {
    if d > 0 {
      assert devices[d := w][1..] == devices[1..][d - 1 := w];
      ReplacePotential(devices[1..], d - 1, w);
    } else {
      assert devices[d := w][1..] == devices[1..];
    }
  }

  lemma {:induction false} WakingPotential(devices: seq<Device>)
    ensures Potentials(WakeAll(devices)) <= Potentials(devices) + |devices|
  {
    if devices != [] {
      assert WakeAll(devices)[1..] == WakeAll(devices[1..]);
      WakingPotential(devices[1..]);
    }
  }

  lemma {:induction false} Consume(n: nat, remaining: nat, m: nat)
    requires 1 <= m <= remaining
    ensures WorkPotential(n, remaining - m) + n + 10 <= WorkPotential(n, remaining)
  {
    if m > 1 { Consume(n, remaining - 1, m - 1); }
  }

  lemma GenerateDecreases<X, Y>(c: Config<X, Y>, s: State<Y>, pick: nat)
    requires LogOk(c, s) && MainOk(c, s) && s.main.Generate?
    ensures ApplyMain(c, s, pick).offset <= |c.input| && Measure(c, ApplyMain(c, s, pick)) < Measure(c, s)
  {
    assert Available(c, s.devices, s.main.dev);
    Consume(|s.devices|, |c.input| - s.offset, ApplyMain(c, s, pick).offset - s.offset);
  }

  lemma MoveDecreases<X, Y>(c: Config<X, Y>, s: State<Y>, t: State<Y>)
    requires s.offset == t.offset <= |c.input| && t.devices == s.devices
    requires MainPotential(t.main, |s.devices|) < MainPotential(s.main, |s.devices|)
    ensures Measure(c, t) < Measure(c, s)
  {
  }

  lemma DeviceDecreases<X, Y>(c: Config<X, Y>, s: State<Y>, t: State<Y>, d: nat)
    requires s.offset == t.offset <= |c.input| && d < |s.devices| == |t.devices| && t.devices == s.devices[d := t.devices[d]]
    requires MainPotential(t.main, |s.devices|) + Potential(t.devices[d]) < MainPotential(s.main, |s.devices|) + Potential(s.devices[d])
    ensures Measure(c, t) < Measure(c, s)
  {
    ReplacePotential(s.devices, d, t.devices[d]);
  }

  lemma NotifyDecreases<X, Y>(c: Config<X, Y>, s: State<Y>, t: State<Y>)
    requires s.offset == t.offset <= |c.input| && t.devices == WakeAll(s.devices)
    requires MainPotential(t.main, |s.devices|) + |s.devices| < MainPotential(s.main, |s.devices|)
    ensures Measure(c, t) < Measure(c, s)
  {
    WakingPotential(s.devices);
  }

  lemma MainDecreases<X, Y>(c: Config<X, Y>, s: State<Y>, pick: nat)
    requires LogOk(c, s) && MainOk(c, s) && Enabled(c, s, MainStep(pick))
    ensures ApplyMain(c, s, pick).offset <= |c.input| && Measure(c, ApplyMain(c, s, pick)) < Measure(c, s)
  {
    var t := ApplyMain(c, s, pick);
    match s.main
    case Generate(_) => GenerateDecreases(c, s, pick);
    case Report(e) => DeviceDecreases(c, s, t, e.dev);
    case Push(e) => DeviceDecreases(c, s, t, e.dev);
    case Notify => NotifyDecreases(c, s, t);
    case StopNotify => NotifyDecreases(c, s, t);
    case _ => MoveDecreases(c, s, t);
  }

  lemma WorkerDecreases<X, Y>(c: Config<X, Y>, s: State<Y>, d: nat)
    requires Shape(c, s) && s.offset <= |c.input| && Enabled(c, s, WorkerStep(d))
    requires s.devices[d].worker.Running? ==> s.devices[d].worker.task.slot < |s.results|
    requires s.devices[d].worker.Reporting? ==> s.devices[d].worker.m <= s.devices[d].load
    ensures ApplyWorker(c, s, d).offset <= |c.input| && Measure(c, ApplyWorker(c, s, d)) < Measure(c, s)
  {
    DeviceDecreases(c, s, ApplyWorker(c, s, d), d);
  }

  /** Every step lowers the measure. */
  lemma StepDecreases<X, Y>(c: Config<X, Y>, s: State<Y>, e: Event)
    requires Inv(c, s) && Enabled(c, s, e)
    ensures Inv(c, Apply(c, s, e)) && Measure(c, Apply(c, s, e)) < Measure(c, s)
  {
    KeepInv(c, s, e);
    match e
    case MainStep(pick) => MainDecreases(c, s, pick);
    case WorkerStep(d) =>
      if s.devices[d].worker.Running? { RunningIsPending(c, s, d); }
      if s.devices[d].worker.Reporting? { KeepReporting(c, s, d); }
      WorkerDecreases(c, s, d);
  }

  /** Every state of a run satisfies the invariant, and the run is no longer than the initial measure
      allows: whatever the interleaving and the scheduler's choices, dispatching terminates. */
  lemma {:induction false} RunsAreShort<X, Y>(c: Config<X, Y>, states: seq<State<Y>>)
    requires |c.batch| == |c.capacity| && Run(c, states)
    ensures Inv(c, states[|states| - 1])
    ensures |states| - 1 + Measure(c, states[|states| - 1]) <= Measure(c, Initial(c))
  {
    var n := |states|;
    if n == 1 {
      InitialInv(c);
    } else {
      var before := states[..n - 1];
      forall i | 0 <= i < n - 2 ensures Next(c, before[i], before[i + 1]) {
        assert Next(c, states[i], states[i + 1]);
      }
      RunsAreShort(c, before);
      assert Next(c, states[n - 2], states[n - 2 + 1]);
      var s := states[n - 2];
      var e :| Enabled(c, s, e) && states[n - 1] == Apply(c, s, e);
      StepDecreases(c, s, e);
    }
  }

  /** The event is a step in the last state of a run, and the run goes on with it. */
  ghost predicate Continues<X, Y>(c: Config<X, Y>, states: seq<State<Y>>, e: Event)
    requires states != [] && Shape(c, states[|states| - 1])
  {
    Enabled(c, states[|states| - 1], e) && Run(c, states + [Apply(c, states[|states| - 1], e)])
  }

  /** Every interleaving is a run. The main thread can step unless it is inside one of its two waits, joins a
      worker that has not exited, or has ended; when scheduling it can pick any device with room for a batch. A
      worker can step unless it sleeps or has ended. */
  lemma RunsExtend<X, Y>(c: Config<X, Y>, states: seq<State<Y>>, n: nat)
    requires |c.batch| == |c.capacity| && Run(c, states)
    ensures Shape(c, states[|states| - 1])
    ensures var s := states[|states| - 1];
      && ((s.main.Loop? || s.main.Generate? || s.main.Report? || s.main.Push? || s.main.Notify? || s.main.Wait?
           || s.main.Stop? || s.main.StopNotify?) ==> Continues(c, states, MainStep(n)))
      && (s.main.Schedule? && n < |c.batch| && s.devices[n].load + c.batch[n] <= c.capacity[n] ==> Continues(c, states, MainStep(n)))
      && (s.main.Schedule? && (forall d | 0 <= d < |c.batch| :: s.devices[d].load + c.batch[d] > c.capacity[d])
          ==> Continues(c, states, MainStep(n)))
      && (s.main.Join? && (forall d | 0 <= d < |s.devices| :: s.devices[d].worker.Exited?) ==> Continues(c, states, MainStep(n)))
      && (n < |s.devices| && !s.devices[n].worker.Asleep? && !s.devices[n].worker.Exited? ==> Continues(c, states, WorkerStep(n)))
  {
    RunsAreShort(c, states);
    var s := states[|states| - 1];
    if n < |s.devices| {
      assert DeviceOk(c.capacity[n], s.log, s.stop, Notifying(s.main), Held(s.main, n), n, s.devices[n]);
    }
    forall e | Enabled(c, s, e) ensures Continues(c, states, e) { Continue(c, states, e); }
  }

  lemma Continue<X, Y>(c: Config<X, Y>, states: seq<State<Y>>, e: Event)
    requires Run(c, states) && Shape(c, states[|states| - 1]) && Enabled(c, states[|states| - 1], e)
    ensures Continues(c, states, e)
  {
    var more := states + [Apply(c, states[|states| - 1], e)];
    forall i | 0 <= i < |more| - 1 ensures Next(c, more[i], more[i + 1]) {
      if i < |states| - 1 { assert Next(c, states[i], states[i + 1]); }
    }
  }

  /** No thread can step. */
  ghost predicate Stuck<X, Y>(c: Config<X, Y>, s: State<Y>) {
    Shape(c, s) && forall e :: !Enabled(c, s, e)
  }

  /** A run that cannot be continued has joined all workers. */
  lemma MaximalRunsJoin<X, Y>(c: Config<X, Y>, states: seq<State<Y>>)
    requires |c.batch| == |c.capacity| && Live(c) && Run(c, states)
    requires Stuck(c, states[|states| - 1])
    ensures states[|states| - 1].main.Joined?
  {
    RunsAreShort(c, states);
    if !states[|states| - 1].main.Joined? {
      var e := Progress(c, states[|states| - 1]);
    }
  }
}
