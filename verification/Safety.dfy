/** The invariant of the dispatching protocol. */
module Safety {
  import opened Common
  import opened Protocol

  function QueueSize(q: seq<Task>): nat {
    if q == [] then 0 else q[0].Size() + QueueSize(q[1..])
  }

  function WorkerSize(w: Worker): nat {
    match w
    case Running(t) => t.Size()
    case Reporting(m) => m
    case _ => 0
  }

  /** The size the main thread has reported for device `d` but not yet queued. */
  function Held(m: Main, d: nat): nat {
    if m.Push? && m.entry.dev == d then m.entry.task.Size() else 0
  }

  /** The main thread is between changing what workers wait for and notifying them. */
  predicate Notifying(m: Main) {
    m.Notify? || m.StopNotify?
  }

  ghost predicate Increasing(q: seq<Task>) {
    forall i, j | 0 <= i < j < |q| :: q[i].slot < q[j].slot
  }

  /** The log: task `i` writes slot `i`, and the slices tile `0..offset` without empty ones. */
  ghost predicate Tiled(log: seq<Entry>, offset: nat, devices: nat) {
    && (forall i | 0 <= i < |log| ::
          log[i].task.slot == i && log[i].dev < devices && log[i].task.lo < log[i].task.hi <= offset)
    && (log != [] ==> log[0].task.lo == 0)
    && (forall i | 0 < i < |log| :: log[i].task.lo == log[i - 1].task.hi)
    && offset == if log == [] then 0 else log[|log| - 1].task.hi
  }

  ghost predicate Logged(log: seq<Entry>, d: nat, t: Task) {
    t.slot < |log| && log[t.slot] == Entry(d, t)
  }

  /** What holds of device `d`. */
  ghost predicate DeviceOk(capacity: nat, log: seq<Entry>, stop: bool, notifying: bool, held: nat, d: nat, v: Device) {
    && v.pushed == v.started + v.queue
    && v.load == held + QueueSize(v.queue) + WorkerSize(v.worker)
    && v.load <= capacity
    && Increasing(v.pushed) && (forall t | t in v.pushed :: Logged(log, d, t))
    && (v.worker.Running? ==> v.started != [] && v.started[|v.started| - 1] == v.worker.task)
    && (v.worker.Reporting? ==> v.started != [] && v.started[|v.started| - 1].Size() == v.worker.m > 0)
    && (v.worker.Asleep? && (v.queue != [] || stop) ==> notifying)
    && (v.worker.Exited? ==> stop && v.queue == [])
    && !v.worker.Crashed?
  }

  /** What `e` logs has been computed and stored. */
  ghost predicate Computed(e: Entry, v: Device) {
    e.task in v.started && v.worker != Running(e.task)
  }

  /** Slot of log entry `e`: filled exactly once its task has been computed; a task that the main
      thread no longer holds has been queued on its device. */
  ghost predicate SlotOk<X, Y>(c: Config<X, Y>, e: Entry, v: Device, held: bool, result: Option<Y>) {
    && result == (if Computed(e, v) then Some(Value(c, e)) else None)
    && (e.task in v.pushed <==> !held)
  }

  ghost predicate Holds(m: Main, e: Entry) {
    (m.Report? || m.Push?) && m.entry == e
  }

  ghost predicate MainOk<X, Y>(c: Config<X, Y>, s: State<Y>)
    requires Shape(c, s)
  {
    var total := |c.input|;
    && (s.stop <==> s.main.StopNotify? || s.main.Join? || s.main.Joined?)
    && (s.outcome.Busy? <==> !s.main.Stop? && !s.stop)
    && match s.main
       case Schedule => s.offset < total
       case ScheduleAsleep => s.offset < total && !SomeAvailable(c, s.devices)
       case Generate(d) => s.offset < total && Available(c, s.devices, d) && c.batch[d] > 0
       case Report(e) =>
         && s.log != [] && s.log[|s.log| - 1] == e && e.dev < |s.devices|
         && s.devices[e.dev].load + e.task.Size() <= c.capacity[e.dev]
       case Push(e) => s.log != [] && s.log[|s.log| - 1] == e && e.dev < |s.devices|
       case Wait => s.offset == total
       case WaitAsleep => s.offset == total && !AllIdle(s.devices)
       case Joined => forall d | 0 <= d < |s.devices| :: s.devices[d].worker.Exited?
       case _ => true
  }

  /** A run that returned has written every slot, and returned what is there. */
  ghost predicate OutcomeOk<X, Y>(c: Config<X, Y>, s: State<Y>) {
    && (s.outcome.Returned? ==>
         s.offset == |c.input| && s.outcome.results == s.results && forall i | 0 <= i < |s.results| :: s.results[i].Some?)
    && (s.outcome.Threw? ==> exists d :: 0 <= d < |c.batch| && c.batch[d] == 0)
  }

  ghost predicate LogOk<X, Y>(c: Config<X, Y>, s: State<Y>) {
    && Shape(c, s) && s.offset <= |c.input| && Tiled(s.log, s.offset, |s.devices|) && |s.results| == |s.log|
    && forall i | 0 <= i < |s.log| :: FullBatch(c, s.log[i])
  }

  /** An entry is a whole batch of its device, or what was left of the work. */
  ghost predicate FullBatch<X, Y>(c: Config<X, Y>, e: Entry) {
    e.dev < |c.batch| && e.task.hi == Min(e.task.lo + c.batch[e.dev], |c.input|)
  }

  ghost predicate DevicesOk<X, Y>(c: Config<X, Y>, s: State<Y>)
    requires Shape(c, s)
  {
    forall d | 0 <= d < |s.devices| ::
      DeviceOk(c.capacity[d], s.log, s.stop, Notifying(s.main), Held(s.main, d), d, s.devices[d])
  }

  ghost predicate SlotsOk<X, Y>(c: Config<X, Y>, s: State<Y>)
    requires LogOk(c, s)
  {
    forall i | 0 <= i < |s.log| :: SlotOk(c, s.log[i], s.devices[s.log[i].dev], Holds(s.main, s.log[i]), s.results[i])
  }

  ghost predicate Inv<X, Y>(c: Config<X, Y>, s: State<Y>) {
    && LogOk(c, s)
    && DevicesOk(c, s)
    && SlotsOk(c, s)
    && MainOk(c, s)
    && OutcomeOk(c, s)
  }

  lemma InitialInv<X, Y>(c: Config<X, Y>)
    requires |c.batch| == |c.capacity|
    ensures Inv(c, Initial(c))
  {
  }

  // ---------------------------------------------------------------------------------------------
  // Steps of the main thread
  // ---------------------------------------------------------------------------------------------

  lemma {:induction false} QueueAppend(q: seq<Task>, t: Task)
    ensures QueueSize(q + [t]) == QueueSize(q) + t.Size()
  {
    if q != [] {
      assert (q + [t])[1..] == q[1..] + [t];
      QueueAppend(q[1..], t);
    }
  }

  lemma LogGrows(capacity: nat, log: seq<Entry>, e: Entry, stop: bool, notifying: bool, held: nat, d: nat, v: Device)
    requires DeviceOk(capacity, log, stop, notifying, held, d, v)
    ensures DeviceOk(capacity, log + [e], stop, notifying, held, d, v)
  {
    forall t | t in v.pushed ensures Logged(log + [e], d, t) { assert Logged(log, d, t); }
  }

  /** Moving only the main thread, between points where it holds no task and notifies nobody. */
  lemma MainMoves<X, Y>(c: Config<X, Y>, s: State<Y>, t: State<Y>)
    requires LogOk(c, s) && DevicesOk(c, s) && SlotsOk(c, s)
    requires t == s.(main := t.main, outcome := t.outcome)
    requires !Notifying(s.main) && !s.main.Report? && !s.main.Push?
    requires !Notifying(t.main) && !t.main.Report? && !t.main.Push?
    ensures LogOk(c, t) && DevicesOk(c, t) && SlotsOk(c, t)
  {
  }

  lemma KeepLoop<X, Y>(c: Config<X, Y>, s: State<Y>, pick: nat)
    requires Inv(c, s) && Enabled(c, s, MainStep(pick)) && s.main.Loop?
    ensures Inv(c, ApplyMain(c, s, pick))
  {
    MainMoves(c, s, ApplyMain(c, s, pick));
  }

  lemma KeepSchedule<X, Y>(c: Config<X, Y>, s: State<Y>, pick: nat)
    requires Inv(c, s) && Enabled(c, s, MainStep(pick)) && s.main.Schedule?
    ensures Inv(c, ApplyMain(c, s, pick))
  {
    var t := ApplyMain(c, s, pick);
    MainMoves(c, s, t);
    assert MainOk(c, t) && OutcomeOk(c, t) by {
      if SomeAvailable(c, s.devices) { assert Available(c, s.devices, pick); }
    }
  }

  lemma GenerateSlots<X, Y>(c: Config<X, Y>, s: State<Y>, t: State<Y>, e: Entry)
    requires LogOk(c, s) && SlotsOk(c, s) && LogOk(c, t)
    requires forall d, x | 0 <= d < |s.devices| && x in s.devices[d].pushed :: Logged(s.log, d, x)
    requires s.main.Generate? && t.main == Report(e) && t.devices == s.devices
    requires t.log == s.log + [e] && t.results == s.results + [None] && e.task !in t.devices[e.dev].started
    ensures SlotsOk(c, t)
  {
    forall i | 0 <= i < |t.log| ensures SlotOk(c, t.log[i], t.devices[t.log[i].dev], Holds(t.main, t.log[i]), t.results[i]) {
      if i < |s.log| { assert SlotOk(c, s.log[i], s.devices[s.log[i].dev], Holds(s.main, s.log[i]), s.results[i]); }
    }
  }

  lemma GenerateLog<X, Y>(c: Config<X, Y>, s: State<Y>, pick: nat)
    requires Inv(c, s) && Enabled(c, s, MainStep(pick)) && s.main.Generate?
    ensures LogOk(c, ApplyMain(c, s, pick))
  {
    hide DeviceOk, SlotOk;
  }

  lemma KeepGenerate<X, Y>(c: Config<X, Y>, s: State<Y>, pick: nat)
    requires Inv(c, s) && Enabled(c, s, MainStep(pick)) && s.main.Generate?
    ensures Inv(c, ApplyMain(c, s, pick))
  {
    var t := ApplyMain(c, s, pick);
    var e := t.main.entry;
    GenerateLog(c, s, pick);
    assert DevicesOk(c, t) by {
      forall d | 0 <= d < |s.devices| ensures DeviceOk(c.capacity[d], t.log, t.stop, Notifying(t.main), Held(t.main, d), d, t.devices[d]) {
        LogGrows(c.capacity[d], s.log, e, s.stop, Notifying(s.main), Held(s.main, d), d, s.devices[d]);
      }
    }
    assert e.task !in t.devices[e.dev].pushed;
    GenerateSlots(c, s, t, e);
    assert MainOk(c, t) by {
      assert Available(c, s.devices, e.dev) && e.task.Size() <= c.batch[e.dev];
      assert t.log[|t.log| - 1] == e;
    }
  }

  lemma KeepReport<X, Y>(c: Config<X, Y>, s: State<Y>, pick: nat)
    requires Inv(c, s) && Enabled(c, s, MainStep(pick)) && s.main.Report?
    ensures Inv(c, ApplyMain(c, s, pick)) && ApplyMain(c, s, pick).main.Push?
  {
    var t := ApplyMain(c, s, pick);
    assert SlotsOk(c, t) by {
      forall i | 0 <= i < |t.log| ensures SlotOk(c, t.log[i], t.devices[t.log[i].dev], Holds(t.main, t.log[i]), t.results[i]) {
        assert SlotOk(c, s.log[i], s.devices[s.log[i].dev], Holds(s.main, s.log[i]), s.results[i]);
      }
    }
  }

  lemma PushDevice(capacity: nat, log: seq<Entry>, stop: bool, notifying: bool, e: Entry, v: Device)
    requires DeviceOk(capacity, log, stop, notifying, e.task.Size(), e.dev, v)
    requires log != [] && log[|log| - 1] == e && e.task.slot == |log| - 1 && e.task !in v.pushed && !v.worker.Exited?
    ensures DeviceOk(capacity, log, stop, true, 0, e.dev, v.(queue := v.queue + [e.task], pushed := v.pushed + [e.task]))
  {
    QueueAppend(v.queue, e.task);
    assert v.pushed + [e.task] == v.started + (v.queue + [e.task]);
    forall x | x in v.pushed ensures x.slot < e.task.slot { assert Logged(log, e.dev, x); }
  }

  lemma PushSlot<X, Y>(c: Config<X, Y>, e: Entry, v: Device, result: Option<Y>, pushed: Entry)
    requires SlotOk(c, e, v, e == pushed, result)
    requires e.task == pushed.task ==> e == pushed
    ensures SlotOk(c, e, v.(queue := v.queue + [pushed.task], pushed := v.pushed + [pushed.task]), false, result)
  {
    assert pushed.task in v.pushed + [pushed.task];
  }

  lemma PushSlots<X, Y>(c: Config<X, Y>, s: State<Y>, t: State<Y>, e: Entry)
    requires LogOk(c, s) && LogOk(c, t) && SlotsOk(c, s) && s.main == Push(e) && t.main == Notify
    requires s.log != [] && s.log[|s.log| - 1] == e && t.log == s.log && t.results == s.results
    requires var v := s.devices[e.dev];
             t.devices == s.devices[e.dev := v.(queue := v.queue + [e.task], pushed := v.pushed + [e.task])]
    ensures SlotsOk(c, t)
  {
    forall i | 0 <= i < |t.log| ensures SlotOk(c, t.log[i], t.devices[t.log[i].dev], Holds(t.main, t.log[i]), t.results[i]) {
      assert SlotOk(c, s.log[i], s.devices[s.log[i].dev], Holds(s.main, s.log[i]), s.results[i]);
      assert s.log[i].task.slot == i;
      if s.log[i].dev == e.dev { PushSlot(c, s.log[i], s.devices[e.dev], s.results[i], e); }
    }
  }

  lemma KeepPush<X, Y>(c: Config<X, Y>, s: State<Y>, pick: nat)
    requires Inv(c, s) && Enabled(c, s, MainStep(pick)) && s.main.Push?
    ensures Inv(c, ApplyMain(c, s, pick))
  {
    var t := ApplyMain(c, s, pick);
    var e, last := s.main.entry, |s.log| - 1;
    assert DevicesOk(c, t) by {
      assert SlotOk(c, s.log[last], s.devices[e.dev], Holds(s.main, e), s.results[last]);
      PushDevice(c.capacity[e.dev], s.log, s.stop, Notifying(s.main), e, s.devices[e.dev]);
    }
    PushSlots(c, s, t, e);
  }

  lemma KeepNotify<X, Y>(c: Config<X, Y>, s: State<Y>, pick: nat)
    requires Inv(c, s) && Enabled(c, s, MainStep(pick)) && Notifying(s.main)
    ensures Inv(c, ApplyMain(c, s, pick))
  {
    var t := ApplyMain(c, s, pick);
    forall d | 0 <= d < |s.devices| ensures DeviceOk(c.capacity[d], t.log, t.stop, Notifying(t.main), Held(t.main, d), d, t.devices[d]) {
      assert DeviceOk(c.capacity[d], s.log, s.stop, Notifying(s.main), Held(s.main, d), d, s.devices[d]);
    }
    forall i | 0 <= i < |t.log| ensures SlotOk(c, t.log[i], t.devices[t.log[i].dev], Holds(t.main, t.log[i]), t.results[i]) {
      assert SlotOk(c, s.log[i], s.devices[s.log[i].dev], Holds(s.main, s.log[i]), s.results[i]);
    }
  }

  lemma KeepWait<X, Y>(c: Config<X, Y>, s: State<Y>, pick: nat)
    requires Inv(c, s) && Enabled(c, s, MainStep(pick)) && s.main.Wait?
    ensures Inv(c, ApplyMain(c, s, pick))
  {
    var t := ApplyMain(c, s, pick);
    if AllIdle(s.devices) {
      forall i | 0 <= i < |s.log| ensures s.results[i].Some? { IdleIsComputed(c, s, i); }
    }
    MainMoves(c, s, t);
  }

  lemma QueueWeighs(q: seq<Task>)
    requires forall t | t in q :: t.lo < t.hi
    ensures q != [] ==> QueueSize(q) > 0
  {
    if q != [] { assert q[0] in q; }
  }

  /** Every task is at least one batch, so a device without load has computed all its tasks. */
  lemma IdleIsComputed<X, Y>(c: Config<X, Y>, s: State<Y>, i: nat)
    requires Inv(c, s) && i < |s.log| && !s.main.Report? && !s.main.Push? && s.devices[s.log[i].dev].load == 0
    ensures s.results[i] == Some(Value(c, s.log[i]))
  {
    var e := s.log[i];
    var v := s.devices[e.dev];
    assert SlotOk(c, e, v, Holds(s.main, e), s.results[i]);
    forall t | t in v.pushed ensures t.lo < t.hi { assert Logged(s.log, e.dev, t); }
    QueueWeighs(v.queue);
  }

  lemma KeepStop<X, Y>(c: Config<X, Y>, s: State<Y>, pick: nat)
    requires Inv(c, s) && Enabled(c, s, MainStep(pick)) && (s.main.Stop? || s.main.Join?)
    ensures Inv(c, ApplyMain(c, s, pick))
  {
    var t := ApplyMain(c, s, pick);
    assert DevicesOk(c, t) by {
      forall d | 0 <= d < |s.devices| ensures DeviceOk(c.capacity[d], t.log, t.stop, Notifying(t.main), Held(t.main, d), d, t.devices[d]) {
        assert DeviceOk(c.capacity[d], s.log, s.stop, Notifying(s.main), Held(s.main, d), d, s.devices[d]);
      }
    }
    assert SlotsOk(c, t);
  }

  lemma KeepMain<X, Y>(c: Config<X, Y>, s: State<Y>, pick: nat)
    requires Inv(c, s) && Enabled(c, s, MainStep(pick))
    ensures Inv(c, ApplyMain(c, s, pick))
  {
    match s.main
    case Loop => KeepLoop(c, s, pick);
    case Schedule => KeepSchedule(c, s, pick);
    case Generate(_) => KeepGenerate(c, s, pick);
    case Report(_) => KeepReport(c, s, pick);
    case Push(_) => KeepPush(c, s, pick);
    case Notify => KeepNotify(c, s, pick);
    case Wait => KeepWait(c, s, pick);
    case Stop => KeepStop(c, s, pick);
    case StopNotify => KeepNotify(c, s, pick);
    case Join => KeepStop(c, s, pick);
  }

  // ---------------------------------------------------------------------------------------------
  // Steps of the workers
  // ---------------------------------------------------------------------------------------------

  /** Replacing one device keeps the device invariants of the others. */
  lemma ReplaceDevice<X, Y>(c: Config<X, Y>, s: State<Y>, t: State<Y>, d: nat)
    requires Shape(c, s) && Shape(c, t) && DevicesOk(c, s) && d < |s.devices|
    requires t.devices == s.devices[d := t.devices[d]] && t.log == s.log && t.stop == s.stop
    requires Notifying(t.main) == Notifying(s.main) && forall x :: Held(t.main, x) == Held(s.main, x)
    requires DeviceOk(c.capacity[d], s.log, s.stop, Notifying(s.main), Held(s.main, d), d, t.devices[d])
    ensures DevicesOk(c, t)
  {
    forall x | 0 <= x < |t.devices| ensures DeviceOk(c.capacity[x], t.log, t.stop, Notifying(t.main), Held(t.main, x), x, t.devices[x]) {
      assert DeviceOk(c.capacity[x], s.log, s.stop, Notifying(s.main), Held(s.main, x), x, s.devices[x]);
    }
  }

  /** A worker that has not exited keeps what the main thread relies on, as long as it lowers no load, or
      else wakes the main thread. */
  lemma WorkerKeepsMain<X, Y>(c: Config<X, Y>, s: State<Y>, t: State<Y>, d: nat)
    requires Shape(c, s) && Shape(c, t) && MainOk(c, s) && d < |s.devices| && !s.devices[d].worker.Exited?
    requires t.devices == s.devices[d := t.devices[d]] && t.log == s.log && t.stop == s.stop
    requires t.offset == s.offset && t.outcome == s.outcome
    requires t.devices[d].load <= s.devices[d].load
    requires t.main == WakeMain(s.main) || (t.main == s.main && t.devices[d].load == s.devices[d].load)
    ensures MainOk(c, t)
  {
    forall x ensures Available(c, s.devices, x) ==> Available(c, t.devices, x) {}
    if t.devices[d].load == s.devices[d].load {
      forall x ensures Available(c, s.devices, x) <==> Available(c, t.devices, x) {}
      assert AllIdle(t.devices) ==> AllIdle(s.devices) by {
        assert forall x | 0 <= x < |s.devices| :: t.devices[x].load == s.devices[x].load;
      }
    }
  }

  /** A worker's step keeps the slots of the other devices. */
  lemma ReplaceSlots<X, Y>(c: Config<X, Y>, s: State<Y>, t: State<Y>, d: nat)
    requires LogOk(c, s) && LogOk(c, t) && SlotsOk(c, s) && d < |s.devices|
    requires t.devices == s.devices[d := t.devices[d]] && t.log == s.log
    requires forall e :: Holds(t.main, e) == Holds(s.main, e)
    requires forall i | 0 <= i < |s.log| && s.log[i].dev != d :: t.results[i] == s.results[i]
    requires forall i | 0 <= i < |s.log| && s.log[i].dev == d ::
      SlotOk(c, s.log[i], t.devices[d], Holds(s.main, s.log[i]), t.results[i])
    ensures SlotsOk(c, t)
  {
    forall i | 0 <= i < |t.log| ensures SlotOk(c, t.log[i], t.devices[t.log[i].dev], Holds(t.main, t.log[i]), t.results[i]) {
      assert SlotOk(c, s.log[i], s.devices[s.log[i].dev], Holds(s.main, s.log[i]), s.results[i]);
    }
  }

  lemma PopDevice(capacity: nat, log: seq<Entry>, stop: bool, notifying: bool, held: nat, d: nat, v: Device)
    requires DeviceOk(capacity, log, stop, notifying, held, d, v) && v.worker.Ready? && v.queue != []
    ensures var w := v.(worker := Running(v.queue[0]), queue := v.queue[1..], started := v.started + [v.queue[0]]);
            DeviceOk(capacity, log, stop, notifying, held, d, w)
  {
    assert v.started + v.queue == (v.started + [v.queue[0]]) + v.queue[1..];
  }

  /** Popping changes nothing about which tasks have been computed. */
  lemma PopSlot<X, Y>(c: Config<X, Y>, e: Entry, v: Device, held: bool, result: Option<Y>)
    requires SlotOk(c, e, v, held, result) && v.worker.Ready? && v.queue != []
    requires v.pushed == v.started + v.queue && Increasing(v.pushed)
    ensures SlotOk(c, e, v.(worker := Running(v.queue[0]), queue := v.queue[1..], started := v.started + [v.queue[0]]), held, result)
  {
    var w := v.(worker := Running(v.queue[0]), queue := v.queue[1..], started := v.started + [v.queue[0]]);
    assert v.queue[0] !in v.started by {
      forall k | 0 <= k < |v.started| ensures v.started[k] != v.queue[0] {
        assert v.pushed[k].slot < v.pushed[|v.started|].slot;
      }
    }
    assert Computed(e, w) <==> Computed(e, v);
  }

  lemma KeepReady<X, Y>(c: Config<X, Y>, s: State<Y>, d: nat)
    requires Inv(c, s) && d < |s.devices| && s.devices[d].worker.Ready?
    ensures Inv(c, ApplyWorker(c, s, d))
  {
    var t, v := ApplyWorker(c, s, d), s.devices[d];
    assert DeviceOk(c.capacity[d], s.log, s.stop, Notifying(s.main), Held(s.main, d), d, v);
    if v.queue != [] { PopDevice(c.capacity[d], s.log, s.stop, Notifying(s.main), Held(s.main, d), d, v); }
    ReplaceDevice(c, s, t, d);
    forall i | 0 <= i < |s.log| && s.log[i].dev == d
      ensures SlotOk(c, s.log[i], t.devices[d], Holds(s.main, s.log[i]), t.results[i])
    {
      assert SlotOk(c, s.log[i], v, Holds(s.main, s.log[i]), s.results[i]);
      if v.queue != [] { PopSlot(c, s.log[i], v, Holds(s.main, s.log[i]), s.results[i]); }
    }
    ReplaceSlots(c, s, t, d);
    WorkerKeepsMain(c, s, t, d);
  }

  /** What a worker runs is logged for its slot, and the slot is still empty. */
  lemma RunningIsPending<X, Y>(c: Config<X, Y>, s: State<Y>, d: nat)
    requires Inv(c, s) && d < |s.devices| && s.devices[d].worker.Running?
    ensures Logged(s.log, d, s.devices[d].worker.task)
    ensures s.results[s.devices[d].worker.task.slot].None?
  {
    var v := s.devices[d];
    var task := v.worker.task;
    assert DeviceOk(c.capacity[d], s.log, s.stop, Notifying(s.main), Held(s.main, d), d, v);
    assert task in v.pushed && Logged(s.log, d, task);
    assert SlotOk(c, s.log[task.slot], v, Holds(s.main, s.log[task.slot]), s.results[task.slot]);
  }

  lemma RunDevice(capacity: nat, log: seq<Entry>, stop: bool, notifying: bool, held: nat, d: nat, v: Device)
    requires DeviceOk(capacity, log, stop, notifying, held, d, v) && v.worker.Running? && v.worker.task.Size() > 0
    ensures DeviceOk(capacity, log, stop, notifying, held, d, v.(worker := Reporting(v.worker.task.Size())))
  {
    hide QueueSize, Increasing, Logged;
  }

  /** Storing a result completes exactly that one. */
  lemma RunSlot<X, Y>(c: Config<X, Y>, e: Entry, v: Device, held: bool, result: Option<Y>)
    requires SlotOk(c, e, v, held, result) && v.worker.Running? && v.worker.task in v.started
    ensures SlotOk(c, e, v.(worker := Reporting(v.worker.task.Size())), held,
                   if e.task == v.worker.task then Some(Value(c, e)) else result)
  {
  }

  lemma KeepRunning<X, Y>(c: Config<X, Y>, s: State<Y>, d: nat)
    requires Inv(c, s) && d < |s.devices| && s.devices[d].worker.Running?
    ensures Inv(c, ApplyWorker(c, s, d))
  {
    var t, v := ApplyWorker(c, s, d), s.devices[d];
    var task := v.worker.task;
    RunningIsPending(c, s, d);
    assert DeviceOk(c.capacity[d], s.log, s.stop, Notifying(s.main), Held(s.main, d), d, v);
    RunDevice(c.capacity[d], s.log, s.stop, Notifying(s.main), Held(s.main, d), d, v);
    ReplaceDevice(c, s, t, d);
    RunSlots(c, s, d);
    ReplaceSlots(c, s, t, d);
    WorkerKeepsMain(c, s, t, d);
  }

  lemma RunSlots<X, Y>(c: Config<X, Y>, s: State<Y>, d: nat)
    requires LogOk(c, s) && SlotsOk(c, s) && d < |s.devices| && s.devices[d].worker.Running?
    requires s.devices[d].worker.task in s.devices[d].started && Logged(s.log, d, s.devices[d].worker.task)
    ensures forall i | 0 <= i < |s.log| && s.log[i].dev == d ::
      SlotOk(c, s.log[i], ApplyWorker(c, s, d).devices[d], Holds(s.main, s.log[i]), ApplyWorker(c, s, d).results[i])
  {
    hide SlotOk;
    var t, v := ApplyWorker(c, s, d), s.devices[d];
    forall i | 0 <= i < |s.log| && s.log[i].dev == d
      ensures SlotOk(c, s.log[i], t.devices[d], Holds(s.main, s.log[i]), t.results[i])
    {
      assert SlotOk(c, s.log[i], s.devices[s.log[i].dev], Holds(s.main, s.log[i]), s.results[i]);
      RunSlot(c, s.log[i], v, Holds(s.main, s.log[i]), s.results[i]);
      assert s.log[i].task.slot == i;
    }
  }

  lemma ReportDevice(capacity: nat, log: seq<Entry>, stop: bool, notifying: bool, held: nat, d: nat, v: Device)
    requires DeviceOk(capacity, log, stop, notifying, held, d, v) && v.worker.Reporting?
    ensures v.worker.m <= v.load
    ensures DeviceOk(capacity, log, stop, notifying, held, d, v.(load := v.load - v.worker.m, worker := Ready))
  {
    hide QueueSize, Increasing, Logged;
  }

  lemma KeepReporting<X, Y>(c: Config<X, Y>, s: State<Y>, d: nat)
    requires Inv(c, s) && d < |s.devices| && s.devices[d].worker.Reporting?
    ensures Inv(c, ApplyWorker(c, s, d)) && s.devices[d].worker.m <= s.devices[d].load
  {
    var t, v := ApplyWorker(c, s, d), s.devices[d];
    assert DeviceOk(c.capacity[d], s.log, s.stop, Notifying(s.main), Held(s.main, d), d, v);
    ReportDevice(c.capacity[d], s.log, s.stop, Notifying(s.main), Held(s.main, d), d, v);
    ReplaceDevice(c, s, t, d);
    forall i | 0 <= i < |s.log| && s.log[i].dev == d
      ensures SlotOk(c, s.log[i], t.devices[d], Holds(s.main, s.log[i]), t.results[i])
    {
      assert SlotOk(c, s.log[i], v, Holds(s.main, s.log[i]), s.results[i]);
    }
    ReplaceSlots(c, s, t, d);
    WorkerKeepsMain(c, s, t, d);
  }

  lemma KeepInv<X, Y>(c: Config<X, Y>, s: State<Y>, e: Event)
    requires Inv(c, s) && Enabled(c, s, e)
    ensures Inv(c, Apply(c, s, e))
  {
    match e
    case MainStep(pick) => KeepMain(c, s, pick);
    case WorkerStep(d) =>
      if s.devices[d].worker.Ready? { KeepReady(c, s, d); }
      else if s.devices[d].worker.Running? { KeepRunning(c, s, d); }
      else { KeepReporting(c, s, d); }
  }
}
