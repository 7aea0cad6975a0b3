/** The asynchronous dispatching protocol: one main thread running `run_async` and then the
    destructor, one worker thread per device, a scheduler and one task queue per device, as a
    transition system. Every lock-protected section, and every step that touches shared data, is one
    atomic event. */
module Protocol {
  import opened Common

  datatype Option<+T> = None | Some(value: T)

  /** The work to be dispatched, the scheduler's batch size and capacity of every device, and the
      computation of one task: preprocess, do the work and postprocess, on a slice of the input. */
  datatype Config<!X, !Y> = Config(input: seq<X>, batch: seq<nat>, capacity: seq<nat>, compute: (seq<X>, nat) -> Y)

  /** A task computes the batches `lo..hi` into result slot `slot`. */
  datatype Task = Task(slot: nat, lo: nat, hi: nat) {
    function Size(): nat {
      if lo <= hi then hi - lo else 0
    }
  }

  datatype Entry = Entry(dev: nat, task: Task)

  /** Where the main thread stands. The `Asleep` points are inside a wait on the scheduler's condition
      variable. */
  datatype Main =
    | Loop | Schedule | ScheduleAsleep | Generate(dev: nat) | Report(entry: Entry) | Push(entry: Entry) | Notify
    | Wait | WaitAsleep | Stop | StopNotify | Join | Joined

  /** Where a worker thread stands. `Asleep` is inside the wait on the queue's condition variable;
      `Crashed` is the failed assertion on load underflow, or a write outside the result vector. */
  datatype Worker = Ready | Asleep | Running(task: Task) | Reporting(m: nat) | Exited | Crashed

  /** One device: the load the scheduler accounts to it, its task queue and its worker; `pushed` and
      `started` are the history of tasks queued and popped. */
  datatype Device = Device(load: nat, queue: seq<Task>, worker: Worker, pushed: seq<Task>, started: seq<Task>)

  datatype Outcome<+Y> = Busy | Returned(results: seq<Option<Y>>) | Threw

  /** `log` is the history of tasks in the order of dispatch. */
  datatype State<+Y> = State(
    main: Main, offset: nat, devices: seq<Device>, results: seq<Option<Y>>, log: seq<Entry>, stop: bool, outcome: Outcome<Y>)

  /** A step of the main thread, with the device that the scheduler picks, or a step of a worker. */
  datatype Event = MainStep(pick: nat) | WorkerStep(dev: nat)

  // ---------------------------------------------------------------------------------------------
  // The transition system
  // ---------------------------------------------------------------------------------------------

  function Slice<X>(input: seq<X>, lo: nat, hi: nat): seq<X> {
    if lo <= hi <= |input| then input[lo..hi] else []
  }

  /** What task `e` computes on its device. */
  function Value<X, Y>(c: Config<X, Y>, e: Entry): Y {
    (c.compute)(Slice(c.input, e.task.lo, e.task.hi), e.dev)
  }

  predicate Shape<X, Y>(c: Config<X, Y>, s: State<Y>) {
    |c.batch| == |c.capacity| == |s.devices|
  }

  /** A device is available if its load and one more batch fit its capacity. */
  predicate Available<X, Y>(c: Config<X, Y>, devices: seq<Device>, d: nat)
    requires |c.batch| == |c.capacity| == |devices|
  {
    d < |devices| && devices[d].load + c.batch[d] <= c.capacity[d]
  }

  ghost predicate SomeAvailable<X, Y>(c: Config<X, Y>, devices: seq<Device>)
    requires |c.batch| == |c.capacity| == |devices|
  {
    exists d :: Available(c, devices, d)
  }

  predicate AllIdle(devices: seq<Device>) {
    forall d | 0 <= d < |devices| :: devices[d].load == 0
  }

  function Wake(w: Worker): Worker {
    if w.Asleep? then Ready else w
  }

  function WakeAll(devices: seq<Device>): (woken: seq<Device>)
    ensures |woken| == |devices|
    ensures forall d | 0 <= d < |devices| :: woken[d] == devices[d].(worker := Wake(devices[d].worker))
  {
    seq(|devices|, d requires 0 <= d < |devices| => devices[d].(worker := Wake(devices[d].worker)))
  }

  function WakeMain(m: Main): Main {
    match m
    case ScheduleAsleep => Schedule
    case WaitAsleep => Wait
    case _ => m
  }

  ghost predicate Enabled<X, Y>(c: Config<X, Y>, s: State<Y>, e: Event)
    requires Shape(c, s)
  {
    match e
    case MainStep(pick) => (
      match s.main
      case Schedule => SomeAvailable(c, s.devices) ==> Available(c, s.devices, pick)
      case Join => forall d | 0 <= d < |s.devices| :: s.devices[d].worker.Exited?
      case _ => !s.main.ScheduleAsleep? && !s.main.WaitAsleep? && !s.main.Joined?)
    case WorkerStep(d) =>
      d < |s.devices| && (s.devices[d].worker.Ready? || s.devices[d].worker.Running? || s.devices[d].worker.Reporting?)
  }

  ghost function Apply<X, Y>(c: Config<X, Y>, s: State<Y>, e: Event): State<Y>
    requires Shape(c, s) && Enabled(c, s, e)
  {
    match e
    case MainStep(pick) => ApplyMain(c, s, pick)
    case WorkerStep(d) => ApplyWorker(c, s, d)
  }

  ghost function ApplyMain<X, Y>(c: Config<X, Y>, s: State<Y>, pick: nat): State<Y>
    requires Shape(c, s) && Enabled(c, s, MainStep(pick))
  {
    match s.main
    case Loop => s.(main := if s.offset < |c.input| then Schedule else Wait)
    case Schedule =>
      if !SomeAvailable(c, s.devices) then s.(main := ScheduleAsleep)
      else if c.batch[pick] == 0 then s.(main := Stop, outcome := Threw)
      else s.(main := Generate(pick))
    case Generate(d) =>
      var remaining := if s.offset <= |c.input| then |c.input| - s.offset else 0;
      var m := Min(if d < |c.batch| then c.batch[d] else 0, remaining);
      var e := Entry(d, Task(|s.results|, s.offset, s.offset + m));
      s.(offset := s.offset + m, results := s.results + [None], log := s.log + [e], main := Report(e))
    case Report(e) =>
      if e.dev >= |s.devices| then s.(main := Stop, outcome := Threw)
      else
        var v := s.devices[e.dev];
        var t := s.(devices := s.devices[e.dev := v.(load := v.load + e.task.Size())]);
        if v.load + e.task.Size() > c.capacity[e.dev] then t.(main := Stop, outcome := Threw) else t.(main := Push(e))
    case Push(e) =>
      if e.dev >= |s.devices| then s.(main := Stop, outcome := Threw)
      else
        var v := s.devices[e.dev];
        s.(devices := s.devices[e.dev := v.(queue := v.queue + [e.task], pushed := v.pushed + [e.task])], main := Notify)
    case Notify => s.(devices := WakeAll(s.devices), main := Loop)
    case Wait =>
      if AllIdle(s.devices) then s.(main := Stop, outcome := Returned(s.results)) else s.(main := WaitAsleep)
    case Stop => s.(stop := true, main := StopNotify)
    case StopNotify => s.(devices := WakeAll(s.devices), main := Join)
    case Join => s.(main := Joined)
  }

  ghost function ApplyWorker<X, Y>(c: Config<X, Y>, s: State<Y>, d: nat): State<Y>
    requires Shape(c, s) && Enabled(c, s, WorkerStep(d))
  {
    var v := s.devices[d];
    match v.worker
    case Ready =>
      var v' :=
        if v.queue != [] then v.(worker := Running(v.queue[0]), queue := v.queue[1..], started := v.started + [v.queue[0]])
        else if s.stop then v.(worker := Exited)
        else v.(worker := Asleep);
      s.(devices := s.devices[d := v'])
    case Running(t) =>
      if t.slot < |s.results| then
        s.(results := s.results[t.slot := Some(Value(c, Entry(d, t)))], devices := s.devices[d := v.(worker := Reporting(t.Size()))])
      else
        s.(devices := s.devices[d := v.(worker := Crashed)])
    case Reporting(m) =>
      if m <= v.load then
        s.(devices := s.devices[d := v.(load := v.load - m, worker := Ready)], main := WakeMain(s.main))
      else
        s.(devices := s.devices[d := v.(worker := Crashed)])
  }

  /** The dispatcher has just been constructed, its workers have not run yet, and `run` is called. */
  ghost function Initial<X, Y>(c: Config<X, Y>): State<Y> {
    State(Loop, 0, seq(|c.batch|, _ => Device(0, [], Ready, [], [])), [], [], false, Busy)
  }

  ghost predicate Next<X, Y>(c: Config<X, Y>, s: State<Y>, t: State<Y>) {
    Shape(c, s) && exists e :: Enabled(c, s, e) && t == Apply(c, s, e)
  }

  /** The states of a run, one per event, from the initial one. Any interleaving and any choice of an
      available device is a run. */
  ghost predicate Run<X, Y>(c: Config<X, Y>, states: seq<State<Y>>) {
    && |states| > 0 && states[0] == Initial(c)
    && forall i | 0 <= i < |states| - 1 :: Next(c, states[i], states[i + 1])
  }
}
