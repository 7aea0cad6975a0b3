/** What a simulation of the hybrid scheduler is: the history of its dispatches and retrievals. */
module History {
  import opened Common

  /** A batch of work: its size, its device, when it was dispatched and can be retrieved, how much work was in
      its queue, and how far it moved up at which times. */
  datatype Event = Event(size: nat, to: nat, dispatchedAt: int, retrievedAt: int, pos0: nat, shifts: seq<(int, nat)>)

  /** Devices with their batch sizes, capacities and speeds, the time to dispatch and to retrieve a batch, and how
      the machine rounds the result of an operation on numbers. */
  datatype Setup = Setup(
    batches: seq<nat>, capacities: seq<nat>, speeds: seq<real>, dispatchSpeed: nat, retrieveSpeed: nat, round: real -> real)

  predicate Legal(c: Setup) {
    && 0 < |c.batches| == |c.capacities| == |c.speeds|
    && forall d | 0 <= d < |c.batches| :: 0 < c.batches[d] <= c.capacities[d] && c.speeds[d] > 0.0
  }

  function Ceil(x: real): int {
    -((-x).Floor)
  }

  /** When a batch that is dispatched at a time can be retrieved from a device. */
  function RetrievedAt(c: Setup, dev: nat, size: nat, time: int): int
    requires Legal(c) && dev < |c.batches|
  {
    time + c.dispatchSpeed + Ceil(c.round(size as real / c.speeds[dev]))
  }

  /** Rounding up gives the least integer that is not below the number. */
  lemma CeilIsLeast(x: real, n: int)
    ensures x <= Ceil(x) as real
    ensures x <= n as real ==> Ceil(x) <= n
  {
  }

  /** Where a quotient is exact, work takes the least whole time `t` in which the device at its speed gets through
      the batch. */
  lemma RetrievedInTime(c: Setup, dev: nat, size: nat, time: int, n: int)
    requires Legal(c) && dev < |c.batches| && c.round(size as real / c.speeds[dev]) == size as real / c.speeds[dev]
    ensures var t := RetrievedAt(c, dev, size, time) - time - c.dispatchSpeed;
      && t >= 0 && t as real * c.speeds[dev] >= size as real
      && (n as real * c.speeds[dev] >= size as real ==> t <= n)
  {
    var x, speed := size as real / c.speeds[dev], c.speeds[dev];
    assert x * speed == size as real;
    CeilIsLeast(x, n);
    Scale(x, Ceil(x) as real, speed);
    Scale(x, n as real, speed);
    Scale(0.0, x, speed);
  }

  lemma Scale(x: real, y: real, speed: real)
    requires speed > 0.0
    ensures x <= y <==> x * speed <= y * speed
  {
    if x < y { assert (y - x) * speed > 0.0; }
    if y < x { assert (x - y) * speed > 0.0; }
  }

  /** The load of a device in percent of its capacity, rounded up. */
  function Percent(c: Setup, load: int, capacity: nat): int
    requires capacity > 0
  {
    Ceil(c.round(c.round(load as real / capacity as real) * 100.0))
  }

  lemma Covers(load: int, capacity: nat, n: int)
    requires capacity > 0
    ensures load as real / capacity as real * 100.0 <= n as real <==> n * capacity >= 100 * load
  {
    var x, y := load as real / capacity as real, capacity as real;
    assert x * y == load as real;
    Scale(x * 100.0, n as real, y);
    Swap(x, 100.0, y);
    assert (n * capacity) as real == n as real * y;
  }

  lemma Swap(x: real, y: real, z: real)
    ensures x * y * z == y * (x * z)
  {
  }

  /** Where the quotients are exact, it is the least whole percentage of the capacity that covers the load. */
  lemma PercentCovers(c: Setup, load: int, capacity: nat, n: int)
    requires capacity > 0
    requires c.round(load as real / capacity as real) == load as real / capacity as real
    requires c.round(load as real / capacity as real * 100.0) == load as real / capacity as real * 100.0
    ensures Percent(c, load, capacity) * capacity >= 100 * load
    ensures n * capacity >= 100 * load ==> Percent(c, load, capacity) <= n
  {
    Covers(load, capacity, n);
    Covers(load, capacity, Percent(c, load, capacity));
    CeilIsLeast(load as real / capacity as real * 100.0, n);
  }

  /** The first device with the least load in percent. */
  ghost predicate LeastLoaded(c: Setup, loads: seq<int>, dev: nat)
    requires Legal(c)
  {
    && dev < |loads| == |c.capacities|
    && (forall d | 0 <= d < |loads| :: Percent(c, loads[dev], c.capacities[dev]) <= Percent(c, loads[d], c.capacities[d]))
    && (forall d | 0 <= d < dev :: Percent(c, loads[dev], c.capacities[dev]) < Percent(c, loads[d], c.capacities[d]))
  }

  function Core(e: Event): Event {
    e.(shifts := [])
  }

  // ---------------------------------------------------------------------------------------------
  // Histories
  // ---------------------------------------------------------------------------------------------

  /** An event is dispatched, retrieved because the scheduler waits, or retrieved in the end. */
  datatype Step = Dispatched(id: nat, e: Event) | Awaited(id: nat, e: Event) | Drained(id: nat, e: Event)

  function Front(h: seq<Step>): seq<Step>
    requires h != []
  {
    h[..|h| - 1]
  }

  function Last(h: seq<Step>): Step
    requires h != []
  {
    h[|h| - 1]
  }

  /** How many events have been dispatched. */
  function Count(h: seq<Step>): nat {
    if h == [] then 0 else Count(Front(h)) + if Last(h).Dispatched? then 1 else 0
  }

  /** How much work has been dispatched. */
  function Sent(h: seq<Step>): nat {
    if h == [] then 0 else Sent(Front(h)) + if Last(h).Dispatched? then Last(h).e.size else 0
  }

  /** The events dispatched and not yet retrieved. */
  function Held(h: seq<Step>): map<nat, Event> {
    if h == [] then map[]
    else if Last(h).Dispatched? then Held(Front(h))[Last(h).id := Last(h).e]
    else Held(Front(h)) - {Last(h).id}
  }

  /** The outstanding work of a device. */
  function Load(h: seq<Step>, d: nat): int {
    if h == [] then 0 else Load(Front(h), d) + Change(Last(h), d)
  }

  function Change(s: Step, d: nat): int {
    if s.e.to != d then 0 else if s.Dispatched? then s.e.size as int else -(s.e.size as int)
  }

  function Loads(c: Setup, h: seq<Step>): (loads: seq<int>)
    ensures |loads| == |c.capacities| && forall d | 0 <= d < |loads| :: loads[d] == Load(h, d)
  {
    seq(|c.capacities|, d requires 0 <= d => Load(h, d))
  }

  function Clock(c: Setup, h: seq<Step>): int {
    if h == [] then 0
    else match Last(h)
      case Dispatched(_, _) => Clock(c, Front(h)) + c.dispatchSpeed
      case Awaited(_, e) => e.retrievedAt + c.retrieveSpeed
      case Drained(_, _) => Clock(c, Front(h))
  }

  /** Event `id` moves up when another event of its device is retrieved while it is held, unless the other was
      dispatched after it. */
  predicate MovesUp(held: map<nat, Event>, id: nat, s: Step) {
    !s.Dispatched? && id in held && id != s.id && held[id].to == s.e.to && held[id].dispatchedAt >= s.e.dispatchedAt
  }

  /** The times and distances at which event `id` moves up. */
  function Shifts(c: Setup, h: seq<Step>, id: nat): seq<(int, nat)> {
    if h == [] then []
    else
      var before, s := Shifts(c, Front(h), id), Last(h);
      if MovesUp(Held(Front(h)), id, s)
      then before + [(Max(s.e.retrievedAt, Held(Front(h))[id].dispatchedAt + c.dispatchSpeed), s.e.size)]
      else before
  }

  /** Of two events of one device, the one that can be retrieved first, or was dispatched first. */
  predicate NoLater(e: Event, id: nat, f: Event, x: nat) {
    e.retrievedAt < f.retrievedAt || (e.retrievedAt == f.retrievedAt && id <= x)
  }

  /** Of any two events, the one that the scheduler waits for; of several devices it takes the first. */
  predicate Sooner(e: Event, id: nat, f: Event, x: nat) {
    e.retrievedAt < f.retrievedAt || (e.retrievedAt == f.retrievedAt && (e.to < f.to || (e.to == f.to && id <= x)))
  }

  /** What each kind of step requires and does. */
  ghost predicate StepOk(c: Setup, total: nat, h: seq<Step>, s: Step)
    requires Legal(c)
  {
    match s
    case Dispatched(id, e) => Sent(h) < total && id == Count(h) && Fits(c, total, h, e)
    case Awaited(id, e) =>
      && Sent(h) < total && Full(c, total, h)
      && InHand(h, id, e) && forall x | x in Held(h) :: Sooner(e, id, Held(h)[x], x)
    case Drained(id, e) =>
      && Sent(h) == total
      && InHand(h, id, e)
      && forall x | x in Held(h) :: e.to < Held(h)[x].to || (e.to == Held(h)[x].to && NoLater(e, id, Held(h)[x], x))
  }

  /** A batch for the least loaded device, which has room for it. */
  ghost predicate Fits(c: Setup, total: nat, h: seq<Step>, e: Event)
    requires Legal(c) && Sent(h) < total
  {
    && LeastLoaded(c, Loads(c, h), e.to)
    && e.size == Min(c.batches[e.to], total - Sent(h)) && Load(h, e.to) + e.size <= c.capacities[e.to]
    && e.dispatchedAt == Clock(c, h) && e.retrievedAt == RetrievedAt(c, e.to, e.size, e.dispatchedAt)
    && e.pos0 == Load(h, e.to) && e.shifts == []
  }

  /** The least loaded device has no room for its next batch. */
  ghost predicate Full(c: Setup, total: nat, h: seq<Step>)
    requires Legal(c) && Sent(h) < total
  {
    exists d: nat :: LeastLoaded(c, Loads(c, h), d) && Load(h, d) + Min(c.batches[d], total - Sent(h)) > c.capacities[d]
  }

  ghost predicate InHand(h: seq<Step>, id: nat, e: Event) {
    id in Held(h) && Held(h)[id] == e && e.size <= Load(h, e.to)
  }

  /** A history of the simulation of so much work. */
  ghost predicate Run(c: Setup, total: nat, h: seq<Step>)
    requires Legal(c)
  {
    h == [] || (Run(c, total, Front(h)) && StepOk(c, total, Front(h), Last(h)))
  }

  /** All work has been dispatched, and all of it retrieved. */
  ghost predicate Complete(c: Setup, total: nat, h: seq<Step>)
    requires Legal(c)
  {
    Run(c, total, h) && Sent(h) == total && Held(h) == map[]
  }

  /** The events are those of the history, with the shifts that it gives rise to. */
  ghost predicate Matches(c: Setup, events: seq<Event>, h: seq<Step>) {
    && |events| == Count(h)
    && (forall n | 0 <= n < |h| :: h[n].id < |events| && h[n].e == Core(events[h[n].id]))
    && forall i {:trigger events[i]} | 0 <= i < |events| :: events[i].shifts == Shifts(c, h, i)
  }

  // ---------------------------------------------------------------------------------------------
  // What holds of every history
  // ---------------------------------------------------------------------------------------------

  function Dispatches(h: seq<Step>, id: nat): nat {
    if h == [] then 0 else Dispatches(Front(h), id) + if Last(h).Dispatched? && Last(h).id == id then 1 else 0
  }

  function Retrievals(h: seq<Step>, id: nat): nat {
    if h == [] then 0 else Retrievals(Front(h), id) + if !Last(h).Dispatched? && Last(h).id == id then 1 else 0
  }

  lemma {:induction false} RunAt(c: Setup, total: nat, h: seq<Step>, n: nat)
    requires Legal(c) && Run(c, total, h) && n <= |h|
    ensures Run(c, total, h[..n]) && (n < |h| ==> StepOk(c, total, h[..n], h[n]))
  {
    if n < |h| - 1 {
      RunAt(c, total, Front(h), n);
      assert Front(h)[..n] == h[..n];
    } else if n == |h| {
      assert h[..n] == h;
    }
  }

  /** Events are dispatched once, and retrieved once unless they are still held. */
  lemma {:induction false} CountsAreRight(c: Setup, total: nat, h: seq<Step>, id: nat)
    requires Legal(c) && Run(c, total, h)
    ensures id in Held(h) ==> id < Count(h)
    ensures Dispatches(h, id) == if id < Count(h) then 1 else 0
    ensures Retrievals(h, id) == if id < Count(h) && id !in Held(h) then 1 else 0
  {
    if h != [] { CountsAreRight(c, total, Front(h), id); }
  }

  lemma {:induction false} LoadsFit(c: Setup, total: nat, h: seq<Step>, d: nat)
    requires Legal(c) && Run(c, total, h) && d < |c.capacities|
    ensures 0 <= Load(h, d) <= c.capacities[d]
  {
    if h != [] { LoadsFit(c, total, Front(h), d); }
  }

  /** In a complete history every event is dispatched and retrieved exactly once, the dispatch first. */
  lemma EachOnce(c: Setup, total: nat, h: seq<Step>, id: nat)
    requires Legal(c) && Complete(c, total, h) && id < Count(h)
    ensures Dispatches(h, id) == 1 == Retrievals(h, id)
    ensures forall n | 0 <= n <= |h| :: Retrievals(h[..n], id) <= Dispatches(h[..n], id)
  {
    CountsAreRight(c, total, h, id);
    forall n | 0 <= n <= |h| ensures Retrievals(h[..n], id) <= Dispatches(h[..n], id) {
      RunAt(c, total, h, n);
      CountsAreRight(c, total, h[..n], id);
    }
  }

  /** At every moment the outstanding work of a device is within its capacity. */
  lemma AlwaysFits(c: Setup, total: nat, h: seq<Step>, n: nat, d: nat)
    requires Legal(c) && Run(c, total, h) && n <= |h| && d < |c.capacities|
    ensures 0 <= Load(h[..n], d) <= c.capacities[d]
  {
    RunAt(c, total, h, n);
    LoadsFit(c, total, h[..n], d);
  }

  /** Whenever the scheduler waits, the earliest of all outstanding events is retrieved. */
  lemma EarliestFirst(c: Setup, total: nat, h: seq<Step>)
    requires Legal(c) && Run(c, total, h)
    ensures forall n, id | 0 <= n < |h| && h[n].Awaited? && id in Held(h[..n]) ::
      h[n].e.retrievedAt <= Held(h[..n])[id].retrievedAt
  {
    forall n | 0 <= n < |h| ensures StepOk(c, total, h[..n], h[n]) { RunAt(c, total, h, n); }
  }

  // ---------------------------------------------------------------------------------------------
  // There is only one history
  // ---------------------------------------------------------------------------------------------

  lemma OneLeastLoaded(c: Setup, loads: seq<int>, d: nat, e: nat)
    requires Legal(c) && LeastLoaded(c, loads, d) && LeastLoaded(c, loads, e)
    ensures d == e
  {
    hide Percent;
    assert Percent(c, loads[d], c.capacities[d]) <= Percent(c, loads[e], c.capacities[e]);
    assert Percent(c, loads[e], c.capacities[e]) <= Percent(c, loads[d], c.capacities[d]);
  }

  lemma FitsOrFull(c: Setup, total: nat, h: seq<Step>, e: Event)
    requires Legal(c) && Sent(h) < total && Fits(c, total, h, e)
    ensures !Full(c, total, h)
  {
    hide Load, Clock, RetrievedAt, Percent;
    if Full(c, total, h) {
      var d: nat :| LeastLoaded(c, Loads(c, h), d) && Load(h, d) + Min(c.batches[d], total - Sent(h)) > c.capacities[d];
      OneLeastLoaded(c, Loads(c, h), d, e.to);
    }
  }

  lemma OneStep(c: Setup, total: nat, h: seq<Step>, s: Step, t: Step)
    requires Legal(c) && StepOk(c, total, h, s) && StepOk(c, total, h, t)
    ensures s == t
  {
    hide Full, LeastLoaded, Loads, Load, Clock, RetrievedAt, Held, Count, Sent;
    if s.Dispatched? && t.Dispatched? {
      OneLeastLoaded(c, Loads(c, h), s.e.to, t.e.to);
    } else if s.Dispatched? {
      FitsOrFull(c, total, h, s.e);
    } else if t.Dispatched? {
      FitsOrFull(c, total, h, t.e);
    }
  }

  lemma {:induction false} SameLength(c: Setup, total: nat, g: seq<Step>, h: seq<Step>)
    requires Legal(c) && Run(c, total, g) && Run(c, total, h) && |g| == |h|
    ensures g == h
  {
    hide StepOk;
    if h != [] {
      SameLength(c, total, Front(g), Front(h));
      OneStep(c, total, Front(h), Last(g), Last(h));
      assert g == Front(g) + [Last(g)] && h == Front(h) + [Last(h)];
    }
  }

  lemma NothingFollows(c: Setup, total: nat, g: seq<Step>, h: seq<Step>)
    requires Legal(c) && Complete(c, total, g) && Run(c, total, h) && |g| <= |h|
    ensures g == h
  {
    hide Run, Sent;
    var n := |g|;
    RunAt(c, total, h, n);
    SameLength(c, total, g, h[..n]);
    assert h[..|h|] == h;
  }

  /** The setup and the amount of work determine the complete history, ties included. */
  lemma OneHistory(c: Setup, total: nat, g: seq<Step>, h: seq<Step>)
    requires Legal(c) && Complete(c, total, g) && Complete(c, total, h)
    ensures g == h
  {
    if |g| <= |h| { NothingFollows(c, total, g, h); } else { NothingFollows(c, total, h, g); }
  }

  lemma {:induction false} WhereDispatched(h: seq<Step>, id: nat) returns (n: nat)
    requires Dispatches(h, id) > 0
    ensures n < |h| && h[n].id == id
  {
    if Last(h).Dispatched? && Last(h).id == id { n := |h| - 1; } else { n := WhereDispatched(Front(h), id); }
  }

  /** And with it the events and their shifts. */
  lemma OneOutcome(c: Setup, total: nat, g: seq<Step>, h: seq<Step>, a: seq<Event>, b: seq<Event>)
    requires Legal(c) && Complete(c, total, g) && Complete(c, total, h) && Matches(c, a, g) && Matches(c, b, h)
    ensures a == b
  {
    OneHistory(c, total, g, h);
    forall i | 0 <= i < |a| ensures a[i] == b[i] {
      CountsAreRight(c, total, h, i);
      var n := WhereDispatched(h, i);
      assert h[n].e == Core(a[h[n].id]) && h[n].e == Core(b[h[n].id]);
      assert a[i].shifts == Shifts(c, h, i) && b[i].shifts == Shifts(c, h, i);
      assert a[i] == Core(a[i]).(shifts := a[i].shifts);
    }
  }

  // ---------------------------------------------------------------------------------------------
  // One more step
  // ---------------------------------------------------------------------------------------------

  lemma OneMore(c: Setup, total: nat, h: seq<Step>, s: Step)
    requires Legal(c)
    ensures Front(h + [s]) == h && Last(h + [s]) == s
    ensures Run(c, total, h) && StepOk(c, total, h, s) ==> Run(c, total, h + [s])
  {
    assert (h + [s])[..|h|] == h;
  }

  lemma LoadsChange(c: Setup, h: seq<Step>, s: Step, loads: seq<nat>)
    requires loads == Loads(c, h) && s.e.to < |loads|
    requires !s.Dispatched? ==> s.e.size <= loads[s.e.to]
    ensures Loads(c, h + [s]) == loads[s.e.to := if s.Dispatched? then loads[s.e.to] + s.e.size else loads[s.e.to] - s.e.size]
  {
    assert (h + [s])[..|h|] == h;
    forall d: nat ensures Load(h + [s], d) == Load(h, d) + Change(s, d) {}
  }

  /** Nothing is held before it is dispatched, so nothing moves up before. */
  lemma {:induction false} NoShiftsYet(c: Setup, total: nat, h: seq<Step>, id: nat)
    requires Legal(c) && Run(c, total, h) && id >= Count(h)
    ensures Shifts(c, h, id) == []
  {
    if h != [] {
      NoShiftsYet(c, total, Front(h), id);
      CountsAreRight(c, total, Front(h), id);
    }
  }

  lemma MatchesDispatch(c: Setup, total: nat, events: seq<Event>, h: seq<Step>, e: Event)
    requires Legal(c) && Run(c, total, h) && Matches(c, events, h) && e.shifts == []
    ensures Matches(c, events + [e], h + [Dispatched(|events|, e)])
  {
    var s := Dispatched(|events|, e);
    var more, all := events + [e], h + [s];
    assert Front(all) == h;
    forall n | 0 <= n < |all| ensures all[n].id < |more| && all[n].e == Core(more[all[n].id]) {
      if n < |h| { assert h[n].id < |events|; }
    }
    NoShiftsYet(c, total, h, |events|);
    forall i | 0 <= i < |more| ensures more[i].shifts == Shifts(c, all, i) {
      if i < |events| { assert events[i].shifts == Shifts(c, h, i); }
    }
  }

  /** Retrieving an event moves up the events that `MovesUp` says. */
  ghost predicate Advanced(c: Setup, before: seq<Event>, after: seq<Event>, held: map<nat, Event>, first: nat) {
    && first < |before| == |after|
    && forall id {:trigger after[id]} | 0 <= id < |before| ::
         after[id] == if id in held && id != first && before[id].to == before[first].to
                      then Moved(before[id], before[first], c.dispatchSpeed) else before[id]
  }

  /** Whether an event moves up, and the entry that says so. */
  function Moved(e: Event, first: Event, dispatchSpeed: nat): Event {
    if e.dispatchedAt < first.dispatchedAt then e
    else e.(shifts := e.shifts + [(Max(first.retrievedAt, e.dispatchedAt + dispatchSpeed), first.size)])
  }

  lemma AdvancedCore(c: Setup, before: seq<Event>, after: seq<Event>, held: map<nat, Event>, first: nat)
    requires Advanced(c, before, after, held, first)
    ensures |after| == |before| && forall i | 0 <= i < |before| :: Core(after[i]) == Core(before[i])
  {
  }

  lemma AdvancedShifts(c: Setup, events: seq<Event>, after: seq<Event>, h: seq<Step>, s: Step, i: nat)
    requires Advanced(c, events, after, Held(h), s.id) && !s.Dispatched? && i < |events| && s.e == Core(events[s.id])
    requires events[i].shifts == Shifts(c, h, i) && (i in Held(h) ==> Held(h)[i] == Core(events[i]))
    ensures after[i].shifts == Shifts(c, h + [s], i)
  {
    hide Held;
    assert Front(h + [s]) == h;
  }

  lemma MatchesRetrieval(c: Setup, events: seq<Event>, after: seq<Event>, h: seq<Step>, s: Step)
    requires Matches(c, events, h) && Advanced(c, events, after, Held(h), s.id)
    requires !s.Dispatched? && s.id < |events| && s.e == Core(events[s.id])
    requires forall i | i in Held(h) :: i < |events| && Held(h)[i] == Core(events[i])
    ensures Matches(c, after, h + [s])
  {
    hide Advanced, Shifts, Held;
    AdvancedCore(c, events, after, Held(h), s.id);
    var all := h + [s];
    assert Front(all) == h;
    forall i | 0 <= i < |after| ensures after[i].shifts == Shifts(c, all, i) {
      assert events[i].shifts == Shifts(c, h, i);
      AdvancedShifts(c, events, after, h, s, i);
    }
    forall n | 0 <= n < |all| ensures all[n].id < |after| && all[n].e == Core(after[all[n].id]) {
      if n < |h| { assert h[n].id < |events| && h[n].e == Core(events[h[n].id]); }
    }
  }
}
