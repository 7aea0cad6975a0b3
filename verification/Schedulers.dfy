/** The two schedulers. */
module Schedulers {
  import opened Common
  import opened Protocol

  /** Dispatches to a single device in fixed batch sizes. */
  class SimpleScheduler {
    const batchSize: nat
    const capacity: nat
    var load: nat

    constructor (batchSize: nat, capacity: nat)
      ensures this.batchSize == batchSize && this.capacity == capacity && load == 0
    {
      this.batchSize, this.capacity, this.load := batchSize, capacity, 0;
    }

    method ScheduleWork() returns (r: Option<nat>)
      ensures r == if load + batchSize > capacity then None else Some(batchSize)
    {
      if load + batchSize > capacity { return None; }
      r := Some(batchSize);
    }

    method DispatchedWork(n: nat)
      modifies this`load
      ensures load == old(load) + n
    {
      load := load + n;
    }

    /** Fails, changing nothing, if more is completed than was dispatched. */
    method CompletedWork(n: nat) returns (r: Result<(), string>)
      modifies this`load
      ensures r.Pass? <==> n <= old(load)
      ensures load == old(load) - if r.Pass? then n else 0
    {
      if load < n { return Fail("Load underflow"); }
      load := load - n;
      r := Pass(());
    }

    predicate AllWorkCompleted()
      reads this`load
    {
      load == 0
    }
  }

  datatype DeviceStatus = DeviceStatus(device: nat, batchSize: nat, capacity: nat, priority: real, load: nat) {
    predicate Available() {
      load + batchSize <= capacity
    }
  }

  function Pow2(n: nat): real {
    if n == 0 then 1.0 else 2.0 * Pow2(n - 1)
  }

  /** The lowest finite double. */
  const LOWEST: real := (1.0 - Pow2(53)) * Pow2(971)

  lemma {:induction false} Pow2Sum(m: nat, n: nat)
    ensures Pow2(m + n) == Pow2(m) * Pow2(n)
  {
    if m > 0 { Pow2Sum(m - 1, n); }
  }

  /** The lowest double in terms of powers of two: it has the largest exponent and all bits of the mantissa set. */
  lemma LowestInPowers(m: nat, n: nat)
    ensures LOWEST == Pow2(971) - Pow2(1024)
    ensures Pow2(0) == 1.0 && Pow2(1) == 2.0 && Pow2(m + n) == Pow2(m) * Pow2(n)
  {
    Pow2Sum(53, 971);
    Pow2Sum(m, n);
    Distribute(1.0, Pow2(53), Pow2(971));
  }

  lemma Distribute(x: real, y: real, z: real)
    ensures (x - y) * z == x * z - y * z
  {
  }

  ghost predicate EachOnce(devices: seq<DeviceStatus>) {
    forall i, j | 0 <= i < j < |devices| :: devices[i].device != devices[j].device
  }

  /** The device that is picked: the last available one whose availability exceeds the lowest double or,
      failing that, the first available one. The running maximum is never updated. */
  ghost predicate Picked(devices: seq<DeviceStatus>, availability: DeviceStatus -> real, p: nat) {
    && p < |devices| && devices[p].Available()
    && (forall j | p < j < |devices| && devices[j].Available() :: availability(devices[j]) <= LOWEST)
    && (availability(devices[p]) > LOWEST || forall i | 0 <= i < p :: !devices[i].Available())
  }

  /** Dispatches to several devices by availability. */
  class StaticHybridScheduler {
    var devices: seq<DeviceStatus>
    var availability: DeviceStatus -> real

    constructor (devices: seq<DeviceStatus>)
      ensures this.devices == devices && forall d: DeviceStatus :: availability(d) == d.priority
    {
      this.devices := devices;
      this.availability := (d: DeviceStatus) => d.priority;
    }

    /** Nothing is scheduled exactly when no device has room for a batch. */
    method ScheduleWork() returns (r: Option<nat>)
      ensures r.None? <==> forall i | 0 <= i < |devices| :: devices[i].load + devices[i].batchSize > devices[i].capacity
      ensures r.Some? ==> Picked(devices, availability, r.value)
    {
      var available, max := false, LOWEST;
      r := None;
      for i := 0 to |devices|
        invariant max == LOWEST
        invariant available <==> r.Some?
        invariant r.None? ==> forall j | 0 <= j < i :: !devices[j].Available()
        invariant r.Some? ==> r.value < i && devices[r.value].Available()
        invariant r.Some? ==> forall j | r.value < j < i && devices[j].Available() :: availability(devices[j]) <= LOWEST
        invariant r.Some? ==> availability(devices[r.value]) > LOWEST || forall j | 0 <= j < r.value :: !devices[j].Available()
      {
        if devices[i].Available() {
          if !available || availability(devices[i]) > max {
            available := true;
            r := Some(i);
          }
        }
      }
    }

    /** Account for dispatched work; the load is raised even when the device turns out oversubscribed. */
    method DispatchedWork(device: nat, n: nat) returns (r: Result<(), string>)
      requires EachOnce(devices)
      modifies this`devices
      ensures EachOnce(devices) && |devices| == |old(devices)|
      ensures forall i | 0 <= i < |devices| ::
                devices[i] == old(devices)[i].(load := old(devices)[i].load + if old(devices)[i].device == device then n else 0)
      ensures r.Pass? <==> exists i :: 0 <= i < |devices| && devices[i].device == device && devices[i].load <= devices[i].capacity
    {
      for i := 0 to |devices|
        invariant devices == old(devices)
        invariant forall j | 0 <= j < i :: devices[j].device != device
      {
        if devices[i].device == device {
          devices := devices[i := devices[i].(load := devices[i].load + n)];
          assert devices[i].device == device;
          if devices[i].load > devices[i].capacity { return Fail("Device oversubscribed"); }
          return Pass(());
        }
      }
      r := Fail("Device not found");
    }

    /** Account for completed work; fails, changing nothing, on an unknown device or load underflow. */
    method CompletedWork(device: nat, n: nat) returns (r: Result<(), string>)
      requires EachOnce(devices)
      modifies this`devices
      ensures EachOnce(devices) && |devices| == |old(devices)|
      ensures r.Pass? <==> exists i :: 0 <= i < |devices| && old(devices)[i].device == device && n <= old(devices)[i].load
      ensures r.Fail? ==> devices == old(devices)
      ensures r.Pass? ==> forall i | 0 <= i < |devices| ::
                if old(devices)[i].device == device
                then devices[i].load + n == old(devices)[i].load && devices[i] == old(devices)[i].(load := devices[i].load)
                else devices[i] == old(devices)[i]
    {
      for i := 0 to |devices|
        invariant devices == old(devices)
        invariant forall j | 0 <= j < i :: devices[j].device != device
      {
        if devices[i].device == device {
          if devices[i].load < n { return Fail("Device load underflow"); }
          devices := devices[i := devices[i].(load := devices[i].load - n)];
          return Pass(());
        }
      }
      r := Fail("Device not found");
    }

    method AllWorkCompleted() returns (r: bool)
      ensures r <==> forall i | 0 <= i < |devices| :: devices[i].load == 0
    {
      for i := 0 to |devices|
        invariant forall j | 0 <= j < i :: devices[j].load == 0
      {
        if devices[i].load > 0 { return false; }
      }
      r := true;
    }
  }

  // ---------------------------------------------------------------------------------------------
  // The documented choice
  // ---------------------------------------------------------------------------------------------

  function Priority(d: DeviceStatus): real {
    d.priority
  }

  /** The documented contract: of the available devices, one with the highest availability is picked. */
  ghost predicate HighestPicked(devices: seq<DeviceStatus>, f: DeviceStatus -> real) {
    forall p: nat, j | Picked(devices, f, p) && 0 <= j < |devices| && devices[j].Available() ::
      f(devices[j]) <= f(devices[p])
  }

  /** The same devices under other loads, each within its capacity. */
  ghost predicate Reloaded(devices: seq<DeviceStatus>, other: seq<DeviceStatus>) {
    |other| == |devices| &&
    forall i | 0 <= i < |devices| :: other[i] == devices[i].(load := other[i].load) && other[i].load <= other[i].capacity
  }

  /** Under all loads that leave room for a batch, devices stand in the order of increasing availability; one
      whose availability is the lowest double may stand anywhere. */
  ghost predicate Rising(devices: seq<DeviceStatus>, f: DeviceStatus -> real) {
    forall i, j, x, y | 0 <= i < j < |devices| && Room(devices[i], x) && Room(devices[j], y) :: InOrder(f, devices[i], x, devices[j], y)
  }

  /** The device is available when its load is `x`. */
  predicate Room(d: DeviceStatus, x: int) {
    0 <= x && x + d.batchSize <= d.capacity
  }

  predicate InOrder(f: DeviceStatus -> real, a: DeviceStatus, x: nat, b: DeviceStatus, y: nat) {
    f(b.(load := y)) == LOWEST || f(a.(load := x)) <= f(b.(load := y))
  }

  /** Whatever availability is set, the pick honours the documentation under all loads exactly when the devices
      are listed in ascending order of availability, however they are loaded. */
  lemma HighestPickedIffRising(devices: seq<DeviceStatus>, f: DeviceStatus -> real)
    requires (forall d | d in devices :: d.batchSize > 0) && forall d :: f(d) >= LOWEST
    ensures (forall other | Reloaded(devices, other) :: HighestPicked(other, f)) <==> Rising(devices, f)
  {
    if Rising(devices, f) {
      forall other | Reloaded(devices, other) ensures HighestPicked(other, f) { RisingPicksHighest(devices, other, f); }
    } else {
      var i, j, x, y :| 0 <= i < j < |devices| && Room(devices[i], x) && Room(devices[j], y) && !InOrder(f, devices[i], x, devices[j], y);
      var other := OnlyFree(devices, i, x, j, y);
      assert Picked(other, f, j);
      assert Reloaded(devices, other) && other[i].Available();
      assert !HighestPicked(other, f);
    }
  }

  lemma RisingPicksHighest(devices: seq<DeviceStatus>, other: seq<DeviceStatus>, f: DeviceStatus -> real)
    requires Rising(devices, f) && Reloaded(devices, other) && forall d :: f(d) >= LOWEST
    ensures HighestPicked(other, f)
  {
    forall p: nat, j | Picked(other, f, p) && 0 <= j < |other| && other[j].Available() ensures f(other[j]) <= f(other[p]) {
      if j < p {
        assert Room(devices[j], other[j].load) && Room(devices[p], other[p].load);
        assert InOrder(f, devices[j], other[j].load, devices[p], other[p].load);
      }
    }
  }

  /** Devices `i` and `j` have the given loads and all others are loaded to capacity. */
  function OnlyFree(devices: seq<DeviceStatus>, i: nat, x: nat, j: nat, y: nat): (other: seq<DeviceStatus>)
    requires i < j < |devices| && (forall d | d in devices :: d.batchSize > 0)
    requires Room(devices[i], x) && Room(devices[j], y)
    ensures Reloaded(devices, other) && other[i].load == x && other[j].load == y
    ensures forall k | 0 <= k < |devices| :: other[k].Available() ==> k == i || k == j
  {
    assert forall k | 0 <= k < |devices| :: devices[k] in devices;
    seq(|devices|, k requires 0 <= k < |devices| =>
      devices[k].(load := if k == i then x else if k == j then y else devices[k].capacity))
  }

  /** Devices that can ever be available are listed in the order of increasing priority; a device with the
      lowest double as priority may stand anywhere. */
  ghost predicate Ascending(devices: seq<DeviceStatus>) {
    forall i, j | 0 <= i < j < |devices| && Room(devices[i], 0) && Room(devices[j], 0) ::
      devices[j].priority == LOWEST || devices[i].priority <= devices[j].priority
  }

  /** The priority, but never below the lowest double. */
  function Raised(d: DeviceStatus): real {
    if d.priority >= LOWEST then d.priority else LOWEST
  }

  lemma SamePick(devices: seq<DeviceStatus>)
    requires forall d | d in devices :: d.priority >= LOWEST
    ensures HighestPicked(devices, Priority) <==> HighestPicked(devices, Raised)
  {
    hide LOWEST;
    assert forall i | 0 <= i < |devices| :: devices[i] in devices;
    forall p: nat ensures Picked(devices, Priority, p) <==> Picked(devices, Raised, p) {}
  }

  lemma RisingIsAscending(devices: seq<DeviceStatus>)
    requires forall d | d in devices :: d.priority >= LOWEST
    ensures Rising(devices, Raised) <==> Ascending(devices)
  {
    hide LOWEST;
    assert forall i | 0 <= i < |devices| :: devices[i] in devices;
    if Rising(devices, Raised) {
      forall i, j | 0 <= i < j < |devices| && Room(devices[i], 0) && Room(devices[j], 0)
        ensures devices[j].priority == LOWEST || devices[i].priority <= devices[j].priority
      {
        assert InOrder(Raised, devices[i], 0, devices[j], 0);
      }
    }
    if Ascending(devices) {
      forall i, j, x, y | 0 <= i < j < |devices| && Room(devices[i], x) && Room(devices[j], y)
        ensures InOrder(Raised, devices[i], x, devices[j], y)
      {
        assert Room(devices[i], 0) && Room(devices[j], 0);
      }
    }
  }

  /** By default the availability is the priority, and the condition is a matter of the list alone. */
  lemma HighestPickedIffAscending(devices: seq<DeviceStatus>)
    requires forall d | d in devices :: d.batchSize > 0 && d.priority >= LOWEST
    ensures (forall other | Reloaded(devices, other) :: HighestPicked(other, Priority)) <==> Ascending(devices)
  {
    hide LOWEST, Picked, HighestPicked, Rising, Ascending;
    forall other | Reloaded(devices, other) ensures HighestPicked(other, Priority) <==> HighestPicked(other, Raised) {
      assert forall i | 0 <= i < |devices| :: devices[i] in devices;
      SamePick(other);
    }
    HighestPickedIffRising(devices, Raised);
    RisingIsAscending(devices);
  }

  /** The documented contract fails: of two idle devices the one with the lower priority is picked. */
  lemma LowerPriorityPicked()
    ensures var devices := [DeviceStatus(0, 2, 3, 3.0, 0), DeviceStatus(1, 3, 4, 2.0, 0)];
            Picked(devices, Priority, 1) && !HighestPicked(devices, Priority)
  {
    var devices := [DeviceStatus(0, 2, 3, 3.0, 0), DeviceStatus(1, 3, 4, 2.0, 0)];
    LowestIsNegative();
    assert Picked(devices, Priority, 1) && devices[0].Available();
  }

  lemma {:induction false} Pow2AtLeast(n: nat)
    ensures Pow2(n) >= 1.0
  {
    if n > 0 { Pow2AtLeast(n - 1); }
  }

  lemma LowestIsNegative()
    ensures LOWEST <= 0.0
  {
    Pow2AtLeast(53);
    Pow2AtLeast(971);
    NegativeProduct(1.0 - Pow2(53), Pow2(971));
  }

  lemma NegativeProduct(x: real, y: real)
    requires x <= 0.0 && y >= 0.0
    ensures x * y <= 0.0
  {
  }

  // ---------------------------------------------------------------------------------------------
  // The scheduler in the dispatching protocol
  // ---------------------------------------------------------------------------------------------

  /** The scheduler's own account of the devices of the protocol. */
  ghost predicate Mirrors<X, Y>(c: Config<X, Y>, devices: seq<Device>, status: seq<DeviceStatus>) {
    && |c.batch| == |c.capacity| == |devices| == |status|
    && forall i | 0 <= i < |status| ::
         status[i].device == i && status[i].batchSize == c.batch[i] && status[i].capacity == c.capacity[i]
         && status[i].load == devices[i].load
  }

  /** Whatever the scheduler picks is a step of the dispatching protocol, which goes on to generate a batch for
      that device, or throws on an empty one; and the protocol falls asleep exactly when the scheduler declines. */
  lemma PickIsLegal<X, Y>(c: Config<X, Y>, s: State<Y>, status: seq<DeviceStatus>, availability: DeviceStatus -> real)
    requires Mirrors(c, s.devices, status) && s.main.Schedule?
    ensures forall p: nat | Picked(status, availability, p) ::
      && Enabled(c, s, MainStep(p))
      && Apply(c, s, MainStep(p)) == if c.batch[p] > 0 then s.(main := Generate(p)) else s.(main := Stop, outcome := Threw)
    ensures forall p: nat | Enabled(c, s, MainStep(p)) ::
      Apply(c, s, MainStep(p)).main.ScheduleAsleep? <==> forall i | 0 <= i < |status| :: !status[i].Available()
  {
    forall d: nat | d < |s.devices| ensures Available(c, s.devices, d) <==> status[d].Available() {}
    forall p: nat | Picked(status, availability, p) ensures SomeAvailable(c, s.devices) {
      assert Available(c, s.devices, p);
    }
  }

  /** Reporting a dispatch or a completion to the scheduler is the step of the protocol that accounts for it, and
      fails exactly when that step does. */
  lemma ReportsAgree<X, Y>(c: Config<X, Y>, s: State<Y>, e: Event, status: seq<DeviceStatus>)
    requires Mirrors(c, s.devices, status) && Enabled(c, s, e)
    ensures EachOnce(status)
    ensures e.MainStep? && s.main.Report? ==>
      var dev, n, t := s.main.entry.dev, s.main.entry.task.Size(), Apply(c, s, e);
      && Mirrors(c, t.devices, seq(|status|, i requires 0 <= i < |status| =>
           status[i].(load := status[i].load + if status[i].device == dev then n else 0)))
      && (t.main.Push? <==> dev < |status| && status[dev].load + n <= status[dev].capacity)
    ensures e.WorkerStep? && s.devices[e.dev].worker.Reporting? ==>
      var n, v := s.devices[e.dev].worker.m, Apply(c, s, e).devices[e.dev];
      && (v.worker.Crashed? <==> n > status[e.dev].load)
      && (!v.worker.Crashed? ==> Mirrors(c, Apply(c, s, e).devices, status[e.dev := status[e.dev].(load := v.load)]) && v.load + n == status[e.dev].load)
  {
  }
}
