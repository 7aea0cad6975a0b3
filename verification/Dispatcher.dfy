/** The synchronous dispatching loop. */
module Dispatcher {
  import opened Common
  import opened Protocol
  import opened Schedulers
  import Generators
  import Liveness
  import Results

  /** The configuration that a scheduler and a tensor give rise to. */
  ghost function ConfigOf<X, Y>(input: seq<X>, devices: seq<DeviceStatus>, compute: (seq<X>, nat) -> Y): Config<X, Y> {
    Config(input, seq(|devices|, i requires 0 <= i < |devices| => devices[i].batchSize),
           seq(|devices|, i requires 0 <= i < |devices| => devices[i].capacity), compute)
  }

  /** A run in which the main thread is scheduling goes on with whatever device the scheduler picks. */
  lemma PickContinues<X, Y>(c: Config<X, Y>, states: seq<State<Y>>, status: seq<DeviceStatus>, availability: DeviceStatus -> real, p: nat)
    requires Run(c, states) && states[|states| - 1].main.Schedule? && Mirrors(c, states[|states| - 1].devices, status)
    requires Picked(status, availability, p) && c.batch[p] > 0
    ensures Run(c, states + [states[|states| - 1].(main := Generate(p))])
  {
    PickIsLegal(c, states[|states| - 1], status, availability);
    Liveness.Continue(c, states, MainStep(p));
  }

  /** Schedule, generate, compute and collect until there is no more work. The scheduler is not told about
      the dispatches, so it keeps picking the same device `p`; without an available device the wait for one
      would never end. A batch size of zero is an error. */
  method RunSync<X, Y>(scheduler: StaticHybridScheduler, loader: Generators.TensorLoader<X>, compute: (seq<X>, nat) -> Y)
    returns (r: Result<seq<Y>, string>, ghost p: nat)
    requires loader.Valid()
    requires loader.HasMore() ==> exists i :: 0 <= i < |scheduler.devices| && scheduler.devices[i].Available()
    modifies loader`offset, loader.sliceGen`offset
    ensures loader.Valid()
    ensures !old(loader.HasMore()) ==> r == Pass([])
    ensures old(loader.HasMore()) ==> Picked(scheduler.devices, scheduler.availability, p)
    ensures old(loader.HasMore()) && scheduler.devices[p].batchSize == 0 ==> r.Fail? && loader.offset == old(loader.offset)
    ensures old(loader.HasMore()) && scheduler.devices[p].batchSize > 0 ==>
              && !loader.HasMore()
              && r == Pass(Results.SyncResults(ConfigOf(loader.tensor, scheduler.devices, compute), p, old(loader.offset)))
  {
    hide Results.SyncResults, Picked;
    ghost var c := ConfigOf(loader.tensor, scheduler.devices, compute);
    if !loader.HasMore() { return Pass([]), 0; }
    p := SomePicked(scheduler.devices, scheduler.availability);
    PickedIndex(scheduler.devices, scheduler.availability, p);
    var results: seq<Y> := [];
    while loader.HasMore()
      invariant loader.Valid()
      invariant c.batch[p] == 0 ==> loader.offset == old(loader.offset)
      invariant c.batch[p] > 0 ==> results + Results.SyncResults(c, p, loader.offset) == Results.SyncResults(c, p, old(loader.offset))
      decreases |loader.tensor| - loader.offset
    {
      var scheduled := scheduler.ScheduleWork();
      var device := scheduled.value;
      PickedOnce(scheduler.devices, scheduler.availability, p, device);
      var n := scheduler.devices[device].batchSize;
      if n == 0 {
        r := Fail("Scheduler returned a batch size of 0");
        return;
      }
      ghost var lo := loader.offset;
      var m, work := loader.Next(n);
      OneMoreBatch(c, p, lo, results);
      results := results + [compute(work, device)];
    }
    NoMoreBatch(c, p, loader.offset, results);
    r := Pass(results);
  }

  lemma OneMoreBatch<X, Y>(c: Config<X, Y>, d: nat, lo: nat, results: seq<Y>)
    requires d < |c.batch| && c.batch[d] > 0 && lo < |c.input|
    ensures var hi := Min(lo + c.batch[d], |c.input|);
            results + Results.SyncResults(c, d, lo)
              == (results + [(c.compute)(c.input[lo..hi], d)]) + Results.SyncResults(c, d, hi)
  {
  }

  lemma NoMoreBatch<X, Y>(c: Config<X, Y>, d: nat, lo: nat, results: seq<Y>)
    requires d < |c.batch| && lo >= |c.input|
    ensures c.batch[d] > 0 ==> results + Results.SyncResults(c, d, lo) == results
  {
  }

  lemma PickedIndex(devices: seq<DeviceStatus>, availability: DeviceStatus -> real, p: nat)
    requires Picked(devices, availability, p)
    ensures p < |devices| && devices[p].Available()
  {
  }

  lemma PickedOnce(devices: seq<DeviceStatus>, availability: DeviceStatus -> real, p: nat, q: nat)
    requires Picked(devices, availability, p) && Picked(devices, availability, q)
    ensures p == q
  {
  }

  lemma {:induction false} SomePicked(devices: seq<DeviceStatus>, availability: DeviceStatus -> real) returns (p: nat)
    requires exists i :: 0 <= i < |devices| && devices[i].Available()
    ensures Picked(devices, availability, p)
  {
    var front, last := devices[..|devices| - 1], devices[|devices| - 1];
    if i :| 0 <= i < |front| && front[i].Available() {
      p := SomePicked(front, availability);
      if last.Available() && availability(last) > LOWEST { p := |front|; }
    } else {
      p := |front|;
    }
  }
}
