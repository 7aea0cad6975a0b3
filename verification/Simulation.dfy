/** The event simulation of the hybrid scheduler. */
module Simulation {
  import opened Common
  import opened History

  /** `next`. */
  method Next(c: Setup, loads: seq<nat>) returns (dev: nat)
    requires Legal(c) && |loads| == |c.capacities|
    ensures LeastLoaded(c, loads, dev)
  {
    dev := 0;
    for d := 1 to |loads|
      invariant dev < d
      invariant forall e | 0 <= e < d :: Percent(c, loads[dev], c.capacities[dev]) <= Percent(c, loads[e], c.capacities[e])
      invariant forall e | 0 <= e < dev :: Percent(c, loads[dev], c.capacities[dev]) < Percent(c, loads[e], c.capacities[e])
    {
      if Percent(c, loads[d], c.capacities[d]) < Percent(c, loads[dev], c.capacities[dev]) { dev := d; }
    }
  }

  // ---------------------------------------------------------------------------------------------
  // Queues
  // ---------------------------------------------------------------------------------------------

  ghost predicate Listed(q: seq<nat>, events: seq<Event>) {
    forall i | 0 <= i < |q| :: q[i] < |events|
  }

  ghost predicate Ordered(q: seq<nat>, events: seq<Event>)
    requires Listed(q, events)
  {
    forall i, j | 0 <= i < j < |q| :: NoLater(events[q[i]], q[i], events[q[j]], q[j])
  }

  ghost function Queued(q: seq<nat>, events: seq<Event>): nat
    requires Listed(q, events)
  {
    if q == [] then 0 else events[q[0]].size + Queued(q[1..], events)
  }

  /** A queue holds the events of its device, each once, the earliest in front, and its load is their size. */
  ghost predicate QueueOk(q: seq<nat>, d: nat, events: seq<Event>, load: nat, capacity: nat) {
    && Listed(q, events) && Distinct(q) && Ordered(q, events)
    && (forall i | 0 <= i < |q| :: events[q[i]].to == d)
    && load == Queued(q, events) <= capacity
  }

  /** The events agree except for their shifts. */
  ghost predicate Shifted(before: seq<Event>, after: seq<Event>) {
    |before| == |after| && forall i | 0 <= i < |before| :: after[i] == before[i].(shifts := after[i].shifts)
  }

  lemma {:induction false} QueuedSame(q: seq<nat>, events: seq<Event>, others: seq<Event>)
    requires Listed(q, events) && Listed(q, others)
    requires forall i | 0 <= i < |q| :: events[q[i]].size == others[q[i]].size
    ensures Queued(q, events) == Queued(q, others)
  {
    if q != [] { QueuedSame(q[1..], events, others); }
  }

  function Insert(q: seq<nat>, at: nat, id: nat): (r: seq<nat>)
    requires at <= |q|
    ensures |r| == |q| + 1
    ensures forall i | 0 <= i < |r| :: r[i] == if i < at then q[i] else if i == at then id else q[i - 1]
  {
    q[..at] + [id] + q[at..]
  }

  lemma {:induction false} QueuedInsert(q: seq<nat>, i: nat, id: nat, events: seq<Event>)
    requires i <= |q| && Listed(q, events) && id < |events|
    ensures Listed(Insert(q, i, id), events)
    ensures Queued(Insert(q, i, id), events) == Queued(q, events) + events[id].size
  {
    var r := Insert(q, i, id);
    if i == 0 {
      assert r[1..] == q;
    } else {
      QueuedInsert(q[1..], i - 1, id, events);
      assert r[1..] == Insert(q[1..], i - 1, id);
    }
  }

  /** `enqueue`: before the first event that can be retrieved later. */
  method Enqueue(queue: seq<nat>, id: nat, e: Event, events: seq<Event>)
    returns (q: seq<nat>, pos0: nat, ghost at: nat)
    requires Listed(queue, events) && Ordered(queue, events)
    ensures at <= |queue| && q == Insert(queue, at, id)
    ensures forall i | 0 <= i < at :: events[queue[i]].retrievedAt <= e.retrievedAt
    ensures forall i | at <= i < |queue| :: e.retrievedAt < events[queue[i]].retrievedAt
    ensures pos0 == Queued(queue, events)
  {
    pos0 := 0;
    for i := 0 to |queue|
      invariant Listed(queue[i..], events) && pos0 + Queued(queue[i..], events) == Queued(queue, events)
    {
      pos0 := pos0 + events[queue[i]].size;
      assert queue[i..][1..] == queue[i + 1..];
    }
    if |queue| == 0 { return [id], pos0, 0; }
    for i := 0 to |queue|
      invariant forall j | 0 <= j < i :: events[queue[j]].retrievedAt <= e.retrievedAt
    {
      if e.retrievedAt < events[queue[i]].retrievedAt {
        return queue[..i] + [id] + queue[i..], pos0, i;
      }
    }
    q, at := queue + [id], |queue|;
    assert queue[..at] == queue && queue[at..] == [];
  }

  /** `dequeue`: takes the first event; the others of the queue that were not dispatched before it move up. */
  method Dequeue(queue: seq<nat>, events: seq<Event>, dispatchSpeed: nat)
    returns (first: nat, q: seq<nat>, after: seq<Event>)
    requires queue != [] && Listed(queue, events) && Distinct(queue)
    ensures first == queue[0] && q == queue[1..]
    ensures Shifted(events, after)
    ensures forall id | 0 <= id < |events| ::
      after[id] == if id in q then Moved(events[id], events[first], dispatchSpeed) else events[id]
  {
    first, q, after := queue[0], queue[1..], events;
    for i := 0 to |q|
      invariant |after| == |events|
      invariant forall id | 0 <= id < |events| ::
        after[id] == if id in q[..i] then Moved(events[id], events[first], dispatchSpeed) else events[id]
    {
      assert q[i] in queue && q[i] !in q[..i] && q[i] != first && first !in q[..i];
      assert q[..i + 1] == q[..i] + [q[i]];
      after := after[q[i] := Moved(after[q[i]], after[first], dispatchSpeed)];
    }
    assert q[..|q|] == q;
  }

  // ---------------------------------------------------------------------------------------------
  // The invariant
  // ---------------------------------------------------------------------------------------------

  function TotalSize(events: seq<Event>): nat {
    if events == [] then 0 else TotalSize(events[..|events| - 1]) + events[|events| - 1].size
  }

  ghost predicate QueuesOk(c: Setup, events: seq<Event>, queues: seq<seq<nat>>, loads: seq<nat>) {
    && |queues| == |loads| == |c.capacities|
    && forall d {:trigger queues[d]} | 0 <= d < |queues| :: QueueOk(queues[d], d, events, loads[d], c.capacities[d])
  }

  /** Every event is a legal batch of some device. */
  ghost predicate EventsOk(c: Setup, events: seq<Event>)
    requires Legal(c)
  {
    forall i | 0 <= i < |events| :: EventOk(c, events[i])
  }

  ghost predicate EventOk(c: Setup, e: Event)
    requires Legal(c)
  {
    e.to < |c.batches| && 0 < e.size <= c.batches[e.to] && e.retrievedAt == RetrievedAt(c, e.to, e.size, e.dispatchedAt)
  }

  /** Exactly the held events are in the queues, each in that of its device. */
  ghost predicate Placed(events: seq<Event>, queues: seq<seq<nat>>, held: map<nat, Event>) {
    && (forall i | i in held :: i < |events|)
    && forall i {:trigger events[i]} | 0 <= i < |events| ::
         && events[i].to < |queues| && (i in queues[events[i].to] <==> i in held)
         && (i in held ==> held[i] == Core(events[i]))
  }

  ghost predicate Inv(c: Setup, events: seq<Event>, queues: seq<seq<nat>>, loads: seq<nat>, held: map<nat, Event>) {
    Legal(c) && EventsOk(c, events) && QueuesOk(c, events, queues, loads) && Placed(events, queues, held)
  }

  /** How many events are queued. */
  ghost function Waiting(queues: seq<seq<nat>>): nat {
    if queues == [] then 0 else Waiting(queues[..|queues| - 1]) + |queues[|queues| - 1]|
  }

  lemma {:induction false} WaitingChanges(queues: seq<seq<nat>>, d: nat, q: seq<nat>)
    requires d < |queues|
    ensures Waiting(queues[d := q]) + |queues[d]| == Waiting(queues) + |q|
  {
    var n := |queues| - 1;
    if d < n {
      WaitingChanges(queues[..n], d, q);
      assert queues[d := q][..n] == queues[..n][d := q];
    } else {
      assert queues[d := q][..n] == queues[..n];
    }
  }

  lemma {:induction false} TotalShifted(before: seq<Event>, after: seq<Event>)
    requires Shifted(before, after)
    ensures TotalSize(before) == TotalSize(after)
  {
    if before != [] { TotalShifted(before[..|before| - 1], after[..|after| - 1]); }
  }

  // ---------------------------------------------------------------------------------------------
  // Dispatching
  // ---------------------------------------------------------------------------------------------

  lemma InsertKeeps(q: seq<nat>, at: nat, d: nat, events: seq<Event>, e: Event)
    requires at <= |q| && e.to == d
    requires Listed(q, events) && Distinct(q) && forall i | 0 <= i < |q| :: events[q[i]].to == d
    ensures Listed(Insert(q, at, |events|), events + [e]) && Distinct(Insert(q, at, |events|))
    ensures forall i | 0 <= i < |q| + 1 :: (events + [e])[Insert(q, at, |events|)[i]].to == d
  {
  }

  lemma InsertOrdered(q: seq<nat>, at: nat, events: seq<Event>, e: Event)
    requires at <= |q| && Listed(q, events) && Ordered(q, events)
    requires forall i | 0 <= i < at :: events[q[i]].retrievedAt <= e.retrievedAt
    requires forall i | at <= i < |q| :: e.retrievedAt < events[q[i]].retrievedAt
    ensures Listed(Insert(q, at, |events|), events + [e]) && Ordered(Insert(q, at, |events|), events + [e])
  {
    var r, more := Insert(q, at, |events|), events + [e];
    forall i | 0 <= i < |r|
      ensures more[r[i]] == if i < at then events[q[i]] else if i == at then e else events[q[i - 1]] {}
  }

  lemma QueueGrows(q: seq<nat>, at: nat, d: nat, events: seq<Event>, e: Event, load: nat, capacity: nat)
    requires QueueOk(q, d, events, load, capacity) && at <= |q| && e.to == d && load + e.size <= capacity
    requires forall i | 0 <= i < at :: events[q[i]].retrievedAt <= e.retrievedAt
    requires forall i | at <= i < |q| :: e.retrievedAt < events[q[i]].retrievedAt
    ensures QueueOk(Insert(q, at, |events|), d, events + [e], load + e.size, capacity)
  {
    hide Distinct, Ordered, Insert;
    var id, more := |events|, events + [e];
    InsertKeeps(q, at, d, events, e);
    InsertOrdered(q, at, events, e);
    QueuedSame(q, events, more);
    QueuedInsert(q, at, id, more);
  }

  lemma QueueStays(q: seq<nat>, d: nat, events: seq<Event>, more: seq<Event>, load: nat, capacity: nat)
    requires QueueOk(q, d, events, load, capacity)
    requires |events| <= |more| && forall i | 0 <= i < |events| ::
      more[i].to == events[i].to && more[i].size == events[i].size && more[i].retrievedAt == events[i].retrievedAt
    ensures QueueOk(q, d, more, load, capacity)
  {
    QueuedSame(q, events, more);
  }

  lemma PlacedGrows(events: seq<Event>, e: Event, queues: seq<seq<nat>>, at: nat, held: map<nat, Event>)
    requires Placed(events, queues, held) && e.to < |queues| && at <= |queues[e.to]|
    ensures Placed(events + [e], queues[e.to := Insert(queues[e.to], at, |events|)], held[|events| := Core(e)])
  {
    var before, q := queues[e.to], Insert(queues[e.to], at, |events|);
    var more, all, kept := events + [e], queues[e.to := q], held[|events| := Core(e)];
    assert before == before[..at] + before[at..] && q == before[..at] + [|events|] + before[at..];
    forall i | 0 <= i < |more|
      ensures more[i].to < |all| && (i in all[more[i].to] <==> i in kept) && (i in kept ==> kept[i] == Core(more[i]))
    {
      if i < |events| { assert more[i] == events[i]; }
    }
  }

  lemma QueuesGrow(c: Setup, events: seq<Event>, e: Event, queues: seq<seq<nat>>, loads: seq<nat>, at: nat)
    requires QueuesOk(c, events, queues, loads) && e.to < |queues| && at <= |queues[e.to]|
    requires loads[e.to] + e.size <= c.capacities[e.to] && Listed(queues[e.to], events)
    requires forall i | 0 <= i < at :: events[queues[e.to][i]].retrievedAt <= e.retrievedAt
    requires forall i | at <= i < |queues[e.to]| :: e.retrievedAt < events[queues[e.to][i]].retrievedAt
    ensures QueuesOk(c, events + [e], queues[e.to := Insert(queues[e.to], at, |events|)], loads[e.to := loads[e.to] + e.size])
  {
    hide QueueOk;
    QueueGrows(queues[e.to], at, e.to, events, e, loads[e.to], c.capacities[e.to]);
    forall d | 0 <= d < |queues| && d != e.to ensures QueueOk(queues[d], d, events + [e], loads[d], c.capacities[d]) {
      QueueStays(queues[d], d, events, events + [e], loads[d], c.capacities[d]);
    }
  }

  lemma QueueReady(c: Setup, events: seq<Event>, queues: seq<seq<nat>>, loads: seq<nat>, d: nat)
    requires QueuesOk(c, events, queues, loads) && d < |queues|
    ensures Listed(queues[d], events) && Ordered(queues[d], events)
    ensures forall i | 0 <= i < |queues[d]| :: events[queues[d][i]].to == d
    ensures Queued(queues[d], events) == loads[d]
  {
    assert QueueOk(queues[d], d, events, loads[d], c.capacities[d]);
  }

  lemma TotalGrows(events: seq<Event>, e: Event)
    ensures TotalSize(events + [e]) == TotalSize(events) + e.size
  {
    assert (events + [e])[..|events|] == events;
  }

  lemma EventsGrow(c: Setup, events: seq<Event>, e: Event)
    requires Legal(c) && EventsOk(c, events) && EventOk(c, e)
    ensures EventsOk(c, events + [e])
  {
  }

  /** The dispatch branch: the least loaded device gets a batch that fits it. */
  method Dispatch(c: Setup, dev: nat, size: nat, time: int, events: seq<Event>, queues: seq<seq<nat>>, loads: seq<nat>, ghost held: map<nat, Event>)
    returns (events': seq<Event>, queues': seq<seq<nat>>, loads': seq<nat>)
    requires Inv(c, events, queues, loads, held)
    requires dev < |queues| && LeastLoaded(c, loads, dev) && 0 < size <= c.batches[dev] && c.capacities[dev] >= loads[dev] + size
    ensures events' == events + [Event(size, dev, time, RetrievedAt(c, dev, size, time), loads[dev], [])]
    ensures Inv(c, events', queues', loads', held[|events| := events'[|events|]])
    ensures loads' == loads[dev := loads[dev] + size]
    ensures |queues'| == |queues| && Waiting(queues') == Waiting(queues) + 1
    ensures TotalSize(events') == TotalSize(events) + size
  {
    hide QueueOk, Placed, Listed, Ordered, LeastLoaded, EventsOk, RetrievedAt, Waiting, TotalSize;
    var id, e := |events|, Event(size, dev, time, RetrievedAt(c, dev, size, time), 0, []);
    QueueReady(c, events, queues, loads, dev);
    var q, pos0, at := Enqueue(queues[dev], id, e, events);
    e := e.(pos0 := pos0);
    events', queues', loads' := events + [e], queues[dev := q], loads[dev := loads[dev] + size];
    QueuesGrow(c, events, e, queues, loads, at);
    EventsGrow(c, events, e);
    PlacedGrows(events, e, queues, at, held);
    WaitingChanges(queues, dev, q);
    TotalGrows(events, e);
  }

  // ---------------------------------------------------------------------------------------------
  // Retrieving
  // ---------------------------------------------------------------------------------------------

  lemma QueueShrinks(q: seq<nat>, d: nat, events: seq<Event>, load: nat, capacity: nat)
    requires QueueOk(q, d, events, load, capacity) && q != []
    ensures events[q[0]].size <= load
    ensures QueueOk(q[1..], d, events, load - events[q[0]].size, capacity)
  {
  }

  lemma PlacedShrinks(events: seq<Event>, queues: seq<seq<nat>>, d: nat, held: map<nat, Event>)
    requires Placed(events, queues, held) && d < |queues| && queues[d] != [] && Distinct(queues[d])
    requires Listed(queues[d], events) && events[queues[d][0]].to == d
    ensures queues[d][0] in held
    ensures Placed(events, queues[d := queues[d][1..]], held - {queues[d][0]})
  {
    var q := queues[d];
    var first, all, kept := q[0], queues[d := q[1..]], held - {q[0]};
    assert first in q && q == [first] + q[1..] && first !in q[1..];
    forall i | 0 <= i < |events|
      ensures events[i].to < |all| && (i in all[events[i].to] <==> i in kept) && (i in kept ==> kept[i] == Core(events[i]))
    {
      assert events[i].to < |queues| && (i in queues[events[i].to] <==> i in held);
    }
  }

  lemma PlacedShifted(events: seq<Event>, after: seq<Event>, queues: seq<seq<nat>>, held: map<nat, Event>)
    requires Placed(events, queues, held) && Shifted(events, after)
    ensures Placed(after, queues, held)
  {
    forall i | 0 <= i < |after|
      ensures after[i].to < |queues| && (i in queues[after[i].to] <==> i in held) && (i in held ==> held[i] == Core(after[i]))
    {
      assert events[i].to < |queues|;
    }
  }

  /** What is left of a queue are the other held events of its device. */
  lemma LeftInQueue(events: seq<Event>, queues: seq<seq<nat>>, d: nat, held: map<nat, Event>, id: nat)
    requires Placed(events, queues, held) && d < |queues| && queues[d] != [] && Distinct(queues[d]) && id < |events|
    requires Listed(queues[d], events) && forall i | 0 <= i < |queues[d]| :: events[queues[d][i]].to == d
    ensures id in queues[d][1..] <==> id in held && id != queues[d][0] && events[id].to == d
  {
    var q := queues[d];
    assert q == [q[0]] + q[1..] && q[0] !in q[1..];
    assert events[id].to < |queues|;
  }

  /** What both kinds of retrieval do: take the first event of a queue. */
  method Retrieve(c: Setup, dev: nat, events: seq<Event>, queues: seq<seq<nat>>, loads: seq<nat>, ghost held: map<nat, Event>)
    returns (first: nat, events': seq<Event>, queues': seq<seq<nat>>, loads': seq<nat>)
    requires Inv(c, events, queues, loads, held) && dev < |queues| && queues[dev] != []
    ensures first == queues[dev][0] && Taken(c, events, loads, held, dev, first)
    ensures Inv(c, events', queues', loads', held - {first})
    ensures Advanced(c, events, events', held, first)
    ensures queues' == queues[dev := queues[dev][1..]] && loads' == loads[dev := loads[dev] - events[first].size]
    ensures Waiting(queues') + 1 == Waiting(queues)
    ensures TotalSize(events') == TotalSize(events)
  {
    hide Placed, EventsOk, Advanced, TotalSize, Waiting;
    var q;
    assert QueueOk(queues[dev], dev, events, loads[dev], c.capacities[dev]);
    first, q, events' := Dequeue(queues[dev], events, c.dispatchSpeed);
    QueueShrinks(queues[dev], dev, events, loads[dev], c.capacities[dev]);
    queues', loads' := queues[dev := q], loads[dev := loads[dev] - events[first].size];
    QueuesShrink(c, events, events', queues, loads, dev);
    PlacedShrinks(events, queues, dev, held);
    PlacedShifted(events, events', queues', held - {first});
    EventsShifted(c, events, events');
    WaitingChanges(queues, dev, q);
    TotalShifted(events, events');
    forall id | 0 <= id < |events| ensures id in q <==> id in held && id != first && events[id].to == dev {
      LeftInQueue(events, queues, dev, held, id);
    }
    AdvancedAfter(c, events, events', held, first, q);
    FirstOfDevice(c, events, queues, loads, held, dev);
  }

  lemma AdvancedAfter(c: Setup, events: seq<Event>, after: seq<Event>, held: map<nat, Event>, first: nat, q: seq<nat>)
    requires first < |events| == |after|
    requires forall id | 0 <= id < |events| :: id in q <==> id in held && id != first && events[id].to == events[first].to
    requires forall id | 0 <= id < |events| ::
      after[id] == if id in q then Moved(events[id], events[first], c.dispatchSpeed) else events[id]
    ensures Advanced(c, events, after, held, first)
  {
    hide Moved;
  }

  lemma EventsShifted(c: Setup, events: seq<Event>, after: seq<Event>)
    requires Legal(c) && EventsOk(c, events) && Shifted(events, after)
    ensures EventsOk(c, after)
  {
    forall i | 0 <= i < |after| ensures EventOk(c, after[i]) { assert EventOk(c, events[i]); }
  }

  lemma QueuesShrink(c: Setup, events: seq<Event>, after: seq<Event>, queues: seq<seq<nat>>, loads: seq<nat>, dev: nat)
    requires QueuesOk(c, events, queues, loads) && Shifted(events, after) && dev < |queues| && queues[dev] != []
    requires queues[dev][0] < |events| && events[queues[dev][0]].size <= loads[dev]
    ensures QueuesOk(c, after, queues[dev := queues[dev][1..]], loads[dev := loads[dev] - events[queues[dev][0]].size])
  {
    hide QueueOk;
    forall d | 0 <= d < |queues|
      ensures QueueOk(queues[dev := queues[dev][1..]][d], d, after,
                      loads[dev := loads[dev] - events[queues[dev][0]].size][d], c.capacities[d])
    {
      if d == dev {
        QueueShrinks(queues[d], d, events, loads[d], c.capacities[d]);
        QueueStays(queues[d][1..], d, events, after, loads[d] - events[queues[dev][0]].size, c.capacities[d]);
      } else {
        QueueStays(queues[d], d, events, after, loads[d], c.capacities[d]);
      }
    }
  }

  /** The event is the earliest that is held for the device. */
  ghost predicate Taken(c: Setup, events: seq<Event>, loads: seq<nat>, held: map<nat, Event>, dev: nat, first: nat) {
    && first < |events| && first in held && held[first] == Core(events[first])
    && events[first].to == dev < |loads| && events[first].size <= loads[dev]
    && forall x | x in held && held[x].to == dev :: NoLater(events[first], first, held[x], x)
  }

  lemma FirstOfDevice(c: Setup, events: seq<Event>, queues: seq<seq<nat>>, loads: seq<nat>, held: map<nat, Event>, dev: nat)
    requires QueuesOk(c, events, queues, loads) && Placed(events, queues, held) && dev < |queues| && queues[dev] != []
    ensures Taken(c, events, loads, held, dev, queues[dev][0])
  {
    hide QueueOk;
    QueueReady(c, events, queues, loads, dev);
    QueueShrinks(queues[dev], dev, events, loads[dev], c.capacities[dev]);
    var first := queues[dev][0];
    assert first in queues[dev] && events[first].to == dev;
    forall x | x in held && held[x].to == dev ensures NoLater(events[first], first, held[x], x) {
      assert held[x] == Core(events[x]) && x in queues[dev];
      var i :| 0 <= i < |queues[dev]| && queues[dev][i] == x;
    }
  }

  /** The earliest of the first events of the queues; the sentinel time means that there is no candidate yet. */
  method Earliest(queues: seq<seq<nat>>, events: seq<Event>, retrieveSpeed: nat) returns (dev: nat, time: int)
    requires exists d :: 0 <= d < |queues| && queues[d] != []
    requires forall d {:trigger queues[d]} | 0 <= d < |queues| :: Listed(queues[d], events) && Ordered(queues[d], events)
    ensures dev < |queues| && queues[dev] != [] && queues[dev][0] < |events|
    ensures time == events[queues[dev][0]].retrievedAt + retrieveSpeed
    ensures forall d, i | 0 <= d < |queues| && 0 <= i < |queues[d]| ::
      && queues[d][i] < |events|
      && if d < dev then events[queues[dev][0]].retrievedAt < events[queues[d][i]].retrievedAt
         else events[queues[dev][0]].retrievedAt <= events[queues[d][i]].retrievedAt
  {
    var found := false;
    dev, time := 0, 0;
    for d := 0 to |queues|
      invariant dev <= d
      invariant found ==> dev < d && queues[dev] != [] && time == events[queues[dev][0]].retrievedAt + retrieveSpeed
      invariant forall e | 0 <= e < d && queues[e] != [] :: found && time <= events[queues[e][0]].retrievedAt + retrieveSpeed
      invariant forall e | 0 <= e < dev && queues[e] != [] :: time < events[queues[e][0]].retrievedAt + retrieveSpeed
    {
      if |queues[d]| > 0 {
        assert Listed(queues[d], events);
        var next := events[queues[d][0]].retrievedAt + retrieveSpeed;
        if !found || next < time { found, dev, time := true, d, next; }
      }
    }
    forall d, i | 0 <= d < |queues| && 0 <= i < |queues[d]|
      ensures queues[d][i] < |events| && events[queues[d][0]].retrievedAt <= events[queues[d][i]].retrievedAt
    {
      assert Listed(queues[d], events) && Ordered(queues[d], events);
      if i > 0 { assert NoLater(events[queues[d][0]], queues[d][0], events[queues[d][i]], queues[d][i]); }
    }
  }

  /** The wait branch: the event retrieved is the earliest of all that are held. */
  method Wait(c: Setup, events: seq<Event>, queues: seq<seq<nat>>, loads: seq<nat>, ghost held: map<nat, Event>)
    returns (first: nat, time: int, events': seq<Event>, queues': seq<seq<nat>>, loads': seq<nat>)
    requires Inv(c, events, queues, loads, held)
    requires exists d :: 0 <= d < |queues| && queues[d] != []
    ensures first < |events| && Taken(c, events, loads, held, events[first].to, first)
    ensures forall x | x in held :: Sooner(events[first], first, held[x], x)
    ensures time == events[first].retrievedAt + c.retrieveSpeed
    ensures Inv(c, events', queues', loads', held - {first})
    ensures Advanced(c, events, events', held, first)
    ensures loads' == loads[events[first].to := loads[events[first].to] - events[first].size]
    ensures |queues'| == |queues| && Waiting(queues') + 1 == Waiting(queues)
    ensures TotalSize(events') == TotalSize(events)
  {
    hide QueueOk, Advanced, EventsOk, Waiting, TotalSize;
    forall d | 0 <= d < |queues| ensures Listed(queues[d], events) && Ordered(queues[d], events) {
      QueueReady(c, events, queues, loads, d);
    }
    var dev;
    dev, time := Earliest(queues, events, c.retrieveSpeed);
    QueueReady(c, events, queues, loads, dev);
    first, events', queues', loads' := Retrieve(c, dev, events, queues, loads, held);
    EarliestHeld(c, events, queues, loads, held, first);
  }

  lemma EarliestHeld(c: Setup, events: seq<Event>, queues: seq<seq<nat>>, loads: seq<nat>, held: map<nat, Event>, first: nat)
    requires Placed(events, queues, held) && first < |events| && Taken(c, events, loads, held, events[first].to, first)
    requires forall d, i | 0 <= d < |queues| && 0 <= i < |queues[d]| ::
      && queues[d][i] < |events|
      && if d < events[first].to then events[first].retrievedAt < events[queues[d][i]].retrievedAt
         else events[first].retrievedAt <= events[queues[d][i]].retrievedAt
    ensures forall x | x in held :: Sooner(events[first], first, held[x], x)
  {
    forall x | x in held ensures Sooner(events[first], first, held[x], x) {
      assert held[x] == Core(events[x]) && x in queues[events[x].to];
      var i :| 0 <= i < |queues[events[x].to]| && queues[events[x].to][i] == x;
    }
  }

  // ---------------------------------------------------------------------------------------------
  // The simulation
  // ---------------------------------------------------------------------------------------------

  /** The state of the simulation is that of the history so far. */
  ghost predicate Tracks(c: Setup, total: nat, h: seq<Step>, events: seq<Event>, queues: seq<seq<nat>>, loads: seq<nat>, work: nat) {
    && Inv(c, events, queues, loads, Held(h)) && Run(c, total, h) && Matches(c, events, h)
    && |queues| == |loads| == |c.capacities| && loads == Loads(c, h)
    && work + Sent(h) == total && TotalSize(events) == Sent(h)
  }

  lemma DispatchTracks(c: Setup, total: nat, h: seq<Step>, events: seq<Event>, queues: seq<seq<nat>>, loads: seq<nat>, work: nat, e: Event)
    requires Tracks(c, total, h, events, queues, loads, work) && work > 0 && e.to < |loads|
    requires LeastLoaded(c, loads, e.to) && e.size == Min(c.batches[e.to], work)
    requires loads[e.to] + e.size <= c.capacities[e.to]
    requires e.dispatchedAt == Clock(c, h) && e.retrievedAt == RetrievedAt(c, e.to, e.size, e.dispatchedAt)
    requires e.pos0 == loads[e.to] && e.shifts == []
    ensures var more := h + [Dispatched(|events|, e)];
      && Run(c, total, more) && Matches(c, events + [e], more)
      && Held(more) == Held(h)[|events| := e] && Loads(c, more) == loads[e.to := loads[e.to] + e.size]
      && Sent(more) == Sent(h) + e.size && Clock(c, more) == Clock(c, h) + c.dispatchSpeed
  {
    hide Matches, LeastLoaded, EventsOk, QueuesOk, Placed, RetrievedAt, Shifts;
    var s := Dispatched(|events|, e);
    assert Count(h) == |events| by { MatchesCount(c, events, h); }
    assert StepOk(c, total, h, s);
    OneMore(c, total, h, s);
    LoadsChange(c, h, s, loads);
    MatchesDispatch(c, total, events, h, e);
  }

  lemma MatchesCount(c: Setup, events: seq<Event>, h: seq<Step>)
    requires Matches(c, events, h)
    ensures |events| == Count(h)
  {
  }

  /** The step of a retrieval, by waiting or in the end. */
  lemma RetrievalTracks(c: Setup, total: nat, h: seq<Step>, events: seq<Event>, after: seq<Event>,
                        queues: seq<seq<nat>>, loads: seq<nat>, work: nat, s: Step)
    requires Tracks(c, total, h, events, queues, loads, work) && !s.Dispatched? && s.id < |events| && s.e == Core(events[s.id])
    requires Advanced(c, events, after, Held(h), s.id) && s.e.to < |loads| && s.e.size <= loads[s.e.to]
    requires StepOk(c, total, h, s)
    ensures var more := h + [s];
      && Run(c, total, more) && Matches(c, after, more)
      && Held(more) == Held(h) - {s.id} && Loads(c, more) == loads[s.e.to := loads[s.e.to] - s.e.size]
      && Sent(more) == Sent(h)
      && Clock(c, more) == if s.Awaited? then s.e.retrievedAt + c.retrieveSpeed else Clock(c, h)
  {
    hide Matches, StepOk, Advanced, EventsOk, QueuesOk, Shifts;
    OneMore(c, total, h, s);
    LoadsChange(c, h, s, loads);
    MatchesRetrieval(c, events, after, h, s);
  }

  class Scheduler {
    const c: Setup
    var workSize: nat

    constructor (c: Setup, workSize: nat)
      requires Legal(c)
      ensures this.c == c && this.workSize == workSize
    {
      this.c, this.workSize := c, workSize;
    }

    /** `simulate`: the events and their shifts are those of a complete history, which exists and is finite. */
    method Simulate() returns (events: seq<Event>, shifts: seq<map<int, nat>>, ghost h: seq<Step>)
      requires Legal(c)
      modifies this
      ensures workSize == 0
      ensures Complete(c, old(workSize), h) && Matches(c, events, h)
      ensures TotalSize(events) == old(workSize) && EventsOk(c, events)
      ensures forall id | 0 <= id < |events| :: Dispatches(h, id) == 1 == Retrievals(h, id)
      ensures |shifts| == |events| && forall i | 0 <= i < |events| :: AddsUp(shifts[i], events[i].shifts)
    {
      hide Inv, Matches, EventsOk, Complete, Run, LeastLoaded, Advanced, AddsUp, Loads, Held, Clock, Sent, TotalSize, Waiting;
      var n := |c.batches|;
      var queues: seq<seq<nat>> := seq(n, _ => []);
      var loads: seq<nat> := seq(n, _ => 0);
      events, h := [], [];
      var time := 0;
      ghost var total := workSize;
      Starts(c, total, queues, loads);
      var dev := Next(c, loads);
      var size := Min(c.batches[dev], workSize);
      while workSize > 0
        invariant Tracks(c, total, h, events, queues, loads, workSize) && time == Clock(c, h)
        invariant dev < |c.batches| == |loads| && LeastLoaded(c, loads, dev) && size == Min(c.batches[dev], workSize)
        decreases 2 * workSize + Waiting(queues)
      {
        if c.capacities[dev] >= loads[dev] + size {
          events, queues, loads, h := DispatchStep(c, dev, size, time, events, queues, loads, workSize, total, h);
          time := time + c.dispatchSpeed;
          workSize := workSize - size;
        } else {
          time, events, queues, loads, h := WaitStep(c, dev, events, queues, loads, workSize, total, h);
        }
        dev := Next(c, loads);
        size := Min(c.batches[dev], workSize);
      }
      events, h := Finish(c, events, queues, loads, total, h);
      shifts := ConsolidateAll(events);
      EveryEventOnce(c, total, events, h);
    }
  }

  lemma EveryEventOnce(c: Setup, total: nat, events: seq<Event>, h: seq<Step>)
    requires Legal(c) && Complete(c, total, h) && Matches(c, events, h)
    ensures forall id | 0 <= id < |events| :: Dispatches(h, id) == 1 == Retrievals(h, id)
  {
    forall id | 0 <= id < |events| ensures Dispatches(h, id) == 1 == Retrievals(h, id) { EachOnce(c, total, h, id); }
  }

  /** The dispatch branch in a history. */
  method DispatchStep(c: Setup, dev: nat, size: nat, time: int, events: seq<Event>, queues: seq<seq<nat>>, loads: seq<nat>,
                      ghost work: nat, ghost total: nat, ghost h: seq<Step>)
    returns (events': seq<Event>, queues': seq<seq<nat>>, loads': seq<nat>, ghost h': seq<Step>)
    requires Tracks(c, total, h, events, queues, loads, work) && work > 0 && time == Clock(c, h)
    requires dev < |c.batches| && LeastLoaded(c, loads, dev) && size == Min(c.batches[dev], work)
    requires c.capacities[dev] >= loads[dev] + size
    ensures Tracks(c, total, h', events', queues', loads', work - size) && |loads'| == |loads|
    ensures Clock(c, h') == Clock(c, h) + c.dispatchSpeed
    ensures Waiting(queues') == Waiting(queues) + 1
  {
    hide Matches, EventsOk, QueuesOk, Placed, Run, LeastLoaded, Loads, Held, Clock, Sent, TotalSize, Waiting, RetrievedAt;
    events', queues', loads' := Dispatch(c, dev, size, time, events, queues, loads, Held(h));
    ghost var e := events'[|events|];
    DispatchTracks(c, total, h, events, queues, loads, work, e);
    h' := h + [Dispatched(|events|, e)];
  }

  /** The wait branch in a history. */
  method WaitStep(c: Setup, dev: nat, events: seq<Event>, queues: seq<seq<nat>>, loads: seq<nat>,
                  ghost work: nat, ghost total: nat, ghost h: seq<Step>)
    returns (time: int, events': seq<Event>, queues': seq<seq<nat>>, loads': seq<nat>, ghost h': seq<Step>)
    requires Tracks(c, total, h, events, queues, loads, work) && work > 0
    requires dev < |c.batches| && LeastLoaded(c, loads, dev)
    requires c.capacities[dev] < loads[dev] + Min(c.batches[dev], work)
    ensures Tracks(c, total, h', events', queues', loads', work) && |loads'| == |loads|
    ensures time == Clock(c, h')
    ensures Waiting(queues') + 1 == Waiting(queues)
  {
    hide Matches, EventsOk, QueuesOk, Placed, Run, LeastLoaded, Loads, Held, Clock, Sent, TotalSize, Waiting, Advanced;
    SomethingWaits(c, events, queues, loads, dev, Min(c.batches[dev], work));
    var first;
    first, time, events', queues', loads' := Wait(c, events, queues, loads, Held(h));
    ghost var s := Awaited(first, Core(events[first]));
    AwaitedOk(c, total, h, events, queues, loads, work, dev, first);
    RetrievalTracks(c, total, h, events, events', queues, loads, work, s);
    h' := h + [s];
  }

  lemma AwaitedOk(c: Setup, total: nat, h: seq<Step>, events: seq<Event>, queues: seq<seq<nat>>, loads: seq<nat>, work: nat, dev: nat, first: nat)
    requires Tracks(c, total, h, events, queues, loads, work) && work > 0 && dev < |c.batches| && LeastLoaded(c, loads, dev)
    requires c.capacities[dev] < loads[dev] + Min(c.batches[dev], work)
    requires first < |events| && Taken(c, events, loads, Held(h), events[first].to, first)
    requires forall x | x in Held(h) :: Sooner(events[first], first, Held(h)[x], x)
    ensures StepOk(c, total, h, Awaited(first, Core(events[first])))
  {
    hide Matches, EventsOk, QueuesOk, Placed, Run, LeastLoaded, Held, Sent, TotalSize;
    assert Full(c, total, h);
  }

  lemma Starts(c: Setup, total: nat, queues: seq<seq<nat>>, loads: seq<nat>)
    requires Legal(c) && |queues| == |loads| == |c.capacities|
    requires forall d | 0 <= d < |queues| :: queues[d] == [] && loads[d] == 0
    ensures Tracks(c, total, [], [], queues, loads, total) && Clock(c, []) == 0
  {
  }

  /** When a batch that fits the device does not fit its free capacity, the device has work. */
  lemma SomethingWaits(c: Setup, events: seq<Event>, queues: seq<seq<nat>>, loads: seq<nat>, dev: nat, size: nat)
    requires Legal(c) && QueuesOk(c, events, queues, loads) && dev < |queues|
    requires size <= c.batches[dev] && c.capacities[dev] < loads[dev] + size
    ensures queues[dev] != []
  {
    assert QueueOk(queues[dev], dev, events, loads[dev], c.capacities[dev]);
  }

  /** The queues are emptied device by device. */
  method Finish(c: Setup, before: seq<Event>, queues: seq<seq<nat>>, loads: seq<nat>, ghost total: nat, ghost past: seq<Step>)
    returns (events: seq<Event>, ghost h: seq<Step>)
    requires Tracks(c, total, past, before, queues, loads, 0)
    ensures Complete(c, total, h) && Matches(c, events, h)
    ensures TotalSize(events) == total && EventsOk(c, events)
  {
    hide Tracks, Complete, Matches, EventsOk;
    events, h := before, past;
    var qs, ls := queues, loads;
    for d := 0 to |queues|
      invariant Tracks(c, total, h, events, qs, ls, 0) && |qs| == |queues|
      invariant forall e | 0 <= e < d :: qs[e] == []
    {
      while |qs[d]| > 0
        invariant Tracks(c, total, h, events, qs, ls, 0) && |qs| == |queues|
        invariant forall e | 0 <= e < d :: qs[e] == []
        decreases |qs[d]|
      {
        events, qs, ls, h := DrainStep(c, d, events, qs, ls, total, h);
      }
    }
    NothingLeft(c, total, events, qs, ls, h);
  }

  method DrainStep(c: Setup, d: nat, events: seq<Event>, queues: seq<seq<nat>>, loads: seq<nat>, ghost total: nat, ghost h: seq<Step>)
    returns (events': seq<Event>, queues': seq<seq<nat>>, loads': seq<nat>, ghost h': seq<Step>)
    requires Tracks(c, total, h, events, queues, loads, 0) && d < |queues| && queues[d] != []
    requires forall e | 0 <= e < d :: queues[e] == []
    ensures Tracks(c, total, h', events', queues', loads', 0) && queues' == queues[d := queues[d][1..]]
  {
    hide Matches, EventsOk, QueuesOk, Placed, Run, Loads, Held, Sent, TotalSize, Waiting, Advanced, Clock;
    var first;
    first, events', queues', loads' := Retrieve(c, d, events, queues, loads, Held(h));
    ghost var s := Drained(first, Core(events[first]));
    DrainedOk(c, total, h, events, queues, loads, d, first);
    RetrievalTracks(c, total, h, events, events', queues, loads, 0, s);
    h' := h + [s];
  }

  lemma DrainedOk(c: Setup, total: nat, h: seq<Step>, events: seq<Event>, queues: seq<seq<nat>>, loads: seq<nat>, d: nat, first: nat)
    requires Tracks(c, total, h, events, queues, loads, 0) && d < |queues| && forall e | 0 <= e < d :: queues[e] == []
    requires Taken(c, events, loads, Held(h), d, first)
    ensures StepOk(c, total, h, Drained(first, Core(events[first])))
  {
    hide Matches, EventsOk, QueuesOk, Run, Held, Sent, TotalSize;
    forall x | x in Held(h) ensures d <= Held(h)[x].to {
      assert Held(h)[x] == Core(events[x]) && x in queues[events[x].to];
    }
  }

  lemma NothingLeft(c: Setup, total: nat, events: seq<Event>, queues: seq<seq<nat>>, loads: seq<nat>, h: seq<Step>)
    requires Tracks(c, total, h, events, queues, loads, 0) && forall d | 0 <= d < |queues| :: queues[d] == []
    ensures Complete(c, total, h) && Matches(c, events, h) && TotalSize(events) == total && EventsOk(c, events)
  {
    hide Matches, EventsOk, QueuesOk, Run, Held, Sent, TotalSize;
    forall i | 0 <= i < |events| ensures i !in Held(h) {
      assert events[i].to < |queues| && queues[events[i].to] == [];
    }
  }

  // ---------------------------------------------------------------------------------------------
  // Consolidating shifts
  // ---------------------------------------------------------------------------------------------

  /** How far an event moves up at a time. */
  function ShiftAt(shifts: seq<(int, nat)>, time: int): nat {
    if shifts == [] then 0
    else ShiftAt(shifts[..|shifts| - 1], time) + if shifts[|shifts| - 1].0 == time then shifts[|shifts| - 1].1 else 0
  }

  /** The table has an entry for each time of a shift: the sum of the shifts at that time. */
  ghost predicate AddsUp(m: map<int, nat>, shifts: seq<(int, nat)>) {
    && (forall t :: t in m <==> exists i :: 0 <= i < |shifts| && shifts[i].0 == t)
    && forall t | t in m :: m[t] == ShiftAt(shifts, t)
  }

  /** `consolidate_shifts`. */
  method ConsolidateAll(events: seq<Event>) returns (all: seq<map<int, nat>>)
    ensures |all| == |events| && forall i | 0 <= i < |events| :: AddsUp(all[i], events[i].shifts)
  {
    hide AddsUp;
    all := [];
    for i := 0 to |events|
      invariant |all| == i && forall j | 0 <= j < i :: AddsUp(all[j], events[j].shifts)
    {
      var m := Consolidate(events[i].shifts);
      all := all + [m];
    }
  }

  /** The same for one event. */
  method Consolidate(shifts: seq<(int, nat)>) returns (m: map<int, nat>)
    ensures AddsUp(m, shifts)
  {
    m := map[];
    for j := 0 to |shifts|
      invariant forall t :: t in m <==> exists i :: 0 <= i < j && shifts[i].0 == t
      invariant forall t | t in m :: m[t] == ShiftAt(shifts[..j], t)
    {
      assert shifts[..j + 1][..j] == shifts[..j];
      var t := shifts[j].0;
      if t !in m { NoShiftYet(shifts[..j], t); }
      m := if t in m then m[t := m[t] + shifts[j].1] else m[t := shifts[j].1];
    }
    assert shifts[..|shifts|] == shifts;
  }

  lemma {:induction false} NoShiftYet(shifts: seq<(int, nat)>, time: int)
    requires forall i | 0 <= i < |shifts| :: shifts[i].0 != time
    ensures ShiftAt(shifts, time) == 0
  {
    if shifts != [] { NoShiftYet(shifts[..|shifts| - 1], time); }
  }

  /** Shifts add up over any split of the list; a single shift is felt at its own time only. */
  lemma {:induction false} ShiftsAdd(a: seq<(int, nat)>, b: seq<(int, nat)>, time: int, t: int, n: nat)
    ensures ShiftAt(a + b, time) == ShiftAt(a, time) + ShiftAt(b, time)
    ensures ShiftAt([(t, n)], time) == if time == t then n else 0
    decreases |b|
  {
    assert [(t, n)][..0] == [];
    if b == [] {
      assert a + b == a;
    } else {
      ShiftsAdd(a, b[..|b| - 1], time, t, n);
      assert (a + b)[..|a + b| - 1] == a + b[..|b| - 1];
    }
  }

  function Total(shifts: seq<(int, nat)>): nat {
    if shifts == [] then 0 else Total(shifts[..|shifts| - 1]) + shifts[|shifts| - 1].1
  }

  /** What the table adds up to over these times. */
  function TableTotal(m: map<int, nat>, times: seq<int>): nat
    requires forall i | 0 <= i < |times| :: times[i] in m
  {
    if times == [] then 0 else m[times[0]] + TableTotal(m, times[1..])
  }

  function ShiftsAt(shifts: seq<(int, nat)>, times: seq<int>): nat {
    if times == [] then 0 else ShiftAt(shifts, times[0]) + ShiftsAt(shifts, times[1..])
  }

  lemma {:induction false} OneMoreShift(shifts: seq<(int, nat)>, times: seq<int>)
    requires shifts != [] && Distinct(times)
    ensures var n := |shifts| - 1;
      ShiftsAt(shifts, times) == ShiftsAt(shifts[..n], times) + if shifts[n].0 in times then shifts[n].1 else 0
  {
    if times != [] { OneMoreShift(shifts, times[1..]); }
  }

  lemma {:induction false} AllShifts(shifts: seq<(int, nat)>, times: seq<int>)
    requires Distinct(times) && forall i | 0 <= i < |shifts| :: shifts[i].0 in times
    ensures ShiftsAt(shifts, times) == Total(shifts)
    decreases |shifts|
  {
    if shifts == [] {
      NoShifts(times);
    } else {
      OneMoreShift(shifts, times);
      AllShifts(shifts[..|shifts| - 1], times);
    }
  }

  lemma {:induction false} NoShifts(times: seq<int>)
    ensures ShiftsAt([], times) == 0
  {
    if times != [] { NoShifts(times[1..]); }
  }

  lemma {:induction false} TableIsShifts(m: map<int, nat>, shifts: seq<(int, nat)>, times: seq<int>)
    requires (forall i | 0 <= i < |times| :: times[i] in m) && forall t | t in m :: m[t] == ShiftAt(shifts, t)
    ensures TableTotal(m, times) == ShiftsAt(shifts, times)
  {
    if times != [] { TableIsShifts(m, shifts, times[1..]); }
  }

  /** Consolidating loses and invents nothing: however its times are listed, the table moves the event up as far as
      all its shifts do. */
  lemma ShiftsConserved(m: map<int, nat>, shifts: seq<(int, nat)>, times: seq<int>)
    requires AddsUp(m, shifts) && Distinct(times) && (forall i | 0 <= i < |times| :: times[i] in m) && forall t | t in m :: t in times
    ensures TableTotal(m, times) == Total(shifts)
  {
    TableIsShifts(m, shifts, times);
    AllShifts(shifts, times);
  }
}
