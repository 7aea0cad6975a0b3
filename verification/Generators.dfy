/** Work generators: slices of a range, and slices of a tensor along its dispatched dimension. */
module Generators {
  import opened Common

  /** The slices handed out for a sequence of requests, as long as there is more work. */
  function Slices(start: nat, total: nat, offset: nat, requests: seq<nat>): seq<(nat, nat)>
    decreases |requests|
  {
    if requests == [] || offset >= total then [] else
    var m := Min(requests[0], total - offset);
    [(start + offset, start + offset + m)] + Slices(start, total, offset + m, requests[1..])
  }

  function Sum(requests: seq<nat>): nat {
    if requests == [] then 0 else requests[0] + Sum(requests[1..])
  }

  /** For positive requests the slices are non-empty and contiguous from the current offset on, and they
      stop where the requests or the work run out: exactly when enough was requested, everything is covered. */
  lemma {:induction false} SlicesTile(start: nat, total: nat, offset: nat, requests: seq<nat>)
    requires offset <= total && forall i | 0 <= i < |requests| :: requests[i] > 0
    ensures var q := Slices(start, total, offset, requests);
            && (forall i | 0 <= i < |q| :: q[i].0 < q[i].1)
            && (q != [] ==> q[0].0 == start + offset)
            && (forall i | 0 < i < |q| :: q[i].0 == q[i - 1].1)
            && start + Min(offset + Sum(requests), total) == if q == [] then start + offset else q[|q| - 1].1
    decreases |requests|
  {
    var q := Slices(start, total, offset, requests);
    if requests != [] && offset < total {
      var m := Min(requests[0], total - offset);
      var rest := Slices(start, total, offset + m, requests[1..]);
      SlicesTile(start, total, offset + m, requests[1..]);
      assert q == [(start + offset, start + offset + m)] + rest;
      forall i | 0 < i < |q| ensures q[i].0 == q[i - 1].1 {
        assert q[i] == rest[i - 1];
        if i > 1 { assert q[i - 1] == rest[i - 2]; }
      }
      if rest != [] { assert q[|q| - 1] == rest[|rest| - 1]; }
    }
  }

  /** Consecutive slices never overlap. */
  lemma {:induction false} SlicesDisjoint(start: nat, total: nat, offset: nat, requests: seq<nat>, i: nat, j: nat)
    requires offset <= total && forall i | 0 <= i < |requests| :: requests[i] > 0
    requires i < j < |Slices(start, total, offset, requests)|
    ensures Slices(start, total, offset, requests)[i].1 <= Slices(start, total, offset, requests)[j].0
    decreases j
  {
    SlicesTile(start, total, offset, requests);
    if i < j - 1 { SlicesDisjoint(start, total, offset, requests, i, j - 1); }
  }

  class SliceGenerator {
    const start: nat
    const stop: nat
    var offset: nat

    ghost predicate Valid()
      reads this
    {
      start < stop && offset <= stop - start
    }

    constructor (start: nat, stop: nat)
      requires start < stop
      ensures Valid() && offset == 0 && this.start == start && this.stop == stop
    {
      this.start, this.stop, this.offset := start, stop, 0;
    }

    /** Construction fails on an empty or reversed slice. */
    static method Create(start: nat, stop: nat) returns (r: Result<SliceGenerator, string>)
      ensures r.Pass? <==> start < stop
      ensures r.Pass? ==> fresh(r.value) && r.value.Valid() && r.value.start == start && r.value.stop == stop && r.value.offset == 0
    {
      if start >= stop { return Fail("Invalid slice, expect start < stop"); }
      var g := new SliceGenerator(start, stop);
      r := Pass(g);
    }

    function Total(): nat
      requires start < stop
    {
      stop - start
    }

    predicate HasMore()
      requires start < stop
      reads this`offset
    {
      offset < Total()
    }

    /** The next slice, without advancing. The subtraction does not underflow. */
    method Generate(n: nat) returns (m: nat, work: (nat, nat))
      requires Valid()
      ensures m == Min(n, Total() - offset) && work == (start + offset, start + offset + m)
    {
      m := Min(n, stop - start - offset);
      work := (start + offset, start + offset + m);
    }

    /** The next slice; the offset advances by what was generated, not by what was requested. */
    method Next(n: nat) returns (m: nat, work: (nat, nat))
      requires Valid()
      modifies this`offset
      ensures Valid() && offset == old(offset) + m
      ensures m == Min(n, Total() - old(offset)) && work == (start + old(offset), start + offset)
      ensures old(HasMore()) ==> [work] == Slices(start, Total(), old(offset), [n])
    {
      m, work := Generate(n);
      assert Slices(start, Total(), offset + m, [n][1..]) == [];
      offset := offset + m;
    }
  }

  /** Slices a tensor by driving an inner slice generator. */
  class TensorLoader<X> {
    const tensor: seq<X>
    const sliceGen: SliceGenerator
    var offset: nat

    /** The loader's own offset and that of its inner generator never drift apart. */
    ghost predicate Valid()
      reads this, sliceGen
    {
      sliceGen.Valid() && sliceGen.start == 0 && sliceGen.stop == |tensor| && offset == sliceGen.offset
    }

    constructor (tensor: seq<X>)
      requires tensor != []
      ensures Valid() && fresh(sliceGen) && offset == 0 && this.tensor == tensor
    {
      this.tensor := tensor;
      this.sliceGen := new SliceGenerator(0, |tensor|);
      this.offset := 0;
    }

    /** Construction fails on an empty tensor, because its slice generator does. */
    static method Create(tensor: seq<X>) returns (r: Result<TensorLoader<X>, string>)
      ensures r.Pass? <==> tensor != []
      ensures r.Pass? ==> fresh(r.value) && fresh(r.value.sliceGen) && r.value.Valid() && r.value.tensor == tensor && r.value.offset == 0
    {
      if |tensor| <= 0 { return Fail("Invalid slice, expect start < stop"); }
      var g := new TensorLoader(tensor);
      r := Pass(g);
    }

    predicate HasMore()
      requires sliceGen.start < sliceGen.stop
      reads this`offset
    {
      offset < sliceGen.Total()
    }

    /** The next `m <= n` batches of the tensor. */
    method Next(n: nat) returns (m: nat, work: seq<X>)
      requires Valid()
      modifies this`offset, sliceGen`offset
      ensures Valid() && offset == old(offset) + m && m == Min(n, |tensor| - old(offset))
      ensures work == tensor[old(offset)..offset]
    {
      var slice;
      m, slice := Generate(n);
      work := slice;
      offset := offset + m;
    }

    /** Generating advances the inner generator only. */
    method Generate(n: nat) returns (m: nat, work: seq<X>)
      requires Valid()
      modifies sliceGen`offset
      ensures sliceGen.Valid() && sliceGen.offset == offset + m && m == Min(n, |tensor| - offset)
      ensures work == tensor[offset..offset + m]
    {
      var slice;
      m, slice := sliceGen.Next(n);
      work := tensor[slice.0..slice.1];
    }
  }

  lemma OneMoreSlice(start: nat, total: nat, offset: nat, requests: seq<nat>, i: nat)
    requires i < |requests| && offset < total
    ensures var m := Min(requests[i], total - offset);
      && Slices(start, total, offset, requests[i..])
         == [(start + offset, start + offset + m)] + Slices(start, total, offset + m, requests[i + 1..])
      && Min(offset + Sum(requests[i..]), total) == Min(offset + m + Sum(requests[i + 1..]), total)
  {
    assert requests[i..][1..] == requests[i + 1..];
  }

  lemma NoMoreSlices(start: nat, total: nat, offset: nat, requests: seq<nat>, i: nat)
    requires i <= |requests| && offset <= total && (i == |requests| || offset == total)
    ensures Slices(start, total, offset, requests[i..]) == [] && Min(offset + Sum(requests[i..]), total) == offset
  {
  }

  /** Handing out work for a sequence of requests, as long as there is more. */
  method TakeAll(g: SliceGenerator, requests: seq<nat>) returns (slices: seq<(nat, nat)>)
    requires g.Valid()
    modifies g`offset
    ensures g.Valid() && slices == Slices(g.start, g.Total(), old(g.offset), requests)
    ensures g.offset == Min(old(g.offset) + Sum(requests), g.Total())
  {
    hide Slices, Sum;
    slices := [];
    var i := 0;
    ghost var all := Slices(g.start, g.Total(), g.offset, requests);
    ghost var end := Min(g.offset + Sum(requests), g.Total());
    assert requests[0..] == requests;
    while i < |requests| && g.HasMore()
      invariant i <= |requests| && g.Valid()
      invariant slices + Slices(g.start, g.Total(), g.offset, requests[i..]) == all
      invariant Min(g.offset + Sum(requests[i..]), g.Total()) == end
    {
      OneMoreSlice(g.start, g.Total(), g.offset, requests, i);
      var m, slice := g.Next(requests[i]);
      Associative(slices, [slice], Slices(g.start, g.Total(), g.offset, requests[i + 1..]));
      slices, i := slices + [slice], i + 1;
    }
    NoMoreSlices(g.start, g.Total(), g.offset, requests, i);
  }

  /** The loader hands out the corresponding parts of its tensor. */
  method LoadAll<X>(loader: TensorLoader<X>, requests: seq<nat>) returns (parts: seq<seq<X>>)
    requires loader.Valid()
    modifies loader`offset, loader.sliceGen`offset
    ensures loader.Valid() && Cuts(loader.tensor, parts, Slices(0, |loader.tensor|, old(loader.offset), requests))
    ensures loader.offset == Min(old(loader.offset) + Sum(requests), |loader.tensor|)
  {
    hide Slices, Sum;
    parts := [];
    ghost var slices: seq<(nat, nat)> := [];
    var i := 0;
    ghost var total := |loader.tensor|;
    ghost var all := Slices(0, total, loader.offset, requests);
    ghost var end := Min(loader.offset + Sum(requests), total);
    assert requests[0..] == requests;
    while i < |requests| && loader.HasMore()
      invariant i <= |requests| && loader.Valid() && Cuts(loader.tensor, parts, slices)
      invariant slices + Slices(0, total, loader.offset, requests[i..]) == all
      invariant Min(loader.offset + Sum(requests[i..]), total) == end
    {
      ghost var lo := loader.offset;
      OneMoreSlice(0, total, lo, requests, i);
      var m, part := loader.Next(requests[i]);
      Associative(slices, [(lo, lo + m)], Slices(0, total, loader.offset, requests[i + 1..]));
      parts, slices, i := parts + [part], slices + [(lo, lo + m)], i + 1;
    }
    NoMoreSlices(0, total, loader.offset, requests, i);
    assert slices == all;
  }

  ghost predicate Cuts<X>(tensor: seq<X>, parts: seq<seq<X>>, slices: seq<(nat, nat)>) {
    |parts| == |slices| && forall i | 0 <= i < |parts| ::
      slices[i].0 <= slices[i].1 <= |tensor| && parts[i] == tensor[slices[i].0..slices[i].1]
  }
}
