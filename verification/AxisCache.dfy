/** The parallel vectors in which an axis keeps its layout. */
module AxisCache {
  import opened AxisTree
  import opened Common
  import opened Ordering

  datatype Cache = Cache(
    size: nat,
    ids: map<Name, nat>,
    names: seq<Name>,
    sizes: seq<nat>,
    slices: seq<(nat, nat)>,
    shapes: seq<Shapes>,
    subIds: map<string, nat>,
    subNames: seq<string>,
    subSizes: seq<nat>,
    subSlices: seq<(nat, nat)>)

  const CLEARED: Cache := Cache(0, map[], [], [], [], [], map[], [], [], [])

  /** Entering a variable at the end; an id that is there is not overwritten. */
  function Enter(c: Cache, name: Name, size: nat, slice: (nat, nat), shapes: Shapes): Cache {
    c.(ids := if name in c.ids then c.ids else c.ids[name := |c.ids|],
       names := c.names + [name],
       sizes := c.sizes + [size],
       slices := c.slices + [slice],
       shapes := c.shapes + [shapes])
  }

  /** Entering a local sub-axis at the end. */
  function EnterSub(c: Cache, key: string, size: nat): Cache {
    c.(subIds := if key in c.subIds then c.subIds else c.subIds[key := |c.subIds|],
       subNames := c.subNames + [key],
       subSizes := c.subSizes + [size],
       subSlices := c.subSlices + [(c.size, c.size + size)],
       size := c.size + size)
  }

  ghost predicate SameSubs(c: Cache, d: Cache) {
    && c.size == d.size && c.subIds == d.subIds && c.subNames == d.subNames
    && c.subSizes == d.subSizes && c.subSlices == d.subSlices
  }

  /** The variable vectors are the projections of the slots, and the id map inverts the name vector. */
  ghost predicate Lists(c: Cache, q: seq<Slot>) {
    Columns(c, q) && Indexes(c.ids, q)
  }

  ghost predicate Columns(c: Cache, q: seq<Slot>) {
    && |c.names| == |c.sizes| == |c.slices| == |c.shapes| == |q|
    && forall i {:trigger q[i]} | 0 <= i < |q| ::
         && c.names[i] == q[i].name
         && c.sizes[i] == Storage(q[i].shapes)
         && c.slices[i] == (q[i].lo, q[i].hi)
         && c.shapes[i] == q[i].shapes
  }

  ghost predicate Indexes(ids: map<Name, nat>, q: seq<Slot>) {
    && |ids| == |q|
    && (forall i {:trigger q[i]} | 0 <= i < |q| :: q[i].name in ids && ids[q[i].name] == i)
    && (forall n | n in ids :: ids[n] < |q| && q[ids[n]].name == n)
  }

  /** The slices of local sub-axes laid out one after the other. */
  function Spans(kids: seq<Kid>, lo: nat): seq<(nat, nat)> {
    if kids == [] then [] else [(lo, lo + kids[0].size)] + Spans(kids[1..], lo + kids[0].size)
  }

  /** The sub-axis vectors are the projections of the local sub-axes, laid out one after the other. */
  ghost predicate ListsSubs(c: Cache, kids: seq<Kid>, lo: nat) {
    && |c.subIds| == |c.subNames| == |c.subSizes| == |kids|
    && c.subSlices == Spans(kids, lo)
    && (forall i {:trigger kids[i]} | 0 <= i < |kids| ::
          && c.subNames[i] == kids[i].key
          && c.subSizes[i] == kids[i].size
          && kids[i].key in c.subIds && c.subIds[kids[i].key] == i)
    && (forall k | k in c.subIds :: c.subIds[k] < |kids| && kids[c.subIds[k]].key == k)
  }

  /** The vectors agree with the layout of the tree. */
  ghost predicate Agrees(c: Cache, t: Tree) {
    && c.size == Size(t)
    && Lists(c, Slots(t))
    && ListsSubs(c, Kids(t), VarsSize(t.vars, Sorted(t.vars.Keys)))
  }

  /** The tree determines the vectors. */
  lemma AgreesDetermines(c: Cache, d: Cache, t: Tree)
    requires Agrees(c, t) && Agrees(d, t)
    ensures c == d
  {
    hide Slots, Kids, Size, VarsSize, Sorted;
    SameLists(c, d, Slots(t));
    SameSubLists(c, d, Kids(t), VarsSize(t.vars, Sorted(t.vars.Keys)));
  }

  lemma SameLists(c: Cache, d: Cache, q: seq<Slot>)
    requires Lists(c, q) && Lists(d, q)
    ensures c.ids == d.ids && c.names == d.names && c.sizes == d.sizes && c.slices == d.slices && c.shapes == d.shapes
  {
    hide Storage;
    forall i | 0 <= i < |q|
      ensures c.names[i] == d.names[i] && c.sizes[i] == d.sizes[i] && c.slices[i] == d.slices[i] && c.shapes[i] == d.shapes[i]
      ensures c.names[i] in c.ids && c.ids[c.names[i]] == i && c.names[i] in d.ids && d.ids[c.names[i]] == i
    {
      assert c.names[i] == q[i].name;
    }
    forall n | n in c.ids ensures c.names[c.ids[n]] == n { assert q[c.ids[n]].name == n; }
    forall n | n in d.ids ensures c.names[d.ids[n]] == n { assert q[d.ids[n]].name == n; }
    SameIndex(c.ids, d.ids, c.names);
  }

  lemma SameIndex<K>(m: map<K, nat>, n: map<K, nat>, keys: seq<K>)
    requires forall i | 0 <= i < |keys| :: keys[i] in m && m[keys[i]] == i && keys[i] in n && n[keys[i]] == i
    requires forall k | k in m :: m[k] < |keys| && keys[m[k]] == k
    requires forall k | k in n :: n[k] < |keys| && keys[n[k]] == k
    ensures m == n
  {
    assert forall k | k in m :: k in n && n[k] == m[k];
    assert forall k | k in n :: k in m;
  }

  lemma SameSubLists(c: Cache, d: Cache, kids: seq<Kid>, lo: nat)
    requires ListsSubs(c, kids, lo) && ListsSubs(d, kids, lo)
    ensures c.subIds == d.subIds && c.subNames == d.subNames && c.subSizes == d.subSizes && c.subSlices == d.subSlices
  {
    hide Spans;
    forall i | 0 <= i < |kids|
      ensures c.subNames[i] == d.subNames[i] && c.subSizes[i] == d.subSizes[i]
      ensures c.subNames[i] in c.subIds && c.subIds[c.subNames[i]] == i
      ensures c.subNames[i] in d.subIds && d.subIds[c.subNames[i]] == i
    {
      assert c.subNames[i] == kids[i].key;
    }
    forall k | k in c.subIds ensures c.subNames[c.subIds[k]] == k { assert kids[c.subIds[k]].key == k; }
    forall k | k in d.subIds ensures c.subNames[d.subIds[k]] == k { assert kids[d.subIds[k]].key == k; }
    SameIndex(c.subIds, d.subIds, c.subNames);
  }

  lemma EnterColumns(c: Cache, q: seq<Slot>, s: Slot)
    requires Columns(c, q)
    ensures Columns(Enter(c, s.name, Storage(s.shapes), (s.lo, s.hi), s.shapes), q + [s])
  {
    hide Storage;
    var r := q + [s];
    assert forall i | 0 <= i < |q| :: r[i] == q[i];
  }

  lemma EnterIds(ids: map<Name, nat>, q: seq<Slot>, s: Slot)
    requires Indexes(ids, q) && forall u | u in q :: u.name != s.name
    ensures s.name !in ids && Indexes(ids[s.name := |ids|], q + [s])
  {
    assert forall n | n in ids :: q[ids[n]] in q;
    assert forall i | 0 <= i < |q| :: q[i] in q;
  }

  lemma EnterLists(c: Cache, q: seq<Slot>, s: Slot)
    requires Lists(c, q) && forall u | u in q :: u.name != s.name
    ensures Lists(Enter(c, s.name, Storage(s.shapes), (s.lo, s.hi), s.shapes), q + [s])
  {
    hide Columns, Indexes, Storage;
    EnterColumns(c, q, s);
    EnterIds(c.ids, q, s);
  }

  lemma {:induction false} SpansOneMore(kids: seq<Kid>, kid: Kid, lo: nat)
    ensures KidsSize(kids + [kid]) == KidsSize(kids) + kid.size
    ensures var start := lo + KidsSize(kids);
      Spans(kids + [kid], lo) == Spans(kids, lo) + [(start, start + kid.size)]
  {
    if kids != [] {
      SpansOneMore(kids[1..], kid, lo + kids[0].size);
      assert (kids + [kid])[1..] == kids[1..] + [kid];
    } else {
      assert [kid][1..] == [];
    }
  }

  lemma EnterSubListsSubs(c: Cache, kids: seq<Kid>, lo: nat, kid: Kid)
    requires ListsSubs(c, kids, lo) && c.size == lo + KidsSize(kids)
    requires forall k | k in kids :: k.key != kid.key
    ensures ListsSubs(EnterSub(c, kid.key, kid.size), kids + [kid], lo)
    ensures EnterSub(c, kid.key, kid.size).size == lo + KidsSize(kids + [kid])
  {
    var d, r := EnterSub(c, kid.key, kid.size), kids + [kid];
    SpansOneMore(kids, kid, lo);
    hide Spans, KidsSize;
    assert forall k | k in c.subIds :: kids[c.subIds[k]] in kids;
    forall i | 0 <= i < |kids| ensures kids[i].key != kid.key && r[i] == kids[i] { assert kids[i] in kids; }
    forall k | k in d.subIds ensures d.subIds[k] < |r| && r[d.subIds[k]].key == k {
      if k != kid.key { assert k in c.subIds; }
    }
  }

  lemma {:induction false} VarSlotsOneMore(vars: map<string, Shapes>, keys: seq<string>, key: string, lo: nat)
    requires key in vars && forall k | k in keys :: k in vars
    ensures VarsSize(vars, keys + [key]) == VarsSize(vars, keys) + Storage(vars[key])
    ensures var start := lo + VarsSize(vars, keys);
      VarSlots(vars, keys + [key], lo) == VarSlots(vars, keys, lo) + [Slot([key], start, start + Storage(vars[key]), vars[key])]
  {
    hide Storage;
    if keys != [] {
      VarSlotsOneMore(vars, keys[1..], key, lo + Storage(vars[keys[0]]));
      assert (keys + [key])[1..] == keys[1..] + [key];
    } else {
      assert [key][1..] == [];
    }
  }

  lemma NothingEntered(vars: map<string, Shapes>)
    ensures Lists(CLEARED, VarSlots(vars, [], 0)) && ListsSubs(CLEARED, [], 0)
    ensures VarSlots(vars, [], 0) == [] && VarsSize(vars, []) == 0 && Sorted({}) == []
  {
  }

  /** Entering a local variable behind everything that is there. */
  function EnterLocal(c: Cache, key: string, shapes: Shapes): Cache {
    var sz := Storage(shapes);
    Enter(c, [key], sz, (c.size, c.size + sz), shapes).(size := c.size + sz)
  }

  lemma EnterVariable(c: Cache, vars: map<string, Shapes>, done: seq<string>, key: string)
    requires key in vars && key !in done && forall k | k in done :: k in vars
    requires Lists(c, VarSlots(vars, done, 0)) && c.size == VarsSize(vars, done)
    ensures forall k | k in done + [key] :: k in vars
    ensures var d := EnterLocal(c, key, vars[key]);
      && Lists(d, VarSlots(vars, done + [key], 0)) && d.size == VarsSize(vars, done + [key])
      && SameSubs(d, c.(size := d.size))
  {
    hide Lists, VarSlots, VarsSize, Storage;
    VarSlotsOneMore(vars, done, key, 0);
    forall u | u in VarSlots(vars, done, 0) ensures u.name != [key] { NamesInVarSlots(vars, done, 0, u); }
    var s := Slot([key], c.size, c.size + Storage(vars[key]), vars[key]);
    EnterLists(c, VarSlots(vars, done, 0), s);
    ResizeLists(Enter(c, s.name, Storage(s.shapes), (s.lo, s.hi), s.shapes), s.hi, VarSlots(vars, done + [key], 0));
  }

  lemma ResizeLists(c: Cache, size: nat, q: seq<Slot>)
    requires Lists(c, q)
    ensures Lists(c.(size := size), q)
  {
  }

  /** The first loop of `setup_layout`: the local variables in the order of their names. */
  method EnterVariables(vars: map<string, Shapes>) returns (c: Cache)
    ensures Lists(c, VarSlots(vars, Sorted(vars.Keys), 0))
    ensures c.size == VarsSize(vars, Sorted(vars.Keys))
    ensures c.subIds == map[] && c.subNames == [] && c.subSizes == [] && c.subSlices == []
  {
    hide VarSlots, VarsSize, Sorted, Storage, Lists, ListsSubs, EnterLocal;
    c := CLEARED;
    var rest := vars.Keys;
    ghost var done: seq<string> := [];
    NothingEntered(vars);
    while rest != {}
      invariant rest <= vars.Keys && (forall k | k in done :: k in vars && k !in rest)
      invariant Sorted(vars.Keys) == done + Sorted(rest)
      invariant Lists(c, VarSlots(vars, done, 0)) && c.size == VarsSize(vars, done)
      invariant c.subIds == map[] && c.subNames == [] && c.subSizes == [] && c.subSlices == []
      decreases |rest|
    {
      var key := First(rest);
      EnterVariable(c, vars, done, key);
      c := EnterLocal(c, key, vars[key]);
      Associative(done, [key], Sorted(rest - {key}));
      done, rest := done + [key], rest - {key};
    }
    assert done + [] == done;
  }

  lemma {:induction false} NamesInVarSlots(vars: map<string, Shapes>, keys: seq<string>, lo: nat, s: Slot)
    requires forall k | k in keys :: k in vars
    requires s in VarSlots(vars, keys, lo)
    ensures |s.name| == 1 && s.name[0] in keys
  {
    if s in VarSlots(vars, keys[1..], lo + Storage(vars[keys[0]])) {
      NamesInVarSlots(vars, keys[1..], lo + Storage(vars[keys[0]]), s);
    }
  }

  lemma {:induction false} ShiftOneMore(q: seq<Slot>, s: Slot, key: string, d: nat)
    ensures Shift(q + [s], key, d) == Shift(q, key, d) + [ShiftSlot(s, key, d)]
  {
    if q != [] {
      ShiftOneMore(q[1..], s, key, d);
      assert (q + [s])[1..] == q[1..] + [s];
    } else {
      assert [s][1..] == [];
    }
  }

  lemma {:induction false} SubSlotsOneMore(kids: seq<Kid>, kid: Kid, lo: nat)
    ensures SubSlots(kids + [kid], lo) == SubSlots(kids, lo) + Shift(kid.slots, kid.key, lo + KidsSize(kids))
  {
    if kids != [] {
      SubSlotsOneMore(kids[1..], kid, lo + kids[0].size);
      assert (kids + [kid])[1..] == kids[1..] + [kid];
    } else {
      assert [kid][1..] == [];
    }
  }

  /** The inner loop of `setup_layout`: the variables of a sub-axis are merged under its name, and their slices
      are shifted to where the sub-axis starts. */
  method MergeVariables(before: Cache, key: string, lo: nat, sub: Cache, ghost p: seq<Slot>, ghost q: seq<Slot>)
    returns (c: Cache)
    requires Lists(before, p) && Lists(sub, q) && NamesDiffer(p + Shift(q, key, lo))
    ensures Lists(c, p + Shift(q, key, lo)) && SameSubs(c, before)
  {
    hide Shift, Storage, NamesDiffer, Lists;
    c := before;
    NothingShifted(c, p, q, key, lo);
    ListsEach(sub, q);
    for i := 0 to |sub.names|
      invariant Lists(c, p + Shift(q[..i], key, lo)) && SameSubs(c, before)
    {
      EnterOneMore(c, p, q, key, lo, i);
      var id := IdAt(sub, q, i);
      var slice := sub.slices[id];
      c := Enter(c, [key] + sub.names[i], sub.sizes[id], (slice.0 + lo, slice.1 + lo), sub.shapes[id]);
    }
    assert q[..|q|] == q;
  }

  lemma ListsEach(c: Cache, q: seq<Slot>)
    requires Lists(c, q)
    ensures |c.names| == |q|
  {
  }

  lemma NothingShifted(c: Cache, p: seq<Slot>, q: seq<Slot>, key: string, lo: nat)
    requires Lists(c, p)
    ensures Lists(c, p + Shift(q[..0], key, lo))
  {
    assert p + [] == p;
  }

  /** The id of the name at a position is that position. */
  function IdAt(c: Cache, ghost q: seq<Slot>, i: nat): (id: nat)
    requires Lists(c, q) && i < |q|
    ensures id == i < |c.sizes| == |c.slices| == |c.shapes| == |c.names|
    ensures c.names[i] == q[i].name && c.sizes[i] == Storage(q[i].shapes)
    ensures c.slices[i] == (q[i].lo, q[i].hi) && c.shapes[i] == q[i].shapes
  {
    assert q[i].name == c.names[i];
    c.ids[c.names[i]]
  }

  lemma EnterOneMore(c: Cache, p: seq<Slot>, q: seq<Slot>, key: string, lo: nat, i: nat)
    requires i < |q| && NamesDiffer(p + Shift(q, key, lo)) && Lists(c, p + Shift(q[..i], key, lo))
    ensures Lists(Enter(c, [key] + q[i].name, Storage(q[i].shapes), (q[i].lo + lo, q[i].hi + lo), q[i].shapes),
                  p + Shift(q[..i + 1], key, lo))
  {
    hide Lists, NamesDiffer, Shift, Storage;
    NewName(p, q, key, lo, i);
    EnterLists(c, p + Shift(q[..i], key, lo), ShiftSlot(q[i], key, lo));
  }

  lemma NewName(p: seq<Slot>, q: seq<Slot>, key: string, lo: nat, i: nat)
    requires i < |q| && NamesDiffer(p + Shift(q, key, lo))
    ensures p + Shift(q[..i + 1], key, lo) == (p + Shift(q[..i], key, lo)) + [ShiftSlot(q[i], key, lo)]
    ensures forall u | u in p + Shift(q[..i], key, lo) :: u.name != ([key] + q[i].name)
  {
    assert q[..i + 1] == q[..i] + [q[i]];
    ShiftOneMore(q[..i], q[i], key, lo);
    var all, part := p + Shift(q, key, lo), p + Shift(q[..i], key, lo);
    ShiftAt(q, key, lo, i);
    assert all[|p| + i] == ShiftSlot(q[i], key, lo);
    if i > 0 { ShiftAt(q[..i], key, lo, 0); }
    forall u | u in part ensures u.name != [key] + q[i].name {
      var j :| 0 <= j < |part| && part[j] == u;
      if j >= |p| {
        ShiftAt(q[..i], key, lo, j - |p|);
        ShiftAt(q, key, lo, j - |p|);
      }
      assert j < |p| + i && all[j] == u;
    }
  }

  // ---------------------------------------------------------------------------------------------
  // The second loop
  // ---------------------------------------------------------------------------------------------

  ghost function LocalSlots(t: Tree): seq<Slot> {
    VarSlots(t.vars, Sorted(t.vars.Keys), 0)
  }

  ghost function LocalSize(t: Tree): nat {
    VarsSize(t.vars, Sorted(t.vars.Keys))
  }

  /** The vectors hold the local variables and the first `done` sub-axes. */
  ghost predicate Partly(c: Cache, t: Tree, done: nat)
    requires done <= |Kids(t)|
  {
    var kids := Kids(t)[..done];
    && Lists(c, LocalSlots(t) + SubSlots(kids, LocalSize(t)))
    && ListsSubs(c, kids, LocalSize(t))
    && c.size == LocalSize(t) + KidsSize(kids)
  }

  lemma PartlyStarts(c: Cache, t: Tree)
    requires Lists(c, LocalSlots(t)) && c.size == LocalSize(t)
    requires c.subIds == map[] && c.subNames == [] && c.subSizes == [] && c.subSlices == []
    ensures Partly(c, t, 0)
  {
    hide Kids, Lists, VarSlots, VarsSize, Sorted;
    assert Kids(t)[..0] == [];
    assert LocalSlots(t) + [] == LocalSlots(t);
  }

  lemma PartlyEnds(c: Cache, t: Tree)
    requires Partly(c, t, |Kids(t)|)
    ensures Agrees(c, t)
  {
    hide Kids, Lists, ListsSubs, SubSlots, KidsSize, VarSlots, VarsSize, Sorted;
    assert Kids(t)[..|Kids(t)|] == Kids(t);
  }

  lemma {:induction false} SubSlotsSplit(p: seq<Kid>, q: seq<Kid>, lo: nat)
    ensures SubSlots(p + q, lo) == SubSlots(p, lo) + SubSlots(q, lo + KidsSize(p))
  {
    hide Shift;
    if p == [] {
      assert p + q == q;
    } else {
      SubSlotsSplit(p[1..], q, lo + p[0].size);
      assert (p + q)[0] == p[0] && (p + q)[1..] == p[1..] + q;
      Associative(Shift(p[0].slots, p[0].key, lo), SubSlots(p[1..], lo + p[0].size), SubSlots(q, lo + KidsSize(p)));
    }
  }

  lemma NamesDifferInFront(p: seq<Slot>, q: seq<Slot>)
    requires NamesDiffer(p + q)
    ensures NamesDiffer(p)
  {
    forall i, j | 0 <= i < j < |p| ensures p[i].name != p[j].name {
      assert p[i] == (p + q)[i] && p[j] == (p + q)[j];
    }
  }

  /** The names of one more sub-axis are new. */
  lemma NamesOfOneMore(t: Tree, done: nat)
    requires done < |Kids(t)|
    ensures var kids, kid := Kids(t)[..done], Kids(t)[done];
      && (forall k | k in kids :: k.key != kid.key)
      && LocalSlots(t) + SubSlots(kids + [kid], LocalSize(t))
         == (LocalSlots(t) + SubSlots(kids, LocalSize(t))) + Shift(kid.slots, kid.key, LocalSize(t) + KidsSize(kids))
      && NamesDiffer((LocalSlots(t) + SubSlots(kids, LocalSize(t))) + Shift(kid.slots, kid.key, LocalSize(t) + KidsSize(kids)))
  {
    hide Kids, Slots, LocalSlots, LocalSize, SubSlots, KidsSize, Shift, NamesDiffer;
    var all := Kids(t);
    SlotNamesDiffer(t);
    KeysDiffer(t, done);
    SlotsAre(t);
    assert all == all[..done] + [all[done]] + all[done + 1..];
    SubSlotsFront(all[..done], all[done], all[done + 1..], LocalSize(t), all, LocalSlots(t));
  }

  lemma SlotsAre(t: Tree)
    ensures Slots(t) == LocalSlots(t) + SubSlots(Kids(t), LocalSize(t))
  {
  }

  lemma SubSlotsFront(kids: seq<Kid>, kid: Kid, rest: seq<Kid>, lo: nat, all: seq<Kid>, p: seq<Slot>)
    requires all == kids + [kid] + rest && NamesDiffer(p + SubSlots(all, lo))
    ensures var shifted := Shift(kid.slots, kid.key, lo + KidsSize(kids));
      && p + SubSlots(kids + [kid], lo) == (p + SubSlots(kids, lo)) + shifted
      && NamesDiffer((p + SubSlots(kids, lo)) + shifted)
  {
    hide NamesDiffer, Shift, SubSlots, KidsSize;
    SubSlotsSplit(kids + [kid], rest, lo);
    SubSlotsOneMore(kids, kid, lo);
    var front, back := SubSlots(kids + [kid], lo), SubSlots(rest, lo + KidsSize(kids + [kid]));
    Associative(p, front, back);
    NamesDifferInFront(p + front, back);
    var shifted := Shift(kid.slots, kid.key, lo + KidsSize(kids));
    Associative(p, SubSlots(kids, lo), shifted);
  }

  lemma KeysDiffer(t: Tree, done: nat)
    requires done < |Kids(t)|
    ensures forall k | k in Kids(t)[..done] :: k.key != Kids(t)[done].key
  {
    SortedDistinct(t.subs.Keys);
    assert forall i | 0 <= i < done :: Kids(t)[i].key != Kids(t)[done].key;
  }

  /** One round of the second loop of `setup_layout`. */
  method EnterSubaxis(before: Cache, key: string, sub: Cache, ghost t: Tree, ghost done: nat) returns (c: Cache)
    requires done < |Kids(t)| && Kids(t)[done].key == key && Partly(before, t, done)
    requires Lists(sub, Kids(t)[done].slots) && sub.size == Kids(t)[done].size
    ensures Partly(c, t, done + 1)
  {
    hide Kids, Lists, ListsSubs, KidsSize, Shift, SubSlots, LocalSlots, LocalSize, NamesDiffer;
    ghost var kids, kid := Kids(t)[..done], Kids(t)[done];
    ghost var p := LocalSlots(t) + SubSlots(kids, LocalSize(t));
    NamesOfOneMore(t, done);
    assert Kids(t)[..done + 1] == kids + [kid];
    EnterSubListsSubs(before, kids, LocalSize(t), kid);
    KeepLists(before, EnterSub(before, key, sub.size), p);
    c := MergeVariables(EnterSub(before, key, sub.size), key, before.size, sub, p, kid.slots);
    KeepListsSubs(EnterSub(before, key, sub.size), c, kids + [kid], LocalSize(t));
  }

  lemma KeepLists(c: Cache, d: Cache, q: seq<Slot>)
    requires Lists(c, q) && d.ids == c.ids && d.names == c.names && d.sizes == c.sizes
    requires d.slices == c.slices && d.shapes == c.shapes
    ensures Lists(d, q)
  {
  }

  lemma KeepListsSubs(c: Cache, d: Cache, kids: seq<Kid>, lo: nat)
    requires ListsSubs(c, kids, lo) && SameSubs(d, c)
    ensures ListsSubs(d, kids, lo)
  {
  }

  // ---------------------------------------------------------------------------------------------
  // Reading the vectors
  // ---------------------------------------------------------------------------------------------

  lemma AgreesSize(c: Cache, t: Tree)
    requires Agrees(c, t)
    ensures c.size == Size(t) && |c.names| == |Slots(t)|
  {
  }

  lemma ListedIds(c: Cache, q: seq<Slot>, i: nat)
    requires Lists(c, q) && i < |q|
    ensures q[i].name in c.names && q[i].name in c.ids && c.ids[q[i].name] == i
  {
    assert c.names[i] == q[i].name;
  }

  lemma ListedNames(c: Cache, q: seq<Slot>, name: Name)
    requires Lists(c, q) && (name in c.names || name in c.ids)
    ensures exists s | s in q :: s.name == name
  {
    assert name in c.ids ==> q[c.ids[name]].name == name;
    var i :| 0 <= i < |c.names| && c.names[i] == name;
    assert q[i] in q;
  }

  /** A variable is in the vectors exactly when the recursive query finds it, and its id leads to its slot. */
  lemma CachedVariable(c: Cache, t: Tree, name: Name)
    requires Agrees(c, t)
    ensures name in c.names <==> HasVariable(t, name)
    ensures name in c.ids <==> HasVariable(t, name)
    ensures HasVariable(t, name) ==>
      (var id := c.ids[name];
       && id < |Slots(t)| && Slots(t)[id] == SlotOf(t, name)
       && id < |c.sizes| && c.sizes[id] == Storage(ShapesOf(t, name))
       && id < |c.slices| && c.slices[id] == (SlotOf(t, name).lo, SlotOf(t, name).hi))
  {
    hide Slots, ListsSubs, SlotOf, Kids, HasVariable;
    if HasVariable(t, name) {
      var i := IdOfName(t, name);
      assert Slots(t)[i].shapes == ShapesOf(t, name);
      ListedIds(c, Slots(t), i);
    }
    if name in c.names || name in c.ids {
      ListedNames(c, Slots(t), name);
      var s :| s in Slots(t) && s.name == name;
      InSlots(t, s);
    }
  }

  lemma {:induction false} SpansAt(kids: seq<Kid>, lo: nat, i: nat)
    requires i < |kids| && forall i, j | 0 <= i < j < |kids| :: kids[i].key != kids[j].key
    ensures |Spans(kids, lo)| == |kids|
    ensures var start := SubOffset(kids, kids[i].key, lo); Spans(kids, lo)[i] == (start, start + kids[i].size)
  {
    if i > 0 {
      assert kids[i] == kids[1..][i - 1];
      SpansAt(kids[1..], lo + kids[0].size, i - 1);
    } else {
      SpansLength(kids, lo);
    }
  }

  lemma {:induction false} SpansLength(kids: seq<Kid>, lo: nat)
    ensures |Spans(kids, lo)| == |kids|
  {
    if kids != [] { SpansLength(kids[1..], lo + kids[0].size); }
  }

  lemma KidOf(t: Tree, key: string) returns (i: nat)
    requires key in t.subs
    ensures i < |Kids(t)| && Kids(t)[i] == Kid(key, Slots(t.subs[key]), Size(t.subs[key]))
    ensures forall i, j | 0 <= i < j < |Kids(t)| :: Kids(t)[i].key != Kids(t)[j].key
  {
    hide Slots, Size;
    var keys := Sorted(t.subs.Keys);
    SortedDistinct(t.subs.Keys);
    i :| 0 <= i < |keys| && keys[i] == key;
  }

  /** A local sub-axis is in the vectors exactly when it is in the tree, and its id leads to its range. */
  lemma CachedSubaxis(c: Cache, t: Tree, key: string)
    requires Agrees(c, t)
    ensures key in c.subIds <==> key in t.subs
    ensures key in t.subs ==>
      (var id := c.subIds[key];
       && id < |c.subSizes| && c.subSizes[id] == Size(t.subs[key])
       && id < |c.subSlices| && c.subSlices[id] == (Offset(t, key), Offset(t, key) + Size(t.subs[key])))
  {
    hide Slots, Size, Lists, Kids, SubOffset, VarsSize, Sorted;
    if key in t.subs {
      var i := KidOf(t, key);
      assert Kids(t)[i].key == key;
      SpansAt(Kids(t), VarsSize(t.vars, Sorted(t.vars.Keys)), i);
    }
    if key in c.subIds {
      KeyOfKid(t, c.subIds[key]);
    }
  }

  lemma KeyOfKid(t: Tree, i: nat)
    requires i < |Kids(t)|
    ensures Kids(t)[i].key in t.subs
  {
    hide Slots, Size;
    assert Sorted(t.subs.Keys)[i] in Sorted(t.subs.Keys);
  }

  // ---------------------------------------------------------------------------------------------
  // Adding up
  // ---------------------------------------------------------------------------------------------

  /** The local part of `size` and `nvariable`. */
  method VariablesSize(vars: map<string, Shapes>) returns (n: nat)
    ensures n == VarsSize(vars, Sorted(vars.Keys))
  {
    hide Sorted, Storage, VarsSize, VarSlots;
    n := 0;
    var rest := vars.Keys;
    ghost var done: seq<string> := [];
    NothingEntered(vars);
    while rest != {}
      invariant rest <= vars.Keys && (forall k | k in done :: k in vars)
      invariant Sorted(vars.Keys) == done + Sorted(rest)
      invariant n == VarsSize(vars, done)
      decreases |rest|
    {
      var key := First(rest);
      VarSlotsOneMore(vars, done, key, 0);
      n := n + Storage(vars[key]);
      Associative(done, [key], Sorted(rest - {key}));
      done, rest := done + [key], rest - {key};
    }
    assert done + [] == done;
  }

  /** The key of the next sub-axis. */
  ghost predicate NextKid(t: Tree, done: nat, key: string) {
    done < |Sorted(t.subs.Keys)| && Sorted(t.subs.Keys)[done] == key && key in t.subs
  }

  ghost function SizeSoFar(t: Tree, done: nat): nat
    requires done <= |Sorted(t.subs.Keys)|
  {
    LocalSize(t) + KidsSize(Kids(t)[..done])
  }

  ghost function SlotsSoFar(t: Tree, done: nat): seq<Slot>
    requires done <= |Sorted(t.subs.Keys)|
  {
    LocalSlots(t) + SubSlots(Kids(t)[..done], LocalSize(t))
  }

  lemma OneMoreSize(t: Tree, done: nat, key: string)
    requires NextKid(t, done, key)
    ensures SizeSoFar(t, done + 1) == SizeSoFar(t, done) + Size(t.subs[key])
  {
    hide Slots, Size, LocalSize;
    assert Kids(t)[..done + 1] == Kids(t)[..done] + [Kids(t)[done]];
    SpansOneMore(Kids(t)[..done], Kids(t)[done], 0);
  }

  lemma OneMoreSlots(t: Tree, done: nat, key: string)
    requires NextKid(t, done, key)
    ensures SlotsSoFar(t, done + 1) == SlotsSoFar(t, done) + Shift(Slots(t.subs[key]), key, SizeSoFar(t, done))
  {
    hide Slots, Size, Shift, LocalSize, LocalSlots, SubSlots, KidsSize, Sorted;
    assert Kids(t)[..done + 1] == Kids(t)[..done] + [Kids(t)[done]];
    SubSlotsOneMore(Kids(t)[..done], Kids(t)[done], LocalSize(t));
    Associative(LocalSlots(t), SubSlots(Kids(t)[..done], LocalSize(t)),
                Shift(Slots(t.subs[key]), key, SizeSoFar(t, done)));
  }

  lemma SumStarts(t: Tree)
    ensures SizeSoFar(t, 0) == LocalSize(t) && SlotsSoFar(t, 0) == LocalSlots(t)
  {
  }

  lemma SumEnds(t: Tree)
    ensures SizeSoFar(t, |Sorted(t.subs.Keys)|) == Size(t)
    ensures SlotsSoFar(t, |Sorted(t.subs.Keys)|) == Slots(t)
  {
    hide SubSlots, VarSlots;
    assert Kids(t)[..|Kids(t)|] == Kids(t);
  }

  lemma {:induction false} VarSlotsLength(vars: map<string, Shapes>, keys: seq<string>, lo: nat)
    requires forall k | k in keys :: k in vars
    ensures |VarSlots(vars, keys, lo)| == |keys|
  {
    if keys != [] { VarSlotsLength(vars, keys[1..], lo + Storage(vars[keys[0]])); }
  }

  // ---------------------------------------------------------------------------------------------
  // Listing names
  // ---------------------------------------------------------------------------------------------

  ghost function NamesOf(q: seq<Slot>): seq<Name> {
    seq(|q|, i requires 0 <= i < |q| => q[i].name)
  }

  lemma NamesOfBoth(p: seq<Slot>, q: seq<Slot>)
    ensures NamesOf(p + q) == NamesOf(p) + NamesOf(q)
  {
  }

  lemma AgreesNames(c: Cache, t: Tree)
    requires Agrees(c, t)
    ensures c.names == NamesOf(Slots(t))
  {
    hide Slots;
    forall i | 0 <= i < |c.names| ensures c.names[i] == NamesOf(Slots(t))[i] {
      assert c.names[i] == Slots(t)[i].name;
    }
  }

  /** The names of a sub-axis seen from its parent. */
  method Prepend(key: string, names: seq<Name>, ghost q: seq<Slot>, ghost lo: nat) returns (r: seq<Name>)
    requires names == NamesOf(q)
    ensures r == NamesOf(Shift(q, key, lo))
  {
    r := [];
    for i := 0 to |names|
      invariant |r| == i && forall j | 0 <= j < i :: r[j] == [key] + names[j]
    {
      r := r + [[key] + names[i]];
    }
    if q != [] { ShiftAt(q, key, lo, 0); }
    forall j | 0 <= j < |r| ensures r[j] == NamesOf(Shift(q, key, lo))[j] { ShiftAt(q, key, lo, j); }
  }

  method VariableKeys(vars: map<string, Shapes>) returns (names: seq<Name>)
    ensures names == NamesOf(VarSlots(vars, Sorted(vars.Keys), 0))
  {
    hide Sorted, Storage, VarsSize, VarSlots;
    names := [];
    var rest := vars.Keys;
    ghost var done: seq<string> := [];
    NothingEntered(vars);
    while rest != {}
      invariant rest <= vars.Keys && (forall k | k in done :: k in vars)
      invariant Sorted(vars.Keys) == done + Sorted(rest)
      invariant names == NamesOf(VarSlots(vars, done, 0))
      decreases |rest|
    {
      var key := First(rest);
      VarSlotsOneMore(vars, done, key, 0);
      NamesOfBoth(VarSlots(vars, done, 0), [VarSlots(vars, done + [key], 0)[|names|]]);
      names := names + [[key]];
      Associative(done, [key], Sorted(rest - {key}));
      done, rest := done + [key], rest - {key};
    }
    assert done + [] == done;
  }

  lemma OneMoreNames(t: Tree, done: nat, key: string, names: seq<Name>)
    requires NextKid(t, done, key)
    requires names == NamesOf(Shift(Slots(t.subs[key]), key, SizeSoFar(t, done)))
    ensures NamesOf(SlotsSoFar(t, done + 1)) == NamesOf(SlotsSoFar(t, done)) + names
  {
    hide SlotsSoFar, SizeSoFar, Slots, Shift;
    OneMoreSlots(t, done, key);
    NamesOfBoth(SlotsSoFar(t, done), Shift(Slots(t.subs[key]), key, SizeSoFar(t, done)));
  }

  lemma OneMoreCount(t: Tree, done: nat, key: string)
    requires NextKid(t, done, key)
    ensures |SlotsSoFar(t, done + 1)| == |SlotsSoFar(t, done)| + |Slots(t.subs[key])|
  {
    hide SlotsSoFar, SizeSoFar, Slots, Shift;
    OneMoreSlots(t, done, key);
    ShiftLength(Slots(t.subs[key]), key, SizeSoFar(t, done));
  }

  lemma ShiftLength(q: seq<Slot>, key: string, lo: nat)
    ensures |Shift(q, key, lo)| == |q|
  {
    if q != [] { ShiftAt(q, key, lo, 0); }
  }
}
