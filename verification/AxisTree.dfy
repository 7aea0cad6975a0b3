/** What a labeled axis is, apart from its caches: a tree of variables and sub-axes, the recursive queries
    on it, and the flat layout that it determines. */
module AxisTree {
  import opened Common
  import opened Ordering
  import Names

  type Name = Names.Name
  type Shape = seq<nat>

  /** The intermediate and base shape of a variable. */
  datatype Shapes = Shapes(intmd: Shape, base: Shape)

  function Numel(shape: Shape): nat {
    if shape == [] then 1 else shape[0] * Numel(shape[1..])
  }

  /** Storage size of a variable. */
  function Storage(s: Shapes): nat {
    Numel(s.intmd + s.base)
  }

  lemma {:induction false} NumelConcat(a: Shape, b: Shape)
    ensures Numel(a + b) == Numel(a) * Numel(b)
  {
    if a == [] {
      assert a + b == b;
    } else {
      NumelConcat(a[1..], b);
      assert (a + b)[1..] == a[1..] + b;
      TimesAssociates(a[0], Numel(a[1..]), Numel(b));
    }
  }

  lemma TimesAssociates(x: int, y: int, z: int)
    ensures x * (y * z) == (x * y) * z
  {
  }

  /** A variable takes one batch of its base shape for each element of its intermediate shape. */
  lemma StorageIsProduct(s: Shapes, n: nat)
    ensures Storage(s) == Numel(s.intmd) * Numel(s.base)
    ensures Numel([n]) == n && Numel([]) == 1
  {
    NumelConcat(s.intmd, s.base);
  }

  /** The tuples with first index `i`. */
  lemma {:induction false} Layer(i: nat, rest: set<seq<nat>>) returns (layer: set<seq<nat>>)
    ensures |layer| == |rest|
    ensures forall q :: q in layer <==> q != [] && q[0] == i && q[1..] in rest
    decreases |rest|
  {
    if rest == {} {
      layer := {};
    } else {
      var p :| p in rest;
      var others := Layer(i, rest - {p});
      layer := others + {[i] + p};
      forall q ensures q in layer <==> q != [] && q[0] == i && q[1..] in rest {
        if q != [] && q[0] == i && q[1..] == p { assert q == [i] + p; }
      }
    }
  }

  lemma {:induction false} Layers(n: nat, rest: set<seq<nat>>) returns (all: set<seq<nat>>)
    ensures |all| == n * |rest|
    ensures forall q :: q in all <==> q != [] && q[0] < n && q[1..] in rest
  {
    if n == 0 {
      all := {};
    } else {
      var before := Layers(n - 1, rest);
      var layer := Layer(n - 1, rest);
      all := before + layer;
      assert before !! layer;
    }
  }

  /** The number of elements of a shape is the number of index tuples below it. */
  lemma {:induction false} NumelCounts(shape: Shape) returns (indices: set<seq<nat>>)
    ensures |indices| == Numel(shape)
    ensures forall q :: q in indices <==> |q| == |shape| && forall k | 0 <= k < |q| :: q[k] < shape[k]
  {
    if shape == [] {
      indices := {[]};
    } else {
      var rest := NumelCounts(shape[1..]);
      indices := Layers(shape[0], rest);
      forall q: seq<nat> ensures q in indices <==> |q| == |shape| && forall k | 0 <= k < |q| :: q[k] < shape[k] {
        if |q| == |shape| && q[0] < shape[0] {
          assert (forall k | 0 <= k < |q| :: q[k] < shape[k]) <==> forall k | 0 <= k < |q[1..]| :: q[1..][k] < shape[1..][k] by {
            assert forall k | 0 <= k < |q[1..]| :: q[1..][k] == q[k + 1] && shape[1..][k] == shape[k + 1];
            if forall k | 0 <= k < |q[1..]| :: q[1..][k] < shape[1..][k] {
              forall k | 0 <= k < |q| ensures q[k] < shape[k] {
                if k > 0 { assert q[1..][k - 1] < shape[1..][k - 1]; }
              }
            }
          }
        }
      }
    }
  }

  datatype Tree = Tree(setup: bool, vars: map<string, Shapes>, subs: map<string, Tree>)

  /** One variable of the layout: its full name, its slice and its shapes. */
  datatype Slot = Slot(name: Name, lo: nat, hi: nat, shapes: Shapes)

  // ---------------------------------------------------------------------------------------------
  // The recursive queries
  // ---------------------------------------------------------------------------------------------

  ghost function VarsSize(vars: map<string, Shapes>, keys: seq<string>): nat
    requires forall k | k in keys :: k in vars
  {
    if keys == [] then 0 else Storage(vars[keys[0]]) + VarsSize(vars, keys[1..])
  }

  predicate HasVariable(t: Tree, name: Name)
    decreases |name|
  {
    if |name| <= 1 then name != [] && name[0] in t.vars
    else name[0] in t.subs && HasVariable(t.subs[name[0]], name[1..])
  }

  function ShapesOf(t: Tree, name: Name): Shapes
    requires HasVariable(t, name)
    decreases |name|
  {
    if |name| == 1 then t.vars[name[0]] else ShapesOf(t.subs[name[0]], name[1..])
  }

  predicate HasSubaxis(t: Tree, path: Name)
    decreases |path|
  {
    path != [] && path[0] in t.subs && (|path| == 1 || HasSubaxis(t.subs[path[0]], path[1..]))
  }

  function Subaxis(t: Tree, path: Name): Tree
    requires HasSubaxis(t, path)
    decreases |path|
  {
    if |path| == 1 then t.subs[path[0]] else Subaxis(t.subs[path[0]], path[1..])
  }

  // ---------------------------------------------------------------------------------------------
  // The layout
  // ---------------------------------------------------------------------------------------------

  ghost function VarSlots(vars: map<string, Shapes>, keys: seq<string>, lo: nat): seq<Slot>
    requires forall k | k in keys :: k in vars
  {
    if keys == [] then [] else
    var hi := lo + Storage(vars[keys[0]]);
    [Slot([keys[0]], lo, hi, vars[keys[0]])] + VarSlots(vars, keys[1..], hi)
  }

  /** A slot of a sub-axis seen from its parent. */
  function ShiftSlot(s: Slot, key: string, lo: nat): Slot {
    Slot([key] + s.name, s.lo + lo, s.hi + lo, s.shapes)
  }

  function Shift(q: seq<Slot>, key: string, lo: nat): seq<Slot> {
    if q == [] then [] else [ShiftSlot(q[0], key, lo)] + Shift(q[1..], key, lo)
  }

  /** What a parent sees of a sub-axis: its name and its own layout. */
  datatype Kid = Kid(key: string, slots: seq<Slot>, size: nat)

  function SubSlots(kids: seq<Kid>, lo: nat): seq<Slot> {
    if kids == [] then [] else Shift(kids[0].slots, kids[0].key, lo) + SubSlots(kids[1..], lo + kids[0].size)
  }

  function KidsSize(kids: seq<Kid>): nat {
    if kids == [] then 0 else kids[0].size + KidsSize(kids[1..])
  }

  ghost function Kids(t: Tree): seq<Kid>
    decreases t, 0
  {
    var keys := Sorted(t.subs.Keys);
    seq(|keys|, i requires 0 <= i < |keys| =>
      assert keys[i] in keys; Kid(keys[i], Slots(t.subs[keys[i]]), Size(t.subs[keys[i]])))
  }

  /** The storage size of the whole axis. */
  ghost function Size(t: Tree): nat
    decreases t, 1
  {
    VarsSize(t.vars, Sorted(t.vars.Keys)) + KidsSize(Kids(t))
  }

  /** The layout: local variables first, then the sub-axes, both in the order of their names. */
  ghost function Slots(t: Tree): seq<Slot>
    decreases t, 1
  {
    var vars := Sorted(t.vars.Keys);
    VarSlots(t.vars, vars, 0) + SubSlots(Kids(t), VarsSize(t.vars, vars))
  }

  // ---------------------------------------------------------------------------------------------
  // The layout tiles the axis
  // ---------------------------------------------------------------------------------------------

  /** The slots follow each other without gap or overlap from `lo` to `hi`, each as long as its shapes say. */
  ghost predicate Tiles(q: seq<Slot>, lo: nat, hi: nat) {
    if q == [] then lo == hi
    else q[0].lo == lo && q[0].hi == lo + Storage(q[0].shapes) && Tiles(q[1..], q[0].hi, hi)
  }

  lemma {:induction false} TilesConcat(p: seq<Slot>, q: seq<Slot>, lo: nat, mid: nat, hi: nat)
    requires Tiles(p, lo, mid) && Tiles(q, mid, hi)
    ensures Tiles(p + q, lo, hi)
  {
    if p == [] {
      assert p + q == q;
    } else {
      TilesConcat(p[1..], q, p[0].hi, mid, hi);
      assert (p + q)[1..] == p[1..] + q;
    }
  }

  lemma {:induction false} TilesShift(q: seq<Slot>, key: string, d: nat, lo: nat, hi: nat)
    requires Tiles(q, lo, hi)
    ensures Tiles(Shift(q, key, d), lo + d, hi + d)
  {
    if q != [] {
      TilesShift(q[1..], key, d, q[0].hi, hi);
      assert Shift(q, key, d)[1..] == Shift(q[1..], key, d);
    }
  }

  lemma {:induction false} VarSlotsTile(vars: map<string, Shapes>, keys: seq<string>, lo: nat)
    requires forall k | k in keys :: k in vars
    ensures Tiles(VarSlots(vars, keys, lo), lo, lo + VarsSize(vars, keys))
  {
    if keys != [] {
      var hi := lo + Storage(vars[keys[0]]);
      VarSlotsTile(vars, keys[1..], hi);
      assert VarSlots(vars, keys, lo)[1..] == VarSlots(vars, keys[1..], hi);
    }
  }

  lemma {:induction false} SubSlotsTile(kids: seq<Kid>, lo: nat)
    requires forall kid | kid in kids :: Tiles(kid.slots, 0, kid.size)
    ensures Tiles(SubSlots(kids, lo), lo, lo + KidsSize(kids))
  {
    if kids != [] {
      var first := kids[0];
      TilesShift(first.slots, first.key, lo, 0, first.size);
      SubSlotsTile(kids[1..], lo + first.size);
      TilesConcat(Shift(first.slots, first.key, lo), SubSlots(kids[1..], lo + first.size),
                  lo, lo + first.size, lo + KidsSize(kids));
    }
  }

  lemma LocalTiles(vars: map<string, Shapes>, keys: seq<string>, kids: seq<Kid>)
    requires forall k | k in keys :: k in vars
    requires forall kid | kid in kids :: Tiles(kid.slots, 0, kid.size)
    ensures Tiles(VarSlots(vars, keys, 0) + SubSlots(kids, VarsSize(vars, keys)), 0, VarsSize(vars, keys) + KidsSize(kids))
  {
    var lo := VarsSize(vars, keys);
    VarSlotsTile(vars, keys, 0);
    SubSlotsTile(kids, lo);
    TilesConcat(VarSlots(vars, keys, 0), SubSlots(kids, lo), 0, lo, lo + KidsSize(kids));
  }

  /** At any depth, the variable slices in the order of their ids tile the whole axis. */
  lemma {:induction false} SlotsTile(t: Tree)
    ensures Tiles(Slots(t), 0, Size(t))
  {
    hide Tiles, VarSlots, SubSlots, VarsSize, KidsSize, Sorted;
    var keys := Sorted(t.subs.Keys);
    forall i | 0 <= i < |keys| ensures Tiles(Kids(t)[i].slots, 0, Kids(t)[i].size) {
      assert keys[i] in keys;
      SlotsTile(t.subs[keys[i]]);
    }
    LocalTiles(t.vars, Sorted(t.vars.Keys), Kids(t));
  }

  lemma {:induction false} TilesAt(q: seq<Slot>, lo: nat, hi: nat, i: nat)
    requires Tiles(q, lo, hi) && i < |q|
    ensures lo <= q[i].lo <= q[i].hi <= hi
    ensures q[i].hi - q[i].lo == Storage(q[i].shapes)
    decreases |q|
  {
    TilesBounds(q[1..], q[0].hi, hi);
    if i > 0 { TilesAt(q[1..], q[0].hi, hi, i - 1); }
  }

  lemma {:induction false} TilesBounds(q: seq<Slot>, lo: nat, hi: nat)
    requires Tiles(q, lo, hi)
    ensures lo <= hi
  {
    if q != [] { TilesBounds(q[1..], q[0].hi, hi); }
  }

  lemma {:induction false} TilesCover(q: seq<Slot>, lo: nat, hi: nat, x: nat) returns (i: nat)
    requires Tiles(q, lo, hi) && lo <= x < hi
    ensures i < |q| && q[i].lo <= x < q[i].hi
    ensures forall j: nat | j < |q| && q[j].lo <= x < q[j].hi :: j == i
  {
    if x < q[0].hi {
      i := 0;
      forall j | 0 < j < |q| ensures q[j].lo >= q[0].hi {
        TilesAt(q[1..], q[0].hi, hi, j - 1);
        assert q[j] == q[1..][j - 1];
      }
    } else {
      i := TilesCover(q[1..], q[0].hi, hi, x);
      forall j: nat | j < |q| && q[j].lo <= x < q[j].hi ensures j == i + 1 {
        assert j > 0 && q[j] == q[1..][j - 1];
      }
      i := i + 1;
    }
  }

  /** Every storage position of the axis belongs to exactly one variable. */
  lemma EveryPositionHasOneVariable(t: Tree, x: nat) returns (i: nat)
    requires x < Size(t)
    ensures i < |Slots(t)| && Slots(t)[i].lo <= x < Slots(t)[i].hi
    ensures forall j: nat | j < |Slots(t)| && Slots(t)[j].lo <= x < Slots(t)[j].hi :: j == i
  {
    SlotsTile(t);
    i := TilesCover(Slots(t), 0, Size(t), x);
  }

  // ---------------------------------------------------------------------------------------------
  // The layout lists exactly the variables that the recursive queries know
  // ---------------------------------------------------------------------------------------------

  ghost function VarOffset(vars: map<string, Shapes>, keys: seq<string>, key: string, lo: nat): nat
    requires forall k | k in keys :: k in vars
  {
    if keys == [] || keys[0] == key then lo
    else VarOffset(vars, keys[1..], key, lo + Storage(vars[keys[0]]))
  }

  function SubOffset(kids: seq<Kid>, key: string, lo: nat): nat {
    if kids == [] || kids[0].key == key then lo else SubOffset(kids[1..], key, lo + kids[0].size)
  }

  /** Where a local sub-axis starts. */
  ghost function Offset(t: Tree, key: string): nat {
    SubOffset(Kids(t), key, VarsSize(t.vars, Sorted(t.vars.Keys)))
  }

  /** The slot of a variable by recursion on its name. */
  ghost function SlotOf(t: Tree, name: Name): (s: Slot)
    requires HasVariable(t, name)
    ensures s.name == name && s.shapes == ShapesOf(t, name)
    decreases |name|
  {
    if |name| == 1 then
      var lo := VarOffset(t.vars, Sorted(t.vars.Keys), name[0], 0);
      Slot(name, lo, lo + Storage(t.vars[name[0]]), t.vars[name[0]])
    else
      ShiftSlot(SlotOf(t.subs[name[0]], name[1..]), name[0], Offset(t, name[0]))
  }

  lemma {:induction false} InVarSlots(vars: map<string, Shapes>, keys: seq<string>, lo: nat, s: Slot)
    requires Distinct(keys) && forall k | k in keys :: k in vars
    ensures s in VarSlots(vars, keys, lo) <==>
      && |s.name| == 1 && s.name[0] in keys && s.shapes == vars[s.name[0]]
      && s.lo == VarOffset(vars, keys, s.name[0], lo) && s.hi == s.lo + Storage(s.shapes)
  {
    if keys != [] {
      var first := Slot([keys[0]], lo, lo + Storage(vars[keys[0]]), vars[keys[0]]);
      InVarSlots(vars, keys[1..], first.hi, s);
      if |s.name| == 1 && s.name[0] == keys[0] {
        assert s.name == [keys[0]];
      }
    }
  }

  lemma {:induction false} InShift(q: seq<Slot>, key: string, d: nat, s: Slot)
    ensures s in Shift(q, key, d) <==>
      && s.name != [] && s.name[0] == key && d <= s.lo && d <= s.hi
      && Slot(s.name[1..], s.lo - d, s.hi - d, s.shapes) in q
  {
    if q != [] {
      InShift(q[1..], key, d, s);
      if s.name != [] && s.name[0] == key { assert s.name == [key] + s.name[1..]; }
    }
  }

  /** The position of a sub-axis among the others. */
  ghost predicate KidAt(kids: seq<Kid>, key: string, i: int) {
    0 <= i < |kids| && kids[i].key == key
  }

  lemma {:induction false} InSubSlots(kids: seq<Kid>, lo: nat, s: Slot)
    requires forall i, j | 0 <= i < j < |kids| :: kids[i].key != kids[j].key
    ensures s in SubSlots(kids, lo) <==>
      && s.name != []
      && exists i {:trigger kids[i]} :: KidAt(kids, s.name[0], i) && s in Shift(kids[i].slots, s.name[0], SubOffset(kids, s.name[0], lo))
  {
    hide Shift;
    if kids != [] {
      var first := kids[0];
      InShift(first.slots, first.key, lo, s);
      InSubSlots(kids[1..], lo + first.size, s);
      if s.name != [] {
        var key := s.name[0];
        if first.key != key {
          forall i | KidAt(kids, key, i) ensures KidAt(kids[1..], key, i - 1) && kids[1..][i - 1] == kids[i] {}
          forall i | KidAt(kids[1..], key, i) ensures KidAt(kids, key, i + 1) && kids[1..][i] == kids[i + 1] {}
        }
      }
    }
  }

  lemma {:induction false} InFirstSub(sub: Tree, key: string, lo: nat, s: Slot)
    requires s.name != [] && s.name[0] == key
    ensures s in Shift(Slots(sub), key, lo) <==>
      |s.name| > 1 && HasVariable(sub, s.name[1..]) && s == ShiftSlot(SlotOf(sub, s.name[1..]), key, lo)
    decreases sub, 1
  {
    hide Slots, SlotOf, Shift, ShapesOf;
    InShift(Slots(sub), key, lo, s);
    assert s.name == [key] + s.name[1..];
    if lo <= s.lo && lo <= s.hi {
      InSlots(sub, Slot(s.name[1..], s.lo - lo, s.hi - lo, s.shapes));
    }
  }

  /** The layout holds exactly the slots of the variables of the axis. */
  lemma {:induction false} InSlots(t: Tree, s: Slot)
    ensures s in Slots(t) <==> HasVariable(t, s.name) && s == SlotOf(t, s.name)
    decreases t, 0
  {
    hide VarSlots, SubSlots, VarOffset, Sorted, KidsSize, VarsSize, Shift;
    var vars, keys := Sorted(t.vars.Keys), Sorted(t.subs.Keys);
    var lo := VarsSize(t.vars, vars);
    SortedDistinct(t.vars.Keys);
    SortedDistinct(t.subs.Keys);
    InVarSlots(t.vars, vars, 0, s);
    InSubSlots(Kids(t), lo, s);
    if s.name != [] && s.name[0] in t.subs {
      var i :| 0 <= i < |keys| && keys[i] == s.name[0];
      assert KidAt(Kids(t), s.name[0], i);
      InFirstSub(t.subs[s.name[0]], s.name[0], Offset(t, s.name[0]), s);
    }
  }

  // ---------------------------------------------------------------------------------------------
  // Names in the layout
  // ---------------------------------------------------------------------------------------------

  ghost predicate NamesDiffer(q: seq<Slot>) {
    forall i, j | 0 <= i < j < |q| :: q[i].name != q[j].name
  }

  lemma NamesConcat(p: seq<Slot>, q: seq<Slot>)
    requires NamesDiffer(p) && NamesDiffer(q)
    requires forall s, u | s in p && u in q :: s.name != u.name
    ensures NamesDiffer(p + q)
  {
    var r := p + q;
    forall i, j | 0 <= i < j < |r| ensures r[i].name != r[j].name {
      assert if i < |p| then r[i] == p[i] else r[i] == q[i - |p|];
      assert if j < |p| then r[j] == p[j] else r[j] == q[j - |p|];
    }
  }

  lemma {:induction false} VarNamesDiffer(vars: map<string, Shapes>, keys: seq<string>, lo: nat)
    requires Distinct(keys) && forall k | k in keys :: k in vars
    ensures NamesDiffer(VarSlots(vars, keys, lo))
  {
    if keys != [] {
      var first := Slot([keys[0]], lo, lo + Storage(vars[keys[0]]), vars[keys[0]]);
      VarNamesDiffer(vars, keys[1..], first.hi);
      forall u | u in VarSlots(vars, keys[1..], first.hi) ensures first.name != u.name {
        InVarSlots(vars, keys[1..], first.hi, u);
      }
      NamesConcat([first], VarSlots(vars, keys[1..], first.hi));
    }
  }

  lemma {:induction false} ShiftAt(q: seq<Slot>, key: string, d: nat, i: nat)
    requires i < |q|
    ensures |Shift(q, key, d)| == |q| && Shift(q, key, d)[i] == ShiftSlot(q[i], key, d)
  {
    if |q| > 1 { ShiftAt(q[1..], key, d, if i == 0 then 0 else i - 1); }
  }

  lemma ShiftedNamesDiffer(q: seq<Slot>, key: string, d: nat)
    requires NamesDiffer(q)
    ensures NamesDiffer(Shift(q, key, d))
  {
    var r := Shift(q, key, d);
    if q != [] { ShiftAt(q, key, d, 0); }
    forall i, j | 0 <= i < j < |r| ensures r[i].name != r[j].name {
      ShiftAt(q, key, d, i);
      ShiftAt(q, key, d, j);
      assert r[i].name[1..] == q[i].name && r[j].name[1..] == q[j].name;
    }
  }

  lemma {:induction false} SubNamesDiffer(kids: seq<Kid>, lo: nat)
    requires forall i, j | 0 <= i < j < |kids| :: kids[i].key != kids[j].key
    requires forall kid | kid in kids :: NamesDiffer(kid.slots)
    ensures NamesDiffer(SubSlots(kids, lo))
  {
    if kids != [] {
      var first := kids[0];
      ShiftedNamesDiffer(first.slots, first.key, lo);
      SubNamesDiffer(kids[1..], lo + first.size);
      forall s, u | s in Shift(first.slots, first.key, lo) && u in SubSlots(kids[1..], lo + first.size)
        ensures s.name != u.name
      {
        InShift(first.slots, first.key, lo, s);
        InSubSlots(kids[1..], lo + first.size, u);
      }
      NamesConcat(Shift(first.slots, first.key, lo), SubSlots(kids[1..], lo + first.size));
    }
  }

  lemma LocalNamesDiffer(vars: map<string, Shapes>, keys: seq<string>, kids: seq<Kid>, lo: nat)
    requires Distinct(keys) && forall k | k in keys :: k in vars
    requires forall i, j | 0 <= i < j < |kids| :: kids[i].key != kids[j].key
    requires forall kid | kid in kids :: NamesDiffer(kid.slots) && forall s | s in kid.slots :: s.name != []
    ensures NamesDiffer(VarSlots(vars, keys, 0) + SubSlots(kids, lo))
  {
    VarNamesDiffer(vars, keys, 0);
    SubNamesDiffer(kids, lo);
    forall s, u | s in VarSlots(vars, keys, 0) && u in SubSlots(kids, lo) ensures s.name != u.name {
      InVarSlots(vars, keys, 0, s);
      InSubSlots(kids, lo, u);
      var i :| KidAt(kids, u.name[0], i) && u in Shift(kids[i].slots, u.name[0], SubOffset(kids, u.name[0], lo));
      InShift(kids[i].slots, u.name[0], SubOffset(kids, u.name[0], lo), u);
    }
    NamesConcat(VarSlots(vars, keys, 0), SubSlots(kids, lo));
  }

  /** No variable is listed twice. */
  lemma {:induction false} SlotNamesDiffer(t: Tree)
    ensures NamesDiffer(Slots(t))
  {
    var keys := Sorted(t.subs.Keys);
    SortedDistinct(t.vars.Keys);
    SortedDistinct(t.subs.Keys);
    forall i | 0 <= i < |keys|
      ensures NamesDiffer(Kids(t)[i].slots) && forall s | s in Kids(t)[i].slots :: s.name != []
    {
      assert keys[i] in keys;
      SlotNamesDiffer(t.subs[keys[i]]);
      forall s | s in Slots(t.subs[keys[i]]) ensures s.name != [] { InSlots(t.subs[keys[i]], s); }
    }
    LocalNamesDiffer(t.vars, Sorted(t.vars.Keys), Kids(t), VarsSize(t.vars, Sorted(t.vars.Keys)));
  }

  /** Names and ids are mutual inverses: a name that the axis has stands at exactly one id, where its slot is. */
  lemma IdOfName(t: Tree, name: Name) returns (i: nat)
    requires HasVariable(t, name)
    ensures i < |Slots(t)| && Slots(t)[i] == SlotOf(t, name)
    ensures forall j: nat | j < |Slots(t)| && Slots(t)[j].name == name :: j == i
  {
    InSlots(t, SlotOf(t, name));
    i :| 0 <= i < |Slots(t)| && Slots(t)[i] == SlotOf(t, name);
    SlotNamesDiffer(t);
  }

  // ---------------------------------------------------------------------------------------------
  // The order of the layout
  // ---------------------------------------------------------------------------------------------

  lemma {:induction false} VarOffsetFits(vars: map<string, Shapes>, keys: seq<string>, lo: nat, i: nat)
    requires i < |keys| && forall k | k in keys :: k in vars
    ensures lo <= VarOffset(vars, keys, keys[i], lo)
    ensures VarOffset(vars, keys, keys[i], lo) + Storage(vars[keys[i]]) <= lo + VarsSize(vars, keys)
  {
    hide Storage;
    if i > 0 && keys[0] != keys[i] { VarOffsetFits(vars, keys[1..], lo + Storage(vars[keys[0]]), i - 1); }
  }

  lemma {:induction false} VarOffsetsAscend(vars: map<string, Shapes>, keys: seq<string>, lo: nat, i: nat, j: nat)
    requires i < j < |keys| && Distinct(keys) && forall k | k in keys :: k in vars
    ensures VarOffset(vars, keys, keys[i], lo) + Storage(vars[keys[i]]) <= VarOffset(vars, keys, keys[j], lo)
  {
    hide Storage;
    var hi := lo + Storage(vars[keys[0]]);
    if i > 0 { VarOffsetsAscend(vars, keys[1..], hi, i - 1, j - 1); } else { VarOffsetFits(vars, keys[1..], hi, j - 1); }
  }

  lemma {:induction false} SubOffsetsAscend(kids: seq<Kid>, lo: nat, i: nat, j: nat)
    requires i < j < |kids| && forall i, j | 0 <= i < j < |kids| :: kids[i].key != kids[j].key
    ensures SubOffset(kids, kids[i].key, lo) + kids[i].size <= SubOffset(kids, kids[j].key, lo)
  {
    var hi := lo + kids[0].size;
    if i > 0 { SubOffsetsAscend(kids[1..], hi, i - 1, j - 1); } else { SubOffsetFits(kids[1..], hi, j - 1); }
  }

  /** Local variables are laid out in the order of a dictionary: `a` lies in front of `b` when it is a prefix of it,
      or has the lesser character where they first differ, at `k`. */
  lemma VariablesInOrder(t: Tree, a: string, b: string, k: nat)
    requires HasVariable(t, [a]) && HasVariable(t, [b])
    requires k <= |a| && k < |b| && a[..k] == b[..k] && (k == |a| || a[k] < b[k])
    ensures SlotOf(t, [a]).hi <= SlotOf(t, [b]).lo
  {
    hide VarOffset, Storage;
    var i, j := SortedIsDictionary(t.vars.Keys, a, b, k);
    SortedDistinct(t.vars.Keys);
    VarOffsetsAscend(t.vars, Sorted(t.vars.Keys), 0, i, j);
  }

  /** Local sub-axes are laid out in the same order. */
  lemma SubaxesInOrder(t: Tree, a: string, b: string, k: nat)
    requires HasSubaxis(t, [a]) && HasSubaxis(t, [b])
    requires k <= |a| && k < |b| && a[..k] == b[..k] && (k == |a| || a[k] < b[k])
    ensures Start(t, [a]) + Size(t.subs[a]) <= Start(t, [b])
  {
    hide Size;
    var i, j := SortedIsDictionary(t.subs.Keys, a, b, k);
    SortedDistinct(t.subs.Keys);
    SubOffsetsAscend(Kids(t), VarsSize(t.vars, Sorted(t.vars.Keys)), i, j);
  }

  /** All local variables lie in front of all sub-axes, and so of the variables in these. */
  lemma VariablesFirst(t: Tree, a: string, path: Name, name: Name)
    requires HasVariable(t, [a]) && HasSubaxis(t, path) && HasVariable(Subaxis(t, path), name)
    ensures HasVariable(t, path + name) && SlotOf(t, [a]).hi <= Start(t, path) <= SlotOf(t, path + name).lo
  {
    hide Size, Storage, VarOffset, SubOffset, Subaxis;
    var vars, subs := Sorted(t.vars.Keys), Sorted(t.subs.Keys);
    SortedDistinct(t.subs.Keys);
    var i :| 0 <= i < |vars| && vars[i] == a;
    var j :| 0 <= j < |subs| && subs[j] == path[0];
    VarOffsetFits(t.vars, vars, 0, i);
    SubOffsetFits(Kids(t), VarsSize(t.vars, vars), j);
    NestedSlice(t, path, name);
  }

  // ---------------------------------------------------------------------------------------------
  // Slices of sub-axes
  // ---------------------------------------------------------------------------------------------

  /** Where a sub-axis of any depth starts. */
  ghost function Start(t: Tree, path: Name): nat
    requires HasSubaxis(t, path)
    decreases |path|
  {
    Offset(t, path[0]) + if |path| == 1 then 0 else Start(t.subs[path[0]], path[1..])
  }

  lemma {:induction false} SubOffsetFits(kids: seq<Kid>, lo: nat, i: nat)
    requires i < |kids| && forall i, j | 0 <= i < j < |kids| :: kids[i].key != kids[j].key
    ensures lo <= SubOffset(kids, kids[i].key, lo)
    ensures SubOffset(kids, kids[i].key, lo) + kids[i].size <= lo + KidsSize(kids)
  {
    if i > 0 {
      assert kids[i] == kids[1..][i - 1];
      SubOffsetFits(kids[1..], lo + kids[0].size, i - 1);
    }
  }

  lemma OffsetFits(t: Tree, key: string)
    requires key in t.subs
    ensures Offset(t, key) + Size(t.subs[key]) <= Size(t)
  {
    var keys := Sorted(t.subs.Keys);
    SortedDistinct(t.subs.Keys);
    var i :| 0 <= i < |keys| && keys[i] == key;
    assert Kids(t)[i].key == key;
    SubOffsetFits(Kids(t), VarsSize(t.vars, Sorted(t.vars.Keys)), i);
  }

  lemma {:induction false} SubaxisFits(t: Tree, path: Name)
    requires HasSubaxis(t, path)
    ensures Start(t, path) + Size(Subaxis(t, path)) <= Size(t)
    decreases |path|
  {
    OffsetFits(t, path[0]);
    if |path| > 1 { SubaxisFits(t.subs[path[0]], path[1..]); }
  }

  lemma SlotInside(t: Tree, name: Name)
    requires HasVariable(t, name)
    ensures SlotOf(t, name).hi <= Size(t)
  {
    var i := IdOfName(t, name);
    SlotsTile(t);
    TilesAt(Slots(t), 0, Size(t), i);
  }

  lemma SlotStep(t: Tree, key: string, name: Name)
    requires key in t.subs && HasVariable(t.subs[key], name)
    ensures HasVariable(t, [key] + name)
    ensures SlotOf(t, [key] + name) == ShiftSlot(SlotOf(t.subs[key], name), key, Offset(t, key))
  {
    assert ([key] + name)[1..] == name;
  }

  lemma {:induction false} NestedSlot(t: Tree, path: Name, name: Name)
    requires HasSubaxis(t, path) && HasVariable(Subaxis(t, path), name)
    ensures HasVariable(t, path + name)
    ensures SlotOf(t, path + name).lo == Start(t, path) + SlotOf(Subaxis(t, path), name).lo
    ensures SlotOf(t, path + name).hi == Start(t, path) + SlotOf(Subaxis(t, path), name).hi
    decreases |path|
  {
    hide Offset, SlotOf, ShapesOf;
    if |path| == 1 {
      assert path + name == [path[0]] + name;
      SlotStep(t, path[0], name);
    } else {
      NestedSlot(t.subs[path[0]], path[1..], name);
      assert path + name == [path[0]] + (path[1..] + name);
      SlotStep(t, path[0], path[1..] + name);
    }
  }

  /** Seen from the root, the slice of a variable of a sub-axis of any depth is its local slice shifted by the
      start of the sub-axis, and it lies inside the range of that sub-axis. */
  lemma NestedSlice(t: Tree, path: Name, name: Name)
    requires HasSubaxis(t, path) && HasVariable(Subaxis(t, path), name)
    ensures HasVariable(t, path + name)
    ensures SlotOf(t, path + name).lo == Start(t, path) + SlotOf(Subaxis(t, path), name).lo
    ensures SlotOf(t, path + name).hi == Start(t, path) + SlotOf(Subaxis(t, path), name).hi
    ensures SlotOf(t, path + name).hi <= Start(t, path) + Size(Subaxis(t, path)) <= Size(t)
  {
    hide Size, Offset, SlotOf, Start, Subaxis;
    NestedSlot(t, path, name);
    SubaxisFits(t, path);
    SlotInside(Subaxis(t, path), name);
  }
}
