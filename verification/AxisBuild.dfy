/** Building an axis variable by variable, and comparing axes. */
module AxisBuild {
  import opened AxisTree
  import opened Common
  import opened Ordering

  datatype Error = AlreadySetUp | EmptyName | NameTaken(name: string) | Missing

  type Outcome<+T> = Result<T, Error>

  const EMPTY: Tree := Tree(false, map[], map[])

  /** `add_variable`: a multi-part name goes to its sub-axis, which is added when missing. */
  function Add(t: Tree, name: Name, shapes: Shapes): Outcome<Tree>
    decreases |name|
  {
    if t.setup then Fail(AlreadySetUp)
    else if name == [] then Fail(EmptyName)
    else if |name| == 1 then
      if name[0] in t.vars || name[0] in t.subs then Fail(NameTaken(name[0]))
      else Pass(t.(vars := t.vars[name[0] := shapes]))
    else if name[0] in t.vars then Fail(NameTaken(name[0]))
    else
      match Add(if name[0] in t.subs then t.subs[name[0]] else EMPTY, name[1..], shapes)
      case Fail(error) => Fail(error)
      case Pass(sub) => Pass(t.(subs := t.subs[name[0] := sub]))
  }

  /** Adding to a fresh sub-axis cannot fail, so a failed call leaves no empty sub-axis behind. */
  lemma {:induction false} AddToFresh(name: Name, shapes: Shapes)
    requires name != []
    ensures Add(EMPTY, name, shapes).Pass?
    decreases |name|
  {
    if |name| > 1 { AddToFresh(name[1..], shapes); }
  }

  // ---------------------------------------------------------------------------------------------
  // When a call succeeds, and what it changes
  // ---------------------------------------------------------------------------------------------

  /** The path to the new variable is open: no axis on it is set up, none of its parts is a variable, and the
      full name is new. */
  ghost predicate Open(t: Tree, name: Name) {
    && name != [] && !t.setup
    && (forall k | 0 < k < |name| :: OpenAt(t, name, k))
    && !HasVariable(t, name) && !HasSubaxis(t, name)
  }

  ghost predicate OpenAt(t: Tree, name: Name, k: nat)
    requires k <= |name|
  {
    !HasVariable(t, name[..k]) && (HasSubaxis(t, name[..k]) ==> !Subaxis(t, name[..k]).setup)
  }

  /** On any axis, a call succeeds exactly when the path is open. */
  lemma {:induction false} AddSucceeds(t: Tree, name: Name, shapes: Shapes)
    ensures Add(t, name, shapes).Pass? <==> Open(t, name)
    decreases |name|
  {
    if |name| > 1 {
      var key, sub := name[0], if name[0] in t.subs then t.subs[name[0]] else EMPTY;
      AddSucceeds(sub, name[1..], shapes);
      OpenStep(t, name, sub);
    }
  }

  lemma OpenStep(t: Tree, name: Name, sub: Tree)
    requires |name| > 1 && sub == if name[0] in t.subs then t.subs[name[0]] else EMPTY
    ensures Open(t, name) <==> !t.setup && name[0] !in t.vars && Open(sub, name[1..])
  {
    var rest := name[1..];
    assert name[..1] == [name[0]];
    assert OpenAt(t, name, 1) <==> name[0] !in t.vars && !sub.setup;
    forall k | 0 < k < |rest| ensures OpenAt(t, name, k + 1) <==> OpenAt(sub, rest, k) {
      assert name[..k + 1][1..] == rest[..k];
    }
    if Open(t, name) {
      forall k | 0 < k < |rest| ensures OpenAt(sub, rest, k) { assert OpenAt(t, name, k + 1); }
    }
    if name[0] !in t.vars && Open(sub, rest) {
      forall k | 0 < k < |name| ensures OpenAt(t, name, k) { assert k > 1 ==> OpenAt(sub, rest, k - 1); }
    }
  }

  /** What calls of `add_variable` on a fresh axis lead to: nothing is set up, and no sub-axis is empty. */
  ghost predicate Grown(t: Tree) {
    !t.setup && forall k {:trigger t.subs[k]} | k in t.subs :: Grown(t.subs[k]) && exists n :: HasVariable(t.subs[k], n)
  }

  predicate Clash(m: Name, n: Name) {
    m <= n || n <= m
  }

  lemma ClashStep(m: Name, n: Name)
    requires m != [] && n != []
    ensures Clash(m, n) <==> m[0] == n[0] && Clash(m[1..], n[1..])
  {
    assert m == [m[0]] + m[1..] && n == [n[0]] + n[1..];
  }

  ghost predicate Free(t: Tree, name: Name) {
    name != [] && forall m | HasVariable(t, m) :: !Clash(m, name)
  }

  lemma LiftVariable(t: Tree, key: string, m: Name)
    requires key in t.subs && HasVariable(t.subs[key], m)
    ensures HasVariable(t, [key] + m)
  {
    assert ([key] + m)[1..] == m;
  }

  lemma FreeBelow(t: Tree, name: Name)
    requires |name| > 1 && name[0] in t.subs
    ensures Free(t, name) <==> name[0] !in t.vars && Free(t.subs[name[0]], name[1..])
  {
    var key, sub, rest := name[0], t.subs[name[0]], name[1..];
    assert key in t.vars ==> HasVariable(t, [key]) && [key] <= name;
    if Free(t, name) {
      forall m | HasVariable(sub, m) ensures !Clash(m, rest) {
        LiftVariable(t, key, m);
        ClashStep([key] + m, name);
        assert ([key] + m)[1..] == m;
      }
    }
    if key !in t.vars && Free(sub, rest) {
      forall m | HasVariable(t, m) ensures !Clash(m, name) {
        ClashStep(m, name);
      }
    }
  }

  /** On a fresh or grown axis this says that the name neither extends nor is extended by that of a variable. */
  lemma {:induction false} AddToGrown(t: Tree, name: Name, shapes: Shapes)
    requires Grown(t)
    ensures Add(t, name, shapes).Pass? <==> Free(t, name)
    decreases |name|
  {
    if |name| == 1 {
      AddLocalSucceeds(t, name, shapes);
    } else if |name| > 1 {
      if name[0] in t.subs {
        AddToGrown(t.subs[name[0]], name[1..], shapes);
        FreeBelow(t, name);
      } else {
        AddToFresh(name[1..], shapes);
        if name[0] in t.vars { assert HasVariable(t, [name[0]]) && [name[0]] <= name; }
        forall m | HasVariable(t, m) && Clash(m, name) ensures name[0] in t.vars { ClashStep(m, name); }
      }
    }
  }

  lemma AddLocalSucceeds(t: Tree, name: Name, shapes: Shapes)
    requires Grown(t) && |name| == 1
    ensures Add(t, name, shapes).Pass? <==> Free(t, name)
  {
    var key := name[0];
    if key in t.vars { assert HasVariable(t, name) && name <= name; }
    if key in t.subs {
      var n :| HasVariable(t.subs[key], n);
      LiftVariable(t, key, n);
      assert name <= [key] + n;
    }
    forall m | HasVariable(t, m) && Clash(m, name) ensures key in t.vars || key in t.subs { ClashStep(m, name); }
  }

  /** A call that succeeds adds that one variable. */
  ghost predicate Adds(t: Tree, u: Tree, name: Name, shapes: Shapes) {
    && HasVariable(u, name) && ShapesOf(u, name) == shapes
    && (forall m {:trigger HasVariable(u, m)} {:trigger HasVariable(t, m)} | m != name ::
          HasVariable(u, m) == HasVariable(t, m) && (HasVariable(t, m) ==> ShapesOf(u, m) == ShapesOf(t, m)))
  }

  lemma {:induction false} AddAdds(t: Tree, name: Name, shapes: Shapes)
    requires Add(t, name, shapes).Pass?
    ensures Adds(t, Add(t, name, shapes).value, name, shapes)
    decreases |name|
  {
    var u := Add(t, name, shapes).value;
    if |name| == 1 {
      forall m | m != name && |m| == 1 ensures m[0] != name[0] { assert m == [m[0]] && name == [name[0]]; }
    } else {
      var key, rest := name[0], name[1..];
      var sub := if key in t.subs then t.subs[key] else EMPTY;
      AddAdds(sub, rest, shapes);
      forall m | m != name
        ensures HasVariable(u, m) == HasVariable(t, m) && (HasVariable(t, m) ==> ShapesOf(u, m) == ShapesOf(t, m))
      {
        if |m| > 1 && m[0] == key {
          assert m == [key] + m[1..] && name == [key] + rest;
          assert HasVariable(u.subs[key], m[1..]) == HasVariable(sub, m[1..]);
        }
      }
    }
  }

  lemma {:induction false} AddKeepsGrown(t: Tree, name: Name, shapes: Shapes)
    requires Grown(t) && Add(t, name, shapes).Pass?
    ensures Grown(Add(t, name, shapes).value)
    decreases |name|
  {
    if |name| > 1 {
      var key, u := name[0], Add(t, name, shapes).value;
      var sub := if key in t.subs then t.subs[key] else EMPTY;
      AddKeepsGrown(sub, name[1..], shapes);
      AddAdds(sub, name[1..], shapes);
      forall k | k in u.subs ensures Grown(u.subs[k]) && exists n :: HasVariable(u.subs[k], n) {
        if k == key { assert HasVariable(u.subs[k], name[1..]); } else { assert u.subs[k] == t.subs[k]; }
      }
    }
  }

  // ---------------------------------------------------------------------------------------------
  // Sequences of calls
  // ---------------------------------------------------------------------------------------------

  datatype Entry = Entry(name: Name, shapes: Shapes)

  /** The calls one after the other, up to the first that fails. */
  function AddAll(entries: seq<Entry>): Outcome<Tree> {
    if entries == [] then Pass(EMPTY) else
    var last := entries[|entries| - 1];
    match AddAll(entries[..|entries| - 1])
    case Fail(error) => Fail(error)
    case Pass(t) => Add(t, last.name, last.shapes)
  }

  /** The names are non-empty, pairwise distinct, and none is a prefix of another. */
  ghost predicate Compatible(entries: seq<Entry>) {
    && (forall i | 0 <= i < |entries| :: entries[i].name != [])
    && (forall i, j | 0 <= i < j < |entries| :: !Clash(entries[i].name, entries[j].name))
  }

  /** The axis has the variables of the entries, with their shapes, and no others. */
  ghost predicate Holds(t: Tree, entries: seq<Entry>) {
    && (forall e | e in entries :: HasVariable(t, e.name) && ShapesOf(t, e.name) == e.shapes)
    && (forall m | HasVariable(t, m) :: Entry(m, ShapesOf(t, m)) in entries)
  }

  lemma FreeIffCompatible(t: Tree, entries: seq<Entry>, e: Entry)
    requires Holds(t, entries) && Compatible(entries)
    ensures Free(t, e.name) <==> Compatible(entries + [e])
  {
    var more := entries + [e];
    if Free(t, e.name) {
      forall i, j | 0 <= i < j < |more| ensures !Clash(more[i].name, more[j].name) {
        assert more[i] in entries && HasVariable(t, more[i].name);
      }
    }
    if Compatible(more) {
      assert more[|entries|] == e;
      forall m | HasVariable(t, m) ensures !Clash(m, e.name) {
        var i :| 0 <= i < |entries| && entries[i] == Entry(m, ShapesOf(t, m));
        assert more[i] == entries[i];
      }
    }
  }

  lemma HoldsOneMore(t: Tree, u: Tree, entries: seq<Entry>, e: Entry)
    requires Holds(t, entries) && Adds(t, u, e.name, e.shapes) && !HasVariable(t, e.name)
    ensures Holds(u, entries + [e])
  {
    var more := entries + [e];
    forall f | f in more ensures HasVariable(u, f.name) && ShapesOf(u, f.name) == f.shapes {
      if f in entries { assert HasVariable(t, f.name) && f.name != e.name; }
    }
    forall m | HasVariable(u, m) ensures Entry(m, ShapesOf(u, m)) in more {
      if m != e.name { assert HasVariable(t, m) && Entry(m, ShapesOf(t, m)) in entries; }
    }
  }

  /** From an empty axis a sequence of calls succeeds exactly when the names are non-empty, pairwise distinct
      and none is a proper prefix of another; then the axis has exactly these variables. */
  lemma {:induction false} AddAllSucceeds(entries: seq<Entry>)
    ensures AddAll(entries).Pass? <==> Compatible(entries)
    ensures AddAll(entries).Pass? ==> Grown(AddAll(entries).value) && Holds(AddAll(entries).value, entries)
  {
    if entries != [] {
      var before, e := entries[..|entries| - 1], entries[|entries| - 1];
      assert entries == before + [e];
      AddAllSucceeds(before);
      if AddAll(before).Pass? {
        var t := AddAll(before).value;
        AddToGrown(t, e.name, e.shapes);
        FreeIffCompatible(t, before, e);
        if Free(t, e.name) {
          AddKeepsGrown(t, e.name, e.shapes);
          AddAdds(t, e.name, e.shapes);
          assert HasVariable(t, e.name) ==> !Clash(e.name, e.name);
          HoldsOneMore(t, Add(t, e.name, e.shapes).value, before, e);
        }
      } else if Compatible(entries) {
        forall i, j | 0 <= i < j < |before| ensures !Clash(before[i].name, before[j].name) {
          assert before[i] == entries[i] && before[j] == entries[j];
        }
      }
    }
  }

  ghost predicate SameVariables(t: Tree, u: Tree) {
    && (forall n :: HasVariable(t, n) == HasVariable(u, n))
    && (forall n | HasVariable(t, n) && HasVariable(u, n) :: ShapesOf(t, n) == ShapesOf(u, n))
  }

  lemma SameVariablesBelow(t: Tree, u: Tree, key: string)
    requires SameVariables(t, u) && key in t.subs && key in u.subs
    ensures SameVariables(t.subs[key], u.subs[key])
  {
    forall n
      ensures HasVariable(t.subs[key], n) == HasVariable(u.subs[key], n)
      ensures HasVariable(t.subs[key], n) && HasVariable(u.subs[key], n)
        ==> ShapesOf(t.subs[key], n) == ShapesOf(u.subs[key], n)
    {
      assert ([key] + n)[1..] == n;
      assert n != [] ==> HasVariable(t, [key] + n) == HasVariable(t.subs[key], n);
      assert n != [] ==> HasVariable(u, [key] + n) == HasVariable(u.subs[key], n);
    }
  }

  lemma SubaxisShared(t: Tree, u: Tree, key: string)
    requires Grown(t) && SameVariables(t, u) && key in t.subs
    ensures key in u.subs
  {
    var n :| HasVariable(t.subs[key], n);
    LiftVariable(t, key, n);
    assert HasVariable(u, [key] + n);
  }

  /** The variables determine a grown axis. */
  lemma {:induction false} VariablesDetermine(t: Tree, u: Tree)
    requires Grown(t) && Grown(u) && SameVariables(t, u)
    ensures t == u
  {
    forall k ensures k in t.vars <==> k in u.vars {
      assert HasVariable(t, [k]) == HasVariable(u, [k]);
    }
    forall k | k in t.vars ensures t.vars[k] == u.vars[k] {
      assert HasVariable(t, [k]) && ShapesOf(t, [k]) == ShapesOf(u, [k]);
    }
    forall k ensures k in t.subs <==> k in u.subs {
      if k in t.subs { SubaxisShared(t, u, k); }
      if k in u.subs { SubaxisShared(u, t, k); }
    }
    forall k | k in t.subs ensures t.subs[k] == u.subs[k] {
      SameVariablesBelow(t, u, k);
      VariablesDetermine(t.subs[k], u.subs[k]);
    }
    assert t.vars == u.vars && t.subs == u.subs;
  }

  function Without<T>(q: seq<T>, k: nat): seq<T>
    requires k < |q|
  {
    q[..k] + q[k + 1..]
  }

  lemma CompatibleOneMore(q: seq<Entry>, e: Entry)
    requires Compatible(q) && e.name != []
    requires forall f | f in q :: !Clash(f.name, e.name)
    ensures Compatible(q + [e])
  {
    hide Clash;
    var more := q + [e];
    forall i, j | 0 <= i < j < |more| ensures !Clash(more[i].name, more[j].name) {
      assert more[i] == q[i];
      if j < |q| { assert more[j] == q[j]; } else { assert more[i] in q; }
    }
  }

  lemma MultisetWithout<T>(q: seq<T>, k: nat)
    requires k < |q|
    ensures multiset(Without(q, k)) == multiset(q) - multiset{q[k]}
  {
    assert q == q[..k] + [q[k]] + q[k + 1..];
  }

  /** Compatibility does not depend on the order. */
  lemma {:induction false} CompatibleInAnyOrder(p: seq<Entry>, q: seq<Entry>)
    requires multiset(p) == multiset(q) && Compatible(p)
    ensures Compatible(q)
    decreases |q|
  {
    hide Clash;
    if q != [] {
      var n := |q| - 1;
      assert q[n] in multiset(p);
      var k :| 0 <= k < |p| && p[k] == q[n];
      var rest, front := Without(p, k), Without(q, n);
      MultisetWithout(p, k);
      MultisetWithout(q, n);
      CompatibleWithout(p, k);
      CompatibleInAnyOrder(rest, front);
      forall f | f in front ensures !Clash(f.name, q[n].name) {
        assert f in multiset(rest);
      }
      CompatibleOneMore(front, q[n]);
      assert q == front + [q[n]];
    }
  }

  lemma CompatibleWithout(p: seq<Entry>, k: nat)
    requires Compatible(p) && k < |p|
    ensures Compatible(Without(p, k))
    ensures forall j | 0 <= j < |p| - 1 :: !Clash(Without(p, k)[j].name, p[k].name)
  {
    var rest := Without(p, k);
    forall i | 0 <= i < |rest| ensures rest[i] == p[if i < k then i else i + 1] {}
  }

  /** Any order of the same calls has the same outcome: all orders succeed with the same axis, or none does. */
  lemma AnyOrder(p: seq<Entry>, q: seq<Entry>)
    requires multiset(p) == multiset(q)
    ensures AddAll(p).Pass? == AddAll(q).Pass?
    ensures AddAll(p).Pass? ==> AddAll(p) == AddAll(q)
  {
    AddAllSucceeds(p);
    AddAllSucceeds(q);
    if Compatible(p) { CompatibleInAnyOrder(p, q); }
    if Compatible(q) { CompatibleInAnyOrder(q, p); }
    if AddAll(p).Pass? {
      var t, u := AddAll(p).value, AddAll(q).value;
      forall e ensures e in p <==> e in q {
        assert e in p <==> e in multiset(p);
        assert e in q <==> e in multiset(q);
      }
      forall n ensures HasVariable(t, n) == HasVariable(u, n) && (HasVariable(t, n) ==> ShapesOf(t, n) == ShapesOf(u, n)) {
        if HasVariable(t, n) { assert Entry(n, ShapesOf(t, n)) in q; }
        if HasVariable(u, n) { assert Entry(n, ShapesOf(u, n)) in p; }
      }
      VariablesDetermine(t, u);
    }
  }

  // ---------------------------------------------------------------------------------------------
  // Equality and setup
  // ---------------------------------------------------------------------------------------------

  /** `equals`: the same variables and shapes, as many sub-axes, and each of them there and equal. */
  predicate Equals(t: Tree, u: Tree) {
    && t.vars == u.vars
    && |t.subs| == |u.subs|
    && forall k | k in t.subs :: k in u.subs && Equals(t.subs[k], u.subs[k])
  }

  /** `setup_layout` marks the whole tree. */
  function SetUp(t: Tree): Tree {
    Tree(true, t.vars, map k | k in t.subs :: SetUp(t.subs[k]))
  }

  /** `equals` compares everything except whether the axes are set up. */
  lemma {:induction false} EqualsIffSame(t: Tree, u: Tree)
    ensures Equals(t, u) <==> SetUp(t) == SetUp(u)
  {
    if t.vars == u.vars {
      if Equals(t, u) {
        assert t.subs.Keys <= u.subs.Keys;
        SubsetIsAll(t.subs.Keys, u.subs.Keys);
        forall k | k in t.subs ensures SetUp(t.subs[k]) == SetUp(u.subs[k]) { EqualsIffSame(t.subs[k], u.subs[k]); }
        assert SetUp(t).subs == SetUp(u).subs;
      }
      if SetUp(t) == SetUp(u) {
        assert t.subs.Keys == SetUp(t).subs.Keys == u.subs.Keys;
        forall k | k in t.subs ensures k in u.subs && Equals(t.subs[k], u.subs[k]) {
          assert SetUp(t).subs[k] == SetUp(u).subs[k];
          EqualsIffSame(t.subs[k], u.subs[k]);
        }
      }
    }
  }

  lemma {:induction false} SubsetIsAll<T>(a: set<T>, b: set<T>)
    requires a <= b && |a| == |b|
    ensures a == b
  {
    if x :| x in b && x !in a {
      assert |b - {x}| == |b| - 1 && a <= b - {x};
      SubsetSize(a, b - {x});
    }
  }

  lemma {:induction false} SetUpTwice(t: Tree)
    ensures SetUp(SetUp(t)) == SetUp(t)
  {
    forall k | k in t.subs ensures SetUp(SetUp(t).subs[k]) == SetUp(t).subs[k] { SetUpTwice(t.subs[k]); }
    assert SetUp(SetUp(t)).subs == SetUp(t).subs;
  }

  /** Setting up changes no size, slice or shape. */
  lemma {:induction false} SetUpKeepsLayout(t: Tree)
    ensures Slots(SetUp(t)) == Slots(t) && Size(SetUp(t)) == Size(t) && Kids(SetUp(t)) == Kids(t)
  {
    assert SetUp(t).subs.Keys == t.subs.Keys;
    var keys := Sorted(t.subs.Keys);
    forall i | 0 <= i < |keys| ensures Kids(SetUp(t))[i] == Kids(t)[i] {
      assert keys[i] in keys;
      SetUpKeepsLayout(t.subs[keys[i]]);
    }
    assert Kids(SetUp(t)) == Kids(t);
  }

  /** Setting up changes no answer about a variable or a sub-axis. */
  lemma {:induction false} SetUpKeepsVariable(t: Tree, name: Name)
    ensures HasVariable(SetUp(t), name) == HasVariable(t, name)
    ensures HasVariable(t, name) ==> SlotOf(SetUp(t), name) == SlotOf(t, name)
    ensures HasSubaxis(SetUp(t), name) == HasSubaxis(t, name)
    ensures HasSubaxis(t, name) ==>
      Subaxis(SetUp(t), name) == SetUp(Subaxis(t, name)) && Start(SetUp(t), name) == Start(t, name)
    decreases |name|
  {
    hide Slots, Size, Kids;
    SetUpKeepsLayout(t);
    if name != [] && name[0] in t.subs {
      SetUpKeepsVariable(t.subs[name[0]], name[1..]);
    }
  }

  /** Equal axes have the same layout. */
  lemma EqualAxesSameLayout(t: Tree, u: Tree)
    requires Equals(t, u)
    ensures Slots(t) == Slots(u) && Size(t) == Size(u)
  {
    EqualsIffSame(t, u);
    SetUpKeepsLayout(t);
    SetUpKeepsLayout(u);
  }
}
