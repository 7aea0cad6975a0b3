/** The labeled axis: an object with local variables and sub-axes, which answers from its cached layout once it
    is set up, and by recursion before. */
module LabeledAxis {
  import opened AxisBuild
  import opened AxisCache
  import opened AxisTree
  import opened Common
  import opened Ordering

  class Axis {
    const prefix: Name
    var setup: bool
    var variables: map<string, Shapes>
    var subaxes: map<string, Axis>
    var cache: Cache
    ghost var tree: Tree
    ghost var repr: set<object>

    /** The object represents its tree, sub-axes are separate objects, and a cached layout is right. */
    ghost predicate Valid()
      reads this, repr
      ensures Valid() ==> this in repr
      decreases repr, 2
    {
      this in repr && Local()
    }

    /** What `Valid` says of the object itself, given that the sub-axes are valid. */
    ghost predicate Local()
      reads this, repr
      decreases repr, 1
    {
      && tree.setup == setup && tree.vars == variables
      && Linked(tree.subs)
      && (setup ==> Agrees(cache, tree) && tree == SetUp(tree) && forall k | k in tree.subs :: tree.subs[k].setup)
    }

    /** The sub-axes are valid, separate, and represent the given trees. */
    ghost predicate Linked(trees: map<string, Tree>)
      reads this`repr, this`subaxes, repr - {this}
      decreases repr, 0
    {
      && this in repr && trees.Keys == subaxes.Keys
      && (forall k {:trigger subaxes[k]} | k in subaxes ::
            && subaxes[k] in repr && subaxes[k].repr <= repr && this !in subaxes[k].repr
            && subaxes[k].Valid()
            && subaxes[k].tree == trees[k]
            && subaxes[k].prefix == prefix + [k])
      && (forall k, l {:trigger subaxes[k], subaxes[l]} | k in subaxes && l in subaxes && k != l ::
            subaxes[k].repr !! subaxes[l].repr)
    }

    lemma ValidIsLocal()
      ensures Valid() == (this in repr && Local())
    {
    }

    constructor (prefix: Name)
      ensures Valid() && fresh(repr) && tree == EMPTY && this.prefix == prefix
    {
      this.prefix := prefix;
      setup, variables, subaxes, cache := false, map[], map[], CLEARED;
      tree, repr := EMPTY, {this};
    }

    /** `add_subaxis`. */
    method AddSubaxis(name: string) returns (r: Outcome<()>)
      requires Valid()
      modifies this
      ensures Valid() && fresh(repr - old(repr)) && old(repr) <= repr && variables == old(variables) && setup == old(setup)
      ensures r == if old(setup) then Fail(AlreadySetUp) else if name in old(variables) then Fail(NameTaken(name)) else Pass(())
      ensures r.Fail? ==> tree == old(tree)
      ensures r.Pass? ==> tree == old(tree).(subs := if name in old(tree).subs then old(tree).subs else old(tree).subs[name := EMPTY])
    {
      hide Agrees, Valid, Linked;
      ValidIsLocal();
      LinkedKeys(tree.subs);
      if setup { return Fail(AlreadySetUp); }
      if name in variables { return Fail(NameTaken(name)); }
      if name !in subaxes {
        Attach(name, tree.subs);
        tree := tree.(subs := tree.subs[name := EMPTY]);
        ValidIsLocal();
      }
      r := Pass(());
    }

    method Attach(name: string, ghost trees: map<string, Tree>)
      requires Linked(trees) && name !in trees
      modifies this`subaxes, this`repr
      ensures Linked(trees[name := EMPTY]) && this in repr && fresh(repr - old(repr)) && old(repr) <= repr
    {
      hide Valid;
      var sub := new Axis(prefix + [name]);
      subaxes := subaxes[name := sub];
      repr := repr + sub.repr;
    }

    /** The outcome and the new tree are those of `Add`; a failure leaves the tree as it was. */
    static ghost predicate Follows(t: Tree, name: Name, shapes: Shapes, r: Outcome<()>, u: Tree) {
      match Add(t, name, shapes)
      case Fail(error) => r == Fail(error) && u == t
      case Pass(v) => r.Pass? && u == v
    }

    /** `add_variable`. */
    method AddVariable(name: Name, shapes: Shapes) returns (r: Outcome<()>)
      requires Valid()
      modifies repr
      ensures Valid() && fresh(repr - old(repr)) && old(repr) <= repr
      ensures Follows(old(tree), name, shapes, r, tree)
      decreases |name|, 1
    {
      hide Agrees, Valid, Add;
      ValidIsLocal();
      AddUnfolds(tree, name, shapes);
      if setup { return Fail(AlreadySetUp); }
      if name == [] { return Fail(EmptyName); }
      if |name| == 1 {
        r := AddLocal(name[0], shapes);
      } else {
        AddToFresh(name[1..], shapes);
        r := AddSubaxis(name[0]);
        if r.Pass? { r := AddBelow(name, shapes); }
      }
    }

    method AddLocal(key: string, shapes: Shapes) returns (r: Outcome<()>)
      requires Valid() && !setup
      modifies this
      ensures Valid() && repr == old(repr)
      ensures r == if key in old(tree).vars || key in old(tree).subs then Fail(NameTaken(key)) else Pass(())
      ensures r.Fail? ==> tree == old(tree)
      ensures r.Pass? ==> tree == old(tree).(vars := old(tree).vars[key := shapes])
    {
      hide Agrees, Valid;
      ValidIsLocal();
      if key in variables || key in subaxes { return Fail(NameTaken(key)); }
      variables := variables[key := shapes];
      tree := tree.(vars := tree.vars[key := shapes]);
      ValidIsLocal();
      r := Pass(());
    }

    method AddBelow(name: Name, shapes: Shapes) returns (r: Outcome<()>)
      requires Valid() && !setup && |name| > 1 && name[0] in tree.subs
      modifies repr
      ensures name[0] in tree.subs
      ensures Valid() && fresh(repr - old(repr)) && old(repr) <= repr
      ensures Follows(old(tree).subs[name[0]], name[1..], shapes, r, tree.subs[name[0]])
      ensures tree == old(tree).(subs := old(tree).subs[name[0] := tree.subs[name[0]]])
      decreases |name|, 0
    {
      hide Agrees, Valid, Follows, Linked;
      ValidIsLocal();
      ghost var u;
      r, u := AddToSub(name[0], name[1..], shapes, tree.subs);
      tree := tree.(subs := tree.subs[name[0] := u]);
      ValidIsLocal();
    }

    method AddToSub(key: string, name: Name, shapes: Shapes, ghost trees: map<string, Tree>)
      returns (r: Outcome<()>, ghost u: Tree)
      requires Linked(trees) && key in trees && this in repr
      modifies this`repr, repr - {this}
      ensures fresh(repr - old(repr)) && old(repr) <= repr
      ensures Follows(trees[key], name, shapes, r, u) && Linked(trees[key := u])
      decreases |name|, 2
    {
      hide Agrees, Valid, Follows, Local;
      var sub := subaxes[key];
      r := sub.AddVariable(name, shapes);
      forall k | k in subaxes && k != key { subaxes[k].Untouched(sub); }
      repr, u := repr + sub.repr, sub.tree;
    }

    /** A change inside another axis leaves this one as it was. */
    twostate lemma Untouched(other: Axis)
      requires old(Valid()) && old(repr) !! old(other.repr) && fresh(other.repr - old(other.repr))
      requires forall o | o in old(repr) :: unchanged(o)
      ensures Valid() && repr == old(repr) && tree == old(tree) && repr !! other.repr
    {
    }

    /** `setup_layout`. The vectors are cleared and filled again; on an axis that is set up they come out the same. */
    method SetupLayout()
      requires Valid()
      modifies repr
      ensures Valid() && repr == old(repr) && setup
      ensures tree == SetUp(old(tree))
      ensures old(setup) ==> tree == old(tree) && cache == old(cache)
      decreases tree, 2
    {
      hide Agrees, Valid, Linked, Partly, Sorted, VarSlots, VarsSize, SetUp;
      ValidIsLocal();
      ghost var before := cache;
      cache := EnterVariables(variables);
      PartlyStartsHere(cache, tree);
      SetupSubaxes(tree);
      SetUpFlags(tree);
      if setup { AgreesDetermines(before, cache, tree); }
      tree, setup := SetUp(tree), true;
      ValidIsLocal();
    }

    method SetupSubaxes(ghost t: Tree)
      requires Linked(t.subs) && Partly(cache, t, 0)
      modifies this`cache, repr - {this}
      ensures Linked(SetUp(t).subs) && Agrees(cache, SetUp(t))
      decreases t, 1
    {
      hide Agrees, Valid, Linked, Partly, Kids, Sorted, SetUp, SetUpBut;
      ghost var keys := Sorted(t.subs.Keys);
      LinkedKeys(t.subs);
      KidKeys(t);
      SetUpButAll(t);
      var rest := subaxes.Keys;
      ghost var done: nat := 0;
      while rest != {}
        invariant Linked(SetUpBut(t, rest)) && rest <= t.subs.Keys
        invariant done <= |keys| && Partly(cache, t, done)
        invariant keys[done..] == Sorted(rest)
        decreases |rest|
      {
        var key := First(rest);
        OneKey(keys, done, key, Sorted(rest - {key}));
        SetUpButOne(t, rest, key);
        SetupNext(key, t, SetUpBut(t, rest), done);
        rest, done := rest - {key}, done + 1;
      }
      PartlyEnds(cache, t);
      AgreesWhenSetUp(cache, t);
    }

    /** The sub-axes while those in `rest` are still to be set up. */
    static ghost function SetUpBut(t: Tree, rest: set<string>): map<string, Tree> {
      map k | k in t.subs :: if k in rest then t.subs[k] else SetUp(t.subs[k])
    }

    static lemma SetUpButAll(t: Tree)
      ensures SetUpBut(t, t.subs.Keys) == t.subs
      ensures SetUpBut(t, {}) == SetUp(t).subs
    {
    }

    static lemma SetUpButOne(t: Tree, rest: set<string>, key: string)
      requires key in rest && rest <= t.subs.Keys
      ensures key in SetUpBut(t, rest) && SetUpBut(t, rest)[key] == t.subs[key]
      ensures SetUpBut(t, rest)[key := SetUp(t.subs[key])] == SetUpBut(t, rest - {key})
    {
    }

    static lemma OneKey(keys: seq<string>, done: nat, key: string, tail: seq<string>)
      requires done <= |keys| && keys[done..] == [key] + tail
      ensures done < |keys| && keys[done] == key && keys[done + 1..] == tail
    {
      assert keys[done..][0] == key && keys[done..][1..] == tail;
    }

    method SetupNext(key: string, ghost t: Tree, ghost trees: map<string, Tree>, ghost done: nat)
      requires Linked(trees) && key in trees && key in t.subs && trees[key] == t.subs[key]
      requires done < |Sorted(t.subs.Keys)| == |Kids(t)| && Sorted(t.subs.Keys)[done] == key && Partly(cache, t, done)
      modifies this`cache, repr - {this}
      ensures Linked(trees[key := SetUp(trees[key])])
      ensures Partly(cache, t, done + 1)
      decreases trees[key], 4
    {
      hide Agrees, Linked, Valid, SetUp, Partly, Kids, Sorted, Lists;
      var sub := SetupSub(key, trees);
      KidAgrees(sub, t, done);
      cache := EnterSubaxis(cache, key, sub, t, done);
    }

    method SetupSub(key: string, ghost trees: map<string, Tree>) returns (c: Cache)
      requires Linked(trees) && key in trees
      modifies repr - {this}
      ensures Linked(trees[key := SetUp(trees[key])])
      ensures Agrees(c, SetUp(trees[key]))
      decreases trees[key], 3
    {
      hide Agrees, Valid, SetUp;
      var sub := subaxes[key];
      sub.SetupLayout();
      forall k | k in subaxes && k != key { subaxes[k].Untouched(sub); }
      sub.ValidIsLocal();
      c := sub.cache;
    }

    lemma LinkedKeys(trees: map<string, Tree>)
      requires Linked(trees)
      ensures trees.Keys == subaxes.Keys
    {
    }

    static lemma KidKeys(t: Tree)
      ensures |Kids(t)| == |Sorted(t.subs.Keys)|
    {
    }

    static lemma PartlyStartsHere(c: Cache, t: Tree)
      requires Lists(c, VarSlots(t.vars, Sorted(t.vars.Keys), 0)) && c.size == VarsSize(t.vars, Sorted(t.vars.Keys))
      requires c.subIds == map[] && c.subNames == [] && c.subSizes == [] && c.subSlices == []
      ensures Partly(c, t, 0)
    {
      PartlyStarts(c, t);
    }

    static lemma KidAgrees(sub: Cache, t: Tree, i: nat)
      requires i < |Sorted(t.subs.Keys)| && Sorted(t.subs.Keys)[i] in t.subs
      requires Agrees(sub, SetUp(t.subs[Sorted(t.subs.Keys)[i]]))
      ensures i < |Kids(t)| && Kids(t)[i].key == Sorted(t.subs.Keys)[i]
      ensures Lists(sub, Kids(t)[i].slots) && sub.size == Kids(t)[i].size
    {
      hide Lists, ListsSubs, SetUp;
      SetUpKeepsLayout(t.subs[Sorted(t.subs.Keys)[i]]);
    }

    static lemma AgreesWhenSetUp(c: Cache, t: Tree)
      requires Agrees(c, t)
      ensures Agrees(c, SetUp(t))
    {
      SetUpKeepsLayout(t);
    }

    static lemma SetUpFlags(t: Tree)
      ensures SetUp(t).setup && SetUp(t).vars == t.vars && SetUp(SetUp(t)) == SetUp(t)
      ensures forall k | k in SetUp(t).subs :: SetUp(t).subs[k].setup
    {
      SetUpTwice(t);
    }

    // -------------------------------------------------------------------------------------------
    // Queries: each answers as the tree does, whether from the cache or by recursion
    // -------------------------------------------------------------------------------------------

    /** `size()`. */
    method Size() returns (n: nat)
      requires Valid()
      ensures n == AxisTree.Size(tree)
      decreases tree, 1
    {
      hide Agrees, Valid, Linked, AxisTree.Size, VarsSize, Slots;
      ValidIsLocal();
      if setup {
        AgreesSize(cache, tree);
        n := cache.size;
      } else {
        n := VariablesSize(variables);
        n := AddSubaxesSize(n);
      }
    }

    method AddSubaxesSize(local: nat) returns (n: nat)
      requires Linked(tree.subs) && local == LocalSize(tree)
      ensures n == AxisTree.Size(tree)
      decreases tree, 0
    {
      hide Agrees, Valid, Linked, Sorted, AxisTree.Size, SizeSoFar, SlotsSoFar, LocalSize, Slots;
      n := local;
      ghost var t, keys := tree, Sorted(tree.subs.Keys);
      SumStarts(t);
      LinkedKeys(t.subs);
      var rest := subaxes.Keys;
      ghost var done: nat := 0;
      while rest != {}
        invariant Linked(t.subs) && rest <= t.subs.Keys && done <= |keys| && keys[done..] == Sorted(rest)
        invariant n == SizeSoFar(t, done)
        decreases |rest|
      {
        var key := First(rest);
        OneKey(keys, done, key, Sorted(rest - {key}));
        LinkedKid(t.subs, key);
        var sz := subaxes[key].Size();
        OneMoreSize(t, done, key);
        n := n + sz;
        rest, done := rest - {key}, done + 1;
      }
      SumEnds(t);
    }

    lemma LinkedKid(trees: map<string, Tree>, key: string)
      requires Linked(trees) && key in trees
      ensures key in subaxes && subaxes[key].Valid() && subaxes[key].tree == trees[key]
    {
    }

    /** `nvariable`. */
    method NVariable() returns (n: nat)
      requires Valid()
      ensures n == |Slots(tree)|
      decreases tree, 1
    {
      hide Agrees, Valid, Linked, LocalSlots, Slots;
      ValidIsLocal();
      if setup {
        AgreesSize(cache, tree);
        n := |cache.names|;
      } else {
        LocalCount(tree);
        n := AddSubaxesCount(|variables|);
      }
    }

    method AddSubaxesCount(local: nat) returns (n: nat)
      requires Linked(tree.subs) && local == |LocalSlots(tree)|
      ensures n == |Slots(tree)|
      decreases tree, 0
    {
      hide Agrees, Valid, Linked, Sorted, SizeSoFar, SlotsSoFar, LocalSlots, LocalSize, Slots, Shift, AxisTree.Size;
      n := local;
      ghost var t, keys := tree, Sorted(tree.subs.Keys);
      SumStarts(t);
      LinkedKeys(t.subs);
      var rest := subaxes.Keys;
      ghost var done: nat := 0;
      while rest != {}
        invariant Linked(t.subs) && rest <= t.subs.Keys && done <= |keys| && keys[done..] == Sorted(rest)
        invariant n == |SlotsSoFar(t, done)|
        decreases |rest|
      {
        var key := First(rest);
        OneKey(keys, done, key, Sorted(rest - {key}));
        LinkedKid(t.subs, key);
        var more := subaxes[key].NVariable();
        OneMoreCount(t, done, key);
        n := n + more;
        rest, done := rest - {key}, done + 1;
      }
      SumEnds(t);
    }

    static lemma LocalCount(t: Tree)
      ensures |LocalSlots(t)| == |t.vars|
    {
      VarSlotsLength(t.vars, Sorted(t.vars.Keys), 0);
      assert |t.vars| == |t.vars.Keys|;
    }

    /** `variable_names_unsrt`: always by recursion, and yet in the order of the ids. */
    method VariableNamesUnsrt() returns (names: seq<Name>)
      requires Valid()
      ensures names == NamesOf(Slots(tree))
      decreases tree, 1
    {
      hide Agrees, Valid, Linked, Sorted, VarSlots, LocalSlots, Slots, NamesOf;
      ValidIsLocal();
      LocalSlotsAre(tree);
      names := VariableKeys(variables);
      names := AddSubaxesNames(names);
    }

    method AddSubaxesNames(local: seq<Name>) returns (names: seq<Name>)
      requires Linked(tree.subs) && local == NamesOf(LocalSlots(tree))
      ensures names == NamesOf(Slots(tree))
      decreases tree, 0
    {
      hide Agrees, Valid, Linked, Sorted, SizeSoFar, SlotsSoFar, LocalSlots, LocalSize, Slots, Shift, NamesOf, AxisTree.Size;
      names := local;
      ghost var t, keys := tree, Sorted(tree.subs.Keys);
      SumStarts(t);
      LinkedKeys(t.subs);
      var rest := subaxes.Keys;
      ghost var done: nat := 0;
      while rest != {}
        invariant Linked(t.subs) && rest <= t.subs.Keys && done <= |keys| && keys[done..] == Sorted(rest)
        invariant names == NamesOf(SlotsSoFar(t, done))
        decreases |rest|
      {
        var key := First(rest);
        OneKey(keys, done, key, Sorted(rest - {key}));
        LinkedKid(t.subs, key);
        var more := subaxes[key].VariableNamesUnsrt();
        var full := Prepend(key, more, Slots(t.subs[key]), SizeSoFar(t, done));
        OneMoreNames(t, done, key, full);
        names := names + full;
        rest, done := rest - {key}, done + 1;
      }
      SumEnds(t);
    }

    static lemma LocalSlotsAre(t: Tree)
      ensures LocalSlots(t) == VarSlots(t.vars, Sorted(t.vars.Keys), 0)
    {
    }

    /** `variable_names`. */
    method VariableNames() returns (names: seq<Name>)
      requires Valid() && setup
      ensures names == NamesOf(Slots(tree))
    {
      hide Agrees, Valid, Linked, Slots;
      ValidIsLocal();
      AgreesNames(cache, tree);
      names := cache.names;
    }

    /** `has_variable`. */
    method HasVariable(name: Name) returns (r: Outcome<bool>)
      requires Valid()
      ensures r == if name == [] then Fail(EmptyName) else Pass(AxisTree.HasVariable(tree, name))
      decreases |name|
    {
      hide Agrees, Valid, Slots, SlotOf, ShapesOf;
      ValidIsLocal();
      if name == [] { return Fail(EmptyName); }
      if setup {
        CachedVariable(cache, tree, name);
        return Pass(name in cache.names);
      }
      if |name| == 1 { return Pass(name[0] in variables); }
      if name[0] !in subaxes { return Pass(false); }
      r := subaxes[name[0]].HasVariable(name[1..]);
    }

    /** `variable_id`. */
    method VariableId(name: Name) returns (r: Outcome<nat>)
      requires Valid() && setup
      ensures name == [] ==> r == Fail(EmptyName)
      ensures name != [] && !AxisTree.HasVariable(tree, name) ==> r == Fail(Missing)
      ensures AxisTree.HasVariable(tree, name) ==>
        r.Pass? && r.value < |Slots(tree)| && Slots(tree)[r.value] == SlotOf(tree, name)
    {
      hide Agrees, Valid, Slots, SlotOf, Linked;
      ValidIsLocal();
      CachedVariable(cache, tree, name);
      if name == [] { return Fail(EmptyName); }
      r := if name in cache.ids then Pass(cache.ids[name]) else Fail(Missing);
    }

    /** `variable_size`; before the layout is set up, the first part of the name is read unchecked. */
    method VariableSize(name: Name) returns (r: Outcome<nat>)
      requires Valid() && (setup || name != [])
      ensures name == [] ==> r == Fail(EmptyName)
      ensures name != [] && !AxisTree.HasVariable(tree, name) ==> r == Fail(Missing)
      ensures AxisTree.HasVariable(tree, name) ==> r == Pass(Storage(ShapesOf(tree, name)))
      decreases |name|
    {
      hide Agrees, Valid, Slots, SlotOf, Storage;
      ValidIsLocal();
      if setup {
        if name == [] { return Fail(EmptyName); }
        CachedVariable(cache, tree, name);
        return if name in cache.ids then Pass(cache.sizes[cache.ids[name]]) else Fail(Missing);
      }
      if |name| == 1 {
        return if name[0] in variables then Pass(Storage(variables[name[0]])) else Fail(Missing);
      }
      if name[0] !in subaxes { return Fail(Missing); }
      r := subaxes[name[0]].VariableSize(name[1..]);
    }

    /** `size(name)`: the size of a variable or a sub-axis. */
    method SizeOf(name: Name) returns (r: Outcome<nat>)
      requires Valid()
      ensures name == [] ==> r == Fail(EmptyName)
      ensures AxisTree.HasVariable(tree, name) ==> r == Pass(Storage(ShapesOf(tree, name)))
      ensures !AxisTree.HasVariable(tree, name) && HasSubaxis(tree, name) ==> r == Pass(AxisTree.Size(Subaxis(tree, name)))
      ensures name != [] && !AxisTree.HasVariable(tree, name) && !HasSubaxis(tree, name) ==> r == Fail(Missing)
      decreases |name|
    {
      hide Agrees, Valid, Slots, SlotOf, Storage, AxisTree.Size, Offset;
      ValidIsLocal();
      if name == [] { return Fail(EmptyName); }
      if |name| == 1 {
        if setup {
          assert name == [name[0]];
          CachedVariable(cache, tree, name);
          CachedSubaxis(cache, tree, name[0]);
        }
        if name[0] in variables {
          return Pass(if setup then cache.sizes[cache.ids[name]] else Storage(variables[name[0]]));
        }
        if name[0] !in subaxes { return Fail(Missing); }
        if setup { return Pass(cache.subSizes[cache.subIds[name[0]]]); }
        var n := subaxes[name[0]].Size();
        return Pass(n);
      }
      if name[0] !in subaxes { return Fail(Missing); }
      r := subaxes[name[0]].SizeOf(name[1..]);
    }

    /** `subaxis_slice`: the range of a sub-axis of any depth, seen from here. */
    method SubaxisSlice(path: Name) returns (r: Outcome<(nat, nat)>)
      requires Valid() && setup && path != []
      ensures !HasSubaxis(tree, path) ==> r == Fail(Missing)
      ensures HasSubaxis(tree, path) ==>
        r == Pass((Start(tree, path), Start(tree, path) + AxisTree.Size(Subaxis(tree, path))))
      decreases |path|
    {
      hide Agrees, Valid, Slots, AxisTree.Size, Offset;
      ValidIsLocal();
      if path[0] !in subaxes { return Fail(Missing); }
      CachedSubaxis(cache, tree, path[0]);
      var span := cache.subSlices[cache.subIds[path[0]]];
      if |path| == 1 { return Pass(span); }
      subaxes[path[0]].ValidIsLocal();
      r := subaxes[path[0]].SubaxisSlice(path[1..]);
      if r.Pass? { r := Pass((r.value.0 + span.0, r.value.1 + span.0)); }
    }

    /** `slice`: the range of a variable or of a sub-axis of any depth. */
    method Slice(name: Name) returns (r: Outcome<(nat, nat)>)
      requires Valid() && setup
      ensures name == [] ==> r == Fail(EmptyName)
      ensures AxisTree.HasVariable(tree, name) ==> r == Pass((SlotOf(tree, name).lo, SlotOf(tree, name).hi))
      ensures !AxisTree.HasVariable(tree, name) && HasSubaxis(tree, name) ==>
        r == Pass((Start(tree, name), Start(tree, name) + AxisTree.Size(Subaxis(tree, name))))
      ensures name != [] && !AxisTree.HasVariable(tree, name) && !HasSubaxis(tree, name) ==> r == Fail(Missing)
    {
      hide Agrees, Valid, Slots, SlotOf, AxisTree.Size, Offset, Start, Linked;
      ValidIsLocal();
      if name == [] { return Fail(EmptyName); }
      CachedVariable(cache, tree, name);
      if name in cache.names {
        r := Pass(cache.slices[cache.ids[name]]);
      } else {
        r := SubaxisSlice(name);
      }
    }

    /** `subaxis`: the sub-axis at the end of a path. Its prefix is the whole path, so names that it qualifies
        are full names. */
    method SubaxisAt(path: Name) returns (r: Outcome<Axis>)
      requires Valid()
      ensures path == [] ==> r == Fail(EmptyName)
      ensures path != [] && !HasSubaxis(tree, path) ==> r == Fail(Missing)
      ensures HasSubaxis(tree, path) ==>
        r.Pass? && r.value in repr && r.value.Valid() && r.value.tree == Subaxis(tree, path) && r.value.prefix == prefix + path
      decreases |path|
    {
      hide Agrees, Valid;
      ValidIsLocal();
      if path == [] { return Fail(EmptyName); }
      if path[0] !in subaxes { return Fail(Missing); }
      var sub := subaxes[path[0]];
      assert path == [path[0]] + path[1..];
      if |path| == 1 { return Pass(sub); }
      r := sub.SubaxisAt(path[1..]);
    }

    /** `equals`. */
    method Equals(other: Axis) returns (b: bool)
      requires Valid() && other.Valid()
      ensures b == AxisBuild.Equals(tree, other.tree)
      decreases tree
    {
      hide Agrees, Valid, Linked;
      ValidIsLocal();
      other.ValidIsLocal();
      ghost var t, u := tree, other.tree;
      LinkedKeys(t.subs);
      other.LinkedKeys(u.subs);
      assert |subaxes| == |subaxes.Keys| == |t.subs| && |other.subaxes| == |other.subaxes.Keys| == |u.subs|;
      if variables != other.variables || |subaxes| != |other.subaxes| { return false; }
      var rest := subaxes.Keys;
      while rest != {}
        invariant Linked(t.subs) && other.Linked(u.subs) && rest <= t.subs.Keys
        invariant forall k | k in t.subs && k !in rest :: k in u.subs && AxisBuild.Equals(t.subs[k], u.subs[k])
        decreases |rest|
      {
        var key := First(rest);
        if key !in other.subaxes { return false; }
        LinkedKid(t.subs, key);
        other.LinkedKid(u.subs, key);
        var same := subaxes[key].Equals(other.subaxes[key]);
        if !same { return false; }
        rest := rest - {key};
      }
      b := true;
    }

    /** One step of the recursion of `Add`. */
    static lemma AddUnfolds(t: Tree, name: Name, shapes: Shapes)
      ensures Add(t, name, shapes) ==
        if t.setup then Fail(AlreadySetUp)
        else if name == [] then Fail(EmptyName)
        else if name[0] in t.vars || (|name| == 1 && name[0] in t.subs) then Fail(NameTaken(name[0]))
        else if |name| == 1 then Pass(t.(vars := t.vars[name[0] := shapes]))
        else
          match Add(if name[0] in t.subs then t.subs[name[0]] else EMPTY, name[1..], shapes)
          case Fail(error) => Fail(error)
          case Pass(sub) => Pass(t.(subs := t.subs[name[0] := sub]))
    {
    }
  }
}
