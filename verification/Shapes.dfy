/** Broadcasting any number of shapes. */
module Shapes {
  import opened Common

  type Shape = seq<int>

  function MaxDim(shapes: seq<Shape>): nat {
    if shapes == [] then 0 else Max(MaxDim(shapes[..|shapes| - 1]), |shapes[|shapes| - 1]|)
  }

  /** The size at distance `k` from the end; a size that does not exist counts as one. */
  function At(s: Shape, k: nat): int {
    if k < |s| then s[|s| - 1 - k] else 1
  }

  /** The largest size at distance `k` from the end, but at least one. */
  function MaxAt(shapes: seq<Shape>, k: nat): int {
    if shapes == [] then 1 else Max(MaxAt(shapes[..|shapes| - 1], k), At(shapes[|shapes| - 1], k))
  }

  /** The broadcast of the shapes. */
  function Merged(shapes: seq<Shape>): Shape {
    var dim := MaxDim(shapes);
    seq(dim, i requires 0 <= i < dim => MaxAt(shapes, dim - 1 - i))
  }

  /** Every shape has one more size at its end. */
  predicate Extended(shapes: seq<Shape>, sizes: seq<int>, longer: seq<Shape>) {
    |longer| == |shapes| == |sizes| && forall i | 0 <= i < |shapes| :: longer[i] == shapes[i] + [sizes[i]]
  }

  lemma {:induction false} ExtendedColumns(shapes: seq<Shape>, sizes: seq<int>, longer: seq<Shape>, k: nat)
    requires Extended(shapes, sizes, longer) && shapes != []
    ensures MaxDim(longer) == MaxDim(shapes) + 1
    ensures MaxAt(longer, k + 1) == MaxAt(shapes, k)
    ensures MaxAt(longer, 0) >= 1 && forall m | m in sizes :: MaxAt(longer, 0) >= m
    ensures MaxAt(longer, 0) == 1 || MaxAt(longer, 0) in sizes
  {
    var n := |shapes| - 1;
    assert At(longer[n], k + 1) == At(shapes[n], k) && At(longer[n], 0) == sizes[n];
    assert sizes == sizes[..n] + [sizes[n]];
    if n == 0 {
      assert shapes[..n] == [] && longer[..n] == [];
    } else {
      ExtendedColumns(shapes[..n], sizes[..n], longer[..n], k);
    }
  }

  /** Shapes are aligned at their ends: with one more size at the end of each, the broadcast is that of the shapes
      followed by the largest of these sizes, or one. */
  lemma MergedExtended(shapes: seq<Shape>, sizes: seq<int>, longer: seq<Shape>) returns (last: int)
    requires Extended(shapes, sizes, longer) && shapes != []
    ensures Merged(longer) == Merged(shapes) + [last]
    ensures last >= 1 && (forall m | m in sizes :: last >= m) && (last == 1 || last in sizes)
  {
    last := MaxAt(longer, 0);
    ExtendedColumns(shapes, sizes, longer, 0);
    forall k: nat ensures MaxAt(longer, k + 1) == MaxAt(shapes, k) { ExtendedColumns(shapes, sizes, longer, k); }
    var dim := MaxDim(shapes);
    assert forall i | 0 <= i < dim :: Merged(longer)[i] == MaxAt(longer, (dim - 1 - i) + 1);
  }

  predicate Positive(s: Shape) {
    forall i | 0 <= i < |s| :: s[i] > 0
  }

  predicate AllPositive(shapes: seq<Shape>) {
    forall s | s in shapes :: Positive(s)
  }

  predicate Fit(x: int, y: int) {
    x == 1 || y == 1 || x == y
  }

  /** The documented rule, for two shapes: from the end, sizes are equal, or one of them is one or missing. */
  ghost predicate PairFits(s: Shape, t: Shape) {
    forall k: nat :: Fit(At(s, k), At(t, k))
  }

  ghost predicate Compatible(shapes: seq<Shape>) {
    forall s, t | s in shapes && t in shapes :: PairFits(s, t)
  }

  // ---------------------------------------------------------------------------------------------
  // The loops
  // ---------------------------------------------------------------------------------------------

  /** `pad_prepend` with ones. */
  function Padded(s: Shape, dim: nat): (p: Shape)
    requires |s| <= dim
    ensures |p| == dim && forall i | 0 <= i < dim :: p[i] == At(s, dim - 1 - i)
  {
    seq(dim - |s|, _ => 1) + s
  }

  lemma {:induction false} DimBounds(shapes: seq<Shape>, j: nat)
    requires j < |shapes|
    ensures |shapes[j]| <= MaxDim(shapes)
  {
    if j < |shapes| - 1 { DimBounds(shapes[..|shapes| - 1], j); }
  }

  method PadAll(shapes: seq<Shape>) returns (dim: nat, padded: seq<Shape>)
    ensures dim == MaxDim(shapes) && |padded| == |shapes|
    ensures forall j | 0 <= j < |shapes| :: |shapes[j]| <= dim && padded[j] == Padded(shapes[j], dim)
  {
    dim := 0;
    for j := 0 to |shapes|
      invariant dim == MaxDim(shapes[..j])
    {
      assert shapes[..j + 1][..j] == shapes[..j];
      dim := Max(dim, |shapes[j]|);
    }
    assert shapes[..|shapes|] == shapes;
    padded := [];
    for j := 0 to |shapes|
      invariant |padded| == j
      invariant forall i | 0 <= i < j :: |shapes[i]| <= dim && padded[i] == Padded(shapes[i], dim)
    {
      DimBounds(shapes, j);
      padded := padded + [Padded(shapes[j], dim)];
    }
  }

  /** One column of the check, up to a row: what has been seen so far. */
  ghost predicate ColumnFits(shapes: seq<Shape>, k: nat) {
    forall s, t | s in shapes && t in shapes :: Fit(At(s, k), At(t, k))
  }

  ghost predicate ColumnPositive(shapes: seq<Shape>, k: nat) {
    forall s | s in shapes :: At(s, k) > 0
  }

  /** In a column, a size below one comes before any above one. */
  ghost predicate Stray(shapes: seq<Shape>, k: nat) {
    exists j :: 0 <= j < |shapes| && At(shapes[j], k) <= 0 && forall l | 0 <= l < j :: At(shapes[l], k) <= 1
  }

  /** The first size above one of the column. */
  ghost predicate FirstLarge(shapes: seq<Shape>, k: nat, l: int) {
    0 <= l < |shapes| && At(shapes[l], k) > 1 && forall m | 0 <= m < l :: At(shapes[m], k) <= 1
  }

  /** In a column, the first size above one is followed by one that is neither one nor equal to it. */
  ghost predicate Denied(shapes: seq<Shape>, k: nat) {
    exists l, j :: FirstLarge(shapes, k, l) && l < j < |shapes| && At(shapes[j], k) != 1 && At(shapes[j], k) != At(shapes[l], k)
  }

  /** The scan gets past the column; only with debug checks a stray size stops it. */
  ghost predicate Clear(shapes: seq<Shape>, k: nat, debug: bool) {
    !(debug && Stray(shapes, k)) && !Denied(shapes, k)
  }

  /** The columns in front of column `k` from the end are clear. */
  ghost predicate ClearBefore(shapes: seq<Shape>, k: int, debug: bool) {
    forall h: nat | k < h < MaxDim(shapes) :: Clear(shapes, h, debug)
  }

  /** `sizes_broadcastable`; with `debug` off the check for sizes below one is compiled out. The first column
      that is not clear decides: a stray size throws, and otherwise the shapes are denied. */
  method SizesBroadcastable(shapes: seq<Shape>, debug: bool) returns (r: Attempt<bool>)
    ensures r == Done(true) <==> ClearBefore(shapes, -1, debug)
    ensures r == Failed <==> debug && exists k: nat :: k < MaxDim(shapes) && Stray(shapes, k) && ClearBefore(shapes, k, debug)
    ensures AllPositive(shapes) ==> r.Done? && (r.value <==> Compatible(shapes))
    ensures debug ==> (r == Done(true) <==> AllPositive(shapes) && Compatible(shapes))
  {
    hide Stray, Denied, Compatible, AllPositive, Padded;
    var dim, padded := PadAll(shapes);
    ClearMeansFit(shapes, debug);
    for i := 0 to dim
      invariant ClearBefore(shapes, dim - 1 - i, debug)
    {
      r := ScanColumn(shapes, padded, i, dim, debug);
      FirstDecides(shapes, dim - 1 - i, debug);
      if r != Done(true) { return; }
    }
    r := Done(true);
  }

  lemma FirstDecides(shapes: seq<Shape>, k: nat, debug: bool)
    requires k < MaxDim(shapes) && ClearBefore(shapes, k, debug)
    ensures Clear(shapes, k, debug) ==> ClearBefore(shapes, k - 1, debug)
    ensures !Clear(shapes, k, debug) ==> !ClearBefore(shapes, -1, debug)
    ensures debug && !Clear(shapes, k, debug) ==>
      (Stray(shapes, k) <==> exists h: nat :: h < MaxDim(shapes) && Stray(shapes, h) && ClearBefore(shapes, h, debug))
  {
    hide Stray, Denied;
    if debug && !Clear(shapes, k, debug) {
      forall h: nat | h < MaxDim(shapes) && Stray(shapes, h) && ClearBefore(shapes, h, debug) ensures h == k {
        assert h > k ==> Clear(shapes, h, debug);
        assert h < k ==> Clear(shapes, k, debug);
      }
    }
  }

  /** The inner loop, for one column. */
  method ScanColumn(shapes: seq<Shape>, padded: seq<Shape>, i: nat, dim: nat, debug: bool) returns (r: Attempt<bool>)
    requires i < dim && |padded| == |shapes|
    requires forall j | 0 <= j < |shapes| :: |shapes[j]| <= dim && padded[j] == Padded(shapes[j], dim)
    ensures r == Failed <==> debug && Stray(shapes, dim - 1 - i)
    ensures r == Done(true) <==> Clear(shapes, dim - 1 - i, debug)
  {
    ghost var k := dim - 1 - i;
    var maxSize := 1;
    ghost var first := 0;
    for j := 0 to |padded|
      invariant maxSize >= 1
      invariant maxSize == 1 ==> forall l | 0 <= l < j :: At(shapes[l], k) <= 1 && (debug ==> At(shapes[l], k) > 0)
      invariant maxSize > 1 ==>
        && first < j && At(shapes[first], k) == maxSize
        && (forall l | 0 <= l < first :: At(shapes[l], k) <= 1 && (debug ==> At(shapes[l], k) > 0))
        && forall l | first < l < j :: At(shapes[l], k) == 1 || At(shapes[l], k) == maxSize
    {
      var size := padded[j][i];
      assert size == At(shapes[j], k);
      if maxSize == 1 {
        if debug && size <= 0 {
          assert Stray(shapes, k);
          return Failed;
        }
        if size > 1 { maxSize, first := size, j; }
      } else if size != 1 && size != maxSize {
        assert FirstLarge(shapes, k, first) && Denied(shapes, k);
        return Done(false);
      }
    }
    r := Done(true);
  }

  /** Without sizes below one, the columns are clear exactly when the shapes fit; with debug checks clear columns
      have no such sizes. */
  lemma ClearMeansFit(shapes: seq<Shape>, debug: bool)
    ensures AllPositive(shapes) ==> (ClearBefore(shapes, -1, debug) <==> Compatible(shapes))
    ensures AllPositive(shapes) ==> forall k :: !Stray(shapes, k)
    ensures debug && ClearBefore(shapes, -1, debug) ==> AllPositive(shapes)
  {
    hide Stray, Denied, Compatible;
    Columns(shapes);
    if AllPositive(shapes) {
      forall k: nat ensures !Stray(shapes, k) && (Clear(shapes, k, debug) <==> ColumnFits(shapes, k)) {
        PositiveColumn(shapes, k);
      }
    }
    if debug && ClearBefore(shapes, -1, debug) {
      forall k: nat | k < MaxDim(shapes) ensures ColumnPositive(shapes, k) {
        assert Clear(shapes, k, debug);
        ClearIsPositive(shapes, k);
      }
    }
  }

  lemma PositiveColumn(shapes: seq<Shape>, k: nat)
    requires AllPositive(shapes)
    ensures !Stray(shapes, k) && (Denied(shapes, k) <==> !ColumnFits(shapes, k))
  {
    forall s | s in shapes ensures At(s, k) > 0 {}
    assert forall j | 0 <= j < |shapes| :: shapes[j] in shapes;
    DeniedIffUnfit(shapes, k);
  }

  lemma {:induction false} FindLarge(shapes: seq<Shape>, k: nat, j: nat) returns (l: nat)
    requires j < |shapes| && At(shapes[j], k) > 1
    ensures l <= j && FirstLarge(shapes, k, l)
    decreases j
  {
    if i :| 0 <= i < j && At(shapes[i], k) > 1 {
      l := FindLarge(shapes, k, i);
    } else {
      l := j;
    }
  }

  lemma FirstIsBefore(shapes: seq<Shape>, k: nat, l: nat, j: nat)
    requires FirstLarge(shapes, k, l) && j < |shapes| && At(shapes[j], k) > 1
    ensures l <= j
  {
  }

  lemma UnfitIsDenied(shapes: seq<Shape>, k: nat, i: nat, j: nat)
    requires i < |shapes| && j < |shapes| && !Fit(At(shapes[i], k), At(shapes[j], k))
    requires At(shapes[i], k) > 0 && At(shapes[j], k) > 0
    ensures Denied(shapes, k)
  {
    hide At;
    var l := FindLarge(shapes, k, i);
    FirstIsBefore(shapes, k, l, j);
    var odd := if At(shapes[i], k) == At(shapes[l], k) then j else i;
    assert FirstLarge(shapes, k, l) && l < odd;
  }

  lemma DeniedIffUnfit(shapes: seq<Shape>, k: nat)
    requires forall s | s in shapes :: At(s, k) > 0
    ensures Denied(shapes, k) <==> !ColumnFits(shapes, k)
  {
    hide At;
    assert forall j | 0 <= j < |shapes| :: shapes[j] in shapes;
    if l, j :| FirstLarge(shapes, k, l) && l < j < |shapes| && At(shapes[j], k) != 1 && At(shapes[j], k) != At(shapes[l], k) {
      assert !Fit(At(shapes[l], k), At(shapes[j], k));
    }
    if s, t :| s in shapes && t in shapes && !Fit(At(s, k), At(t, k)) {
      var i: nat :| i < |shapes| && shapes[i] == s;
      var j: nat :| j < |shapes| && shapes[j] == t;
      UnfitIsDenied(shapes, k, i, j);
    }
  }

  lemma SmallBlocks(shapes: seq<Shape>, k: nat, j: nat)
    requires j < |shapes| && At(shapes[j], k) <= 0
    ensures Stray(shapes, k) || Denied(shapes, k)
  {
    if i :| 0 <= i < j && At(shapes[i], k) > 1 {
      var l := FindLarge(shapes, k, i);
      assert FirstLarge(shapes, k, l) && l < j;
    }
  }

  lemma ClearIsPositive(shapes: seq<Shape>, k: nat)
    requires Clear(shapes, k, true)
    ensures ColumnPositive(shapes, k)
  {
    hide Stray, Denied;
    forall s | s in shapes ensures At(s, k) > 0 {
      var j :| 0 <= j < |shapes| && shapes[j] == s;
      if At(s, k) <= 0 { SmallBlocks(shapes, k, j); }
    }
  }

  lemma Columns(shapes: seq<Shape>)
    ensures AllPositive(shapes) <==> forall k: nat | k < MaxDim(shapes) :: ColumnPositive(shapes, k)
    ensures Compatible(shapes) <==> forall k: nat | k < MaxDim(shapes) :: ColumnFits(shapes, k)
  {
    forall s | s in shapes ensures |s| <= MaxDim(shapes) {
      var j :| 0 <= j < |shapes| && shapes[j] == s;
      DimBounds(shapes, j);
    }
    if forall k: nat | k < MaxDim(shapes) :: ColumnPositive(shapes, k) {
      forall s, i | s in shapes && 0 <= i < |s| ensures s[i] > 0 {
        assert ColumnPositive(shapes, |s| - 1 - i) && s[i] == At(s, |s| - 1 - i);
      }
    }
    if forall k: nat | k < MaxDim(shapes) :: ColumnFits(shapes, k) {
      forall s, t, k: nat | s in shapes && t in shapes ensures Fit(At(s, k), At(t, k)) {
        assert k < MaxDim(shapes) ==> ColumnFits(shapes, k);
      }
    }
  }

  /** `broadcast_sizes`; with `debug` off shapes that do not fit are not rejected. */
  method BroadcastSizes(shapes: seq<Shape>, debug: bool) returns (r: Attempt<Shape>)
    ensures debug && !(AllPositive(shapes) && Compatible(shapes)) ==> r == Failed
    ensures !debug || (AllPositive(shapes) && Compatible(shapes)) ==> r == Done(Merged(shapes))
  {
    if debug {
      var ok := SizesBroadcastable(shapes, true);
      if ok != Done(true) { return Failed; }
    }
    var dim, padded := PadAll(shapes);
    var b := new int[dim](_ => 1);
    for i := 0 to dim
      invariant forall l | 0 <= l < i :: b[l] == MaxAt(shapes, dim - 1 - l)
      invariant forall l | i <= l < dim :: b[l] == 1
    {
      for j := 0 to |padded|
        invariant b[i] == MaxAt(shapes[..j], dim - 1 - i)
        invariant forall l | 0 <= l < i :: b[l] == MaxAt(shapes, dim - 1 - l)
        invariant forall l | i < l < dim :: b[l] == 1
      {
        assert shapes[..j + 1][..j] == shapes[..j];
        if padded[j][i] > b[i] { b[i] := padded[j][i]; }
      }
      assert shapes[..|padded|] == shapes;
    }
    r := Done(b[..]);
    assert b[..] == Merged(shapes);
  }

  // ---------------------------------------------------------------------------------------------
  // What the broadcast is
  // ---------------------------------------------------------------------------------------------

  /** A tensor of shape `s` can be expanded to the target: every size is one, missing, or that of the target. */
  ghost predicate ExpandsTo(s: Shape, target: Shape) {
    |s| <= |target| && forall k: nat {:trigger At(s, k)} :: At(s, k) == 1 || At(s, k) == At(target, k)
  }

  ghost predicate IsTarget(shapes: seq<Shape>, target: Shape) {
    Positive(target) && forall s | s in shapes :: ExpandsTo(s, target)
  }

  lemma {:induction false} MaxAtBounds(shapes: seq<Shape>, k: nat)
    ensures MaxAt(shapes, k) >= 1
    ensures forall s | s in shapes :: At(s, k) <= MaxAt(shapes, k)
    ensures MaxAt(shapes, k) == 1 || exists s :: s in shapes && At(s, k) == MaxAt(shapes, k)
  {
    if shapes != [] {
      var n := |shapes| - 1;
      MaxAtBounds(shapes[..n], k);
      assert shapes == shapes[..n] + [shapes[n]];
      assert shapes[n] in shapes;
    }
  }

  lemma {:induction false} MaxDimBounds(shapes: seq<Shape>)
    ensures forall s | s in shapes :: |s| <= MaxDim(shapes)
    ensures MaxDim(shapes) == 0 || exists s :: s in shapes && |s| == MaxDim(shapes)
  {
    if shapes != [] {
      var n := |shapes| - 1;
      MaxDimBounds(shapes[..n]);
      assert shapes == shapes[..n] + [shapes[n]];
      assert shapes[n] in shapes;
    }
  }

  lemma MergedAt(shapes: seq<Shape>, k: nat)
    ensures At(Merged(shapes), k) == MaxAt(shapes, k)
  {
    if k >= MaxDim(shapes) {
      MaxDimBounds(shapes);
      MaxAtBounds(shapes, k);
    }
  }

  /** Sizes that fit pairwise are one or the largest. */
  lemma LargestOrOne(shapes: seq<Shape>, s: Shape, k: nat)
    requires AllPositive(shapes) && Compatible(shapes) && s in shapes
    ensures At(s, k) == 1 || At(s, k) == MaxAt(shapes, k)
  {
    MaxAtBounds(shapes, k);
    if MaxAt(shapes, k) != 1 {
      var t :| t in shapes && At(t, k) == MaxAt(shapes, k);
      assert PairFits(s, t);
      assert Fit(At(s, k), At(t, k));
    } else {
      assert At(s, k) >= 1;
    }
  }

  /** Shapes fit pairwise exactly when they have a common target, and then their broadcast is one. */
  lemma CompatibleIffTarget(shapes: seq<Shape>)
    requires AllPositive(shapes)
    ensures Compatible(shapes) <==> exists target :: IsTarget(shapes, target)
    ensures Compatible(shapes) ==> IsTarget(shapes, Merged(shapes))
  {
    if Compatible(shapes) {
      MaxDimBounds(shapes);
      forall s | s in shapes ensures ExpandsTo(s, Merged(shapes)) {
        forall k: nat ensures At(s, k) == 1 || At(s, k) == At(Merged(shapes), k) {
          LargestOrOne(shapes, s, k);
          MergedAt(shapes, k);
        }
      }
      forall i | 0 <= i < MaxDim(shapes) ensures Merged(shapes)[i] > 0 { MaxAtBounds(shapes, MaxDim(shapes) - 1 - i); }
      assert IsTarget(shapes, Merged(shapes));
    }
    if target :| IsTarget(shapes, target) {
      forall s, t, k: nat | s in shapes && t in shapes ensures Fit(At(s, k), At(t, k)) {
        assert ExpandsTo(s, target) && ExpandsTo(t, target);
      }
    }
  }

  /** The broadcast is the least target: it expands to every other one. */
  lemma LeastTarget(shapes: seq<Shape>, target: Shape)
    requires AllPositive(shapes) && IsTarget(shapes, target)
    ensures ExpandsTo(Merged(shapes), target)
  {
    MaxDimBounds(shapes);
    forall k: nat ensures At(Merged(shapes), k) == 1 || At(Merged(shapes), k) == At(target, k) {
      MergedAt(shapes, k);
      MaxAtBounds(shapes, k);
      if MaxAt(shapes, k) != 1 {
        var s :| s in shapes && At(s, k) == MaxAt(shapes, k);
        assert ExpandsTo(s, target);
      }
    }
  }

  lemma SameShape(s: Shape, t: Shape)
    requires |s| == |t| && forall k: nat :: At(s, k) == At(t, k)
    ensures s == t
  {
    forall i | 0 <= i < |s| ensures s[i] == t[i] {
      assert At(s, |s| - 1 - i) == s[i] && At(t, |s| - 1 - i) == t[i];
    }
  }

  /** There is only one least target. */
  lemma LeastIsUnique(s: Shape, t: Shape)
    requires Positive(s) && Positive(t) && ExpandsTo(s, t) && ExpandsTo(t, s)
    ensures s == t
  {
    forall k: nat ensures At(s, k) == At(t, k) {
      assert At(s, k) == 1 || At(s, k) == At(t, k);
      assert At(t, k) == 1 || At(t, k) == At(s, k);
    }
    SameShape(s, t);
  }

  // ---------------------------------------------------------------------------------------------
  // Broadcasting two at a time
  // ---------------------------------------------------------------------------------------------

  /** Any way to combine shapes two at a time. */
  datatype Plan = One(shape: Shape) | Two(left: Plan, right: Plan)

  function Leaves(p: Plan): seq<Shape> {
    match p
    case One(shape) => [shape]
    case Two(left, right) => Leaves(left) + Leaves(right)
  }

  function Combined(p: Plan): Shape {
    match p
    case One(shape) => shape
    case Two(left, right) => Merged([Combined(left), Combined(right)])
  }

  /** Every two shapes that the plan combines fit. */
  ghost predicate Works(p: Plan) {
    match p
    case One(_) => true
    case Two(left, right) => Works(left) && Works(right) && PairFits(Combined(left), Combined(right))
  }

  lemma MaxAtPair(s: Shape, t: Shape, k: nat)
    requires At(s, k) >= 1
    ensures MaxAt([s, t], k) == Max(At(s, k), At(t, k))
  {
    assert [s, t][..1] == [s] && [s][..0] == [];
    assert MaxAt([s], k) == At(s, k);
  }

  lemma MaxDimPair(s: Shape, t: Shape)
    ensures MaxDim([s, t]) == Max(|s|, |t|)
  {
    assert [s, t][..1] == [s] && [s][..0] == [];
    assert MaxDim([s]) == |s|;
  }

  lemma {:induction false} MaxAtBoth(p: seq<Shape>, q: seq<Shape>, k: nat)
    ensures MaxAt(p + q, k) == Max(MaxAt(p, k), MaxAt(q, k))
    ensures MaxDim(p + q) == Max(MaxDim(p), MaxDim(q))
  {
    if q == [] {
      assert p + q == p;
      MaxAtBounds(p, k);
    } else {
      MaxAtBoth(p, q[..|q| - 1], k);
      assert (p + q)[..|p + q| - 1] == p + q[..|q| - 1];
    }
  }

  lemma {:induction false} CombinedAt(p: Plan, k: nat)
    requires AllPositive(Leaves(p))
    ensures At(Combined(p), k) == MaxAt(Leaves(p), k) >= 1
    ensures |Combined(p)| == MaxDim(Leaves(p))
  {
    match p
    case One(shape) =>
      assert [shape][..0] == [] && shape in Leaves(p);
    case Two(left, right) =>
      LeavesPositive(left, right);
      CombinedAt(left, k);
      CombinedAt(right, k);
      MergedAt([Combined(left), Combined(right)], k);
      MaxAtPair(Combined(left), Combined(right), k);
      MaxDimPair(Combined(left), Combined(right));
      MaxAtBoth(Leaves(left), Leaves(right), k);
  }

  lemma LeavesPositive(left: Plan, right: Plan)
    requires AllPositive(Leaves(left) + Leaves(right))
    ensures AllPositive(Leaves(left)) && AllPositive(Leaves(right))
  {
    forall s | s in Leaves(left) || s in Leaves(right) ensures s in Leaves(left) + Leaves(right) {}
  }

  /** Whatever the order and the bracketing, broadcasting two at a time gives the broadcast of all. */
  lemma AnyPlanMerges(p: Plan)
    requires AllPositive(Leaves(p))
    ensures Combined(p) == Merged(Leaves(p))
  {
    CombinedAt(p, 0);
    forall k: nat ensures At(Combined(p), k) == At(Merged(Leaves(p)), k) {
      CombinedAt(p, k);
      MergedAt(Leaves(p), k);
    }
    SameShape(Combined(p), Merged(Leaves(p)));
  }

  /** ... and no step is rejected exactly when all shapes together are not. */
  lemma {:induction false} AnyPlanWorks(p: Plan)
    requires AllPositive(Leaves(p))
    ensures Works(p) <==> Compatible(Leaves(p))
  {
    match p
    case One(shape) =>
    case Two(left, right) =>
      LeavesPositive(left, right);
      AnyPlanWorks(left);
      AnyPlanWorks(right);
      var a, b := Leaves(left), Leaves(right);
      CompatibleBoth(a, b);
      if Compatible(a) && Compatible(b) {
        CrossFits(a, b);
        CombinedFit(left, right);
      }
  }

  lemma CombinedFit(left: Plan, right: Plan)
    requires AllPositive(Leaves(left)) && AllPositive(Leaves(right))
    ensures PairFits(Combined(left), Combined(right)) <==> LargestFit(Leaves(left), Leaves(right))
  {
    forall k: nat
      ensures At(Combined(left), k) == MaxAt(Leaves(left), k)
      ensures At(Combined(right), k) == MaxAt(Leaves(right), k)
    {
      CombinedAt(left, k);
      CombinedAt(right, k);
    }
    if PairFits(Combined(left), Combined(right)) {
      forall k: nat ensures Fit(MaxAt(Leaves(left), k), MaxAt(Leaves(right), k)) {
        assert Fit(At(Combined(left), k), At(Combined(right), k));
      }
    }
  }

  ghost predicate Cross(a: seq<Shape>, b: seq<Shape>) {
    forall s, t | s in a && t in b :: PairFits(s, t)
  }

  lemma CompatibleBoth(a: seq<Shape>, b: seq<Shape>)
    ensures Compatible(a + b) <==> Compatible(a) && Compatible(b) && Cross(a, b)
  {
    forall s | s in a || s in b ensures s in a + b {}
    if Compatible(a) && Compatible(b) && Cross(a, b) {
      forall s, t | s in a + b && t in a + b ensures PairFits(s, t) {
        if s in b && t in a {
          assert PairFits(t, s);
          forall k: nat ensures Fit(At(s, k), At(t, k)) { assert Fit(At(t, k), At(s, k)); }
        }
      }
    }
  }

  ghost predicate LargestFit(a: seq<Shape>, b: seq<Shape>) {
    forall k: nat {:trigger MaxAt(a, k)} {:trigger MaxAt(b, k)} :: Fit(MaxAt(a, k), MaxAt(b, k))
  }

  /** The shapes of two groups fit each other exactly when the broadcasts of the groups do. */
  lemma CrossFits(a: seq<Shape>, b: seq<Shape>)
    requires AllPositive(a) && AllPositive(b) && Compatible(a) && Compatible(b)
    ensures Cross(a, b) <==> LargestFit(a, b)
  {
    if Cross(a, b) {
      forall k: nat ensures Fit(MaxAt(a, k), MaxAt(b, k)) {
        MaxAtBounds(a, k);
        MaxAtBounds(b, k);
        if MaxAt(a, k) != 1 && MaxAt(b, k) != 1 {
          var s :| s in a && At(s, k) == MaxAt(a, k);
          var t :| t in b && At(t, k) == MaxAt(b, k);
          assert PairFits(s, t);
        }
      }
    }
    if LargestFit(a, b) {
      forall s, t | s in a && t in b ensures PairFits(s, t) {
        forall k: nat ensures Fit(At(s, k), At(t, k)) {
          LargestOrOne(a, s, k);
          LargestOrOne(b, t, k);
          assert Fit(MaxAt(a, k), MaxAt(b, k));
        }
      }
    }
  }

  /** The order of the shapes does not matter. */
  lemma OrderIsIrrelevant(p: seq<Shape>, q: seq<Shape>)
    requires forall s :: s in p <==> s in q
    ensures Merged(p) == Merged(q) && (Compatible(p) <==> Compatible(q))
  {
    MaxDimBounds(p);
    MaxDimBounds(q);
    forall k: nat ensures MaxAt(p, k) == MaxAt(q, k) {
      MaxAtBounds(p, k);
      MaxAtBounds(q, k);
    }
  }
}
