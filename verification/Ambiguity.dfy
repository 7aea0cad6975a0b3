/** Resolving when several nodes may provide the same value. */
module Ambiguity {
  import opened Common
  import opened Dependencies
  import opened Graphs

  /** Some value of the node is consumed by another. */
  ghost predicate Consumed(d: Declarations, n: Node) {
    exists p :: p in d.provided && p.parent == n && d.Consumers(p) != {}
  }

  /** The node is the only candidate of some consumed item. */
  ghost predicate SoleProvider(d: Declarations, n: Node) {
    exists i :: i in d.consumed && d.Providers(i) != {} && forall p | p in d.Providers(i) :: p.parent == n
  }

  /** The declared dependencies are acyclic, and every node that is consumed at all cannot be done without. */
  ghost predicate Robust(d: Declarations) {
    Acyclic(Needs(d)) && forall n {:trigger Consumed(d, n)} | n in d.nodes && Consumed(d, n) :: SoleProvider(d, n)
  }

  /** The search succeeds on these graphs. */
  ghost predicate Resolves(d: Declarations, a: Adjacency) {
    Acyclic(a.nodeProviders) && AllReached(a.nodeProviders, a.endNodes, d.nodes)
  }

  // ---------------------------------------------------------------------------------------------
  // The condition suffices
  // ---------------------------------------------------------------------------------------------

  lemma RobustIsAcyclic(d: Declarations, a: Adjacency)
    requires d.Valid() && Built(d, a) && Acyclic(Needs(d))
    ensures Acyclic(a.nodeProviders)
  {
    forall p: seq<Node> ensures !Cycle(a.nodeProviders, p) {
      if Cycle(a.nodeProviders, p) {
        forall i | 0 <= i < |p| - 1 ensures Edge(Needs(d), p[i], p[i + 1]) {
          assert Edge(a.nodeProviders, p[i], p[i + 1]);
          RecordedIsNeeded(d, a, p[i], p[i + 1]);
        }
        assert Cycle(Needs(d), p);
      }
    }
  }

  lemma SoleProviderIsNeeded(d: Declarations, a: Adjacency, n: Node)
    requires d.Valid() && Built(d, a) && SoleProvider(d, n) && n !in a.endNodes && n in d.nodes
    ensures NeededBy(a.nodeProviders, d.nodes, n)
  {
    var i :| i in d.consumed && d.Providers(i) != {} && forall p | p in d.Providers(i) :: p.parent == n;
    assert OneOf(a.itemProviders[i], d.Providers(i));
    var j :| j in d.Providers(i) && a.itemProviders[i] == {j};
    assert Recorded(a, i, j);
    assert i.parent == NULL ==> j in OutboundItems(d.consumed, a.itemProviders);
    assert j in OutboundItems(d.consumed, a.itemProviders) ==> n in Parents(OutboundItems(d.consumed, a.itemProviders));
    RecordedIsEdge(a, i, j);
  }

  lemma RobustResolves(d: Declarations, a: Adjacency)
    requires d.Valid() && Built(d, a) && Robust(d)
    ensures Resolves(d, a)
  {
    RobustIsAcyclic(d, a);
    NodeGraphClosed(d, a);
    forall n | n in d.nodes && n !in a.endNodes ensures NeededBy(a.nodeProviders, d.nodes, n) {
      assert n in a.nodeConsumers && HasEntry(a.itemConsumers, n);
      var p :| p in a.itemConsumers && p.parent == n;
      assert Consumed(d, n);
      SoleProviderIsNeeded(d, a, n);
    }
    AcyclicIsReached(a.nodeProviders, d.nodes, a.endNodes);
  }

  // ---------------------------------------------------------------------------------------------
  // The graphs for given addresses
  // ---------------------------------------------------------------------------------------------

  /** The recorded item is the one of the node with the lowest address among all candidates. */
  ghost predicate Lowest(d: Declarations, side: Side, items: map<Item, set<Item>>, address: map<Node, nat>) {
    forall i, j, x | i in items && j in items[i] && x in d.Choices(side, i) ::
      j.parent in address && x.parent in address && address[j.parent] <= address[x.parent]
  }

  /** The graphs that the program builds when the nodes have these addresses. */
  ghost predicate BuiltAt(d: Declarations, a: Adjacency, address: map<Node, nat>) {
    && Built(d, a)
    && address.Keys == d.nodes && (forall m, n | m in address && n in address && m != n :: address[m] != address[n])
    && Lowest(d, Upstream, a.itemProviders, address) && Lowest(d, Downstream, a.itemConsumers, address)
  }

  lemma {:induction false} LowestExists(choices: set<Item>, address: map<Node, nat>) returns (j: Item)
    requires choices != {} && forall x | x in choices :: x.parent in address
    ensures j in choices && forall x | x in choices :: address[j.parent] <= address[x.parent]
  {
    var x :| x in choices;
    if choices == {x} {
      j := x;
    } else {
      j := LowestExists(choices - {x}, address);
      if address[x.parent] < address[j.parent] { j := x; }
    }
  }

  ghost function Pick(choices: set<Item>, address: map<Node, nat>): (j: Item)
    requires choices != {} && forall x | x in choices :: x.parent in address
    ensures j in choices && forall x | x in choices :: address[j.parent] <= address[x.parent]
  {
    assert exists j :: j in choices && forall x | x in choices :: address[j.parent] <= address[x.parent] by {
      var j := LowestExists(choices, address);
    }
    var j :| j in choices && forall x | x in choices :: address[j.parent] <= address[x.parent];
    j
  }

  lemma ChoicesInside(d: Declarations, side: Side, i: Item)
    requires d.Valid()
    ensures forall x | x in d.Choices(side, i) :: x.parent in d.nodes
  {
  }

  ghost function Picks(d: Declarations, side: Side, done: set<Item>, address: map<Node, nat>): map<Item, set<Item>>
    requires d.Valid() && address.Keys == d.nodes
  {
    map i | i in done && d.Choices(side, i) != {} :: ChoicesInside(d, side, i); {Pick(d.Choices(side, i), address)}
  }

  ghost function Owners(items: map<Item, set<Item>>): set<Node> {
    set i | i in items && i.parent != NULL :: i.parent
  }

  ghost function Targets(items: map<Item, set<Item>>, n: Node): set<Node> {
    set i, j | i in items && i.parent == n && j in items[i] :: j.parent
  }

  ghost function Project(items: map<Item, set<Item>>): Graph {
    map n | n in Owners(items) :: Targets(items, n)
  }

  lemma ProjectProjects(items: map<Item, set<Item>>)
    ensures Projects(items, Project(items))
  {
    var g := Project(items);
    forall n, m ensures Edge(g, n, m) <==> n != NULL && Links(items, n, m) {
      if n != NULL && Links(items, n, m) {
        var i, j :| i in items && j in items[i] && i.parent == n && j.parent == m;
      }
    }
  }

  lemma PickedAt(d: Declarations, side: Side, done: set<Item>, address: map<Node, nat>, i: Item)
    requires d.Valid() && address.Keys == d.nodes && i in Picks(d, side, done, address)
    ensures d.Choices(side, i) != {} && forall x | x in d.Choices(side, i) :: x.parent in address
    ensures Picks(d, side, done, address)[i] == {Pick(d.Choices(side, i), address)}
  {
    hide Pick;
    ChoicesInside(d, side, i);
  }

  lemma PicksAreChosen(d: Declarations, side: Side, done: set<Item>, address: map<Node, nat>)
    requires d.Valid() && address.Keys == d.nodes
    ensures Adjacent(d, side, done, Picks(d, side, done, address), Project(Picks(d, side, done, address)))
  {
    hide Pick, Projects, Project;
    var items := Picks(d, side, done, address);
    ProjectProjects(items);
    forall i | i in items ensures OneOf(items[i], d.Choices(side, i)) { PickedAt(d, side, done, address, i); }
  }

  lemma PicksAreLowest(d: Declarations, side: Side, done: set<Item>, address: map<Node, nat>)
    requires d.Valid() && address.Keys == d.nodes
    ensures Lowest(d, side, Picks(d, side, done, address), address)
  {
    hide Pick, Picks;
    var items := Picks(d, side, done, address);
    forall i, j: Item, x: Item | i in items && j in items[i] && x in d.Choices(side, i)
      ensures j.parent in address && x.parent in address && address[j.parent] <= address[x.parent]
    {
      PickedAt(d, side, done, address, i);
    }
  }

  /** For all addresses there are graphs. */
  lemma SomethingIsBuilt(d: Declarations, address: map<Node, nat>) returns (a: Adjacency)
    requires d.Valid() && d.OutboundProvided() && address.Keys == d.nodes
    requires forall m, n | m in address && n in address && m != n :: address[m] != address[n]
    ensures BuiltAt(d, a, address)
  {
    hide Adjacent, Lowest, Picks, Project;
    PicksAreChosen(d, Upstream, d.consumed, address);
    PicksAreChosen(d, Downstream, d.provided, address);
    PicksAreLowest(d, Upstream, d.consumed, address);
    PicksAreLowest(d, Downstream, d.provided, address);
    var ip, ic := Picks(d, Upstream, d.consumed, address), Picks(d, Downstream, d.provided, address);
    var np, nc := Project(ip), Project(ic);
    var out := OutboundItems(d.consumed, ip);
    a := Adjacency(ip, ic, np, nc, d.nodes - np.Keys, d.nodes - nc.Keys + Parents(out), d.consumed - ip.Keys, d.provided - ic.Keys + out);
  }

  // ---------------------------------------------------------------------------------------------
  // The condition is necessary
  // ---------------------------------------------------------------------------------------------

  lemma {:induction false} Above(nodes: set<Node>) returns (top: nat)
    ensures forall n | n in nodes :: n < top
  {
    if n :| n in nodes {
      var below := Above(nodes - {n});
      top := Max(below, n + 1);
      assert forall m | m in nodes :: m == n || m in nodes - {n};
    } else {
      top := 0;
    }
  }

  ghost predicate Among(items: set<Item>, nodes: set<Node>) {
    forall p | p in items :: p.parent in nodes
  }

  /** A node in `late` is recorded only for items that have no other candidates. */
  ghost predicate LastResort(d: Declarations, a: Adjacency, late: set<Node>) {
    forall i, j | Recorded(a, i, j) && j.parent in late :: Among(d.Providers(i), late)
  }

  /** Addresses at which some nodes come last. */
  lemma LastChoice(d: Declarations, late: set<Node>) returns (a: Adjacency, address: map<Node, nat>)
    requires d.Valid() && d.OutboundProvided()
    ensures BuiltAt(d, a, address) && LastResort(d, a, late)
  {
    hide Built, Adjacent;
    var top := Above(d.nodes);
    address := map n | n in d.nodes :: if n in late then n + top else n;
    a := SomethingIsBuilt(d, address);
    forall i, j, p | Recorded(a, i, j) && j.parent in late && p in d.Providers(i) ensures p.parent in late {
      assert p in d.Choices(Upstream, i) && address[j.parent] <= address[p.parent];
    }
  }

  /** The provider that is recorded for an item. */
  lemma SomethingIsRecorded(d: Declarations, a: Adjacency, i: Item) returns (j: Item)
    requires Built(d, a) && i in d.consumed && d.Providers(i) != {}
    ensures Recorded(a, i, j)
  {
    assert OneOf(a.itemProviders[i], d.Providers(i));
    j :| j in d.Providers(i) && a.itemProviders[i] == {j};
  }

  /** A declared cycle is recorded at some addresses. */
  lemma CycleIsRecorded(d: Declarations, p: seq<Node>) returns (a: Adjacency, address: map<Node, nat>)
    requires d.Valid() && d.OutboundProvided() && Cycle(Needs(d), p)
    ensures BuiltAt(d, a, address) && !Acyclic(a.nodeProviders)
  {
    hide Built, Lowest, LastResort, Needs;
    var on := set n | n in p;
    a, address := LastChoice(d, d.nodes - on);
    forall n | n in on ensures Leads(a.nodeProviders, on, n) {
      var i: nat :| i < |p| && p[i] == n;
      var k := if i == |p| - 1 then 0 else i;
      assert Edge(Needs(d), p[k], p[k + 1]);
      StaysOn(d, a, on, n, p[k + 1]);
    }
    assert p[0] in on;
    ForwardWalkCycles(a.nodeProviders, on, [p[0]], on);
  }

  lemma StaysOn(d: Declarations, a: Adjacency, on: set<Node>, n: Node, m: Node)
    requires d.Valid() && Built(d, a) && Edge(Needs(d), n, m) && m in on
    requires LastResort(d, a, d.nodes - on)
    ensures Leads(a.nodeProviders, on, n)
  {
    hide Adjacent;
    var i, q :| i in d.consumed && i.parent == n && q in d.Providers(i) && q.parent == m;
    var j := SomethingIsRecorded(d, a, i);
    RecordedMatch(d, a, i, j);
    RecordedProjects(d, a, i, j);
    assert j.parent !in on ==> Among(d.Providers(i), d.nodes - on);
  }

  lemma RecordedProjects(d: Declarations, a: Adjacency, i: Item, j: Item)
    requires d.Valid() && Built(d, a) && Recorded(a, i, j) && i.parent != NULL
    ensures Edge(a.nodeProviders, i.parent, j.parent)
  {
    RecordedIsEdge(a, i, j);
  }

  /** A node that is consumed, but nowhere the only candidate, is missed at some addresses. */
  lemma DispensableIsMissed(d: Declarations, n: Node) returns (a: Adjacency, address: map<Node, nat>)
    requires d.Valid() && d.OutboundProvided() && n in d.nodes && Consumed(d, n) && !SoleProvider(d, n)
    ensures BuiltAt(d, a, address) && !ReachableFrom(a.nodeProviders, a.endNodes, n)
  {
    hide Built, Lowest, LastResort, Consumed, SoleProvider;
    a, address := LastChoice(d, {n});
    NeverRecorded(d, a, n);
    UnneededIsUnreached(a.nodeProviders, a.endNodes, n);
  }

  lemma NeverRecorded(d: Declarations, a: Adjacency, n: Node)
    requires d.Valid() && Built(d, a) && LastResort(d, a, {n}) && Consumed(d, n) && !SoleProvider(d, n)
    ensures n !in a.endNodes && forall c :: !Edge(a.nodeProviders, c, n)
  {
    forall i, j | Recorded(a, i, j) ensures j.parent != n {
      RecordedMatch(d, a, i, j);
      assert j.parent == n ==> Among(d.Providers(i), {n});
    }
    forall c ensures !Edge(a.nodeProviders, c, n) {
      if Edge(a.nodeProviders, c, n) { var i, j := EdgeIsRecorded(d, a, c, n); }
    }
    NotAnEnd(d, a, n);
  }

  lemma NotAnEnd(d: Declarations, a: Adjacency, n: Node)
    requires d.Valid() && Built(d, a) && Consumed(d, n)
    requires forall i, j | Recorded(a, i, j) :: j.parent != n
    ensures n !in a.endNodes
  {
    var p :| p in d.provided && p.parent == n && d.Consumers(p) != {};
    assert p in a.itemConsumers && HasEntry(a.itemConsumers, n);
    forall j | j in OutboundItems(d.consumed, a.itemProviders) ensures j.parent != n {
      var c :| c in d.consumed && c.parent == NULL && c in a.itemProviders && j in a.itemProviders[c];
      assert Recorded(a, c, j);
    }
  }

  lemma UnneededIsUnreached(g: Graph, roots: set<Node>, n: Node)
    requires n !in roots && forall c :: !Edge(g, c, n)
    ensures !ReachableFrom(g, roots, n)
  {
    forall r, p | r in roots ensures !Connects(g, p, r, n) {
      if Path(g, p) && |p| > 1 { assert Edge(g, p[|p| - 2], p[|p| - 2 + 1]); }
    }
  }

  /** When providers need not be unique, resolving succeeds at all addresses exactly when the declared
      dependencies are acyclic and every node that is consumed at all is the only candidate of some item. */
  lemma ResolvesIffRobust(d: Declarations)
    requires d.Valid() && d.OutboundProvided()
    ensures Robust(d) <==> forall a, address | BuiltAt(d, a, address) :: Resolves(d, a)
    ensures Robust(d) <==> forall a | Built(d, a) :: Resolves(d, a)
  {
    if Robust(d) {
      forall a | Built(d, a) ensures Resolves(d, a) { RobustResolves(d, a); }
    } else if !Acyclic(Needs(d)) {
      var p :| Cycle(Needs(d), p);
      var a, address := CycleIsRecorded(d, p);
      assert !Resolves(d, a);
    } else {
      var n :| n in d.nodes && Consumed(d, n) && !SoleProvider(d, n);
      var a, address := DispensableIsMissed(d, n);
      assert !Resolves(d, a);
    }
  }

  /** With unique providers every node that is consumed is the only candidate of some item. */
  lemma UniqueIsRobust(d: Declarations)
    requires d.UniqueProviders()
    ensures Robust(d) <==> Acyclic(Needs(d))
  {
    forall n | Consumed(d, n) ensures SoleProvider(d, n) {
      var p :| p in d.provided && p.parent == n && d.Consumers(p) != {};
      var c :| c in d.Consumers(p);
      assert p in d.Providers(c);
      forall q | q in d.Providers(c) ensures q == p { AtMostOne(d.Providers(c), p, q); }
    }
  }

  // ---------------------------------------------------------------------------------------------
  // The smallest case
  // ---------------------------------------------------------------------------------------------

  const AMBIGUOUS := Declarations({1, 2, 3}, {Item(3, "x")}, {Item(1, "x"), Item(2, "x")}, map[])

  const AMBIGUOUS_GRAPHS := Adjacency(
    map[Item(3, "x") := {Item(1, "x")}], map[Item(1, "x") := {Item(3, "x")}, Item(2, "x") := {Item(3, "x")}],
    map[3 := {1}], map[1 := {3}, 2 := {3}], {1, 2}, {3}, {}, {})

  lemma AmbiguousChoices()
    ensures AMBIGUOUS.Providers(Item(3, "x")) == {Item(1, "x"), Item(2, "x")}
    ensures AMBIGUOUS.Consumers(Item(1, "x")) == {Item(3, "x")}
    ensures AMBIGUOUS.Consumers(Item(2, "x")) == {Item(3, "x")}
  {
  }

  lemma AmbiguousUpstream()
    ensures Adjacent(AMBIGUOUS, Upstream, AMBIGUOUS.consumed, AMBIGUOUS_GRAPHS.itemProviders, AMBIGUOUS_GRAPHS.nodeProviders)
  {
    AmbiguousChoices();
    TreatOneMore(AMBIGUOUS, Upstream, {}, map[], map[], Item(3, "x"), [Item(1, "x"), Item(2, "x")]);
    assert {} + {Item(3, "x")} == AMBIGUOUS.consumed;
  }

  lemma AmbiguousDownstream()
    ensures Adjacent(AMBIGUOUS, Downstream, AMBIGUOUS.provided, AMBIGUOUS_GRAPHS.itemConsumers, AMBIGUOUS_GRAPHS.nodeConsumers)
  {
    var items := AMBIGUOUS_GRAPHS.itemConsumers;
    AmbiguousLinks(items);
    assert Chosen(AMBIGUOUS, Downstream, AMBIGUOUS.provided, items) by {
      AmbiguousChoices();
      assert OneOf({Item(3, "x")}, {Item(3, "x")});
    }
  }

  lemma AmbiguousLinks(items: map<Item, set<Item>>)
    requires items == map[Item(1, "x") := {Item(3, "x")}, Item(2, "x") := {Item(3, "x")}]
    ensures Projects(items, map[1 := {3}, 2 := {3}])
  {
    var c, p, q := Item(3, "x"), Item(1, "x"), Item(2, "x");
    assert p in items && q in items && c in items[p] && c in items[q];
    assert HasEntry(items, 1) && HasEntry(items, 2) && Links(items, 1, 3) && Links(items, 2, 3);
  }

  lemma AmbiguousIsBuilt()
    ensures AMBIGUOUS.Valid() && Built(AMBIGUOUS, AMBIGUOUS_GRAPHS) && AMBIGUOUS.OutboundProvided()
  {
    AmbiguousUpstream();
    AmbiguousDownstream();
    assert OutboundItems(AMBIGUOUS.consumed, AMBIGUOUS_GRAPHS.itemProviders) == {};
  }

  lemma OneEdge(g: Graph)
    requires g == map[3 := {1}]
    ensures Acyclic(g) && !ReachableFrom(g, {3}, 2)
  {
    TopologicalIsAcyclic(g, {1, 3}, [1, 3]) by {
      assert Edge(g, 3, 1) && [1, 3][..1] == [1];
    }
    forall path: seq<Node> | |path| >= 2 && Path(g, path) ensures path[|path| - 1] == 1 {
      assert Edge(g, path[|path| - 2], path[|path| - 2 + 1]);
    }
  }

  /** Uniqueness cannot be dropped. Of two providers of one value only the first is recorded, yet both
      count as having a consumer: the graph is acyclic and the other provider is reached by nobody, so
      that resolving must report it missing. */
  lemma AmbiguousProviderIsMissed()
    ensures AMBIGUOUS.Valid() && Built(AMBIGUOUS, AMBIGUOUS_GRAPHS) && AMBIGUOUS.OutboundProvided()
    ensures Acyclic(AMBIGUOUS_GRAPHS.nodeProviders)
    ensures 2 in AMBIGUOUS.nodes && !ReachableFrom(AMBIGUOUS_GRAPHS.nodeProviders, AMBIGUOUS_GRAPHS.endNodes, 2)
  {
    AmbiguousIsBuilt();
    OneEdge(AMBIGUOUS_GRAPHS.nodeProviders);
  }
}
