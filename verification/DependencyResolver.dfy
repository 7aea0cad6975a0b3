/** The resolver itself: it collects declarations, builds the graphs and finds an evaluation order. */
module DependencyResolver {
  import opened Ambiguity
  import opened Common
  import opened Graphs
  import opened Dependencies

  datatype Error =
    | MultipleProviders(item: Item)
    | MultipleConsumers(item: Item)
    | NoOutboundProvider(item: Item)
    | CyclicDependency(node: Node, dep: Node)
    | MissingNode(node: Node)
    | RepeatedNode(node: Node, count: nat)

  type Outcome = Result<(), Error>

  /** `build_graph` returns normally on these declarations and flags. */
  ghost predicate Buildable(d: Declarations, uniqueProvider: bool, uniqueConsumer: bool) {
    && (uniqueProvider ==> d.UniqueProviders())
    && (uniqueConsumer ==> d.UniqueConsumers())
    && d.OutboundProvided()
  }

  /** What an error of `build_graph` says about the declarations. */
  ghost predicate Explains(d: Declarations, uniqueProvider: bool, uniqueConsumer: bool, e: Error) {
    match e
    case MultipleProviders(c) => uniqueProvider && c in d.consumed && |d.Providers(c)| > 1
    case MultipleConsumers(p) => uniqueConsumer && p in d.provided && |d.Consumers(p)| > 1
    case NoOutboundProvider(c) => c in d.consumed && c.parent == NULL && d.Providers(c) == {}
    case _ => false
  }

  /** The order in which a depth-first search has finished nodes and the path it stands on. */
  ghost predicate SearchState(g: Graph, nodes: set<Node>, roots: set<Node>, status: map<Node, nat>,
                              resolution: seq<Node>, path: seq<Node>)
  {
    && (forall n | n in path || n in resolution :: n in nodes && ReachableFrom(g, roots, n))
    && Distinct(path)
    && (path != [] ==> Path(g, path))
    && Topological(g, resolution)
    && (forall n :: Status(status, n) <= 2)
    && (forall n :: Status(status, n) == 1 <==> n in path)
    && (forall n :: Status(status, n) == 2 <==> n in resolution)
  }

  /** `_status[n]`, which is 0 until first assigned. */
  function Status(status: map<Node, nat>, n: Node): nat {
    if n in status then status[n] else 0
  }

  ghost function Unvisited(nodes: set<Node>, status: map<Node, nat>): set<Node> {
    set n | n in nodes && Status(status, n) == 0
  }

  /** Marking `node` as being visited puts it on the recursion path. */
  lemma EnterNode(g: Graph, nodes: set<Node>, roots: set<Node>, status: map<Node, nat>, resolution: seq<Node>,
                  path: seq<Node>, node: Node)
    requires SearchState(g, nodes, roots, status, resolution, path)
    requires node in nodes && ReachableFrom(g, roots, node) && Status(status, node) == 0
    requires path != [] ==> Edge(g, path[|path| - 1], node)
    ensures SearchState(g, nodes, roots, status[node := 1], resolution, path + [node])
    ensures Unvisited(nodes, status[node := 1]) == Unvisited(nodes, status) - {node}
  {
    var next := status[node := 1];
    assert node !in path && node !in resolution;
    forall n ensures Status(next, n) == if n == node then 1 else Status(status, n) {}
    forall n ensures n in path + [node] <==> n in path || n == node {}
    forall i | 0 <= i < |path| ensures Edge(g, (path + [node])[i], (path + [node])[i + 1]) {
      if i < |path| - 1 { assert Edge(g, path[i], path[i + 1]); }
    }
  }

  /** Once all its dependencies are resolved, `node` may be appended and leaves the path. */
  lemma LeaveNode(g: Graph, nodes: set<Node>, roots: set<Node>, status: map<Node, nat>, resolution: seq<Node>,
                  path: seq<Node>, node: Node)
    requires SearchState(g, nodes, roots, status, resolution, path + [node])
    requires forall dep | Edge(g, node, dep) :: dep in resolution
    ensures SearchState(g, nodes, roots, status[node := 2], resolution + [node], path)
    ensures Unvisited(nodes, status[node := 2]) == Unvisited(nodes, status)
  {
    var here := path + [node];
    assert here[|path|] == node && node in here;
    assert Status(status, node) == 1 && node !in resolution;
    assert Distinct(path) by {
      forall i, j | 0 <= i < j < |path| ensures path[i] != path[j] {
        assert here[i] != here[j];
      }
    }
    if path != [] {
      forall i | 0 <= i < |path| - 1 ensures Edge(g, path[i], path[i + 1]) {
        assert Edge(g, here[i], here[i + 1]);
      }
    }
    AppendTopological(g, resolution, node);
    var next := status[node := 2];
    forall n ensures Status(next, n) <= 2 && Status(next, n) == if n == node then 2 else Status(status, n) {
      assert Status(status, n) <= 2;
    }
    forall n ensures n in here <==> n in path || n == node {}
    forall n ensures n in resolution + [node] <==> n in resolution || n == node {}
    assert node !in path by {
      forall i | 0 <= i < |path| ensures path[i] != node { assert here[i] != here[|path|]; }
    }
  }

  lemma AppendTopological(g: Graph, order: seq<Node>, node: Node)
    requires Topological(g, order) && node !in order
    requires forall dep | Edge(g, node, dep) :: dep in order
    ensures Topological(g, order + [node])
  {
    var longer := order + [node];
    forall i, b | 0 <= i < |longer| && Edge(g, longer[i], b) ensures b in longer[..i] {
      assert longer[..i] == order[..i];
    }
  }

  /** `dep` leads back to `node`, which depends on it. */
  ghost predicate BackEdge(g: Graph, node: Node, dep: Node) {
    Edge(g, node, dep) && exists p :: Connects(g, p, dep, node)
  }

  lemma BackEdgeIsCycle(g: Graph, node: Node, dep: Node)
    requires BackEdge(g, node, dep)
    ensures !Acyclic(g)
  {
    var p :| Connects(g, p, dep, node);
    ClosingPath(g, p, 0);
  }

  lemma OnPathIsBackEdge(g: Graph, path: seq<Node>, dep: Node)
    requires Path(g, path) && dep in path && Edge(g, path[|path| - 1], dep)
    ensures BackEdge(g, path[|path| - 1], dep)
  {
    var k :| 0 <= k < |path| && path[k] == dep;
    assert Connects(g, path[k..], dep, path[|path| - 1]);
  }

  lemma {:induction false} DistinctCountsOnce(q: seq<Node>, n: Node)
    requires Distinct(q)
    ensures multiset(q)[n] == if n in q then 1 else 0
  {
    if q != [] {
      var front, last := q[..|q| - 1], q[|q| - 1];
      assert q == front + [last];
      DistinctCountsOnce(front, n);
    }
  }

  /** A finished search over all roots has listed exactly what they reach. */
  lemma SearchIsComplete(g: Graph, nodes: set<Node>, roots: set<Node>, status: map<Node, nat>, resolution: seq<Node>)
    requires SearchState(g, nodes, roots, status, resolution, [])
    requires forall r | r in roots :: r in resolution
    ensures forall n :: n in resolution <==> ReachableFrom(g, roots, n)
  {
    forall n | ReachableFrom(g, roots, n) ensures n in resolution {
      var r, p :| r in roots && Connects(g, p, r, n);
      ReachableListed(g, resolution, p);
    }
  }

  /** How the search ends: with a topological order of all nodes exactly when the graph is acyclic and
      every node is reached; otherwise it points at a real cycle or at a node that is not reached. */
  ghost predicate SearchVerdict(g: Graph, nodes: set<Node>, roots: set<Node>, r: Outcome, resolution: seq<Node>) {
    match r
    case Pass(_) =>
      Acyclic(g) && AllReached(g, roots, nodes) && Topological(g, resolution) && Lists(resolution, nodes)
    case Fail(CyclicDependency(node, dep)) => BackEdge(g, node, dep) && !Acyclic(g)
    case Fail(MissingNode(node)) => node in nodes && !ReachableFrom(g, roots, node)
    case _ => false
  }

  /** How `resolve` ends. It returns normally exactly when the graphs can be built, the recorded graph is
      acyclic and every node is reached from the end nodes. When providers must be unique the last
      condition follows, so that acyclicity of the declared dependencies alone decides. A node never
      appears more than once. */
  ghost predicate Verdict(d: Declarations, a: Adjacency, uniqueProvider: bool, uniqueConsumer: bool, r: Outcome, resolution: seq<Node>) {
    var buildable := Buildable(d, uniqueProvider, uniqueConsumer);
    && (r.Pass? <==> buildable && Acyclic(a.nodeProviders) && AllReached(a.nodeProviders, a.endNodes, d.nodes))
    && (uniqueProvider ==> (r.Pass? <==> buildable && Acyclic(Needs(d))))
    && (buildable && Robust(d) ==> r.Pass?)
    && (if buildable then Built(d, a) && SearchVerdict(a.nodeProviders, d.nodes, a.endNodes, r, resolution)
                     else r.Fail? && Explains(d, uniqueProvider, uniqueConsumer, r.error))
  }

  lemma Conclude(d: Declarations, a: Adjacency, uniqueProvider: bool, uniqueConsumer: bool, r: Outcome, resolution: seq<Node>)
    requires d.Valid() && Built(d, a) && Buildable(d, uniqueProvider, uniqueConsumer)
    requires SearchVerdict(a.nodeProviders, d.nodes, a.endNodes, r, resolution)
    ensures Verdict(d, a, uniqueProvider, uniqueConsumer, r, resolution)
  {
    UniqueDecides(d, a);
    if Robust(d) { RobustResolves(d, a); }
  }

  lemma ConcludeUnbuilt(d: Declarations, a: Adjacency, uniqueProvider: bool, uniqueConsumer: bool, r: Outcome, resolution: seq<Node>)
    requires !Buildable(d, uniqueProvider, uniqueConsumer)
    requires r.Fail? && Explains(d, uniqueProvider, uniqueConsumer, r.error)
    ensures Verdict(d, a, uniqueProvider, uniqueConsumer, r, resolution)
  {
  }

  ghost predicate Lists(order: seq<Node>, nodes: set<Node>) {
    forall n :: n in order <==> n in nodes
  }

  /** The inner loop over provided items. */
  method MatchProviders(d: Declarations, item: Item) returns (providers: seq<Item>)
    ensures forall p :: p in providers <==> p in d.Providers(item)
    ensures |providers| == |d.Providers(item)|
  {
    providers := [];
    var rest := d.provided;
    ghost var found: set<Item> := {};
    while rest != {}
      invariant rest <= d.provided
      invariant found == set p | p in d.provided - rest && d.Matches(item, p)
      invariant |found| == |providers| && forall p :: p in providers <==> p in found
    {
      var p :| p in rest;
      rest := rest - {p};
      if item.value != p.value { continue; }
      if item.parent == p.parent { continue; }
      if d.Priority(item.parent) > d.Priority(p.parent) { continue; }
      providers := providers + [p];
      found := found + {p};
    }
    assert found == d.Providers(item);
  }

  /** The inner loop over consumed items. */
  method MatchConsumers(d: Declarations, item: Item) returns (consumers: seq<Item>)
    ensures forall c :: c in consumers <==> c in d.Consumers(item)
    ensures |consumers| == |d.Consumers(item)|
  {
    consumers := [];
    var rest := d.consumed;
    ghost var found: set<Item> := {};
    while rest != {}
      invariant rest <= d.consumed
      invariant found == set c | c in d.consumed - rest && c.parent != NULL && d.Matches(c, item)
      invariant |found| == |consumers| && forall c :: c in consumers <==> c in found
    {
      var c :| c in rest;
      rest := rest - {c};
      if c.parent == NULL { continue; }
      if item.value != c.value { continue; }
      if item.parent == c.parent { continue; }
      if d.Priority(item.parent) < d.Priority(c.parent) { continue; }
      consumers := consumers + [c];
      found := found + {c};
    }
    assert found == d.Consumers(item);
  }

  /** The first part of `build_graph`: who provides what is consumed. */
  method BuildProviders(d: Declarations, unique: bool) returns (r: Outcome, items: map<Item, set<Item>>, g: Graph)
    ensures r.Pass? <==> (unique ==> d.UniqueProviders())
    ensures r.Pass? ==> Adjacent(d, Upstream, d.consumed, items, g)
    ensures r.Fail? ==> r.error.MultipleProviders? && r.error.item in d.consumed && |d.Providers(r.error.item)| > 1
  {
    r, items, g := Pass(()), map[], map[];
    var rest := d.consumed;
    while rest != {}
      invariant rest <= d.consumed
      invariant Adjacent(d, Upstream, d.consumed - rest, items, g)
      invariant unique ==> forall c {:trigger d.Providers(c)} | c in d.consumed - rest :: |d.Providers(c)| <= 1
    {
      var item :| item in rest;
      ghost var done := d.consumed - rest;
      rest := rest - {item};
      assert d.consumed - rest == done + {item};
      var providers := MatchProviders(d, item);
      TreatOneMore(d, Upstream, done, items, g, item, providers);
      if providers != [] {
        if unique && |providers| != 1 {
          r := Fail(MultipleProviders(item));
          return;
        }
        items := Insert(items, item, providers[0]);
        if item.parent != NULL {
          g := Insert(g, item.parent, providers[0].parent);
        }
      }
    }
    assert d.consumed - rest == d.consumed;
  }

  /** The second part of `build_graph`: who consumes what is provided. */
  method BuildConsumers(d: Declarations, unique: bool) returns (r: Outcome, items: map<Item, set<Item>>, g: Graph)
    requires d.Valid()
    ensures r.Pass? <==> (unique ==> d.UniqueConsumers())
    ensures r.Pass? ==> Adjacent(d, Downstream, d.provided, items, g)
    ensures r.Fail? ==> r.error.MultipleConsumers? && r.error.item in d.provided && |d.Consumers(r.error.item)| > 1
  {
    r, items, g := Pass(()), map[], map[];
    var rest := d.provided;
    while rest != {}
      invariant rest <= d.provided
      invariant Adjacent(d, Downstream, d.provided - rest, items, g)
      invariant unique ==> forall p {:trigger d.Consumers(p)} | p in d.provided - rest :: |d.Consumers(p)| <= 1
    {
      var item :| item in rest;
      ghost var done := d.provided - rest;
      rest := rest - {item};
      assert d.provided - rest == done + {item};
      var consumers := MatchConsumers(d, item);
      TreatOneMore(d, Downstream, done, items, g, item, consumers);
      if consumers != [] {
        if unique && |consumers| != 1 {
          r := Fail(MultipleConsumers(item));
          return;
        }
        items := Insert(items, item, consumers[0]);
        g := Insert(g, item.parent, consumers[0].parent);
      }
    }
    assert d.provided - rest == d.provided;
  }

  /** Additional outbound items turn their providers into outbound items and end nodes. */
  method AddOutbound(d: Declarations, ip: map<Item, set<Item>>, outItems: set<Item>, endNodes: set<Node>)
    returns (r: Outcome, moreItems: set<Item>, moreNodes: set<Node>)
    ensures r.Pass? <==> forall c | c in d.consumed && c.parent == NULL :: c in ip
    ensures r.Pass? ==> moreItems == outItems + OutboundItems(d.consumed, ip)
    ensures r.Pass? ==> moreNodes == endNodes + Parents(OutboundItems(d.consumed, ip))
    ensures r.Fail? ==> r.error.NoOutboundProvider? && r.error.item.parent == NULL && r.error.item in d.consumed - ip.Keys
  {
    r, moreItems, moreNodes := Pass(()), outItems, endNodes;
    var rest := d.consumed;
    ghost var done: set<Item> := {};
    while rest != {}
      invariant rest !! done && rest + done == d.consumed
      invariant forall c | c in done && c.parent == NULL :: c in ip
      invariant moreItems == outItems + OutboundItems(done, ip)
      invariant moreNodes == endNodes + Parents(OutboundItems(done, ip))
    {
      var item :| item in rest;
      rest := rest - {item};
      OneMoreOutbound(done, ip, item);
      done := done + {item};
      if item.parent == NULL {
        if item !in ip {
          r := Fail(NoOutboundProvider(item));
          return;
        }
        moreItems := moreItems + ip[item];
        moreNodes := moreNodes + Parents(ip[item]);
      }
    }
    assert done == d.consumed;
  }

  /** The graphs, start and end nodes, inbound and outbound items of the declarations. */
  method Adjacencies(d: Declarations, uniqueProvider: bool, uniqueConsumer: bool) returns (r: Outcome, a: Adjacency)
    requires d.Valid()
    ensures r.Pass? <==> Buildable(d, uniqueProvider, uniqueConsumer)
    ensures r.Pass? ==> Built(d, a)
    ensures r.Fail? ==> Explains(d, uniqueProvider, uniqueConsumer, r.error)
  {
    a := Adjacency(map[], map[], map[], map[], {}, {}, {}, {});
    var ip, np, ic, nc;
    r, ip, np := BuildProviders(d, uniqueProvider);
    if r.Fail? { return; }
    r, ic, nc := BuildConsumers(d, uniqueConsumer);
    if r.Fail? { return; }
    RecordedIffProvided(d, ip, np);
    var outItems, endNodes;
    r, outItems, endNodes := AddOutbound(d, ip, d.provided - ic.Keys, d.nodes - nc.Keys);
    a := Adjacency(ip, ic, np, nc, d.nodes - np.Keys, endNodes, d.consumed - ip.Keys, outItems);
  }

  class Resolver {
    var uniqueItemProvider: bool
    var uniqueItemConsumer: bool
    var nodes: set<Node>
    var consumedItems: set<Item>
    var providedItems: set<Item>
    var priority: map<Node, nat>
    var graphs: Adjacency
    var status: map<Node, nat>
    var resolution: seq<Node>

    ghost function Declared(): Declarations
      reads this`nodes, this`consumedItems, this`providedItems, this`priority
    {
      Declarations(nodes, consumedItems, providedItems, priority)
    }

    constructor ()
      ensures Declared() == Declarations({}, {}, {}, map[]) && Declared().Valid()
      ensures uniqueItemProvider && !uniqueItemConsumer
    {
      uniqueItemProvider, uniqueItemConsumer := true, false;
      nodes, consumedItems, providedItems, priority := {}, {}, {}, map[];
      graphs := Adjacency(map[], map[], map[], map[], {}, {}, {}, {});
      status, resolution := map[], [];
    }

    /** `add_node`, with the values that the node consumes and provides. */
    method AddNode(node: Node, consumed: set<Value>, provided: set<Value>)
      requires node != NULL
      modifies this`nodes, this`consumedItems, this`providedItems
      ensures nodes == old(nodes) + {node}
      ensures consumedItems == old(consumedItems) + set v | v in consumed :: Item(node, v)
      ensures providedItems == old(providedItems) + set v | v in provided :: Item(node, v)
      ensures old(Declared().Valid()) ==> Declared().Valid()
    {
      nodes := nodes + {node};
      consumedItems := consumedItems + set v | v in consumed :: Item(node, v);
      providedItems := providedItems + set v | v in provided :: Item(node, v);
    }

    method AddAdditionalOutboundItem(value: Value)
      modifies this`consumedItems
      ensures consumedItems == old(consumedItems) + {Item(NULL, value)}
      ensures old(Declared().Valid()) ==> Declared().Valid()
    {
      consumedItems := consumedItems + {Item(NULL, value)};
    }

    method SetPriority(node: Node, p: nat)
      modifies this`priority
      ensures priority == old(priority)[node := p]
    {
      priority := priority[node := p];
    }

    /** `build_graph`. */
    method BuildGraph() returns (r: Outcome)
      requires Declared().Valid()
      modifies this`graphs
      ensures r.Pass? <==> Buildable(Declared(), uniqueItemProvider, uniqueItemConsumer)
      ensures r.Pass? ==> Built(Declared(), graphs)
      ensures r.Fail? ==> Explains(Declared(), uniqueItemProvider, uniqueItemConsumer, r.error)
    {
      r, graphs := Adjacencies(Declarations(nodes, consumedItems, providedItems, priority), uniqueItemProvider, uniqueItemConsumer);
    }

    /** The recursive helper: visit `node`, standing at the end of `path`. */
    method Visit(node: Node, ghost g: Graph, ghost path: seq<Node>) returns (r: Outcome)
      requires g == graphs.nodeProviders && Closed(g, nodes)
      requires SearchState(g, nodes, graphs.endNodes, status, resolution, path)
      requires node in nodes && ReachableFrom(g, graphs.endNodes, node) && Status(status, node) == 0
      requires path != [] ==> Edge(g, path[|path| - 1], node)
      modifies this`status, this`resolution
      ensures r.Pass? ==> SearchState(g, nodes, graphs.endNodes, status, resolution, path) && node in resolution
      ensures r.Pass? ==> old(resolution) <= resolution
      ensures r.Pass? ==> Unvisited(nodes, status) <= old(Unvisited(nodes, status))
      ensures r.Fail? ==> r.error.CyclicDependency? && BackEdge(g, r.error.node, r.error.dep)
      decreases Unvisited(nodes, status)
    {
      ghost var here := path + [node];
      EnterNode(g, nodes, graphs.endNodes, status, resolution, path, node);
      status := status[node := Status(status, node) + 1];
      if node in graphs.nodeProviders {
        var rest := graphs.nodeProviders[node];
        while rest != {}
          invariant rest <= g[node]
          invariant SearchState(g, nodes, graphs.endNodes, status, resolution, here)
          invariant old(resolution) <= resolution && forall dep | dep in g[node] - rest :: dep in resolution
          invariant Unvisited(nodes, status) <= old(Unvisited(nodes, status)) - {node}
        {
          var dep :| dep in rest;
          assert Edge(g, here[|here| - 1], dep);
          if Status(status, dep) == 1 {
            OnPathIsBackEdge(g, here, dep);
            return Fail(CyclicDependency(node, dep));
          }
          if Status(status, dep) == 0 {
            ReachStep(g, graphs.endNodes, node, dep);
            :- Visit(dep, g, here);
          }
          rest := rest - {dep};
        }
      }
      assert node in here && Status(status, node) == 1;
      LeaveNode(g, nodes, graphs.endNodes, status, resolution, path, node);
      resolution := resolution + [node];
      status := status[node := Status(status, node) + 1];
      r := Pass(());
    }

    /** The loop of `resolve` over the end nodes. */
    method VisitEndNodes(ghost g: Graph) returns (r: Outcome)
      requires g == graphs.nodeProviders && Closed(g, nodes) && graphs.endNodes <= nodes
      modifies this`status, this`resolution
      ensures r.Pass? ==> SearchState(g, nodes, graphs.endNodes, status, resolution, [])
      ensures r.Pass? ==> forall n :: n in resolution <==> ReachableFrom(g, graphs.endNodes, n)
      ensures r.Fail? ==> r.error.CyclicDependency? && BackEdge(g, r.error.node, r.error.dep)
    {
      status, resolution := map[], [];
      var rest := graphs.endNodes;
      while rest != {}
        invariant rest <= graphs.endNodes
        invariant SearchState(g, nodes, graphs.endNodes, status, resolution, [])
        invariant forall n | n in graphs.endNodes - rest :: n in resolution
      {
        var node :| node in rest;
        ReachRoot(g, graphs.endNodes, node);
        if Status(status, node) == 0 {
          :- Visit(node, g, []);
        }
        rest := rest - {node};
      }
      SearchIsComplete(g, nodes, graphs.endNodes, status, resolution);
      r := Pass(());
    }

    /** The final check: counts every node in the resolution. */
    method CheckOnce() returns (r: Outcome)
      requires Distinct(resolution)
      ensures r.Pass? <==> forall n | n in nodes :: n in resolution
      ensures r.Fail? ==> r.error.MissingNode? && r.error.node in nodes && r.error.node !in resolution
    {
      var rest := nodes;
      while rest != {}
        invariant rest <= nodes
        invariant forall n | n in nodes - rest :: n in resolution
      {
        var node :| node in rest;
        rest := rest - {node};
        var count := multiset(resolution)[node];
        DistinctCountsOnce(resolution, node);
        if count == 0 {
          return Fail(MissingNode(node));
        }
        if count > 1 {
          assert false;
        }
      }
      r := Pass(());
    }

    /** `resolve`: builds the graphs, then searches. */
    method Resolve() returns (r: Outcome)
      requires Declared().Valid()
      modifies this`graphs, this`status, this`resolution
      ensures Verdict(Declared(), graphs, uniqueItemProvider, uniqueItemConsumer, r, resolution)
    {
      hide Verdict, SearchVerdict, Built, Buildable, Explains, Closed;
      r := BuildGraph();
      ghost var d, a := Declared(), graphs;
      if r.Pass? {
        BuiltStaysInside(d, a);
        r := Search(a.nodeProviders);
        Conclude(d, a, uniqueItemProvider, uniqueItemConsumer, r, resolution);
      } else {
        ConcludeUnbuilt(d, a, uniqueItemProvider, uniqueItemConsumer, r, resolution);
      }
    }

    /** The search proper, once the graphs are in place. */
    method Search(ghost g: Graph) returns (r: Outcome)
      requires g == graphs.nodeProviders && Closed(g, nodes) && graphs.endNodes <= nodes
      modifies this`status, this`resolution
      ensures SearchVerdict(g, nodes, graphs.endNodes, r, resolution)
    {
      r := VisitEndNodes(g);
      if r.Fail? {
        BackEdgeIsCycle(g, r.error.node, r.error.dep);
        return;
      }
      r := CheckOnce();
      if r.Pass? {
        TopologicalIsAcyclic(g, nodes, resolution);
      }
    }
  }
}
