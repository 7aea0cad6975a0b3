/** The graph that a set of consume/provide declarations gives rise to, and what it means for the
    resolver to build it. Sets are visited in an arbitrary order: the program orders nodes by their
    addresses, so nothing may depend on that order. */
module Dependencies {
  import opened Common
  import opened Graphs

  type Value = string

  /** The parent of an additional outbound item, which belongs to no node. */
  const NULL: Node := 0

  datatype Item = Item(parent: Node, value: Value)

  datatype Side = Upstream | Downstream

  /** Everything declared through `add_node`, `add_additional_outbound_item` and `set_priority`. */
  datatype Declarations = Declarations(
    nodes: set<Node>, consumed: set<Item>, provided: set<Item>, priority: map<Node, nat>)
  {
    ghost predicate Valid() {
      && NULL !in nodes
      && (forall p | p in provided :: p.parent in nodes)
      && (forall c | c in consumed :: c.parent in nodes || c.parent == NULL)
    }

    /** A node without an explicit priority has priority 0. */
    function Priority(n: Node): nat {
      if n in priority then priority[n] else 0
    }

    /** `p` may provide `c`: same value, another node, and at least the priority of the consumer. */
    predicate Matches(c: Item, p: Item) {
      c.value == p.value && c.parent != p.parent && Priority(c.parent) <= Priority(p.parent)
    }

    function Providers(c: Item): set<Item> {
      set p | p in provided && Matches(c, p)
    }

    function Consumers(p: Item): set<Item> {
      set c | c in consumed && c.parent != NULL && Matches(c, p)
    }

    /** The items at the other end of `i`: its providers, or its consumers. */
    function Choices(side: Side, i: Item): set<Item> {
      if side.Upstream? then Providers(i) else Consumers(i)
    }

    ghost predicate UniqueProviders() {
      forall c {:trigger Providers(c)} | c in consumed :: |Providers(c)| <= 1
    }

    ghost predicate UniqueConsumers() {
      forall p {:trigger Consumers(p)} | p in provided :: |Consumers(p)| <= 1
    }

    /** Every additional outbound item is provided by some node. */
    ghost predicate OutboundProvided() {
      forall c {:trigger Providers(c)} | c in consumed && c.parent == NULL :: Providers(c) != {}
    }
  }

  /** The dictionaries and sets computed by `build_graph`. */
  datatype Adjacency = Adjacency(
    itemProviders: map<Item, set<Item>>, itemConsumers: map<Item, set<Item>>,
    nodeProviders: Graph, nodeConsumers: Graph,
    startNodes: set<Node>, endNodes: set<Node>, inItems: set<Item>, outItems: set<Item>)

  ghost predicate OneOf(s: set<Item>, choices: set<Item>) {
    exists x | x in choices :: s == {x}
  }

  ghost predicate HasEntry(items: map<Item, set<Item>>, n: Node) {
    exists i :: i in items && i.parent == n
  }

  ghost predicate Links(items: map<Item, set<Item>>, n: Node, m: Node) {
    exists i, j :: i in items && j in items[i] && i.parent == n && j.parent == m
  }

  /** `g` is the projection of `items` to nodes, leaving out the null parent. */
  ghost predicate Projects(items: map<Item, set<Item>>, g: Graph) {
    && (forall n :: n in g <==> n != NULL && HasEntry(items, n))
    && (forall n, m :: Edge(g, n, m) <==> n != NULL && Links(items, n, m))
  }

  /** Each item of `done` that has choices is mapped to one of them. */
  ghost predicate Chosen(d: Declarations, side: Side, done: set<Item>, items: map<Item, set<Item>>) {
    && (forall i :: i in items <==> i in done && d.Choices(side, i) != {})
    && (forall i | i in items :: OneOf(items[i], d.Choices(side, i)))
  }

  /** The item and node dictionaries of one side, once the items of `done` have been treated. */
  ghost predicate Adjacent(d: Declarations, side: Side, done: set<Item>, items: map<Item, set<Item>>, g: Graph) {
    Chosen(d, side, done, items) && Projects(items, g)
  }

  /** `m[k].insert(x)`, where a missing entry starts out empty. */
  function Insert<K, X>(m: map<K, set<X>>, k: K, x: X): map<K, set<X>> {
    m[k := (if k in m then m[k] else {}) + {x}]
  }

  lemma InsertChosen(d: Declarations, side: Side, done: set<Item>, items: map<Item, set<Item>>, i: Item, j: Item)
    requires Chosen(d, side, done, items) && i !in done && j in d.Choices(side, i)
    ensures Chosen(d, side, done + {i}, Insert(items, i, j))
  {
    var m := Insert(items, i, j);
    assert m[i] == {j};
    forall k | k in m ensures OneOf(m[k], d.Choices(side, k)) {
      if k != i { assert OneOf(items[k], d.Choices(side, k)); }
    }
  }

  lemma InsertProjects(items: map<Item, set<Item>>, g: Graph, i: Item, j: Item)
    requires Projects(items, g) && i !in items
    ensures Projects(Insert(items, i, j), if i.parent != NULL then Insert(g, i.parent, j.parent) else g)
  {
    var m := Insert(items, i, j);
    assert i in m && m[i] == {j} && j in m[i];
    forall n ensures HasEntry(m, n) <==> HasEntry(items, n) || n == i.parent {
      if k :| k in items && k.parent == n { assert k in m; }
    }
    forall n, x ensures Links(m, n, x) <==> Links(items, n, x) || (n == i.parent && x == j.parent) {
      if k, l :| k in items && l in items[k] && k.parent == n && l.parent == x {
        assert k in m && l in m[k];
      }
    }
  }

  /** One turn of the loop: `found` lists the choices of `i` and its first element is recorded. */
  lemma TreatOneMore(d: Declarations, side: Side, done: set<Item>, items: map<Item, set<Item>>, g: Graph, i: Item, found: seq<Item>)
    requires Adjacent(d, side, done, items, g) && i !in done
    requires forall j :: j in found <==> j in d.Choices(side, i)
    ensures found == [] ==> Adjacent(d, side, done + {i}, items, g)
    ensures found != [] ==> Adjacent(d, side, done + {i}, Insert(items, i, found[0]),
                                     if i.parent != NULL then Insert(g, i.parent, found[0].parent) else g)
  {
    if found != [] {
      assert found[0] in found;
      InsertChosen(d, side, done, items, i, found[0]);
      InsertProjects(items, g, i, found[0]);
    }
  }

  /** `a` is the adjacency of the declarations `d`. */
  ghost predicate Built(d: Declarations, a: Adjacency) {
    && Adjacent(d, Upstream, d.consumed, a.itemProviders, a.nodeProviders)
    && Adjacent(d, Downstream, d.provided, a.itemConsumers, a.nodeConsumers)
    && a.startNodes == d.nodes - a.nodeProviders.Keys
    && a.endNodes == d.nodes - a.nodeConsumers.Keys + Parents(OutboundItems(d.consumed, a.itemProviders))
    && a.inItems == d.consumed - a.itemProviders.Keys
    && a.outItems == d.provided - a.itemConsumers.Keys + OutboundItems(d.consumed, a.itemProviders)
    && d.OutboundProvided()
  }

  /** The recorded providers of the additional outbound items among `done`. */
  ghost function OutboundItems(done: set<Item>, ip: map<Item, set<Item>>): set<Item> {
    set c, p | c in done && c.parent == NULL && c in ip && p in ip[c] :: p
  }

  function Parents(items: set<Item>): set<Node> {
    set i | i in items :: i.parent
  }

  lemma RecordedIffProvided(d: Declarations, ip: map<Item, set<Item>>, np: Graph)
    requires Adjacent(d, Upstream, d.consumed, ip, np)
    ensures forall c | c in d.consumed :: c in ip <==> d.Providers(c) != {}
  {
  }

  lemma OneMoreOutbound(done: set<Item>, ip: map<Item, set<Item>>, c: Item)
    ensures var more := if c.parent == NULL && c in ip then ip[c] else {};
            && OutboundItems(done + {c}, ip) == OutboundItems(done, ip) + more
            && Parents(OutboundItems(done + {c}, ip)) == Parents(OutboundItems(done, ip)) + Parents(more)
  {
    var more := if c.parent == NULL && c in ip then ip[c] else {};
    assert OutboundItems(done + {c}, ip) == OutboundItems(done, ip) + more;
  }

  // ---------------------------------------------------------------------------------------------
  // What the graphs mean
  // ---------------------------------------------------------------------------------------------

  lemma AtMostOne<T>(s: set<T>, x: T, y: T)
    requires |s| <= 1 && x in s && y in s
    ensures x == y
  {
    if x != y {
      assert {x, y} <= s;
      SubsetSize({x, y}, s);
    }
  }

  /** `j` is recorded as the provider of the consumed item `i`. */
  ghost predicate Recorded(a: Adjacency, i: Item, j: Item) {
    i in a.itemProviders && j in a.itemProviders[i]
  }

  /** Recorded providers were declared, carry the consumed value, belong to another node, have at
      least the consumer's priority, and are alone. */
  lemma RecordedMatch(d: Declarations, a: Adjacency, i: Item, j: Item)
    requires Built(d, a) && Recorded(a, i, j)
    ensures i in d.consumed && j in d.provided && d.Matches(i, j) && a.itemProviders[i] == {j}
  {
    assert OneOf(a.itemProviders[i], d.Providers(i));
  }

  /** The node graph has an edge for every recorded provider, except to outbound items. */
  lemma RecordedIsEdge(a: Adjacency, i: Item, j: Item)
    requires Projects(a.itemProviders, a.nodeProviders) && Recorded(a, i, j) && i.parent != NULL
    ensures Edge(a.nodeProviders, i.parent, j.parent)
  {
    assert Links(a.itemProviders, i.parent, j.parent);
  }

  /** Conversely every edge of the node graph comes from some recorded provider. */
  lemma EdgeIsRecorded(d: Declarations, a: Adjacency, c: Node, p: Node) returns (i: Item, j: Item)
    requires d.Valid() && Built(d, a) && Edge(a.nodeProviders, c, p)
    ensures Recorded(a, i, j) && i.parent == c && j.parent == p
    ensures c in d.nodes && p in d.nodes && c != p && d.Priority(c) <= d.Priority(p)
  {
    assert Links(a.itemProviders, c, p);
    i, j :| i in a.itemProviders && j in a.itemProviders[i] && i.parent == c && j.parent == p;
    RecordedMatch(d, a, i, j);
    assert c != NULL;
  }

  lemma NodeGraphClosed(d: Declarations, a: Adjacency)
    requires d.Valid() && Built(d, a)
    ensures Closed(a.nodeProviders, d.nodes)
  {
    forall c, p | Edge(a.nodeProviders, c, p) ensures c in d.nodes && p in d.nodes {
      var _, _ := EdgeIsRecorded(d, a, c, p);
    }
  }

  /** With unique providers, whoever may provide an item is its recorded provider. */
  lemma UniqueIsRecorded(d: Declarations, a: Adjacency, c: Item, p: Item)
    requires Built(d, a) && d.UniqueProviders() && c in d.consumed && p in d.Providers(c)
    ensures c in a.itemProviders && a.itemProviders[c] == {p}
  {
    assert OneOf(a.itemProviders[c], d.Providers(c));
    var q :| q in d.Providers(c) && a.itemProviders[c] == {q};
    AtMostOne(d.Providers(c), p, q);
  }

  /** Duality, one way: a recorded consumer depends on the item as its sole recorded provider. */
  lemma ConsumerDepends(d: Declarations, a: Adjacency, p: Item, c: Item)
    requires d.Valid() && Built(d, a) && d.UniqueProviders()
    requires p in a.itemConsumers && c in a.itemConsumers[p]
    ensures c in d.consumed && c.parent != NULL
    ensures c in a.itemProviders && a.itemProviders[c] == {p}
  {
    assert OneOf(a.itemConsumers[p], d.Consumers(p));
    assert c in d.Consumers(p);
    UniqueIsRecorded(d, a, c, p);
  }

  /** Duality, as a whole: with unique providers an item has a consumer entry exactly when it is the
      recorded provider of some node's item. Only one consumer is recorded, so the consumer graph
      is a sub-relation of the inverse of the provider graph, with the same non-empty entries. */
  lemma Duality(d: Declarations, a: Adjacency, p: Item)
    requires d.Valid() && Built(d, a) && d.UniqueProviders()
    ensures p in a.itemConsumers <==> exists c :: Recorded(a, c, p) && c.parent != NULL
  {
    if p in a.itemConsumers {
      assert OneOf(a.itemConsumers[p], d.Consumers(p));
      var c :| c in d.Consumers(p) && a.itemConsumers[p] == {c};
      ConsumerDepends(d, a, p, c);
      assert Recorded(a, c, p);
    }
    if c :| Recorded(a, c, p) && c.parent != NULL {
      RecordedMatch(d, a, c, p);
      assert c in d.Consumers(p);
    }
  }

  /** With unique providers, the nodes with a consumer entry are those somebody depends on. */
  lemma NodeDuality(d: Declarations, a: Adjacency, n: Node)
    requires d.Valid() && Built(d, a) && d.UniqueProviders()
    ensures n in a.nodeConsumers <==> exists c :: Edge(a.nodeProviders, c, n)
  {
    if n in a.nodeConsumers { ConsumedNode(d, a, n); }
    if c :| Edge(a.nodeProviders, c, n) { NeededNode(d, a, c, n); }
  }

  lemma ConsumedNode(d: Declarations, a: Adjacency, n: Node)
    requires d.Valid() && Built(d, a) && d.UniqueProviders() && n in a.nodeConsumers
    ensures exists c :: Edge(a.nodeProviders, c, n)
  {
    assert HasEntry(a.itemConsumers, n);
    var p :| p in a.itemConsumers && p.parent == n;
    Duality(d, a, p);
    var c :| Recorded(a, c, p) && c.parent != NULL;
    RecordedIsEdge(a, c, p);
  }

  lemma NeededNode(d: Declarations, a: Adjacency, c: Node, n: Node)
    requires d.Valid() && Built(d, a) && d.UniqueProviders() && Edge(a.nodeProviders, c, n)
    ensures n in a.nodeConsumers
  {
    var i, j := EdgeIsRecorded(d, a, c, n);
    Duality(d, a, j);
    assert HasEntry(a.itemConsumers, n);
  }

  /** With unique providers, the end nodes are the nodes nobody depends on, plus the nodes that
      provide an additional outbound item. */
  lemma EndNodesAreUnneeded(d: Declarations, a: Adjacency, n: Node)
    requires d.Valid() && Built(d, a) && d.UniqueProviders() && n in d.nodes
    ensures n in a.endNodes <==>
            (forall c :: !Edge(a.nodeProviders, c, n)) || n in Parents(OutboundItems(d.consumed, a.itemProviders))
  {
    NodeDuality(d, a, n);
  }

  /** The node dependencies read off the declarations alone. */
  ghost function Needs(d: Declarations): Graph {
    map c | c in d.nodes :: set i, p | i in d.consumed && i.parent == c && p in d.Providers(i) :: p.parent
  }

  lemma RecordedIsNeeded(d: Declarations, a: Adjacency, c: Node, p: Node)
    requires d.Valid() && Built(d, a) && Edge(a.nodeProviders, c, p)
    ensures Edge(Needs(d), c, p)
  {
    var i, j := EdgeIsRecorded(d, a, c, p);
    RecordedMatch(d, a, i, j);
  }

  lemma NeededIsRecorded(d: Declarations, a: Adjacency, c: Node, p: Node)
    requires d.Valid() && Built(d, a) && d.UniqueProviders() && Edge(Needs(d), c, p)
    ensures Edge(a.nodeProviders, c, p)
  {
    var i, j :| i in d.consumed && i.parent == c && j in d.Providers(i) && j.parent == p;
    UniqueIsRecorded(d, a, i, j);
    RecordedIsEdge(a, i, j);
  }

  /** With unique providers the recorded node graph has exactly the declared dependencies, so it has
      the same cycles. */
  lemma RecordedIsDeclared(d: Declarations, a: Adjacency)
    requires d.Valid() && Built(d, a) && d.UniqueProviders()
    ensures forall c, p :: Edge(a.nodeProviders, c, p) <==> Edge(Needs(d), c, p)
    ensures Acyclic(a.nodeProviders) <==> Acyclic(Needs(d))
  {
    forall c, p ensures Edge(a.nodeProviders, c, p) <==> Edge(Needs(d), c, p) {
      if Edge(a.nodeProviders, c, p) { RecordedIsNeeded(d, a, c, p); }
      if Edge(Needs(d), c, p) { NeededIsRecorded(d, a, c, p); }
    }
    SameEdgesSameCycles(a.nodeProviders, Needs(d));
  }

  /** Every consumed item is inbound or has exactly one recorded provider, never both. */
  lemma ConsumedOnce(d: Declarations, a: Adjacency, c: Item)
    requires Built(d, a) && c in d.consumed
    ensures (c in a.inItems) != (exists p :: Recorded(a, c, p) && a.itemProviders[c] == {p})
  {
    if c in a.itemProviders {
      assert OneOf(a.itemProviders[c], d.Providers(c));
      var p :| p in d.Providers(c) && a.itemProviders[c] == {p};
      assert Recorded(a, c, p);
    }
  }

  /** With unique providers an acyclic graph is reached from its end nodes. */
  lemma AcyclicReachesAll(d: Declarations, a: Adjacency)
    requires d.Valid() && Built(d, a) && d.UniqueProviders() && Acyclic(a.nodeProviders)
    ensures AllReached(a.nodeProviders, a.endNodes, d.nodes)
  {
    NodeGraphClosed(d, a);
    forall n | n in d.nodes && n !in a.endNodes ensures NeededBy(a.nodeProviders, d.nodes, n) {
      EndNodesAreUnneeded(d, a, n);
      var c :| Edge(a.nodeProviders, c, n);
      assert c in d.nodes;
    }
    AcyclicIsReached(a.nodeProviders, d.nodes, a.endNodes);
  }

  /** The built graph stays among the declared nodes, and so do its end nodes. */
  lemma BuiltStaysInside(d: Declarations, a: Adjacency)
    requires d.Valid() && Built(d, a)
    ensures Closed(a.nodeProviders, d.nodes) && a.endNodes <= d.nodes
  {
    NodeGraphClosed(d, a);
    forall c, p | Recorded(a, c, p) ensures p.parent in d.nodes { RecordedMatch(d, a, c, p); }
  }

  /** With unique providers the declared dependencies decide about cycles, and nothing else can go wrong. */
  lemma UniqueDecides(d: Declarations, a: Adjacency)
    requires d.Valid() && Built(d, a)
    ensures d.UniqueProviders() ==>
            && (Acyclic(a.nodeProviders) <==> Acyclic(Needs(d)))
            && (Acyclic(a.nodeProviders) ==> AllReached(a.nodeProviders, a.endNodes, d.nodes))
  {
    if d.UniqueProviders() {
      RecordedIsDeclared(d, a);
      if Acyclic(a.nodeProviders) { AcyclicReachesAll(d, a); }
    }
  }

  // ---------------------------------------------------------------------------------------------
  // Priorities
  // ---------------------------------------------------------------------------------------------

  lemma EdgeClimbs(d: Declarations, a: Adjacency, c: Node, p: Node)
    requires d.Valid() && Built(d, a) && Edge(a.nodeProviders, c, p)
    ensures d.Priority(c) <= d.Priority(p)
  {
    var _, _ := EdgeIsRecorded(d, a, c, p);
  }

  /** Along any path of the node graph priorities never fall. */
  lemma PriorityClimbs(d: Declarations, a: Adjacency, p: seq<Node>)
    requires d.Valid() && Built(d, a) && Path(a.nodeProviders, p)
    ensures d.Priority(p[0]) <= d.Priority(p[|p| - 1])
  {
    forall c, q | Edge(a.nodeProviders, c, q) ensures d.Priority(c) <= d.Priority(q) {
      EdgeClimbs(d, a, c, q);
    }
    MonotoneAlong(a.nodeProviders, p, n => d.Priority(n));
  }

  /** A cycle stays within one priority class, however cyclic the raw declarations are. */
  lemma CyclesShareOnePriority(d: Declarations, a: Adjacency, p: seq<Node>, k: nat)
    requires d.Valid() && Built(d, a) && Cycle(a.nodeProviders, p) && k < |p|
    ensures d.Priority(p[k]) == d.Priority(p[0])
  {
    PriorityClimbs(d, a, p[..k + 1]);
    PriorityClimbs(d, a, p[k..]);
  }

  /** Pairwise distinct stored priorities, where a node without one has 0, leave no cycle at all. */
  lemma DistinctPrioritiesAcyclic(d: Declarations, a: Adjacency)
    requires d.Valid() && Built(d, a)
    requires forall m, n | m in d.nodes && n in d.nodes && m != n ::
      (if m in d.priority then d.priority[m] else 0) != (if n in d.priority then d.priority[n] else 0)
    ensures Acyclic(a.nodeProviders)
  {
    forall m, n | m in d.nodes && n in d.nodes && m != n ensures d.Priority(m) != d.Priority(n) {}
    forall p: seq<Node> ensures !Cycle(a.nodeProviders, p) {
      if Cycle(a.nodeProviders, p) {
        assert Edge(a.nodeProviders, p[0], p[1]);
        var _, _ := EdgeIsRecorded(d, a, p[0], p[1]);
        CyclesShareOnePriority(d, a, p, 1);
      }
    }
  }

  /** Some value is consumed by `c` and provided by `n`. */
  ghost predicate Shares(d: Declarations, c: Node, n: Node) {
    exists v: Value :: Item(c, v) in d.consumed && Item(n, v) in d.provided
  }

  /** The declared dependencies in terms of what is stored: a shared value, and a stored priority of the provider
      that is not below that of the consumer. */
  lemma NeedsAre(d: Declarations, c: Node, n: Node)
    requires c in d.nodes
    ensures Edge(Needs(d), c, n) <==>
      && c != n && Shares(d, c, n)
      && (if c in d.priority then d.priority[c] else 0) <= (if n in d.priority then d.priority[n] else 0)
  {
    if Edge(Needs(d), c, n) {
      var i, p :| i in d.consumed && i.parent == c && p in d.Providers(i) && p.parent == n;
      assert i == Item(c, i.value) && p == Item(n, i.value);
    }
    if v: Value :| c != n && Item(c, v) in d.consumed && Item(n, v) in d.provided {
      assert Item(n, v) in d.Providers(Item(c, v)) <==> d.Matches(Item(c, v), Item(n, v));
    }
  }

  /** Without priorities every shared value is a dependency. */
  lemma NoPriorities(d: Declarations, c: Node, n: Node)
    requires d.priority == map[] && c in d.nodes
    ensures Edge(Needs(d), c, n) <==> c != n && Shares(d, c, n)
  {
    NeedsAre(d, c, n);
  }

  /** Giving a node a priority above all others takes away all its dependencies, and makes it a dependency of every
      node that shares a value with it: this is how a priority breaks a cycle. */
  lemma TopPriority(d: Declarations, n: Node, k: nat, c: Node)
    requires n in d.nodes && c in d.nodes && k > 0 && forall m | m in d.priority && m != n :: d.priority[m] < k
    ensures var e := d.(priority := d.priority[n := k]);
      && !Edge(Needs(e), n, c)
      && (Edge(Needs(e), c, n) <==> c != n && Shares(d, c, n))
  {
    var e := d.(priority := d.priority[n := k]);
    NeedsAre(e, n, c);
    NeedsAre(e, c, n);
    assert Shares(e, c, n) == Shares(d, c, n);
  }

  // ---------------------------------------------------------------------------------------------
  // Start nodes and outbound items
  // ---------------------------------------------------------------------------------------------

  /** The start nodes are those that depend on nobody. */
  lemma StartNodesNeedNothing(d: Declarations, a: Adjacency, n: Node)
    requires d.Valid() && Built(d, a) && n in d.nodes
    ensures n in a.startNodes <==> forall c :: !Edge(a.nodeProviders, n, c)
  {
    if n in a.nodeProviders {
      assert HasEntry(a.itemProviders, n);
      var i :| i in a.itemProviders && i.parent == n;
      assert OneOf(a.itemProviders[i], d.Providers(i));
      var j :| j in d.Providers(i) && a.itemProviders[i] == {j};
      assert Recorded(a, i, j);
      RecordedIsEdge(a, i, j);
    }
  }

  /** An additional outbound item has no priority of its own, so every node that provides its value may provide it. */
  lemma OutboundChoices(d: Declarations, v: Value)
    requires d.Valid() && NULL !in d.priority
    ensures forall p :: p in d.Providers(Item(NULL, v)) <==> p in d.provided && p.value == v
    ensures Item(NULL, v) in d.consumed && d.OutboundProvided() ==> exists n :: Item(n, v) in d.provided
  {
    if Item(NULL, v) in d.consumed && d.OutboundProvided() {
      assert d.Providers(Item(NULL, v)) != {};
      var p :| p in d.Providers(Item(NULL, v));
      assert p == Item(p.parent, v);
    }
  }

  /** With unique providers, the outbound items are those that no node consumes, and the recorded providers of the
      additional outbound items. */
  lemma OutboundItemsAre(d: Declarations, a: Adjacency, p: Item)
    requires d.Valid() && Built(d, a) && d.UniqueProviders() && p in d.provided
    ensures p in a.outItems <==>
      (forall c | Recorded(a, c, p) :: c.parent == NULL) || exists c :: Recorded(a, c, p) && c.parent == NULL
  {
    Duality(d, a, p);
    if p in OutboundItems(d.consumed, a.itemProviders) {
      var c :| c in d.consumed && c.parent == NULL && c in a.itemProviders && p in a.itemProviders[c];
      assert Recorded(a, c, p);
    }
    if c :| Recorded(a, c, p) && c.parent == NULL {
      RecordedMatch(d, a, c, p);
      assert p in OutboundItems(d.consumed, a.itemProviders);
    }
  }
}
