/** Finite directed graphs, as stored in an adjacency dictionary: `g[a]` holds the
    direct dependencies of `a`. */
module Graphs {
  import opened Common

  type Node = nat
  type Graph = map<Node, set<Node>>

  ghost predicate Edge(g: Graph, a: Node, b: Node) {
    a in g && b in g[a]
  }

  ghost predicate Path(g: Graph, p: seq<Node>) {
    |p| > 0 && forall i | 0 <= i < |p| - 1 :: Edge(g, p[i], p[i + 1])
  }

  ghost predicate Cycle(g: Graph, p: seq<Node>) {
    |p| >= 2 && Path(g, p) && p[0] == p[|p| - 1]
  }

  ghost predicate Acyclic(g: Graph) {
    forall p: seq<Node> :: !Cycle(g, p)
  }

  ghost predicate Connects(g: Graph, p: seq<Node>, a: Node, b: Node) {
    Path(g, p) && p[0] == a && p[|p| - 1] == b
  }

  ghost predicate ReachableFrom(g: Graph, roots: set<Node>, n: Node) {
    exists r, p :: r in roots && Connects(g, p, r, n)
  }

  ghost predicate AllReached(g: Graph, roots: set<Node>, nodes: set<Node>) {
    forall n {:trigger ReachableFrom(g, roots, n)} | n in nodes :: ReachableFrom(g, roots, n)
  }

  /** Every edge stays among `nodes`. */
  ghost predicate Closed(g: Graph, nodes: set<Node>) {
    forall a, b | Edge(g, a, b) :: a in nodes && b in nodes
  }

  /** `order` lists nodes once each, and every dependency of a listed node is listed before it. */
  ghost predicate Topological(g: Graph, order: seq<Node>) {
    Distinct(order) &&
    forall i, b | 0 <= i < |order| && Edge(g, order[i], b) :: b in order[..i]
  }

  lemma SameEdgesSameCycles(g: Graph, h: Graph)
    requires forall a, b :: Edge(g, a, b) <==> Edge(h, a, b)
    ensures Acyclic(g) <==> Acyclic(h)
  {
    forall p: seq<Node> ensures Cycle(g, p) <==> Cycle(h, p) {
      assert Path(g, p) <==> Path(h, p);
    }
  }

  lemma {:induction false} MonotoneAlong(g: Graph, p: seq<Node>, rank: Node -> nat)
    requires forall a, b | Edge(g, a, b) :: rank(a) <= rank(b)
    requires Path(g, p)
    ensures rank(p[0]) <= rank(p[|p| - 1])
  {
    if |p| > 1 {
      assert Edge(g, p[0], p[1]);
      MonotoneAlong(g, p[1..], rank);
    }
  }

  lemma ReachStep(g: Graph, roots: set<Node>, a: Node, b: Node)
    requires ReachableFrom(g, roots, a) && Edge(g, a, b)
    ensures ReachableFrom(g, roots, b)
  {
    var r, p :| r in roots && Connects(g, p, r, a);
    assert Connects(g, p + [b], r, b);
  }

  lemma ReachRoot(g: Graph, roots: set<Node>, r: Node)
    requires r in roots
    ensures ReachableFrom(g, roots, r)
  {
    assert Connects(g, [r], r, r);
  }

  /** What a topological order lists is closed under reachability. */
  lemma {:induction false} ReachableListed(g: Graph, order: seq<Node>, p: seq<Node>)
    requires Topological(g, order) && Path(g, p) && p[0] in order
    ensures forall k | 0 <= k < |p| :: p[k] in order
  {
    if |p| > 1 {
      assert Edge(g, p[0], p[1]);
      ReachableListed(g, order, p[1..]);
      forall k | 0 <= k < |p| ensures p[k] in order {
        if k > 0 { assert p[k] == p[1..][k - 1]; }
      }
    }
  }

  /** Along a path from the node at position `i`, positions strictly fall. */
  lemma {:induction false} PositionsFall(g: Graph, order: seq<Node>, p: seq<Node>, i: nat)
    requires Topological(g, order) && Path(g, p) && |p| >= 2
    requires i < |order| && p[0] == order[i]
    ensures p[|p| - 1] in order[..i]
  {
    assert Edge(g, p[0], p[1]);
    var j: nat :| j < i && order[j] == p[1];
    if |p| > 2 {
      assert p[1..][|p| - 2] == p[|p| - 1];
      PositionsFall(g, order, p[1..], j);
    }
  }

  /** An order that lists every node of the graph leaves no room for a cycle. */
  lemma TopologicalIsAcyclic(g: Graph, nodes: set<Node>, order: seq<Node>)
    requires Closed(g, nodes) && Topological(g, order) && forall n | n in nodes :: n in order
    ensures Acyclic(g)
  {
    forall p: seq<Node> ensures !Cycle(g, p) {
      if Cycle(g, p) {
        assert Edge(g, p[0], p[1]);
        var i: nat :| i < |order| && order[i] == p[0];
        PositionsFall(g, order, p, i);
        assert false;
      }
    }
  }

  /** A path that comes back to one of its own nodes closes a cycle. */
  lemma ClosingPath(g: Graph, p: seq<Node>, k: nat)
    requires Path(g, p) && k < |p| && Edge(g, p[|p| - 1], p[k])
    ensures Cycle(g, p[k..] + [p[k]])
  {
    var c := p[k..] + [p[k]];
    forall i | 0 <= i < |c| - 1 ensures Edge(g, c[i], c[i + 1]) {
      if i < |c| - 2 { assert c[i] == p[k + i] && c[i + 1] == p[k + i + 1]; }
    }
  }

  /** Some node of `among` depends directly on `n`. */
  ghost predicate NeededBy(g: Graph, among: set<Node>, n: Node) {
    exists c :: c in among && Edge(g, c, n)
  }

  lemma PrependPath(g: Graph, c: Node, p: seq<Node>)
    requires Path(g, p) && Edge(g, c, p[0])
    ensures Path(g, [c] + p)
  {
    var q := [c] + p;
    forall i | 0 <= i < |q| - 1 ensures Edge(g, q[i], q[i + 1]) {
      if i > 0 { assert q[i] == p[i - 1] && q[i + 1] == p[i]; }
    }
  }

  /** Walking backwards for ever inside a finite set must close a cycle. */
  lemma {:induction false} BackwardWalkCycles(g: Graph, stuck: set<Node>, p: seq<Node>, rest: set<Node>)
    requires forall n {:trigger NeededBy(g, stuck, n)} | n in stuck :: NeededBy(g, stuck, n)
    requires Path(g, p) && p[0] in stuck
    requires forall n | n in stuck :: n in rest || n in p
    ensures !Acyclic(g)
    decreases rest
  {
    assert NeededBy(g, stuck, p[0]);
    var c :| c in stuck && Edge(g, c, p[0]);
    PrependPath(g, c, p);
    if c in p {
      var k: nat :| k < |p| && p[k] == c;
      var loop := ([c] + p)[..k + 2];
      assert loop[|loop| - 1] == p[k];
      assert Cycle(g, loop);
    } else {
      BackwardWalkCycles(g, stuck, [c] + p, rest - {c});
    }
  }

  /** In an acyclic graph whose non-roots all have someone depending on them, every node is
      reached from the roots. */
  lemma AcyclicIsReached(g: Graph, nodes: set<Node>, roots: set<Node>)
    requires Closed(g, nodes) && Acyclic(g)
    requires forall n {:trigger NeededBy(g, nodes, n)} | n in nodes && n !in roots :: NeededBy(g, nodes, n)
    ensures AllReached(g, roots, nodes)
  {
    var stuck := set n | n in nodes && !ReachableFrom(g, roots, n);
    forall n | n in stuck ensures NeededBy(g, stuck, n) {
      if n in roots { ReachRoot(g, roots, n); }
      assert NeededBy(g, nodes, n);
      var c :| c in nodes && Edge(g, c, n);
      if ReachableFrom(g, roots, c) { ReachStep(g, roots, c, n); }
      assert c in stuck;
    }
    forall n | n in nodes ensures ReachableFrom(g, roots, n) {
      if n in stuck { BackwardWalkCycles(g, stuck, [n], stuck - {n}); }
    }
  }

  /** The dependency of `n` that stays among the nodes. */
  ghost predicate Leads(g: Graph, among: set<Node>, n: Node) {
    exists m :: m in among && Edge(g, n, m)
  }

  /** Walking along dependencies among finitely many nodes, each of which has one, closes a cycle. */
  lemma {:induction false} ForwardWalkCycles(g: Graph, among: set<Node>, p: seq<Node>, rest: set<Node>)
    requires forall n {:trigger Leads(g, among, n)} | n in among :: Leads(g, among, n)
    requires Path(g, p) && p[|p| - 1] in among
    requires forall n | n in among :: n in rest || n in p
    ensures !Acyclic(g)
    decreases rest
  {
    var last := p[|p| - 1];
    assert Leads(g, among, last);
    var m :| m in among && Edge(g, last, m);
    if m in p {
      var k: nat :| k < |p| && p[k] == m;
      ClosingPath(g, p, k);
    } else {
      var q := p + [m];
      forall i | 0 <= i < |q| - 1 ensures Edge(g, q[i], q[i + 1]) {
        if i < |p| - 1 { assert Edge(g, p[i], p[i + 1]); }
      }
      forall n | n in among ensures n in rest - {m} || n in q {
        if n in p { assert n in q; }
      }
      ForwardWalkCycles(g, among, q, rest - {m});
    }
  }
}
