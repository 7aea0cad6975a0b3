/** Evaluating a composed model: every submodel reads each consumed item from its recorded provider
    or from the input of the composition, in the resolved order. */
module ComposedModel {
  import opened Common
  import opened Graphs
  import opened Dependencies

  /** A linked composition: the declarations, their node graph, the provider that each linked item
      refers to, and what each node computes for a provided value from the values it consumes. */
  datatype System<!V> = System(d: Declarations, g: Graph, provider: map<Item, Item>, forward: (Node, map<Value, V>, Value) -> V)
  {
    ghost predicate Valid() {
      && (forall p | p in d.provided :: p.parent in d.nodes)
      && Closed(g, d.nodes)
      && (forall c | c in provider :: provider[c] in d.provided && provider[c].value == c.value)
      && (forall c | c in provider && c.parent in d.nodes :: Edge(g, c.parent, provider[c].parent))
    }

    function Consumes(n: Node): set<Value> {
      set c | c in d.consumed && c.parent == n :: c.value
    }

    function Provides(n: Node): set<Value> {
      set p | p in d.provided && p.parent == n :: p.value
    }
  }

  /** Link every item that has a recorded provider to that provider. */
  method Link<V>(d: Declarations, a: Adjacency, forward: (Node, map<Value, V>, Value) -> V) returns (s: System<V>)
    requires d.Valid() && Built(d, a)
    ensures s.Valid() && s.d == d && s.g == a.nodeProviders && s.forward == forward
    ensures s.provider.Keys == a.itemProviders.Keys
    ensures forall c | c in s.provider :: a.itemProviders[c] == {s.provider[c]}
  {
    var provider := FirstProviders(d, a.itemProviders);
    s := System(d, a.nodeProviders, provider, forward);
    LinkedIsValid(s, a);
  }

  method FirstProviders(d: Declarations, items: map<Item, set<Item>>) returns (provider: map<Item, Item>)
    requires Chosen(d, Upstream, d.consumed, items)
    ensures provider.Keys == items.Keys && forall c | c in provider :: items[c] == {provider[c]}
  {
    provider := map[];
    var rest := items.Keys;
    while rest != {}
      invariant rest <= items.Keys && provider.Keys == items.Keys - rest
      invariant forall c | c in provider :: items[c] == {provider[c]}
    {
      var c :| c in rest;
      rest := rest - {c};
      assert OneOf(items[c], d.Choices(Upstream, c));
      var p :| p in items[c];
      provider := provider[c := p];
    }
  }

  lemma LinkedIsValid<V>(s: System<V>, a: Adjacency)
    requires s.d.Valid() && Built(s.d, a) && s.g == a.nodeProviders && s.provider.Keys == a.itemProviders.Keys
    requires forall c | c in s.provider :: a.itemProviders[c] == {s.provider[c]}
    ensures s.Valid()
  {
    NodeGraphClosed(s.d, a);
    forall c | c in s.provider
      ensures s.provider[c] in s.d.provided && s.provider[c].value == c.value
      ensures c.parent in s.d.nodes ==> Edge(s.g, c.parent, s.provider[c].parent)
    {
      assert Recorded(a, c, s.provider[c]);
      RecordedMatch(s.d, a, c, s.provider[c]);
      if c.parent in s.d.nodes { RecordedIsEdge(a, c, s.provider[c]); }
    }
  }

  /** Ranks that fall along every dependency; any acyclic composition has some. */
  ghost predicate Ranked(g: Graph, rank: Node -> nat) {
    forall a, b | Edge(g, a, b) :: rank(b) < rank(a)
  }

  /** The demand-driven meaning of a provided item: compute what its node consumes, recursively. */
  ghost function Meaning<V>(s: System<V>, input: Value -> V, rank: Node -> nat, p: Item): V
    requires s.Valid() && Ranked(s.g, rank) && p in s.d.provided
    decreases rank(p.parent), 2
  {
    s.forward(p.parent, Demands(s, input, rank, p.parent), p.value)
  }

  ghost function Demands<V>(s: System<V>, input: Value -> V, rank: Node -> nat, n: Node): map<Value, V>
    requires s.Valid() && Ranked(s.g, rank) && n in s.d.nodes
    decreases rank(n), 1
  {
    map v | v in s.Consumes(n) :: Demand(s, input, rank, Item(n, v))
  }

  /** The demand-driven value of an item consumed by a node. */
  ghost function Demand<V>(s: System<V>, input: Value -> V, rank: Node -> nat, c: Item): V
    requires s.Valid() && Ranked(s.g, rank) && c.parent in s.d.nodes
    decreases rank(c.parent), 0
  {
    if c in s.provider then
      Meaning(s, input, rank, s.provider[c])
    else
      input(c.value)
  }

  /** What node `c.parent` reads for `c`: the provider's output, or the input of the composition. */
  ghost function Read<V>(s: System<V>, input: Value -> V, out: map<Item, V>, c: Item): V
    requires c in s.provider ==> s.provider[c] in out
  {
    if c in s.provider then
      out[s.provider[c]]
    else
      input(c.value)
  }

  /** Everything `n` consumes from other nodes has been written. */
  ghost predicate Ready<V>(s: System<V>, out: map<Item, V>, n: Node)
    requires s.Valid()
  {
    forall v {:trigger Item(n, v)} | v in s.Consumes(n) && Item(n, v) in s.provider :: s.provider[Item(n, v)] in out
  }

  ghost function Reads<V>(s: System<V>, input: Value -> V, out: map<Item, V>, n: Node): map<Value, V>
    requires s.Valid() && Ready(s, out, n)
  {
    map v | v in s.Consumes(n) :: Read(s, input, out, Item(n, v))
  }

  /** `out` satisfies the equations of the composition at node `n`. */
  ghost predicate Solves<V>(s: System<V>, input: Value -> V, out: map<Item, V>, n: Node)
    requires s.Valid()
  {
    && Ready(s, out, n)
    && forall v {:trigger Item(n, v)} | v in s.Provides(n) ::
         Item(n, v) in out && out[Item(n, v)] == s.forward(n, Reads(s, input, out, n), v)
  }

  /** Any assignment that satisfies the equations everywhere is the demand-driven meaning. */
  lemma {:induction false} SolutionIsMeaning<V>(s: System<V>, input: Value -> V, rank: Node -> nat, out: map<Item, V>, p: Item)
    requires s.Valid() && Ranked(s.g, rank) && p in s.d.provided
    requires forall n | n in s.d.nodes :: Solves(s, input, out, n)
    ensures p in out && out[p] == Meaning(s, input, rank, p)
    decreases rank(p.parent)
  {
    var n := p.parent;
    assert Solves(s, input, out, n) && p.value in s.Provides(n) && p == Item(n, p.value);
    forall v | v in s.Consumes(n) ensures Read(s, input, out, Item(n, v)) == Demand(s, input, rank, Item(n, v)) {
      var c := Item(n, v);
      if c in s.provider {
        SolutionIsMeaning(s, input, rank, out, s.provider[c]);
      }
    }
    assert Reads(s, input, out, n) == Demands(s, input, rank, n);
  }

  /** Position in a topological order: the last one first. */
  ghost function Position(order: seq<Node>, n: Node): nat {
    if order == [] || n !in order then 0
    else if order[|order| - 1] == n then |order| else Position(order[..|order| - 1], n)
  }

  lemma {:induction false} PositionAt(order: seq<Node>, i: nat)
    requires Distinct(order) && i < |order|
    ensures Position(order, order[i]) == i + 1
  {
    if i < |order| - 1 {
      assert order[..|order| - 1][i] == order[i];
      PositionAt(order[..|order| - 1], i);
    }
  }

  /** Every topological order of the nodes gives ranks, so the meaning above exists. */
  lemma TopologicalIsRanked<V>(s: System<V>, order: seq<Node>)
    requires s.Valid() && Topological(s.g, order) && forall n | n in s.d.nodes :: n in order
    ensures Ranked(s.g, n => Position(order, n))
  {
    forall a, b | Edge(s.g, a, b) ensures Position(order, b) < Position(order, a) {
      var i: nat :| i < |order| && order[i] == a;
      assert b in order[..i];
      var j: nat :| j < i && order[j] == b;
      PositionAt(order, i);
      PositionAt(order, j);
    }
  }

  lemma ReadyStaysReady<V>(s: System<V>, input: Value -> V, before: map<Item, V>, after: map<Item, V>, n: Node)
    requires s.Valid() && Ready(s, before, n)
    requires forall p | p in before :: p in after && after[p] == before[p]
    ensures Ready(s, after, n) && Reads(s, input, after, n) == Reads(s, input, before, n)
  {
  }

  lemma SolvedStaysSolved<V>(s: System<V>, input: Value -> V, before: map<Item, V>, after: map<Item, V>, n: Node)
    requires s.Valid() && Solves(s, input, before, n)
    requires forall p | p in before :: p in after && after[p] == before[p]
    ensures Solves(s, input, after, n)
  {
    ReadyStaysReady(s, input, before, after, n);
  }

  /** In a topological order, everything a node reads has been written before its turn. */
  lemma ReadyInOrder<V>(s: System<V>, order: seq<Node>, i: nat, out: map<Item, V>)
    requires s.Valid() && Topological(s.g, order) && i < |order| && order[i] in s.d.nodes
    requires forall p | p in s.d.provided && p.parent in order[..i] :: p in out
    ensures Ready(s, out, order[i])
  {
    var n := order[i];
    forall v {:trigger Item(n, v)} | v in s.Consumes(n) && Item(n, v) in s.provider ensures s.provider[Item(n, v)] in out {
      assert Edge(s.g, n, s.provider[Item(n, v)].parent);
    }
  }

  /** A node reads exactly what it was declared to consume: the output of the recorded provider where there is one,
      and the input of the composition otherwise. */
  lemma ReadsAre<V>(s: System<V>, input: Value -> V, out: map<Item, V>, n: Node, v: Value)
    requires s.Valid() && Ready(s, out, n)
    ensures v in Reads(s, input, out, n) <==> Item(n, v) in s.d.consumed
    ensures Item(n, v) in s.d.consumed && Item(n, v) !in s.provider ==> Reads(s, input, out, n)[v] == input(v)
    ensures Item(n, v) in s.d.consumed && Item(n, v) in s.provider ==>
      s.provider[Item(n, v)] in out && Reads(s, input, out, n)[v] == out[s.provider[Item(n, v)]]
  {
    assert v in s.Consumes(n) <==> Item(n, v) in s.d.consumed;
  }

  /** The same of what is demanded. */
  lemma DemandsAre<V>(s: System<V>, input: Value -> V, rank: Node -> nat, n: Node, v: Value)
    requires s.Valid() && Ranked(s.g, rank) && n in s.d.nodes
    ensures v in Demands(s, input, rank, n) <==> Item(n, v) in s.d.consumed
    ensures Item(n, v) in s.d.consumed && Item(n, v) !in s.provider ==> Demands(s, input, rank, n)[v] == input(v)
    ensures Item(n, v) in s.d.consumed && Item(n, v) in s.provider ==>
      Demands(s, input, rank, n)[v] == Meaning(s, input, rank, s.provider[Item(n, v)])
  {
    assert v in s.Consumes(n) <==> Item(n, v) in s.d.consumed;
  }

  /** Gather the inputs of node `n`: link every consumed item to its provider's output, or to the
      input of the composition. */
  method GatherInputs<V>(s: System<V>, input: Value -> V, out: map<Item, V>, n: Node) returns (args: map<Value, V>)
    requires s.Valid() && Ready(s, out, n)
    ensures args == Reads(s, input, out, n)
    ensures forall v :: v in args <==> Item(n, v) in s.d.consumed
    ensures forall v | v in args ::
      if Item(n, v) in s.provider then s.provider[Item(n, v)] in out && args[v] == out[s.provider[Item(n, v)]]
      else args[v] == input(v)
  {
    args := map[];
    var rest := s.Consumes(n);
    while rest != {}
      invariant rest <= s.Consumes(n) && args.Keys == s.Consumes(n) - rest
      invariant forall v | v in args :: args[v] == Read(s, input, out, Item(n, v))
    {
      var v :| v in rest;
      rest := rest - {v};
      var item := Item(n, v);
      if item in s.provider {
        args := args[v := out[s.provider[item]]];
      } else {
        args := args[v := input(v)];
      }
    }
  }

  /** Run every submodel once, in the given order. No unwritten item is ever read, and the outputs
      solve the equations of the composition. */
  method SetValue<V>(s: System<V>, input: Value -> V, order: seq<Node>) returns (out: map<Item, V>)
    requires s.Valid() && Topological(s.g, order) && forall n :: n in order <==> n in s.d.nodes
    ensures forall n | n in s.d.nodes :: Solves(s, input, out, n)
    ensures out.Keys == s.d.provided
  {
    out := map[];
    for i := 0 to |order|
      invariant forall p :: p in out <==> p in s.d.provided && p.parent in order[..i]
      invariant forall n | n in order[..i] :: Solves(s, input, out, n)
    {
      var n := order[i];
      ReadyInOrder(s, order, i, out);
      var args := GatherInputs(s, input, out, n);
      ghost var before := out;
      out := out + map p | p in s.d.provided && p.parent == n :: s.forward(n, args, p.value);
      assert n !in order[..i];
      ReadyStaysReady(s, input, before, out, n);
      forall m | m in order[..i] ensures Solves(s, input, out, m) {
        SolvedStaysSolved(s, input, before, out, m);
      }
      assert order[..i + 1] == order[..i] + [n];
    }
  }

  /** Whatever the order, as long as providers come before their consumers, running the submodels
      yields the demand-driven meaning of every provided item. */
  lemma OrderIsIrrelevant<V>(s: System<V>, input: Value -> V, order: seq<Node>, one: map<Item, V>, other: map<Item, V>)
    requires s.Valid() && Topological(s.g, order) && forall n :: n in order <==> n in s.d.nodes
    requires forall n | n in s.d.nodes :: Solves(s, input, one, n) && Solves(s, input, other, n)
    ensures forall p | p in s.d.provided :: p in one && p in other && one[p] == other[p]
  {
    TopologicalIsRanked(s, order);
    var rank := (n: Node) => Position(order, n);
    forall p | p in s.d.provided ensures p in one && p in other && one[p] == other[p] {
      SolutionIsMeaning(s, input, rank, one, p);
      SolutionIsMeaning(s, input, rank, other, p);
    }
  }
}
