/** Directed graphs as adjacency lists, their cycles, and what a ranking says about them. */
module Graph {
  import opened JsText

  type Graph = map<Text, seq<Text>>

  /** `graph.get(node) ?? []` */
  function Succ(g: Graph, v: Text): seq<Text> {
    if v in g then g[v] else []
  }

  predicate Edge(g: Graph, u: Text, v: Text) {
    v in Succ(g, u)
  }

  /** Edges between neighbours. */
  ghost predicate Path(g: Graph, p: seq<Text>) {
    forall i :: 0 <= i < |p| - 1 ==> Edge(g, p[i], p[i + 1])
  }

  /** The node after the one at `i`, going round. */
  function After(p: seq<Text>, i: nat): Text
    requires i < |p|
  {
    if i + 1 < |p| then p[i + 1] else p[0]
  }

  /** A closed walk: edges between neighbours and from the last to the first. */
  ghost predicate Cycle(g: Graph, p: seq<Text>) {
    p != [] && forall i :: 0 <= i < |p| ==> Edge(g, p[i], After(p, i))
  }

  ghost predicate SimpleCycle(g: Graph, p: seq<Text>) {
    Cycle(g, p) && Distinct(p)
  }

  ghost predicate Acyclic(g: Graph) {
    forall p :: !Cycle(g, p)
  }

  /** Every node that occurs in the graph. */
  function Nodes(g: Graph): set<Text> {
    g.Keys + set u, v | u in g && v in g[u] :: v
  }

  lemma {:induction false} EdgeInNodes(g: Graph, u: Text, v: Text)
    requires Edge(g, u, v)
    ensures u in Nodes(g) && v in Nodes(g)
  {
  }

  /** Going round a closed walk, a rank cannot fall at every step. */
  lemma {:induction false} NotAlwaysFalling(g: Graph, rank: map<Text, int>, p: seq<Text>) returns (i: nat)
    requires Cycle(g, p)
    requires forall i :: 0 <= i < |p| ==> p[i] in rank
    ensures i < |p| && rank[p[i]] <= rank[After(p, i)]
  {
    if forall i :: 0 <= i < |p| ==> rank[After(p, i)] < rank[p[i]] {
      FallingFrom(rank, p, |p| - 1);
      assert false;
    }
    i :| 0 <= i < |p| && rank[p[i]] <= rank[After(p, i)];
  }

  lemma {:induction false} FallingFrom(rank: map<Text, int>, p: seq<Text>, n: nat)
    requires n < |p|
    requires forall i :: 0 <= i < |p| ==> p[i] in rank
    requires forall i :: 0 <= i < |p| ==> rank[After(p, i)] < rank[p[i]]
    ensures rank[p[n]] <= rank[p[0]]
    ensures After(p, n) in rank && rank[After(p, n)] < rank[p[0]]
  {
    if n > 0 {
      FallingFrom(rank, p, n - 1);
      assert After(p, n - 1) == p[n];
    }
  }

  /** A graph whose edges all lead to a lower rank has no cycle. */
  lemma {:induction false} RankedIsAcyclic(g: Graph, rank: map<Text, int>)
    requires forall u, v :: Edge(g, u, v) ==> u in rank && v in rank && rank[v] < rank[u]
    ensures Acyclic(g)
  {
    forall p ensures !Cycle(g, p) {
      if Cycle(g, p) {
        forall i | 0 <= i < |p| ensures p[i] in rank && After(p, i) in rank && rank[After(p, i)] < rank[p[i]] {
          assert Edge(g, p[i], After(p, i));
        }
        var i := NotAlwaysFalling(g, rank, p);
      }
    }
  }

  /** A path that ends where an edge leads back to its start is a cycle. */
  lemma {:induction false} PathClosed(g: Graph, p: seq<Text>)
    requires p != [] && Path(g, p) && Edge(g, p[|p| - 1], p[0])
    ensures Cycle(g, p)
  {
  }

  function IndexOf(s: seq<Text>, x: Text): (i: nat)
    requires x in s
    ensures i < |s| && s[i] == x
  {
    if s[0] == x then 0 else 1 + IndexOf(s[1..], x)
  }

  /** A node met again on the path closes a simple cycle from there to the end of the path. */
  lemma {:induction false} TailIsCycle(g: Graph, stack: seq<Text>, node: Text)
    requires Path(g, stack) && Distinct(stack) && node in stack && Edge(g, stack[|stack| - 1], node)
    ensures SimpleCycle(g, stack[IndexOf(stack, node)..])
    ensures var cycle := stack[IndexOf(stack, node)..]; node in cycle && stack[|stack| - 1] in cycle
    ensures forall v :: v in stack[IndexOf(stack, node)..] ==> v in stack
  {
    var start := IndexOf(stack, node);
    var cycle := stack[start..];
    assert cycle[0] == node && cycle[|cycle| - 1] == stack[|stack| - 1];
    PathClosed(g, cycle);
  }

  // ---------- Reachability and components ----------

  /** A walk of any length, the empty one included. */
  ghost predicate Walk(g: Graph, p: seq<Text>, u: Text, v: Text) {
    p != [] && Path(g, p) && p[0] == u && p[|p| - 1] == v
  }

  ghost predicate Reaches(g: Graph, u: Text, v: Text) {
    exists p :: Walk(g, p, u, v)
  }

  ghost predicate Mutual(g: Graph, u: Text, v: Text) {
    Reaches(g, u, v) && Reaches(g, v, u)
  }

  lemma {:induction false} EdgeReaches(g: Graph, u: Text, v: Text)
    requires Edge(g, u, v)
    ensures Reaches(g, u, v)
  {
    assert Walk(g, [u, v], u, v);
  }

  lemma {:induction false} ReachesThrough(g: Graph, u: Text, v: Text, w: Text)
    requires Reaches(g, u, v) && Reaches(g, v, w)
    ensures Reaches(g, u, w)
  {
    var p :| Walk(g, p, u, v);
    var q :| Walk(g, q, v, w);
    var pq := p + q[1..];
    forall i | 0 <= i < |pq| - 1 ensures Edge(g, pq[i], pq[i + 1]) {
      if i >= |p| - 1 {
        assert pq[i] == q[i - (|p| - 1)];
        assert pq[i + 1] == q[i - (|p| - 1) + 1];
      }
    }
    assert Walk(g, pq, u, w);
  }

  lemma {:induction false} MutualThrough(g: Graph, u: Text, v: Text, w: Text)
    requires Mutual(g, u, v) && Mutual(g, v, w)
    ensures Mutual(g, u, w)
  {
    ReachesThrough(g, u, v, w);
    ReachesThrough(g, w, v, u);
  }

  lemma {:induction false} AlongPath(g: Graph, p: seq<Text>, i: nat, j: nat)
    requires Path(g, p) && i <= j < |p|
    ensures Reaches(g, p[i], p[j])
  {
    assert Walk(g, p[i..j + 1], p[i], p[j]);
  }

  /** Going round a closed walk, every node of it is reached from every other. */
  lemma {:induction false} RoundCycle(g: Graph, p: seq<Text>, i: nat, j: nat)
    requires Cycle(g, p) && i < |p| && j < |p|
    ensures Mutual(g, p[i], p[j])
  {
    var last := |p| - 1;
    forall k | 0 <= k < last ensures Edge(g, p[k], p[k + 1]) {
      assert Edge(g, p[k], After(p, k));
    }
    assert Edge(g, p[last], After(p, last));
    EdgeReaches(g, p[last], p[0]);
    AlongPath(g, p, i, last);
    AlongPath(g, p, j, last);
    AlongPath(g, p, 0, i);
    AlongPath(g, p, 0, j);
    ReachesThrough(g, p[i], p[last], p[0]);
    ReachesThrough(g, p[i], p[0], p[j]);
    ReachesThrough(g, p[j], p[last], p[0]);
    ReachesThrough(g, p[j], p[0], p[i]);
  }

  /** A closed walk, back at its first node. */
  lemma {:induction false} ClosedWalk(g: Graph, w: seq<Text>) returns (p: seq<Text>)
    requires Cycle(g, w)
    ensures |p| > 1 && Walk(g, p, w[0], w[0])
  {
    p := w + [w[0]];
    forall i | 0 <= i < |p| - 1 ensures Edge(g, p[i], p[i + 1]) {
      assert Edge(g, w[i], After(w, i));
    }
  }

  lemma {:induction false} CycleIsMutual(g: Graph, p: seq<Text>, u: Text, v: Text)
    requires Cycle(g, p) && u in p && v in p
    ensures Mutual(g, u, v)
  {
    var i :| 0 <= i < |p| && p[i] == u;
    var j :| 0 <= j < |p| && p[j] == v;
    RoundCycle(g, p, i, j);
  }

  /** The strongly connected component of a node. */
  ghost function Component(g: Graph, v: Text): set<Text> {
    set u | u in Nodes(g) + {v} && Mutual(g, v, u)
  }

  lemma {:induction false} InComponent(g: Graph, v: Text, u: Text)
    ensures u in Component(g, v) <==> Mutual(g, v, u)
    ensures v in Component(g, v)
  {
    assert Walk(g, [v], v, v);
    if Mutual(g, v, u) {
      ReachedInNodes(g, v, u);
    }
  }

  lemma {:induction false} ReachedInNodes(g: Graph, u: Text, v: Text)
    requires Reaches(g, u, v)
    ensures u == v || v in Nodes(g)
  {
    var p :| Walk(g, p, u, v);
    if |p| > 1 {
      EdgeInNodes(g, p[|p| - 2], p[|p| - 1]);
    }
  }

  lemma {:induction false} SameComponent(g: Graph, u: Text, v: Text)
    requires Mutual(g, u, v)
    ensures Component(g, u) == Component(g, v)
  {
    forall w ensures w in Component(g, u) <==> w in Component(g, v) {
      InComponent(g, u, w);
      InComponent(g, v, w);
      if Mutual(g, u, w) {
        MutualThrough(g, v, u, w);
      }
      if Mutual(g, v, w) {
        MutualThrough(g, u, v, w);
      }
    }
  }

  /** The component that a cycle runs in. */
  ghost function ComponentOf(g: Graph, c: seq<Text>): set<Text> {
    if c == [] then {} else Component(g, c[0])
  }

  lemma {:induction false} CycleInComponent(g: Graph, c: seq<Text>, v: Text)
    requires Cycle(g, c) && v in c
    ensures ToSet(c) <= Component(g, v) && ComponentOf(g, c) == Component(g, v)
  {
    forall u | u in c ensures u in Component(g, v) {
      CycleIsMutual(g, c, v, u);
      InComponent(g, v, u);
    }
    CycleIsMutual(g, c, c[0], v);
    SameComponent(g, c[0], v);
  }

  /** A component that some closed walk runs in. */
  ghost predicate CyclicComponent(g: Graph, component: set<Text>) {
    exists w {:trigger ComponentOf(g, w)} :: Cycle(g, w) && component == ComponentOf(g, w)
  }
}
