/** The three-colour depth-first search behind the package-boundary gate. */
module CycleSearch {
  import opened JsText
  import opened Graph

  datatype Mark = Visiting | Done

  const ARROW: Text := Lit(" -> ")
  const SPACE: Unit := ' ' as int

  /** `names.join(" -> ")` */
  function Join(names: seq<Text>): Text {
    if names == [] then []
    else if |names| == 1 then names[0]
    else names[0] + ARROW + Join(names[1..])
  }

  /** `[...cycle].sort().join(" -> ")` */
  function Key(cycle: seq<Text>): Text {
    Join(Sort(cycle))
  }

  /** Package names contain no spaces. */
  ghost predicate NamesOk(g: Graph) {
    forall v :: v in Nodes(g) ==> SPACE !in v
  }

  // ---------- Keys and node sets ----------

  /** The same nodes give the same key, whatever the order they were met in. */
  lemma {:induction false} SameNodesSameKey(a: seq<Text>, b: seq<Text>)
    requires Distinct(a) && Distinct(b) && ToSet(a) == ToSet(b)
    ensures Key(a) == Key(b)
  {
    SortDependsOnSetOnly(a, b);
  }

  lemma {:induction false} NoSpaceIn(a: Text, s: Text)
    requires SPACE !in a && a <= s
    ensures forall i :: 0 <= i < |a| ==> s[i] != SPACE
  {
  }

  lemma {:induction false} CutAtSpace(a: Text, x: Text, b: Text, y: Text)
    requires SPACE !in a && SPACE !in b
    requires a + ARROW + x == b + ARROW + y
    ensures a == b && x == y
  {
    var s := a + ARROW + x;
    assert |ARROW| == 4 && ARROW[0] == SPACE;
    assert s[|a|] == SPACE && s[|b|] == SPACE;
    NoSpaceIn(a, s);
    NoSpaceIn(b, s);
    assert s[..|a|] == a && s[..|b|] == b;
    assert s[|a| + 4..] == x && s[|b| + 4..] == y;
  }

  lemma {:induction false} NoArrowInside(a: Text, b: Text, y: Text)
    requires SPACE !in a
    ensures a != b + ARROW + y
  {
    var s := b + ARROW + y;
    assert |ARROW| == 4 && ARROW[0] == SPACE;
    assert |b| < |s| && s[|b|] == SPACE;
  }

  /** Names without spaces can be read back from their key. */
  lemma {:induction false} JoinInjective(a: seq<Text>, b: seq<Text>)
    requires a != [] && b != [] && Join(a) == Join(b)
    requires forall v :: v in a ==> SPACE !in v
    requires forall v :: v in b ==> SPACE !in v
    ensures a == b
  {
    if |a| == 1 && |b| > 1 {
      NoArrowInside(a[0], b[0], Join(b[1..]));
    } else if |a| > 1 && |b| == 1 {
      NoArrowInside(b[0], a[0], Join(a[1..]));
    } else if |a| > 1 {
      CutAtSpace(a[0], Join(a[1..]), b[0], Join(b[1..]));
      JoinInjective(a[1..], b[1..]);
      assert a == [a[0]] + a[1..] && b == [b[0]] + b[1..];
    }
  }

  lemma {:induction false} SameKeySameNodes(a: seq<Text>, b: seq<Text>)
    requires a != [] && b != [] && Key(a) == Key(b)
    requires forall v :: v in a ==> SPACE !in v
    requires forall v :: v in b ==> SPACE !in v
    ensures ToSet(a) == ToSet(b)
  {
    SortMembers(a);
    SortMembers(b);
    assert a[0] in Sort(a) && b[0] in Sort(b);
    JoinInjective(Sort(a), Sort(b));
    forall v ensures v in ToSet(a) <==> v in ToSet(b) {
      assert v in Sort(a) <==> v in a;
      assert v in Sort(b) <==> v in b;
    }
  }

  // ---------- The search ----------

  ghost predicate Covers(cycles: seq<seq<Text>>, u: Text, v: Text) {
    exists c :: c in cycles && u in c && v in c
  }

  /** An edge into the current path: some cycle has been listed and, names permitting, one through both its ends. */
  ghost predicate BackEdge(g: Graph, cycles: seq<seq<Text>>, u: Text, v: Text) {
    cycles != [] && (NamesOk(g) ==> Covers(cycles, u, v))
  }

  /** The successors visited so far are finished, or lie on the path. */
  ghost predicate Settled(g: Graph, done: set<Text>, cycles: seq<seq<Text>>, node: Text, deps: seq<Text>) {
    forall v {:trigger v in deps} :: v in deps ==> v in done || BackEdge(g, cycles, node, v)
  }

  lemma {:induction false} SettledMore(
    g: Graph, done0: set<Text>, done: set<Text>, cycles0: seq<seq<Text>>, cycles: seq<seq<Text>>,
    node: Text, deps: seq<Text>, dep: Text)
    requires done0 <= done && cycles0 <= cycles
    requires Settled(g, done0, cycles0, node, deps)
    requires dep in done || BackEdge(g, cycles, node, dep)
    ensures Settled(g, done, cycles, node, deps + [dep])
  {
  }

  /** Every edge out of a finished node leads to a node finished earlier, or is a back edge. */
  ghost predicate FinishOk(g: Graph, cycles: seq<seq<Text>>, finish: map<Text, int>, clock: int) {
    && (forall v :: v in finish ==> finish[v] < clock)
    && forall u, v {:trigger Edge(g, u, v)} :: u in finish && Edge(g, u, v) ==>
         (v in finish && finish[v] < finish[u]) || BackEdge(g, cycles, u, v)
  }

  lemma {:induction false} FinishStays(
    g: Graph, cycles: seq<seq<Text>>, more: seq<seq<Text>>, finish: map<Text, int>, clock: int)
    requires FinishOk(g, cycles, finish, clock) && cycles <= more
    ensures FinishOk(g, more, finish, clock)
  {
  }

  /** The cycles listed so far are simple cycles with different keys, which are the keys seen. */
  ghost predicate CyclesOk(g: Graph, cycles: seq<seq<Text>>, seen: set<Text>) {
    && (forall c {:trigger SimpleCycle(g, c)} :: c in cycles ==> SimpleCycle(g, c))
    && (forall c {:trigger Key(c)} :: c in cycles ==> Key(c) in seen)
    && (forall k {:trigger k in seen} :: k in seen ==> exists c :: c in cycles && Key(c) == k)
    && (forall i, j {:trigger Key(cycles[i]), Key(cycles[j])} :: 0 <= i < j < |cycles| ==> Key(cycles[i]) != Key(cycles[j]))
  }

  lemma {:induction false} CyclesMore(g: Graph, cycles: seq<seq<Text>>, seen: set<Text>, cycle: seq<Text>)
    requires CyclesOk(g, cycles, seen) && SimpleCycle(g, cycle) && Key(cycle) !in seen
    ensures CyclesOk(g, cycles + [cycle], seen + {Key(cycle)})
  {
  }

  /** The stack is the path of the nodes being visited. */
  ghost predicate StackOk(g: Graph, stack: seq<Text>, state: map<Text, Mark>) {
    && Path(g, stack)
    && Distinct(stack)
    && (forall v :: v in stack <==> v in state && state[v] == Visiting)
    && state.Keys <= Nodes(g)
  }

  lemma {:induction false} StackPush(g: Graph, stack: seq<Text>, state: map<Text, Mark>, node: Text)
    requires StackOk(g, stack, state) && node !in state && node in Nodes(g)
    requires stack != [] ==> Edge(g, stack[|stack| - 1], node)
    ensures StackOk(g, stack + [node], state[node := Visiting])
  {
  }

  ghost predicate SearchOk(
    g: Graph, cycles: seq<seq<Text>>, stack: seq<Text>, state: map<Text, Mark>, finish: map<Text, int>, clock: int)
  {
    && StackOk(g, stack, state)
    && FinishOk(g, cycles, finish, clock)
    && (forall v :: v in finish <==> v in state && state[v] == Done)
  }

  lemma {:induction false} SearchLeaves(
    g: Graph, cycles: seq<seq<Text>>, stack: seq<Text>, state: map<Text, Mark>, finish: map<Text, int>, clock: int,
    node: Text)
    requires SearchOk(g, cycles, stack, state, finish, clock) && stack != [] && stack[|stack| - 1] == node
    requires Settled(g, finish.Keys, cycles, node, Succ(g, node))
    ensures SearchOk(g, cycles, stack[..|stack| - 1], state[node := Done], finish[node := clock], clock + 1)
  {
  }

  class CycleFinder {
    const graph: Graph
    var cycles: seq<seq<Text>>
    var state: map<Text, Mark>
    var stack: seq<Text>
    var seen: set<Text>
    ghost var finish: map<Text, int>
    ghost var clock: int

    constructor (graph: Graph)
      ensures this.graph == graph && Valid()
      ensures cycles == [] && stack == [] && state == map[]
    {
      this.graph := graph;
      cycles := [];
      state := map[];
      stack := [];
      seen := {};
      finish := map[];
      clock := 0;
    }

    ghost predicate Valid()
      reads this
    {
      CyclesOk(graph, cycles, seen) && SearchOk(graph, cycles, stack, state, finish, clock)
    }

    method Record(cycle: seq<Text>)
      requires Valid() && SimpleCycle(graph, cycle)
      requires forall v :: v in cycle ==> v in Nodes(graph)
      modifies this`cycles, this`seen
      ensures Valid() && old(cycles) <= cycles && cycles != []
      ensures cycles == if Key(cycle) in old(seen) then old(cycles) else old(cycles) + [cycle]
      ensures seen == old(seen) + {Key(cycle)}
      ensures NamesOk(graph) ==> exists c :: c in cycles && ToSet(c) == ToSet(cycle)
    {
      var key := Key(cycle);
      if key !in seen {
        seen := seen + {key};
        cycles := cycles + [cycle];
        CyclesMore(graph, old(cycles), old(seen), cycle);
        FinishStays(graph, old(cycles), cycles, finish, clock);
        assert cycle in cycles;
      } else {
        ghost var c :| c in cycles && Key(c) == key;
        if NamesOk(graph) {
          CycleInNodes(c);
          SameKeySameNodes(c, cycle);
        }
      }
    }

    lemma {:induction false} CycleInNodes(c: seq<Text>)
      requires SimpleCycle(graph, c)
      ensures forall v :: v in c ==> v in Nodes(graph)
    {
    }

    method Walk(node: Text)
      requires Valid() && node in Nodes(graph)
      requires stack != [] ==> Edge(graph, stack[|stack| - 1], node)
      modifies this
      ensures Valid()
      ensures stack == old(stack) && old(cycles) <= cycles && old(state.Keys) <= state.Keys
      ensures old(finish.Keys) <= finish.Keys
      ensures node in finish || (stack != [] && BackEdge(graph, cycles, stack[|stack| - 1], node))
      decreases Nodes(graph) - state.Keys, 1
    {
      if node in state && state[node] == Done {
        return;
      }
      if node in state && state[node] == Visiting {
        CloseCycle(node);
        return;
      }
      Explore(node);
    }

    method Explore(node: Text)
      requires Valid() && node in Nodes(graph) && node !in state
      requires stack != [] ==> Edge(graph, stack[|stack| - 1], node)
      modifies this
      ensures Valid()
      ensures stack == old(stack) && old(cycles) <= cycles && old(state.Keys) <= state.Keys
      ensures old(finish.Keys) <= finish.Keys && node in finish
      decreases Nodes(graph) - state.Keys, 0
    {
      Enter(node);
      WalkAll(node, Succ(graph, node));
      Leave(node);
    }

    method WalkAll(node: Text, deps: seq<Text>)
      requires Valid() && stack != [] && stack[|stack| - 1] == node
      requires forall v :: v in deps ==> Edge(graph, node, v)
      modifies this
      ensures Valid()
      ensures stack == old(stack) && old(cycles) <= cycles && old(state.Keys) <= state.Keys
      ensures old(finish.Keys) <= finish.Keys
      ensures Settled(graph, finish.Keys, cycles, node, deps)
      decreases Nodes(graph) - state.Keys, 3
    {
      for i := 0 to |deps|
        invariant Valid()
        invariant stack == old(stack) && old(cycles) <= cycles && old(state.Keys) <= state.Keys
        invariant old(finish.Keys) <= finish.Keys
        invariant Settled(graph, finish.Keys, cycles, node, deps[..i])
      {
        WalkNext(node, deps, i);
      }
      assert deps[..|deps|] == deps;
    }

    /** One round of the loop over the successors. */
    method WalkNext(node: Text, deps: seq<Text>, i: nat)
      requires Valid() && stack != [] && stack[|stack| - 1] == node
      requires i < |deps| && Edge(graph, node, deps[i])
      requires Settled(graph, finish.Keys, cycles, node, deps[..i])
      modifies this
      ensures Valid()
      ensures stack == old(stack) && old(cycles) <= cycles && old(state.Keys) <= state.Keys
      ensures old(finish.Keys) <= finish.Keys
      ensures Settled(graph, finish.Keys, cycles, node, deps[..i + 1])
      decreases Nodes(graph) - state.Keys, 2
    {
      EdgeInNodes(graph, node, deps[i]);
      ghost var cycles0, done0 := cycles, finish.Keys;
      Walk(deps[i]);
      TakeMore(deps, i);
      SettledMore(graph, done0, finish.Keys, cycles0, cycles, node, deps[..i], deps[i]);
    }

    method CloseCycle(node: Text)
      requires Valid() && node in stack && Edge(graph, stack[|stack| - 1], node)
      modifies this`cycles, this`seen
      ensures Valid() && old(cycles) <= cycles
      ensures var cycle := stack[IndexOf(stack, node)..];
        && cycles == (if Key(cycle) in old(seen) then old(cycles) else old(cycles) + [cycle])
        && seen == old(seen) + {Key(cycle)}
      ensures BackEdge(graph, cycles, stack[|stack| - 1], node)
    {
      TailIsCycle(graph, stack, node);
      var start := IndexOf(stack, node);
      var cycle := stack[start..];
      Record(cycle);
      if NamesOk(graph) {
        ghost var c :| c in cycles && ToSet(c) == ToSet(cycle);
        assert node in ToSet(cycle) && stack[|stack| - 1] in ToSet(cycle);
        assert Covers(cycles, stack[|stack| - 1], node);
      }
    }

    method Enter(node: Text)
      requires Valid() && node in Nodes(graph) && node !in state
      requires stack != [] ==> Edge(graph, stack[|stack| - 1], node)
      modifies this`state, this`stack
      ensures Valid()
      ensures stack == old(stack) + [node] && state == old(state)[node := Visiting]
    {
      StackPush(graph, stack, state, node);
      state := state[node := Visiting];
      stack := stack + [node];
    }

    method Leave(node: Text)
      requires Valid() && stack != [] && stack[|stack| - 1] == node
      requires Settled(graph, finish.Keys, cycles, node, Succ(graph, node))
      modifies this`state, this`stack, this`finish, this`clock
      ensures Valid()
      ensures stack == old(stack)[..|old(stack)| - 1]
      ensures state == old(state)[node := Done]
      ensures finish == old(finish)[node := old(clock)] && clock == old(clock) + 1
    {
      SearchLeaves(graph, cycles, stack, state, finish, clock, node);
      stack := stack[..|stack| - 1];
      state := state[node := Done];
      finish := finish[node := clock];
      clock := clock + 1;
    }
  }

  // ---------- The result ----------

  /** Every edge leads to a node finished earlier, or is a back edge. */
  ghost predicate Explained(g: Graph, cycles: seq<seq<Text>>, finish: map<Text, int>) {
    forall u, v {:trigger Edge(g, u, v)} :: Edge(g, u, v) ==>
      u in finish && ((v in finish && finish[v] < finish[u]) || BackEdge(g, cycles, u, v))
  }

  lemma {:induction false} NothingListedMeansAcyclic(g: Graph, cycles: seq<seq<Text>>, finish: map<Text, int>)
    requires Explained(g, cycles, finish) && cycles == []
    ensures Acyclic(g)
  {
    RankedIsAcyclic(g, finish);
  }

  /** Every closed walk runs along an edge between two nodes of one listed cycle. */
  lemma {:induction false} EveryCycleIsMet(g: Graph, cycles: seq<seq<Text>>, finish: map<Text, int>, w: seq<Text>)
    requires Explained(g, cycles, finish) && NamesOk(g) && Cycle(g, w)
    ensures Met(cycles, w)
  {
    forall i | 0 <= i < |w| ensures w[i] in finish {
      assert Edge(g, w[i], After(w, i));
    }
    var i := NotAlwaysFalling(g, finish, w);
    assert Edge(g, w[i], After(w, i));
    assert Covers(cycles, w[i], After(w, i));
  }

  lemma {:induction false} KeysTellSetsApart(g: Graph, cycles: seq<seq<Text>>)
    requires forall c :: c in cycles ==> SimpleCycle(g, c)
    requires forall i, j :: 0 <= i < j < |cycles| ==> Key(cycles[i]) != Key(cycles[j])
    ensures NodeSetsDiffer(cycles)
  {
    forall i, j | 0 <= i < j < |cycles| ensures ToSet(cycles[i]) != ToSet(cycles[j]) {
      assert cycles[i] in cycles && cycles[j] in cycles;
      if ToSet(cycles[i]) == ToSet(cycles[j]) {
        SameNodesSameKey(cycles[i], cycles[j]);
      }
    }
  }

  ghost predicate NodeSetsDiffer(cycles: seq<seq<Text>>) {
    forall i, j {:trigger ToSet(cycles[i]), ToSet(cycles[j])} :: 0 <= i < j < |cycles| ==> ToSet(cycles[i]) != ToSet(cycles[j])
  }

  /** Some edge of the closed walk has both its ends on one listed cycle. */
  ghost predicate Met(cycles: seq<seq<Text>>, w: seq<Text>) {
    exists i :: 0 <= i < |w| && Covers(cycles, w[i], After(w, i))
  }

  /** What `findCycles` promises of its result. */
  ghost predicate CyclesOf(g: Graph, cycles: seq<seq<Text>>) {
    // Nothing is listed exactly when the graph has no cycle.
    && (cycles == [] <==> Acyclic(g))
    // What is listed are simple cycles, no two on the same nodes.
    && (forall c {:trigger SimpleCycle(g, c)} :: c in cycles ==> SimpleCycle(g, c))
    && NodeSetsDiffer(cycles)
    // No cycle of the graph is missed altogether: each has an edge whose two ends lie on a listed one.
    && (NamesOk(g) ==> forall w {:trigger Met(cycles, w)} :: Cycle(g, w) ==> Met(cycles, w))
  }

  lemma {:induction false} ExplainedResult(g: Graph, cycles: seq<seq<Text>>, finish: map<Text, int>)
    requires Explained(g, cycles, finish)
    requires forall c :: c in cycles ==> SimpleCycle(g, c)
    requires forall i, j :: 0 <= i < j < |cycles| ==> Key(cycles[i]) != Key(cycles[j])
    ensures CyclesOf(g, cycles)
  {
    KeysTellSetsApart(g, cycles);
    if cycles == [] {
      NothingListedMeansAcyclic(g, cycles, finish);
    } else {
      assert cycles[0] in cycles;
    }
    if NamesOk(g) {
      forall w | Cycle(g, w) ensures Met(cycles, w) {
        EveryCycleIsMet(g, cycles, finish, w);
      }
    }
  }

  method FindCycles(graph: Graph, keys: seq<Text>) returns (cycles: seq<seq<Text>>)
    requires ToSet(keys) == graph.Keys
    ensures CyclesOf(graph, cycles)
  {
    var finder := new CycleFinder(graph);
    for i := 0 to |keys|
      invariant finder.Valid() && finder.graph == graph && finder.stack == []
      invariant forall j :: 0 <= j < i ==> keys[j] in finder.finish
    {
      assert keys[i] in ToSet(keys);
      finder.Walk(keys[i]);
    }
    cycles := finder.cycles;
    forall u, v | Edge(graph, u, v)
      ensures u in finder.finish
      ensures (v in finder.finish && finder.finish[v] < finder.finish[u]) || BackEdge(graph, cycles, u, v)
    {
      assert u in ToSet(keys);
    }
    ExplainedResult(graph, cycles, finder.finish);
  }

  // ---------- Cycles and components ----------

  /** Every listed cycle lies in a cyclic component. */
  lemma {:induction false} CyclesLieInComponents(g: Graph, cycles: seq<seq<Text>>, c: seq<Text>)
    requires CyclesOf(g, cycles) && c in cycles
    ensures SimpleCycle(g, c) && CyclicComponent(g, ComponentOf(g, c)) && ToSet(c) <= ComponentOf(g, c)
  {
    assert SimpleCycle(g, c);
    CycleInComponent(g, c, c[0]);
  }

  /** And every cyclic component holds a listed cycle. */
  lemma {:induction false} ComponentsHoldCycles(g: Graph, cycles: seq<seq<Text>>, component: set<Text>)
      returns (c: seq<Text>)
    requires CyclesOf(g, cycles) && NamesOk(g) && CyclicComponent(g, component)
    ensures c in cycles && SimpleCycle(g, c) && ToSet(c) <= component == ComponentOf(g, c)
  {
    var w :| Cycle(g, w) && component == ComponentOf(g, w);
    assert Met(cycles, w);
    var i :| 0 <= i < |w| && Covers(cycles, w[i], After(w, i));
    c :| c in cycles && w[i] in c && After(w, i) in c;
    assert SimpleCycle(g, c);
    CycleInComponent(g, c, w[i]);
    CycleInComponent(g, w, w[i]);
  }

  /** The cycle visits every node that it is mutually reachable with. */
  ghost predicate Fills(g: Graph, c: seq<Text>) {
    ToSet(c) == ComponentOf(g, c)
  }

  /** What the source's comment promises: the node sets listed are the cyclic components, each once. */
  ghost predicate ListsComponents(g: Graph, cycles: seq<seq<Text>>) {
    && (forall c {:trigger ToSet(c)} :: c in cycles ==> CyclicComponent(g, ToSet(c)))
    && (forall component {:trigger CyclicComponent(g, component)} :: CyclicComponent(g, component) ==>
          exists c :: c in cycles && ToSet(c) == component)
    && NodeSetsDiffer(cycles)
  }

  lemma {:induction false} ComponentIsFilled(g: Graph, c: seq<Text>)
    requires Cycle(g, c)
    ensures CyclicComponent(g, ToSet(c)) <==> Fills(g, c)
  {
    assert c[0] in c;
    if CyclicComponent(g, ToSet(c)) {
      var w :| Cycle(g, w) && ToSet(c) == ComponentOf(g, w);
      InComponent(g, w[0], c[0]);
      assert c[0] in ToSet(c);
      SameComponent(g, w[0], c[0]);
    }
  }

  /** The result keeps that promise exactly when every cycle in it fills its component. */
  lemma {:induction false} ListsComponentsIff(g: Graph, cycles: seq<seq<Text>>)
    requires CyclesOf(g, cycles) && NamesOk(g)
    ensures ListsComponents(g, cycles) <==> forall c :: c in cycles ==> Fills(g, c)
  {
    forall c | c in cycles ensures CyclicComponent(g, ToSet(c)) <==> Fills(g, c) {
      CyclesLieInComponents(g, cycles, c);
      ComponentIsFilled(g, c);
    }
    if forall c :: c in cycles ==> Fills(g, c) {
      forall component | CyclicComponent(g, component) ensures exists c :: c in cycles && ToSet(c) == component {
        var c := ComponentsHoldCycles(g, cycles, component);
        assert Fills(g, c);
      }
    }
  }

  /**
   * So it does, in whatever order the search goes, on every graph whose simple cycles all visit
   * every node that they are mutually reachable with.
   */
  lemma {:induction false} FullCyclesGiveComponents(g: Graph, cycles: seq<seq<Text>>)
    requires CyclesOf(g, cycles) && NamesOk(g)
    requires forall c :: SimpleCycle(g, c) ==> Fills(g, c)
    ensures ListsComponents(g, cycles)
  {
    forall c | c in cycles ensures Fills(g, c) {
      CyclesLieInComponents(g, cycles, c);
    }
    ListsComponentsIff(g, cycles);
  }

  // ---------- Two cycles through one node ----------

  /** A node with cycles to two others, which lead back to it only. */
  function TwoCycles(a: Text, b: Text, c: Text): Graph {
    map[a := [b, c], b := [a], c := [a]]
  }

  /** Where only `a` leads to `b` and `b` only to `a`, a simple cycle through `b` has these two nodes. */
  lemma {:induction false} PairCycle(g: Graph, p: seq<Text>, a: Text, b: Text)
    requires SimpleCycle(g, p) && b in p && a != b
    requires forall v :: Edge(g, b, v) ==> v == a
    requires forall v :: Edge(g, v, b) ==> v == a
    ensures ToSet(p) == {a, b}
  {
    var i :| 0 <= i < |p| && p[i] == b;
    var before := if i > 0 then i - 1 else |p| - 1;
    assert After(p, before) == b;
    assert Edge(g, p[i], After(p, i)) && Edge(g, p[before], After(p, before));
    var after := if i + 1 < |p| then i + 1 else 0;
    assert p[before] == a == p[after];
    assert before == after;
    assert |p| == 2;
    assert p == [p[0], p[1]];
  }

  /** A cycle through a node of its own pair is listed, whatever else is. */
  lemma {:induction false} PairIsListed(g: Graph, cycles: seq<seq<Text>>, a: Text, b: Text)
    requires CyclesOf(g, cycles) && NamesOk(g) && a != b && Edge(g, a, b) && Edge(g, b, a)
    requires forall v :: Edge(g, b, v) ==> v == a
    requires forall v :: Edge(g, v, b) ==> v == a
    ensures exists i :: 0 <= i < |cycles| && ToSet(cycles[i]) == {a, b}
  {
    var w := [a, b];
    assert Cycle(g, w);
    assert Met(cycles, w);
    var i :| 0 <= i < |w| && Covers(cycles, w[i], After(w, i));
    var p :| p in cycles && w[i] in p && After(w, i) in p;
    assert SimpleCycle(g, p);
    PairCycle(g, p, a, b);
    var k :| 0 <= k < |cycles| && cycles[k] == p;
  }

  lemma {:induction false} TwoCyclesOneComponent(a: Text, b: Text, c: Text)
    requires a != b && a != c && b != c
    ensures Component(TwoCycles(a, b, c), a) == {a, b, c}
  {
    var g := TwoCycles(a, b, c);
    assert Nodes(g) == {a, b, c};
    assert Cycle(g, [a, b]) && Cycle(g, [a, c]);
    CycleInComponent(g, [a, b], a);
    CycleInComponent(g, [a, c], a);
    assert b in ToSet([a, b]) && c in ToSet([a, c]) && a in ToSet([a, b]);
  }

  /** One component, two entries: what is listed are not the strongly connected components. */
  lemma {:induction false} OneComponentListedTwice(a: Text, b: Text, c: Text, cycles: seq<seq<Text>>)
    requires a != b && a != c && b != c && SPACE !in a && SPACE !in b && SPACE !in c
    requires CyclesOf(TwoCycles(a, b, c), cycles)
    ensures exists i :: 0 <= i < |cycles| && ToSet(cycles[i]) == {a, b}
    ensures exists i :: 0 <= i < |cycles| && ToSet(cycles[i]) == {a, c}
    ensures Component(TwoCycles(a, b, c), a) == {a, b, c}
    ensures !ListsComponents(TwoCycles(a, b, c), cycles)
  {
    var g := TwoCycles(a, b, c);
    PairIsListed(g, cycles, a, b);
    PairIsListed(g, cycles, a, c);
    TwoCyclesOneComponent(a, b, c);
    var k :| 0 <= k < |cycles| && ToSet(cycles[k]) == {a, b};
    var p := cycles[k];
    assert a in ToSet(p) && c !in ToSet(p);
    CyclesLieInComponents(g, cycles, p);
    CycleInComponent(g, p, a);
    assert !Fills(g, p);
    ListsComponentsIff(g, cycles);
  }
}
