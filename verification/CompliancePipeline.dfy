/** Compliance chains: stages sorted by dependency, then run behind a dependency check. */
module CompliancePipeline {
  import opened Wrappers
  import opened JsText
  import opened Graph

  datatype Status = PASSED | REVIEW_NEEDED | BLOCKED

  datatype Severity = CRITICAL | WARNING | INFO

  datatype Finding = Finding(stageId: Text, severity: Severity, code: Text, message: Text)

  datatype StageResult = StageResult(status: Status, findings: seq<Finding>)

  datatype Outcome = Returned(result: StageResult) | Threw(message: Text)

  datatype Stage = Stage(stageId: Text, dependsOn: seq<Text>)

  /** What a stage does when it is executed, given the results recorded so far. */
  type Executor = (Stage, map<Text, StageResult>) -> Outcome

  // ---------- The dependency graph ----------

  function Ids(stages: seq<Stage>): (ids: seq<Text>)
    ensures |ids| == |stages|
  {
    seq(|stages|, i requires 0 <= i < |stages| => stages[i].stageId)
  }

  lemma {:induction false} IdsMore(sorted: seq<Stage>, stage: Stage)
    ensures Ids(sorted + [stage]) == Ids(sorted) + [stage.stageId]
  {
  }

  /** `new Map(stages.map(s => [s.stageId, s]))`: of several stages with one id, the last. */
  function StageMap(stages: seq<Stage>): (m: map<Text, Stage>)
    ensures m.Keys == ToSet(Ids(stages))
    ensures forall id :: id in m ==> m[id] in stages && m[id].stageId == id
  {
    if stages == [] then map[]
    else
      var init, last := stages[..|stages| - 1], stages[|stages| - 1];
      assert stages == init + [last];
      IdsMore(init, last);
      StageMap(init)[last.stageId := last]
  }

  /** Of several stages with one id the map holds the last. */
  lemma {:induction false} StageMapIsLast(stages: seq<Stage>, i: nat)
    requires i < |stages| && forall j :: i < j < |stages| ==> stages[j].stageId != stages[i].stageId
    ensures stages[i].stageId in StageMap(stages) && StageMap(stages)[stages[i].stageId] == stages[i]
  {
    if i < |stages| - 1 {
      StageMapIsLast(stages[..|stages| - 1], i);
    }
  }

  /** An edge from each stage to each of its dependencies. */
  function DependencyGraph(stages: seq<Stage>): (g: Graph)
    ensures g.Keys == StageMap(stages).Keys
  {
    map id | id in StageMap(stages) :: StageMap(stages)[id].dependsOn
  }

  /** Every dependency names a stage of the chain. */
  ghost predicate Closed(stages: seq<Stage>) {
    forall u, v :: Edge(DependencyGraph(stages), u, v) ==> v in StageMap(stages)
  }

  // ---------- Sorting ----------

  /** The stages sorted so far are stages of the map, each id once. */
  ghost predicate FromMap(stageMap: map<Text, Stage>, sorted: seq<Stage>) {
    && Distinct(Ids(sorted))
    && forall k :: 0 <= k < |sorted| ==> sorted[k].stageId in stageMap && sorted[k] == stageMap[sorted[k].stageId]
  }

  /** Every stage comes after those of its dependencies that are in the chain. */
  ghost predicate AfterDependencies(stageMap: map<Text, Stage>, sorted: seq<Stage>) {
    forall k, v {:trigger v in sorted[k].dependsOn} :: 0 <= k < |sorted| && v in sorted[k].dependsOn && v in stageMap ==>
      v in Ids(sorted[..k])
  }

  lemma {:induction false} SortedMore(stageMap: map<Text, Stage>, sorted: seq<Stage>, id: Text)
    requires FromMap(stageMap, sorted) && id in stageMap && stageMap[id].stageId == id && id !in Ids(sorted)
    ensures FromMap(stageMap, sorted + [stageMap[id]])
    ensures (AfterDependencies(stageMap, sorted) && forall v :: v in stageMap[id].dependsOn && v in stageMap ==> v in Ids(sorted)) ==>
              AfterDependencies(stageMap, sorted + [stageMap[id]])
  {
    var more := sorted + [stageMap[id]];
    IdsMore(sorted, stageMap[id]);
    forall i, j | 0 <= i < j < |more| ensures Ids(more)[i] != Ids(more)[j] {
      if j < |sorted| {
        assert Ids(sorted)[i] != Ids(sorted)[j];
      } else {
        assert Ids(sorted)[i] in Ids(sorted);
      }
    }
    assert more[..|sorted|] == sorted;
    assert forall k :: 0 <= k < |sorted| ==> more[k] == sorted[k] && more[..k] == sorted[..k];
  }

  /** Of these dependencies, all that are stages of the chain have been sorted. */
  ghost predicate Settled(g: Graph, sorted: seq<Stage>, deps: seq<Text>) {
    forall v {:trigger v in deps} :: v in deps && v in g ==> v in Ids(sorted)
  }

  lemma {:induction false} IdsGrow(a: seq<Stage>, b: seq<Stage>)
    requires a <= b
    ensures forall id :: id in Ids(a) ==> id in Ids(b)
  {
    forall id | id in Ids(a) ensures id in Ids(b) {
      var i :| 0 <= i < |a| && Ids(a)[i] == id;
      assert Ids(b)[i] == id;
    }
  }

  lemma {:induction false} SettledMore(g: Graph, before: seq<Stage>, after: seq<Stage>, deps: seq<Text>, dep: Text)
    requires before <= after && Settled(g, before, deps)
    requires dep in g ==> dep in Ids(after)
    ensures Settled(g, after, deps + [dep])
  {
    IdsGrow(before, after);
  }

  /** An edge from the end of the path back onto it makes a cycle. */
  lemma {:induction false} PathMeetsItself(g: Graph, path: seq<Text>, v: Text)
    requires Path(g, path) && Distinct(path) && v in path && Edge(g, path[|path| - 1], v)
    ensures !Acyclic(g)
  {
    TailIsCycle(g, path, v);
  }

  /** The state of the search: what is visited is sorted, or on the path, or no stage of the chain. */
  ghost predicate SearchOk(
    stageMap: map<Text, Stage>, g: Graph, visited: set<Text>, sorted: seq<Stage>, path: seq<Text>)
  {
    && FromMap(stageMap, sorted)
    && (Acyclic(g) ==> AfterDependencies(stageMap, sorted))
    && Path(g, path) && Distinct(path)
    && (forall id {:trigger id in path} :: id in path ==> id in visited && id in stageMap && id !in Ids(sorted))
    && (forall id {:trigger id in Ids(sorted)} :: id in Ids(sorted) ==> id in visited)
    && (forall id {:trigger id in visited} :: id in visited && id in stageMap ==> id in path || id in Ids(sorted))
    && visited <= Nodes(g)
  }

  ghost predicate GraphOf(stageMap: map<Text, Stage>, g: Graph) {
    && g.Keys == stageMap.Keys
    && forall id :: id in stageMap ==> stageMap[id].stageId == id && g[id] == stageMap[id].dependsOn
  }

  lemma {:induction false} SearchSkips(
    stageMap: map<Text, Stage>, g: Graph, visited: set<Text>, sorted: seq<Stage>, path: seq<Text>, id: Text)
    requires SearchOk(stageMap, g, visited, sorted, path) && id !in stageMap && id in Nodes(g)
    ensures SearchOk(stageMap, g, visited + {id}, sorted, path)
  {
  }

  lemma {:induction false} SearchEnters(
    stageMap: map<Text, Stage>, g: Graph, visited: set<Text>, sorted: seq<Stage>, path: seq<Text>, id: Text)
    requires SearchOk(stageMap, g, visited, sorted, path) && id in stageMap && id in Nodes(g) && id !in visited
    requires path != [] ==> Edge(g, path[|path| - 1], id)
    ensures SearchOk(stageMap, g, visited + {id}, sorted, path + [id])
  {
    assert forall v :: v in path + [id] <==> v in path || v == id;
    assert id !in Ids(sorted);
    assert id !in path;
  }

  lemma {:induction false} SearchLeaves(
    stageMap: map<Text, Stage>, g: Graph, visited: set<Text>, sorted: seq<Stage>, path: seq<Text>, id: Text)
    requires GraphOf(stageMap, g) && SearchOk(stageMap, g, visited, sorted, path + [id])
    requires Acyclic(g) ==> Settled(g, sorted, Succ(g, id))
    ensures id in stageMap && SearchOk(stageMap, g, visited, sorted + [stageMap[id]], path)
  {
    var longer := path + [id];
    assert longer[|path|] == id;
    assert forall i :: 0 <= i < |path| ==> longer[i] == path[i];
    assert forall v :: v in longer <==> v in path || v == id;
    assert id in longer;
    SortedMore(stageMap, sorted, id);
    IdsMore(sorted, stageMap[id]);
    assert forall v :: v in Ids(sorted) + [id] <==> v in Ids(sorted) || v == id;
  }

  // ---------- The order that the search comes to ----------

  /** Which ids have been visited, and the stages sorted so far. */
  datatype Search = Search(visited: set<Text>, sorted: seq<Stage>)

  /** Visiting an id: its dependencies first and then the stage itself, if it is new and names a stage. */
  ghost function Visited(m: map<Text, Stage>, nodes: set<Text>, s: Search, id: Text): (r: Search)
    ensures s.visited <= r.visited
    decreases nodes - s.visited, 0, 0
  {
    if id in s.visited || id !in nodes then s
    else if id !in m then s.(visited := s.visited + {id})
    else
      var r := VisitedAll(m, nodes, s.(visited := s.visited + {id}), m[id].dependsOn);
      r.(sorted := r.sorted + [m[id]])
  }

  ghost function VisitedAll(m: map<Text, Stage>, nodes: set<Text>, s: Search, ids: seq<Text>): (r: Search)
    ensures s.visited <= r.visited
    decreases nodes - s.visited, 1, |ids|
  {
    if ids == [] then s
    else Visited(m, nodes, VisitedAll(m, nodes, s, ids[..|ids| - 1]), ids[|ids| - 1])
  }

  /** The order of the stages of a chain: their ids visited as listed. */
  ghost function SearchOrder(stages: seq<Stage>): seq<Stage> {
    VisitedAll(StageMap(stages), Nodes(DependencyGraph(stages)), Search({}, []), Ids(stages)).sorted
  }

  lemma {:induction false} VisitedMore(m: map<Text, Stage>, nodes: set<Text>, s: Search, ids: seq<Text>, i: nat)
    requires i < |ids|
    ensures VisitedAll(m, nodes, s, ids[..i + 1]) == Visited(m, nodes, VisitedAll(m, nodes, s, ids[..i]), ids[i])
  {
    assert ids[..i + 1][..i] == ids[..i];
  }

  /** Every dependency that names a stage has been visited. */
  ghost predicate Behind(m: map<Text, Stage>, visited: set<Text>, deps: seq<Text>) {
    forall v {:trigger v in deps} :: v in deps && v in m ==> v in visited
  }

  /** Then visiting them adds no stage. */
  lemma {:induction false} NothingToAdd(m: map<Text, Stage>, nodes: set<Text>, s: Search, deps: seq<Text>)
    requires Behind(m, s.visited, deps)
    ensures VisitedAll(m, nodes, s, deps).sorted == s.sorted
    ensures forall id :: id in m ==> (id in VisitedAll(m, nodes, s, deps).visited <==> id in s.visited)
  {
    if deps != [] {
      forall v | v in deps[..|deps| - 1] && v in m ensures v in s.visited {
        assert v in deps;
      }
      NothingToAdd(m, nodes, s, deps[..|deps| - 1]);
      assert deps[|deps| - 1] in deps;
    }
  }

  /** Stages are listed after their dependencies: whatever names a stage of the chain names an earlier one. */
  ghost predicate ListedInOrder(stages: seq<Stage>) {
    forall i, v {:trigger v in stages[i].dependsOn} :: 0 <= i < |stages| && v in stages[i].dependsOn && v in StageMap(stages) ==>
      v in Ids(stages[..i])
  }

  lemma {:induction false} ListedSoFar(stages: seq<Stage>, n: nat)
    requires Distinct(Ids(stages)) && ListedInOrder(stages) && n <= |stages|
    ensures var s := VisitedAll(StageMap(stages), Nodes(DependencyGraph(stages)), Search({}, []), Ids(stages)[..n]);
            && s.sorted == stages[..n]
            && forall id :: id in StageMap(stages) ==> (id in s.visited <==> id in Ids(stages[..n]))
  {
    var m, nodes := StageMap(stages), Nodes(DependencyGraph(stages));
    if n > 0 {
      ListedSoFar(stages, n - 1);
      VisitedMore(m, nodes, Search({}, []), Ids(stages), n - 1);
      var s := VisitedAll(m, nodes, Search({}, []), Ids(stages)[..n - 1]);
      var stage := stages[n - 1];
      StageInGraph(stages, n - 1);
      NotListedYet(stages, n - 1);
      OneStagePerId(stages, n - 1, m[stage.stageId]);
      assert m[stage.stageId] == stage;
      NothingToAdd(m, nodes, s.(visited := s.visited + {stage.stageId}), stage.dependsOn);
      TakeMore(stages, n - 1);
      IdsMore(stages[..n - 1], stage);
    }
  }

  lemma {:induction false} NotListedYet(stages: seq<Stage>, i: nat)
    requires Distinct(Ids(stages)) && i < |stages|
    ensures stages[i].stageId !in Ids(stages[..i])
  {
    forall j | 0 <= j < i ensures Ids(stages[..i])[j] != stages[i].stageId {
      assert Ids(stages)[j] != Ids(stages)[i];
    }
  }

  /** Stages with distinct ids that are listed after their dependencies come back as listed. */
  lemma {:induction false} ListedOrderIsKept(stages: seq<Stage>)
    requires Distinct(Ids(stages)) && ListedInOrder(stages)
    ensures SearchOrder(stages) == stages
  {
    ListedSoFar(stages, |stages|);
    assert Ids(stages)[..|stages|] == Ids(stages) && stages[..|stages|] == stages;
  }

  class DependencyResolver {
    const stageMap: map<Text, Stage>
    const graph: Graph
    var visited: set<Text>
    var sorted: seq<Stage>
    ghost var path: seq<Text>

    constructor (stages: seq<Stage>)
      ensures stageMap == StageMap(stages) && graph == DependencyGraph(stages)
      ensures Valid() && sorted == [] && path == [] && visited == {}
    {
      stageMap := StageMap(stages);
      graph := DependencyGraph(stages);
      visited := {};
      sorted := [];
      path := [];
    }

    ghost predicate Valid()
      reads this
    {
      GraphOf(stageMap, graph) && SearchOk(stageMap, graph, visited, sorted, path)
    }

    method Visit(stageId: Text)
      requires Valid() && stageId in Nodes(graph)
      requires path != [] ==> Edge(graph, path[|path| - 1], stageId)
      modifies this
      ensures Valid()
      ensures path == old(path) && old(sorted) <= sorted && old(visited) <= visited
      ensures stageId in graph ==> stageId in Ids(sorted) || stageId in path
      ensures Search(visited, sorted) == Visited(stageMap, Nodes(graph), Search(old(visited), old(sorted)), stageId)
      decreases Nodes(graph) - visited, 0
    {
      if stageId in visited {
        return;
      }
      if stageId !in stageMap {
        SearchSkips(stageMap, graph, visited, sorted, path, stageId);
        visited := visited + {stageId};
        return;
      }
      SearchEnters(stageMap, graph, visited, sorted, path, stageId);
      visited := visited + {stageId};
      path := path + [stageId];
      var stage := stageMap[stageId];
      VisitAll(stageId, stage.dependsOn);
      path := path[..|path| - 1];
      SearchLeaves(stageMap, graph, visited, sorted, path, stageId);
      IdsMore(sorted, stage);
      sorted := sorted + [stage];
    }

    method VisitAll(stageId: Text, deps: seq<Text>)
      requires Valid() && path != [] && path[|path| - 1] == stageId
      requires forall v :: v in deps ==> Edge(graph, stageId, v)
      modifies this
      ensures Valid()
      ensures path == old(path) && old(sorted) <= sorted && old(visited) <= visited
      ensures Acyclic(graph) ==> Settled(graph, sorted, deps)
      ensures Search(visited, sorted) == VisitedAll(stageMap, Nodes(graph), Search(old(visited), old(sorted)), deps)
      decreases Nodes(graph) - visited, 1
    {
      for i := 0 to |deps|
        invariant Valid()
        invariant path == old(path) && old(sorted) <= sorted && old(visited) <= visited
        invariant Acyclic(graph) ==> Settled(graph, sorted, deps[..i])
        invariant Search(visited, sorted) ==
                    VisitedAll(stageMap, Nodes(graph), Search(old(visited), old(sorted)), deps[..i])
      {
        VisitedMore(stageMap, Nodes(graph), Search(old(visited), old(sorted)), deps, i);
        assert Edge(graph, stageId, deps[i]);
        EdgeInNodes(graph, stageId, deps[i]);
        ghost var before := sorted;
        Visit(deps[i]);
        TakeMore(deps, i);
        if deps[i] in path {
          PathMeetsItself(graph, path, deps[i]);
        } else if Acyclic(graph) {
          SettledMore(graph, before, sorted, deps[..i], deps[i]);
        }
      }
      assert deps[..|deps|] == deps;
    }
  }

  /** What the sort promises of its result, on any graph. */
  ghost predicate OrderOf(stages: seq<Stage>, order: seq<Stage>) {
    && FromMap(StageMap(stages), order)
    && ToSet(Ids(order)) == ToSet(Ids(stages))
    && (Acyclic(DependencyGraph(stages)) ==> AfterDependencies(StageMap(stages), order))
  }

  lemma {:induction false} StageInGraph(stages: seq<Stage>, i: nat)
    requires i < |stages|
    ensures stages[i].stageId in DependencyGraph(stages) && stages[i].stageId in Nodes(DependencyGraph(stages))
  {
    assert Ids(stages)[i] in ToSet(Ids(stages));
  }

  ghost predicate SortedUpTo(stages: seq<Stage>, i: nat, sorted: seq<Stage>)
    requires i <= |stages|
  {
    forall k :: 0 <= k < i ==> stages[k].stageId in Ids(sorted)
  }

  lemma {:induction false} SortedNext(stages: seq<Stage>, i: nat, before: seq<Stage>, after: seq<Stage>)
    requires i < |stages| && SortedUpTo(stages, i, before) && before <= after && stages[i].stageId in Ids(after)
    ensures SortedUpTo(stages, i + 1, after)
  {
    IdsGrow(before, after);
  }

  method ResolveDependencyOrder(stages: seq<Stage>) returns (order: seq<Stage>)
    ensures OrderOf(stages, order)
    ensures order == SearchOrder(stages)
  {
    var resolver := new DependencyResolver(stages);
    for i := 0 to |stages|
      invariant resolver.Valid() && resolver.path == []
      invariant resolver.stageMap == StageMap(stages) && resolver.graph == DependencyGraph(stages)
      invariant SortedUpTo(stages, i, resolver.sorted)
      invariant Search(resolver.visited, resolver.sorted) ==
                  VisitedAll(StageMap(stages), Nodes(DependencyGraph(stages)), Search({}, []), Ids(stages)[..i])
    {
      VisitedMore(StageMap(stages), Nodes(DependencyGraph(stages)), Search({}, []), Ids(stages), i);
      ghost var before := resolver.sorted;
      StageInGraph(stages, i);
      resolver.Visit(stages[i].stageId);
      SortedNext(stages, i, before, resolver.sorted);
    }
    order := resolver.sorted;
    assert Ids(stages)[..|stages|] == Ids(stages);
    SearchGivesOrder(stages, resolver.visited, order);
  }

  lemma {:induction false} SearchGivesOrder(stages: seq<Stage>, visited: set<Text>, order: seq<Stage>)
    requires SearchOk(StageMap(stages), DependencyGraph(stages), visited, order, [])
    requires SortedUpTo(stages, |stages|, order)
    ensures OrderOf(stages, order)
  {
    SameIds(StageMap(stages), Ids(stages), order);
  }

  lemma {:induction false} SameIds(m: map<Text, Stage>, ids: seq<Text>, order: seq<Stage>)
    requires m.Keys == ToSet(ids) && FromMap(m, order)
    requires forall k :: 0 <= k < |ids| ==> ids[k] in Ids(order)
    ensures ToSet(Ids(order)) == ToSet(ids)
  {
  }

  /** With distinct ids the result holds every stage exactly once. */
  lemma {:induction false} DistinctIdsPermute(stages: seq<Stage>, order: seq<Stage>)
    requires Distinct(Ids(stages)) && OrderOf(stages, order)
    ensures multiset(order) == multiset(stages)
  {
    DistinctStages(stages);
    DistinctStages(order);
    forall s ensures s in order <==> s in stages {
      if s in order {
        var k :| 0 <= k < |order| && order[k] == s;
        assert StageMap(stages)[s.stageId] in stages;
      }
      if s in stages {
        var i :| 0 <= i < |stages| && stages[i] == s;
        assert Ids(stages)[i] == s.stageId;
        assert s.stageId in ToSet(Ids(order));
        var k :| 0 <= k < |order| && Ids(order)[k] == s.stageId;
        OneStagePerId(stages, i, StageMap(stages)[s.stageId]);
      }
    }
    SameElementsOnce(order, stages);
  }

  lemma {:induction false} OneStagePerId(stages: seq<Stage>, i: nat, s: Stage)
    requires Distinct(Ids(stages)) && i < |stages| && s in stages && s.stageId == stages[i].stageId
    ensures s == stages[i]
  {
    var j :| 0 <= j < |stages| && stages[j] == s;
    assert Ids(stages)[i] == Ids(stages)[j];
  }

  lemma {:induction false} DistinctStages(stages: seq<Stage>)
    requires Distinct(Ids(stages))
    ensures Distinct(stages)
  {
    forall i, j | 0 <= i < j < |stages| ensures stages[i] != stages[j] {
      assert Ids(stages)[i] != Ids(stages)[j];
    }
  }

  lemma {:induction false} DistinctCount<T>(s: seq<T>, x: T)
    requires forall i, j :: 0 <= i < j < |s| ==> s[i] != s[j]
    ensures multiset(s)[x] == if x in s then 1 else 0
  {
    if s != [] {
      DistinctCount(s[1..], x);
      assert s == [s[0]] + s[1..];
    }
  }

  lemma {:induction false} SameElementsOnce<T>(a: seq<T>, b: seq<T>)
    requires forall i, j :: 0 <= i < j < |a| ==> a[i] != a[j]
    requires forall i, j :: 0 <= i < j < |b| ==> b[i] != b[j]
    requires forall x :: x in a <==> x in b
    ensures multiset(a) == multiset(b)
  {
    forall x ensures multiset(a)[x] == multiset(b)[x] {
      DistinctCount(a, x);
      DistinctCount(b, x);
    }
  }

  // ---------- Running ----------

  const STAGE_ERROR := Lit("COM-001")
  const STAGE_ERROR_PREFIX := Lit("Stage execution error: ")

  /** The result recorded for a stage: its own, or a blocking one when it threw. */
  function Recorded(stage: Stage, outcome: Outcome): StageResult {
    match outcome
    case Returned(result) => result
    case Threw(message) =>
      StageResult(BLOCKED, [Finding(stage.stageId, CRITICAL, STAGE_ERROR, STAGE_ERROR_PREFIX + message)])
  }

  /** The results by stage id. */
  function ResultMap(executed: seq<Stage>, results: seq<StageResult>): map<Text, StageResult>
    requires |executed| == |results|
  {
    if executed == [] then map[]
    else
      ResultMap(executed[..|executed| - 1], results[..|results| - 1])
        [executed[|executed| - 1].stageId := results[|results| - 1]]
  }

  function AllFindings(results: seq<StageResult>): seq<Finding> {
    if results == [] then [] else AllFindings(results[..|results| - 1]) + results[|results| - 1].findings
  }

  /** `areDependenciesMet` */
  predicate DependenciesMet(stage: Stage, previous: map<Text, StageResult>) {
    forall v :: v in stage.dependsOn ==> v in previous && previous[v].status == PASSED
  }

  datatype ChainResult = ChainResult(
    status: Status,
    stageResults: seq<StageResult>,
    allFindings: seq<Finding>,
    blockedAtStage: Option<Text>,
    approvalPending: bool)

  /**
   * The stages executed are the first of the order. Each of them ran when all its dependencies
   * had been executed before it and had passed, and left the result that is recorded.
   */
  ghost predicate Executed(order: seq<Stage>, executed: seq<Stage>, results: seq<StageResult>, execute: Executor) {
    && executed <= order && |results| == |executed|
    && forall k {:trigger executed[k]} :: 0 <= k < |executed| ==>
         && results[k] == Recorded(executed[k], execute(executed[k], ResultMap(executed[..k], results[..k])))
         && forall v :: v in executed[k].dependsOn ==> PassedBefore(executed, results, k, v)
  }

  ghost predicate PassedBefore(executed: seq<Stage>, results: seq<StageResult>, k: nat, id: Text)
    requires k <= |executed| == |results|
  {
    exists j :: 0 <= j < k && executed[j].stageId == id && results[j].status == PASSED
  }

  ghost predicate AllPassed(results: seq<StageResult>) {
    forall k :: 0 <= k < |results| ==> results[k].status == PASSED
  }

  lemma {:induction false} ResultMapPassed(executed: seq<Stage>, results: seq<StageResult>, id: Text)
    requires |executed| == |results| && AllPassed(results)
    ensures id in ResultMap(executed, results) <==> id in Ids(executed)
    ensures id in ResultMap(executed, results) ==>
              ResultMap(executed, results)[id].status == PASSED && PassedBefore(executed, results, |executed|, id)
  {
    if executed != [] {
      var n := |executed| - 1;
      ResultMapPassed(executed[..n], results[..n], id);
      assert executed == executed[..n] + [executed[n]];
      IdsMore(executed[..n], executed[n]);
      if executed[n].stageId != id && id in ResultMap(executed, results) {
        var j :| 0 <= j < n && executed[..n][j].stageId == id && results[..n][j].status == PASSED;
        assert executed[j].stageId == id && results[j].status == PASSED;
      }
    }
  }

  lemma {:induction false} ExecutedMore(
    order: seq<Stage>, executed: seq<Stage>, results: seq<StageResult>, execute: Executor, stage: Stage)
    requires Executed(order, executed, results, execute) && AllPassed(results)
    requires |executed| < |order| && order[|executed|] == stage
    requires DependenciesMet(stage, ResultMap(executed, results))
    ensures Executed(order, executed + [stage],
                     results + [Recorded(stage, execute(stage, ResultMap(executed, results)))], execute)
  {
    var n, result := |executed|, Recorded(stage, execute(stage, ResultMap(executed, results)));
    var es, rs := executed + [stage], results + [result];
    forall k | 0 <= k < |es|
      ensures rs[k] == Recorded(es[k], execute(es[k], ResultMap(es[..k], rs[..k])))
      ensures forall v :: v in es[k].dependsOn ==> PassedBefore(es, rs, k, v)
    {
      assert es[..k] == executed[..k] && rs[..k] == results[..k];
      if k < n {
        assert es[k] == executed[k];
        forall v | v in es[k].dependsOn ensures PassedBefore(es, rs, k, v) {
          assert PassedBefore(executed, results, k, v);
          var j :| 0 <= j < k && executed[j].stageId == v && results[j].status == PASSED;
          assert es[j].stageId == v && rs[j].status == PASSED;
        }
      } else {
        assert executed[..n] == executed && results[..n] == results;
        forall v | v in es[k].dependsOn ensures PassedBefore(es, rs, k, v) {
          ResultMapPassed(executed, results, v);
          var j :| 0 <= j < n && executed[j].stageId == v && results[j].status == PASSED;
          assert es[j].stageId == v && rs[j].status == PASSED;
        }
      }
    }
  }

  lemma {:induction false} FindingsMore(results: seq<StageResult>, r: StageResult)
    ensures AllFindings(results + [r]) == AllFindings(results) + r.findings
  {
  }

  lemma {:induction false} MapMore(executed: seq<Stage>, results: seq<StageResult>, stage: Stage, r: StageResult)
    requires |executed| == |results|
    ensures ResultMap(executed + [stage], results + [r]) == ResultMap(executed, results)[stage.stageId := r]
  {
  }

  /** Where the run stops, when it does. */
  ghost predicate Stopped(order: seq<Stage>, executed: seq<Stage>, results: seq<StageResult>, at: Text)
    requires |executed| == |results|
  {
    || (executed != [] && AllPassed(results[..|results| - 1]) && results[|results| - 1].status != PASSED
        && at == executed[|executed| - 1].stageId)
    || (AllPassed(results) && |executed| < |order| && executed == order[..|executed|]
        && at == order[|executed|].stageId
        && !DependenciesMet(order[|executed|], ResultMap(executed, results)))
  }

  /** What a run reports. */
  ghost predicate ReportOf(
    stages: seq<Stage>, order: seq<Stage>, executed: seq<Stage>, execute: Executor, r: ChainResult)
  {
    && Executed(order, executed, r.stageResults, execute)
    && r.allFindings == AllFindings(r.stageResults)
    && (match r.blockedAtStage
        case None => executed == order && AllPassed(r.stageResults) && r.status == PASSED
        case Some(at) => Stopped(order, executed, r.stageResults, at) && r.status != PASSED)
    && (r.approvalPending <==> r.status == REVIEW_NEEDED)
    && (r.status == REVIEW_NEEDED <==>
          r.stageResults != [] && r.stageResults[|r.stageResults| - 1].status == REVIEW_NEEDED)
  }

  // ---------- What stages see and leave ----------

  /** The map holds the results of these stages under their ids, and nothing else. */
  ghost predicate MapOf(m: map<Text, StageResult>, executed: seq<Stage>, results: seq<StageResult>)
    requires |executed| == |results|
  {
    && m.Keys == ToSet(Ids(executed))
    && forall j {:trigger executed[j]} :: 0 <= j < |executed| ==>
         executed[j].stageId in m && m[executed[j].stageId] == results[j]
  }

  lemma {:induction false} MapOfMore(
    m: map<Text, StageResult>, executed: seq<Stage>, results: seq<StageResult>, stage: Stage, r: StageResult)
    requires |executed| == |results| && MapOf(m, executed, results) && stage.stageId !in Ids(executed)
    ensures MapOf(m[stage.stageId := r], executed + [stage], results + [r])
  {
    IdsMore(executed, stage);
    forall j | 0 <= j < |executed| ensures executed[j].stageId != stage.stageId {
      assert Ids(executed)[j] in Ids(executed);
    }
    assert ToSet(Ids(executed) + [stage.stageId]) == ToSet(Ids(executed)) + {stage.stageId};
  }

  lemma {:induction false} ResultMapIs(executed: seq<Stage>, results: seq<StageResult>)
    requires |executed| == |results| && Distinct(Ids(executed))
    ensures MapOf(ResultMap(executed, results), executed, results)
  {
    if executed != [] {
      var n := |executed| - 1;
      NotListedYet(executed, n);
      assert forall i :: 0 <= i < n ==> Ids(executed[..n])[i] == Ids(executed)[i];
      ResultMapIs(executed[..n], results[..n]);
      MapOfMore(ResultMap(executed[..n], results[..n]), executed[..n], results[..n], executed[n], results[n]);
      assert executed == executed[..n] + [executed[n]] && results == results[..n] + [results[n]];
    }
  }

  /** Each stage is shown exactly the results of those executed before it, and leaves its own, or a finding if it throws. */
  lemma {:induction false} StageSees(
    stages: seq<Stage>, order: seq<Stage>, executed: seq<Stage>, results: seq<StageResult>, execute: Executor, k: nat)
      returns (seen: map<Text, StageResult>)
    requires OrderOf(stages, order) && Executed(order, executed, results, execute) && k < |executed|
    ensures MapOf(seen, executed[..k], results[..k])
    ensures results[k] ==
              match execute(executed[k], seen)
              case Returned(result) => result
              case Threw(message) =>
                StageResult(BLOCKED, [Finding(executed[k].stageId, CRITICAL, Lit("COM-001"),
                                              Lit("Stage execution error: ") + message)])
  {
    seen := ResultMap(executed[..k], results[..k]);
    DistinctPrefix(stages, order, executed[..k]);
    ResultMapIs(executed[..k], results[..k]);
    assert results[k] == Recorded(executed[k], execute(executed[k], seen));
  }

  lemma {:induction false} DistinctPrefix(stages: seq<Stage>, order: seq<Stage>, executed: seq<Stage>)
    requires OrderOf(stages, order) && executed <= order
    ensures Distinct(Ids(executed))
  {
    forall i, j | 0 <= i < j < |executed| ensures Ids(executed)[i] != Ids(executed)[j] {
      assert Ids(order)[i] != Ids(order)[j];
    }
  }

  /** The findings of a chain are those of its stages one after the other. */
  lemma {:induction false} FindingsConcat(a: seq<StageResult>, b: seq<StageResult>)
    ensures AllFindings(a + b) == AllFindings(a) + AllFindings(b)
    ensures |a| == 1 ==> AllFindings(a) == a[0].findings
  {
    if b == [] {
      assert a + b == a;
    } else {
      var init := b[..|b| - 1];
      assert (a + b)[..|a + b| - 1] == a + init;
      FindingsConcat(a, init);
      Assoc(AllFindings(a), AllFindings(init), b[|b| - 1].findings);
    }
    assert |a| == 1 ==> a[..0] == [];
  }

  // ---------- What is never executed ----------

  /** Every dependency of the stage at `k` was executed earlier and passed. */
  ghost predicate DownFrom(g: Graph, executed: seq<Stage>, results: seq<StageResult>, k: nat)
    requires k < |executed| == |results|
  {
    forall v {:trigger PassedBefore(executed, results, k, v)} :: Edge(g, executed[k].stageId, v) ==>
      PassedBefore(executed, results, k, v)
  }

  lemma {:induction false} ExecutedGoesDown(
    stages: seq<Stage>, order: seq<Stage>, executed: seq<Stage>, results: seq<StageResult>, execute: Executor, k: nat)
    requires OrderOf(stages, order) && Executed(order, executed, results, execute) && k < |executed|
    ensures DownFrom(DependencyGraph(stages), executed, results, k)
  {
    assert executed[k] == order[k] == StageMap(stages)[executed[k].stageId];
  }

  /** Along any walk of dependencies from an executed stage, every stage was executed earlier and passed. */
  lemma {:induction false} DownAlong(g: Graph, executed: seq<Stage>, results: seq<StageResult>, p: seq<Text>, k: nat)
      returns (j: nat)
    requires k < |executed| == |results|
    requires forall i {:trigger DownFrom(g, executed, results, i)} :: 0 <= i < |executed| ==> DownFrom(g, executed, results, i)
    requires p != [] && Path(g, p) && p[0] == executed[k].stageId
    ensures j <= k && executed[j].stageId == p[|p| - 1]
    ensures if |p| > 1 then j < k && results[j].status == PASSED else j == k
    decreases |p|
  {
    j := k;
    if |p| > 1 {
      assert DownFrom(g, executed, results, k) && Edge(g, p[0], p[1]);
      assert PassedBefore(executed, results, k, p[1]);
      var i :| 0 <= i < k && executed[i].stageId == p[1] && results[i].status == PASSED;
      forall n | 0 <= n < |p[1..]| - 1 ensures Edge(g, p[1..][n], p[1..][n + 1]) {
        assert Edge(g, p[n + 1], p[n + 1 + 1]);
      }
      j := DownAlong(g, executed, results, p[1..], i);
    }
  }

  lemma {:induction false} ExecutedAlong(
    stages: seq<Stage>, order: seq<Stage>, executed: seq<Stage>, results: seq<StageResult>, execute: Executor,
    p: seq<Text>, k: nat) returns (j: nat)
    requires OrderOf(stages, order) && Executed(order, executed, results, execute)
    requires k < |executed| && p != [] && Path(DependencyGraph(stages), p) && p[0] == executed[k].stageId
    ensures j <= k && executed[j].stageId == p[|p| - 1]
    ensures if |p| > 1 then j < k && results[j].status == PASSED else j == k
  {
    forall i | 0 <= i < |executed| ensures DownFrom(DependencyGraph(stages), executed, results, i) {
      ExecutedGoesDown(stages, order, executed, results, execute, i);
    }
    j := DownAlong(DependencyGraph(stages), executed, results, p, k);
  }

  lemma {:induction false} ExecutedOnce(stages: seq<Stage>, order: seq<Stage>, executed: seq<Stage>, i: nat, j: nat)
    requires OrderOf(stages, order) && executed <= order && i < |executed| && j < |executed|
    ensures executed[i].stageId == executed[j].stageId ==> i == j
  {
    assert Ids(order)[i] == executed[i].stageId && Ids(order)[j] == executed[j].stageId;
  }

  /** What an executed stage depends on, directly or through others, was executed before it and passed. */
  lemma {:induction false} ReachedWasExecuted(
    stages: seq<Stage>, order: seq<Stage>, executed: seq<Stage>, results: seq<StageResult>, execute: Executor,
    k: nat, v: Text) returns (j: nat)
    requires OrderOf(stages, order) && Executed(order, executed, results, execute)
    requires k < |executed| && Reaches(DependencyGraph(stages), executed[k].stageId, v)
    ensures j <= k && executed[j].stageId == v && v in StageMap(stages)
    ensures j < k ==> results[j].status == PASSED
  {
    var p :| Walk(DependencyGraph(stages), p, executed[k].stageId, v);
    j := ExecutedAlong(stages, order, executed, results, execute, p, k);
    ExecutedIsStage(stages, order, executed, j);
  }

  /** A node that some closed walk starts from. */
  ghost predicate OnCycle(g: Graph, v: Text) {
    exists w :: Cycle(g, w) && w[0] == v
  }

  lemma {:induction false} ExecutedIsOffCycles(
    stages: seq<Stage>, order: seq<Stage>, executed: seq<Stage>, results: seq<StageResult>, execute: Executor, j: nat)
    requires OrderOf(stages, order) && Executed(order, executed, results, execute) && j < |executed|
    ensures !OnCycle(DependencyGraph(stages), executed[j].stageId)
  {
    if w :| Cycle(DependencyGraph(stages), w) && w[0] == executed[j].stageId {
      ExecutedOffCycles(stages, order, executed, results, execute, w, j);
    }
  }

  /**
   * Whatever the stages do: one that depends, directly or through others, on a stage that did not
   * pass, on an unknown id, or on a stage on a cycle is never executed.
   */
  lemma {:induction false} NeverExecutedAboveTrouble(
    stages: seq<Stage>, order: seq<Stage>, executed: seq<Stage>, results: seq<StageResult>, execute: Executor,
    k: nat, v: Text)
    requires OrderOf(stages, order) && Executed(order, executed, results, execute)
    requires k < |executed| && Reaches(DependencyGraph(stages), executed[k].stageId, v)
    ensures v in StageMap(stages) && !OnCycle(DependencyGraph(stages), v)
    ensures v != executed[k].stageId ==> PassedBefore(executed, results, k, v)
  {
    var j := ReachedWasExecuted(stages, order, executed, results, execute, k, v);
    ExecutedIsOffCycles(stages, order, executed, results, execute, j);
    assert j < k ==> PassedBefore(executed, results, k, v);
  }

  lemma {:induction false} ExecutedIsStage(stages: seq<Stage>, order: seq<Stage>, executed: seq<Stage>, j: nat)
    requires OrderOf(stages, order) && executed <= order && j < |executed|
    ensures executed[j].stageId in StageMap(stages)
  {
    assert order[j] == executed[j];
  }

  lemma {:induction false} ExecutedOffCycles(
    stages: seq<Stage>, order: seq<Stage>, executed: seq<Stage>, results: seq<StageResult>, execute: Executor,
    w: seq<Text>, j: nat)
    requires OrderOf(stages, order) && Executed(order, executed, results, execute)
    requires Cycle(DependencyGraph(stages), w) && j < |executed|
    ensures w[0] != executed[j].stageId
  {
    var p := ClosedWalk(DependencyGraph(stages), w);
    if w[0] == executed[j].stageId {
      var i := ExecutedAlong(stages, order, executed, results, execute, p, j);
      ExecutedOnce(stages, order, executed, i, j);
    }
  }

  /** Positions in an order that respects all dependencies rank the dependency graph. */
  lemma {:induction false} PassedMeansSound(stages: seq<Stage>, order: seq<Stage>, results: seq<StageResult>, execute: Executor)
    requires OrderOf(stages, order) && Executed(order, order, results, execute)
    ensures Acyclic(DependencyGraph(stages)) && Closed(stages)
  {
    var g, ids := DependencyGraph(stages), Ids(order);
    var rank: map<Text, int> := map id | id in ToSet(ids) :: IndexOf(ids, id);
    forall u, v | Edge(g, u, v) ensures u in rank && v in rank && rank[v] < rank[u] {
      DependencyComesBefore(stages, order, results, execute, u, v);
    }
    RankedIsAcyclic(g, rank);
  }

  lemma {:induction false} DependencyComesBefore(
    stages: seq<Stage>, order: seq<Stage>, results: seq<StageResult>, execute: Executor, u: Text, v: Text)
    requires OrderOf(stages, order) && Executed(order, order, results, execute)
    requires Edge(DependencyGraph(stages), u, v)
    ensures u in Ids(order) && v in Ids(order) && IndexOf(Ids(order), v) < IndexOf(Ids(order), u)
  {
    var ids := Ids(order);
    assert u in ToSet(ids);
    var k := IndexOf(ids, u);
    assert order[k] == StageMap(stages)[u];
    assert PassedBefore(order, results, k, v);
    FoundBefore(order, results, k, v);
  }

  lemma {:induction false} FoundBefore(order: seq<Stage>, results: seq<StageResult>, k: nat, v: Text)
    requires k <= |order| == |results| && Distinct(Ids(order)) && PassedBefore(order, results, k, v)
    ensures v in Ids(order) && IndexOf(Ids(order), v) < k
  {
    var ids := Ids(order);
    var j :| 0 <= j < k && order[j].stageId == v && results[j].status == PASSED;
    assert ids[j] == v;
    assert ids[IndexOf(ids, v)] == v;
  }

  /** In a sound graph, a stage whose predecessors in the order have all passed finds its dependencies met. */
  lemma {:induction false} SoundMeansMet(
    stages: seq<Stage>, order: seq<Stage>, n: nat, results: seq<StageResult>)
    requires OrderOf(stages, order) && Acyclic(DependencyGraph(stages)) && Closed(stages)
    requires n < |order| && |results| == n && AllPassed(results)
    ensures DependenciesMet(order[n], ResultMap(order[..n], results))
  {
    var stage := order[n];
    forall v | v in stage.dependsOn
      ensures v in ResultMap(order[..n], results) && ResultMap(order[..n], results)[v].status == PASSED
    {
      assert Edge(DependencyGraph(stages), stage.stageId, v);
      assert v in Ids(order[..n]);
      ResultMapPassed(order[..n], results, v);
    }
  }

  lemma {:induction false} PassedIff(stages: seq<Stage>, order: seq<Stage>, executed: seq<Stage>, execute: Executor, r: ChainResult)
    requires OrderOf(stages, order) && ReportOf(stages, order, executed, execute, r)
    ensures r.status == PASSED <==>
              Acyclic(DependencyGraph(stages)) && Closed(stages) && AllPassed(r.stageResults)
  {
    if r.status == PASSED {
      PassedMeansSound(stages, order, r.stageResults, execute);
    }
    if Acyclic(DependencyGraph(stages)) && Closed(stages) && AllPassed(r.stageResults) && r.status != PASSED {
      var n := |executed|;
      assert n < |order| && executed == order[..n];
      SoundMeansMet(stages, order, n, r.stageResults);
      assert false;
    }
  }

  /** How the loop over the stages ends. */
  ghost predicate Ended(
    order: seq<Stage>, executed: seq<Stage>, results: seq<StageResult>, blocked: Option<Text>, pending: bool)
    requires |executed| == |results|
  {
    match blocked
    case None => executed == order && AllPassed(results) && !pending
    case Some(at) =>
      && Stopped(order, executed, results, at)
      && (pending <==> results != [] && results[|results| - 1].status == REVIEW_NEEDED)
  }

  lemma {:induction false} EndedAtStage(
    order: seq<Stage>, executed: seq<Stage>, results: seq<StageResult>, stage: Stage, r: StageResult)
    requires |executed| == |results| && AllPassed(results) && r.status != PASSED
    ensures Ended(order, executed + [stage], results + [r], Some(stage.stageId), r.status == REVIEW_NEEDED)
  {
  }

  /** One more stage: the order so far, what ran, what was found, and what later stages are shown. */
  lemma {:induction false} OneMoreStage(
    order: seq<Stage>, n: nat, executed: seq<Stage>, results: seq<StageResult>, execute: Executor)
    requires n < |order| && executed == order[..n] && Executed(order, executed, results, execute) && AllPassed(results)
    requires DependenciesMet(order[n], ResultMap(executed, results))
    ensures var stage := order[n];
            var r := Recorded(stage, execute(stage, ResultMap(executed, results)));
            && executed + [stage] == order[..n + 1]
            && Executed(order, executed + [stage], results + [r], execute)
            && AllFindings(results + [r]) == AllFindings(results) + r.findings
            && ResultMap(executed + [stage], results + [r]) == ResultMap(executed, results)[stage.stageId := r]
            && (r.status == PASSED ==> AllPassed(results + [r]))
            && (r.status != PASSED ==>
                  Ended(order, executed + [stage], results + [r], Some(stage.stageId), r.status == REVIEW_NEEDED))
  {
    var r := Recorded(order[n], execute(order[n], ResultMap(executed, results)));
    ExecutedMore(order, executed, results, execute, order[n]);
    TakeMore(order, n);
    FindingsMore(results, r);
    MapMore(executed, results, order[n], r);
    if r.status != PASSED {
      EndedAtStage(order, executed, results, order[n], r);
    }
  }

  method RunStages(order: seq<Stage>, execute: Executor)
      returns (stageResults: seq<StageResult>, allFindings: seq<Finding>, blockedAtStage: Option<Text>,
               approvalPending: bool, ghost executed: seq<Stage>)
    ensures Executed(order, executed, stageResults, execute)
    ensures allFindings == AllFindings(stageResults)
    ensures Ended(order, executed, stageResults, blockedAtStage, approvalPending)
  {
    stageResults, allFindings, executed := [], [], [];
    var previous: map<Text, StageResult> := map[];
    for n := 0 to |order|
      invariant executed == order[..n]
      invariant Executed(order, executed, stageResults, execute) && AllPassed(stageResults)
      invariant allFindings == AllFindings(stageResults)
      invariant previous == ResultMap(executed, stageResults)
    {
      var stage := order[n];
      if !DependenciesMet(stage, previous) {
        return stageResults, allFindings, Some(stage.stageId), false, executed;
      }
      var outcome := execute(stage, previous);
      var recorded := Recorded(stage, outcome);
      OneMoreStage(order, n, executed, stageResults, execute);
      executed := executed + [stage];
      stageResults := stageResults + [recorded];
      allFindings := allFindings + recorded.findings;
      match outcome {
        case Threw(_) =>
          return stageResults, allFindings, Some(stage.stageId), false, executed;
        case Returned(r) =>
          previous := previous[stage.stageId := r];
          if r.status == BLOCKED {
            return stageResults, allFindings, Some(stage.stageId), false, executed;
          }
          if r.status == REVIEW_NEEDED {
            return stageResults, allFindings, Some(stage.stageId), true, executed;
          }
      }
    }
    assert order[..|order|] == order;
    blockedAtStage, approvalPending := None, false;
  }

  method RunChain(stages: seq<Stage>, execute: Executor)
      returns (result: ChainResult, ghost order: seq<Stage>, ghost executed: seq<Stage>)
    ensures OrderOf(stages, order) && order == SearchOrder(stages)
    ensures ReportOf(stages, order, executed, execute, result)
    // The chain passes exactly when its dependency graph is sound and nothing that ran did not pass.
    ensures result.status == PASSED <==>
              Acyclic(DependencyGraph(stages)) && Closed(stages) && AllPassed(result.stageResults)
  {
    var orderedStages := ResolveDependencyOrder(stages);
    order := orderedStages;
    var stageResults, allFindings, blockedAtStage, approvalPending;
    stageResults, allFindings, blockedAtStage, approvalPending, executed := RunStages(orderedStages, execute);
    var status := if blockedAtStage.Some? then (if approvalPending then REVIEW_NEEDED else BLOCKED)
                  else if (forall r :: r in stageResults ==> r.status == PASSED) then PASSED
                  else REVIEW_NEEDED;
    result := ChainResult(status, stageResults, allFindings, blockedAtStage, approvalPending);
    PassedIff(stages, order, executed, execute, result);
  }
}
