/** The depth-first topological sort that plans add-on activation and disposal. */
module TopologicalOrder {

  type AddonId = string

  /** Each add-on with the add-ons it depends on. */
  type Graph = map<AddonId, seq<AddonId>>

  datatype PlanError = DependencyCycle(id: AddonId) | MissingDependency(id: AddonId)
  datatype Plan = Ordered(order: seq<AddonId>) | PlanFailed(error: PlanError)

  /** Every add-on exactly once, each one after all of its dependencies. */
  ghost predicate IsTopologicalOrder(graph: Graph, order: seq<AddonId>) {
    && (forall i, j | 0 <= i < j < |order| :: order[i] != order[j])
    && (forall id :: id in order <==> id in graph)
    && (forall i, dependency | 0 <= i < |order| && dependency in graph[order[i]] :: dependency in order[..i])
  }

  ghost predicate HasMissingDependency(graph: Graph) {
    exists id, dependency | id in graph && dependency in graph[id] :: dependency !in graph
  }

  /** Each add-on of the path depends on the next one. */
  ghost predicate IsPath(graph: Graph, path: seq<AddonId>) {
    && (forall i | 0 <= i < |path| :: path[i] in graph)
    && (forall i | 0 <= i < |path| - 1 :: path[i + 1] in graph[path[i]])
  }

  ghost predicate IsCycle(graph: Graph, path: seq<AddonId>) {
    2 <= |path| && IsPath(graph, path) && path[0] == path[|path| - 1]
  }

  ghost predicate HasCycle(graph: Graph) {
    exists path :: IsCycle(graph, path)
  }

  /** The three variables the recursive visit shares. */
  datatype Walk = Walk(ordered: seq<AddonId>, visiting: set<AddonId>, visited: set<AddonId>) {
    ghost predicate Valid(graph: Graph) {
      && visiting !! visited
      && visiting + visited <= graph.Keys
      && (forall id :: id in visited <==> id in ordered)
      && (forall i, j | 0 <= i < j < |ordered| :: ordered[i] != ordered[j])
      && (forall i, dependency | 0 <= i < |ordered| && dependency in graph[ordered[i]] :: dependency in ordered[..i])
    }
  }

  datatype VisitResult = Visited(walk: Walk) | VisitFailed(error: PlanError)

  /** A failure is genuine: there is a cycle, or a dependency is missing. */
  ghost predicate Genuine(graph: Graph, error: PlanError) {
    match error
    case DependencyCycle(_) => HasCycle(graph)
    case MissingDependency(_) => HasMissingDependency(graph)
  }

  /** The stack of add-ons whose visit has begun, as a path that leads to the next one. */
  ghost predicate IsStack(graph: Graph, stack: seq<AddonId>, visiting: set<AddonId>, next: AddonId) {
    && IsPath(graph, stack)
    && (forall id :: id in stack <==> id in visiting)
    && (stack != [] ==> next in graph[stack[|stack| - 1]])
  }

  method Visit(graph: Graph, walk: Walk, id: AddonId, ghost stack: seq<AddonId>) returns (result: VisitResult)
    requires walk.Valid(graph) && id in graph && IsStack(graph, stack, walk.visiting, id)
    ensures result.Visited? ==>
      && result.walk.Valid(graph)
      && result.walk.visiting == walk.visiting
      && walk.ordered <= result.walk.ordered
      && id in result.walk.visited
    ensures result.VisitFailed? ==> Genuine(graph, result.error)
    decreases graph.Keys - walk.visiting
  {
    if id in walk.visited { return Visited(walk); }
    if id in walk.visiting {
      StackClosesCycle(graph, stack, id);
      return VisitFailed(DependencyCycle(id));
    }
    var current := walk.(visiting := walk.visiting + {id});
    var dependencies := graph[id];
    assert IsPath(graph, stack + [id]);
    for index := 0 to |dependencies|
      invariant current.Valid(graph)
      invariant current.visiting == walk.visiting + {id}
      invariant walk.ordered <= current.ordered
      invariant forall k | 0 <= k < index :: dependencies[k] in current.visited
    {
      var dependency := dependencies[index];
      if dependency !in graph { return VisitFailed(MissingDependency(dependency)); }
      var visit := Visit(graph, current, dependency, stack + [id]);
      if visit.VisitFailed? { return visit; }
      current := visit.walk;
    }
    ghost var ordered := current.ordered + [id];
    assert forall i | 0 <= i < |current.ordered| :: ordered[..i] == current.ordered[..i];
    assert ordered[..|current.ordered|] == current.ordered;
    return Visited(Walk(current.ordered + [id], current.visiting - {id}, current.visited + {id}));
  }

  /** Succeeds exactly when the graph has neither a cycle nor a missing dependency. */
  method Sort(graph: Graph) returns (plan: Plan)
    ensures plan.Ordered? ==> IsTopologicalOrder(graph, plan.order)
    ensures plan.Ordered? <==> !HasCycle(graph) && !HasMissingDependency(graph)
    ensures plan.PlanFailed? ==> Genuine(graph, plan.error)
  {
    var walk := Walk([], {}, {});
    var keys := graph.Keys;
    while keys != {}
      invariant keys <= graph.Keys
      invariant walk.Valid(graph) && walk.visiting == {}
      invariant graph.Keys - keys <= walk.visited
      decreases keys
    {
      var id :| id in keys;
      var visit := Visit(graph, walk, id, []);
      if visit.VisitFailed? { return PlanFailed(visit.error); }
      walk := visit.walk;
      keys := keys - {id};
    }
    plan := Ordered(walk.ordered);
    OrderedGraphIsSound(graph, plan.order);
  }

  lemma StackClosesCycle(graph: Graph, stack: seq<AddonId>, id: AddonId)
    requires IsPath(graph, stack) && id in stack && id in graph && id in graph[stack[|stack| - 1]]
    ensures HasCycle(graph)
  {
    var k :| 0 <= k < |stack| && stack[k] == id;
    assert IsCycle(graph, stack[k..] + [id]);
  }

  ghost function Position(order: seq<AddonId>, id: AddonId): (i: nat)
    requires id in order
    ensures i < |order| && order[i] == id
  {
    var i :| 0 <= i < |order| && order[i] == id;
    i
  }

  /** Along a path the positions in a topological order strictly decrease. */
  lemma {:induction false} PathDescends(graph: Graph, order: seq<AddonId>, path: seq<AddonId>, last: nat)
    requires IsTopologicalOrder(graph, order) && IsPath(graph, path) && last < |path|
    ensures Position(order, path[last]) + last <= Position(order, path[0])
  {
    if last > 0 {
      PathDescends(graph, order, path, last - 1);
      var p := Position(order, path[last - 1]);
      assert path[last] in order[..p];
      var q :| 0 <= q < p && order[q] == path[last];
      assert Position(order, path[last]) == q;
    }
  }

  lemma OrderedGraphIsSound(graph: Graph, order: seq<AddonId>)
    requires IsTopologicalOrder(graph, order)
    ensures !HasCycle(graph) && !HasMissingDependency(graph)
  {
    forall path | IsCycle(graph, path)
      ensures false
    {
      PathDescends(graph, order, path, |path| - 1);
    }
    forall id, dependency | id in graph && dependency in graph[id]
      ensures dependency in graph
    {
      assert dependency in order[..Position(order, id)];
    }
  }

  /** A part of a sound graph that contains its own dependencies is sound. */
  lemma ClosedPartIsSound(graph: Graph, part: Graph)
    requires !HasCycle(graph)
    requires part.Keys <= graph.Keys
    requires forall id | id in part :: part[id] == graph[id]
    requires forall id, dependency | id in part && dependency in part[id] :: dependency in part
    ensures !HasCycle(part) && !HasMissingDependency(part)
  {
    forall path | IsCycle(part, path)
      ensures false
    {
      assert IsCycle(graph, path);
    }
  }

  /** Going back along dependents ends at an add-on that no other depends on. */
  lemma FindRoot(graph: Graph, path: seq<AddonId>) returns (root: AddonId)
    requires !HasCycle(graph) && IsPath(graph, path) && path != []
    ensures root in graph && forall id | id in graph :: root !in graph[id]
    decreases graph.Keys - set id <- path
  {
    if dependent :| dependent in graph && path[0] in graph[dependent] {
      if k :| 0 <= k < |path| && path[k] == dependent {
        assert IsCycle(graph, [dependent] + path[..k + 1]);
      }
      assert dependent !in path && dependent in [dependent] + path;
      assert (set id <- [dependent] + path) == (set id <- path) + {dependent};
      root := FindRoot(graph, [dependent] + path);
    } else {
      root := path[0];
    }
  }

  /** Every graph without a cycle and a missing dependency can be ordered. */
  lemma {:induction false} OrderExists(graph: Graph) returns (order: seq<AddonId>)
    requires !HasCycle(graph) && !HasMissingDependency(graph)
    ensures IsTopologicalOrder(graph, order)
    decreases graph.Keys
  {
    if graph.Keys == {} {
      order := [];
    } else {
      var id: AddonId :| id in graph;
      var root := FindRoot(graph, [id]);
      var rest := map other | other in graph && other != root :: graph[other];
      ClosedPartIsSound(graph, rest);
      assert root in graph.Keys && root !in rest.Keys;
      var before := OrderExists(rest);
      order := before + [root];
      forall i, dependency | 0 <= i < |order| && dependency in graph[order[i]]
        ensures dependency in order[..i]
      {
        assert order[..i] == before[..i];
        assert i == |before| ==> before[..i] == before && dependency in rest;
      }
    }
  }
}
