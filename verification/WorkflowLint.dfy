/** The lint tool's depth-first cycle finder, and its agreement with the plugin sort. */
module WorkflowLint {
  import opened Options
  import opened Sorting
  import opened Graphs
  import PluginOrder

  /** The edges between the graph's own keys; a reference to anything else is dangling and ignored. */
  ghost function GraphEdges(graph: map<string, seq<string>>): (e: Edges)
    ensures forall a, b :: (a, b) in e <==> (a in graph && b in graph && b in graph[a])
  {
    set a, b | a in graph && b in graph[a] && b in graph :: (a, b)
  }

  /** A path that runs into itself: its last node occurs earlier in it. */
  ghost predicate Lasso(edges: Edges, p: seq<string>) {
    && Path(edges, p)
    && p[|p| - 1] in p[..|p| - 1]
  }

  lemma LassoMeansCyclic(edges: Edges, p: seq<string>)
    requires Lasso(edges, p)
    ensures Cyclic(edges)
  {
    var i :| 0 <= i < |p| - 1 && p[i] == p[|p| - 1];
    PathSuffix(edges, p, i);
    assert Cycle(edges, p[i..]);
  }

  // ---------------------------------------------------------------- the search

  /** The recursion stack is the current path, a path of the graph; visited nodes off the path are
      finished, each after all its successors. */
  ghost predicate SearchState(graph: map<string, seq<string>>, visited: set<string>, recStack: set<string>,
                              path: seq<string>, finished: seq<string>) {
    && visited <= graph.Keys
    && recStack == (set v | v in path)
    && recStack <= visited
    && Distinct(path)
    && (path != [] ==> Path(GraphEdges(graph), path))
    && Distinct(finished)
    && (forall v :: v in finished <==> v in visited && v !in recStack)
    && ClosedUnderPredecessors(Reversed(GraphEdges(graph)), finished)
  }

  lemma Enter(graph: map<string, seq<string>>, visited: set<string>, recStack: set<string>,
              path: seq<string>, finished: seq<string>, node: string)
    requires SearchState(graph, visited, recStack, path, finished) && node in graph && node !in visited
    requires path != [] ==> (path[|path| - 1], node) in GraphEdges(graph)
    ensures SearchState(graph, visited + {node}, recStack + {node}, path + [node], finished)
  {
    hide GraphEdges, ClosedUnderPredecessors, Reversed;
    assert forall v :: v in path + [node] <==> v in path || v == node;
    DistinctConcat(path, [node]);
    assert forall i :: 0 <= i < |path| - 1 ==> (path[i], path[i + 1]) in GraphEdges(graph);
  }

  /** A node whose successors are all finished can be finished next. */
  lemma Leave(graph: map<string, seq<string>>, visited: set<string>, recStack: set<string>,
              path: seq<string>, finished: seq<string>, node: string)
    requires SearchState(graph, visited, recStack, path + [node], finished) && node in graph
    requires forall b :: b in graph[node] && b in graph ==> b in finished
    ensures SearchState(graph, visited, recStack - {node}, path, finished + [node])
  {
    hide ClosedUnderPredecessors;
    DistinctParts(path, [node]);
    assert node in path + [node] && forall v :: v in path + [node] <==> v in path || v == node;
    DistinctConcat(finished, [node]);
    PluginOrder.ClosedStep(Reversed(GraphEdges(graph)), finished, node);
    if path != [] {
      PathPrefix(GraphEdges(graph), path + [node], |path|);
      assert (path + [node])[..|path|] == path;
    }
    hide GraphEdges, Reversed, Distinct;
  }

  /** An edge back into the current path closes a lasso. */
  lemma BackEdge(graph: map<string, seq<string>>, visited: set<string>, recStack: set<string>,
                 path: seq<string>, finished: seq<string>, node: string)
    requires SearchState(graph, visited, recStack, path, finished) && path != []
    requires (path[|path| - 1], node) in GraphEdges(graph) && node in recStack
    ensures Lasso(GraphEdges(graph), path + [node])
  {
    hide GraphEdges, ClosedUnderPredecessors, Reversed, Distinct;
    assert (path + [node])[..|path|] == path;
    assert forall i :: 0 <= i < |path| - 1 ==> (path[i], path[i + 1]) in GraphEdges(graph);
  }

  /** A visited node is on the current path or finished. */
  lemma OnPathOrFinished(graph: map<string, seq<string>>, visited: set<string>, recStack: set<string>,
                         path: seq<string>, finished: seq<string>)
    requires SearchState(graph, visited, recStack, path, finished)
    ensures visited <= graph.Keys && forall v :: v in visited ==> v in recStack || v in finished
  {
  }

  lemma PathVisited(graph: map<string, seq<string>>, visited: set<string>, recStack: set<string>,
                    path: seq<string>, finished: seq<string>)
    requires SearchState(graph, visited, recStack, path, finished)
    ensures forall v :: v in recStack <==> v in path
    ensures forall v :: v in finished ==> v in visited && v !in recStack
  {
  }

  class CycleFinder {
    const graph: map<string, seq<string>>
    var visited: set<string>
    var recStack: set<string>
    var path: seq<string>
    /** The nodes the search has left for good, in the order it left them. */
    ghost var finished: seq<string>

    ghost predicate Valid()
      reads this
    {
      SearchState(graph, visited, recStack, path, finished)
    }

    constructor (graph: map<string, seq<string>>)
      ensures Valid() && this.graph == graph && visited == {} && path == [] && finished == []
    {
      this.graph := graph;
      visited, recStack, path, finished := {}, {}, [], [];
    }

    /** Explore `node`; when nothing is found the path and the stack are as before and `node` is finished. */
    method Dfs(node: string) returns (found: bool)
      requires Valid() && node in graph && node !in visited
      requires path != [] ==> (path[|path| - 1], node) in GraphEdges(graph)
      modifies this
      ensures found ==> Lasso(GraphEdges(graph), path)
      ensures !found ==> Valid() && path == old(path) && recStack == old(recStack)
      ensures !found ==> old(visited) + {node} <= visited && node in finished
      ensures !found ==> forall v :: v in old(finished) ==> v in finished
      decreases graph.Keys - visited
    {
      hide SearchState, Lasso;
      Enter(graph, visited, recStack, path, finished, node);
      OnPathOrFinished(graph, visited, recStack, path, finished);
      NotOnStack(node);
      visited := visited + {node};
      recStack := recStack + {node};
      path := path + [node];
      ghost var entered, stack := path, recStack;
      var neighbors := graph[node];
      for k := 0 to |neighbors|
        invariant Valid() && path == entered && recStack == stack
        invariant old(visited) + {node} <= visited
        invariant forall b :: b in neighbors[..k] && b in graph ==> b in finished
        invariant forall v :: v in old(finished) ==> v in finished
      {
        var neighbor := neighbors[k];
        if neighbor in graph {
          assert (node, neighbor) in GraphEdges(graph);
          OnPathOrFinished(graph, visited, recStack, path, finished);
          if neighbor !in visited {
            found := Dfs(neighbor);
            if found { return true; }
          } else if neighbor in recStack {
            BackEdge(graph, visited, recStack, path, finished, neighbor);
            path := path + [neighbor];
            return true;
          }
        }
      }
      assert neighbors[..|neighbors|] == neighbors;
      Leave(graph, visited, recStack, old(path), finished, node);
      recStack := recStack - {node};
      path := path[..|path| - 1];
      finished := finished + [node];
      found := false;
    }

    lemma NotOnStack(node: string)
      requires Valid() && node !in visited
      ensures node !in recStack
    {
    }
  }

  method HasCycle(graph: map<string, seq<string>>, keys: seq<string>) returns (cycle: Option<seq<string>>)
    requires Distinct(keys) && forall k :: k in keys <==> k in graph
    ensures cycle.None? <==> !Cyclic(GraphEdges(graph))
    ensures cycle.Some? ==> Lasso(GraphEdges(graph), cycle.value)
  {
    hide Lasso;
    var finder := new CycleFinder(graph);
    for i := 0 to |keys|
      invariant finder.Valid() && finder.graph == graph && finder.path == []
      invariant forall k :: k in keys[..i] ==> k in finder.visited
      invariant fresh(finder)
    {
      if keys[i] !in finder.visited {
        var found := finder.Dfs(keys[i]);
        if found {
          LassoMeansCyclic(GraphEdges(graph), finder.path);
          return Some(finder.path);
        }
      }
    }
    assert keys[..|keys|] == keys;
    PathVisited(graph, finder.visited, finder.recStack, finder.path, finder.finished);
    OnPathOrFinished(graph, finder.visited, finder.recStack, finder.path, finder.finished);
    AllFinished(graph, keys, finder.finished);
    return None;
  }

  /** Finishing every key, each after all its successors, shows there is no cycle. */
  lemma AllFinished(graph: map<string, seq<string>>, keys: seq<string>, finished: seq<string>)
    requires forall k :: k in keys <==> k in graph
    requires Distinct(finished) && forall k :: k in keys ==> k in finished
    requires ClosedUnderPredecessors(Reversed(GraphEdges(graph)), finished)
    ensures !Cyclic(GraphEdges(graph))
  {
    var edges := GraphEdges(graph);
    ReversedCyclic(edges);
    assert Stuck(keys, Reversed(edges), finished);
    StuckIffCyclic(keys, Reversed(edges), finished);
  }

  // ---------------------------------------------------------------- agreement with the sorts

  function RunBefore(graph: map<string, seq<string>>): map<string, PluginOrder.Ordering> {
    map k | k in graph :: PluginOrder.Ordering(graph[k], [])
  }

  function RunAfter(graph: map<string, seq<string>>): map<string, PluginOrder.Ordering> {
    map k | k in graph :: PluginOrder.Ordering([], graph[k])
  }

  /** Reading the graph as ordering constraints, in either direction, the lint tool finds a cycle
      exactly when the plugin sort and the middleware sort refuse to order it. */
  lemma DetectorsAgree(graph: map<string, seq<string>>, keys: seq<string>, cycle: Option<seq<string>>,
                       before: PluginOrder.SortResult, after: PluginOrder.SortResult, plain: PluginOrder.SortResult)
    requires forall k :: k in keys <==> k in graph
    requires cycle.None? <==> !Cyclic(GraphEdges(graph))
    requires PluginOrder.PluginSortSpec(keys, PluginOrder.ConstraintEdges(keys, RunBefore(graph)), before)
    requires PluginOrder.PluginSortSpec(keys, PluginOrder.ConstraintEdges(keys, RunAfter(graph)), after)
    requires PluginOrder.TopologicalSortSpec(keys, PluginOrder.ConstraintEdges(keys, RunBefore(graph)), plain)
    ensures cycle.None? <==> before.Sorted?
    ensures cycle.None? <==> after.Sorted?
    ensures cycle.None? <==> plain.Sorted?
  {
    var edges := GraphEdges(graph);
    SameEdges(graph, keys);
    ReversedCyclic(edges);
    ReversedCyclic(Reversed(edges));
    ReversedTwice(edges);
  }

  lemma SameEdges(graph: map<string, seq<string>>, keys: seq<string>)
    requires forall k :: k in keys <==> k in graph
    ensures PluginOrder.ConstraintEdges(keys, RunBefore(graph)) == GraphEdges(graph)
    ensures PluginOrder.ConstraintEdges(keys, RunAfter(graph)) == Reversed(GraphEdges(graph))
  {
    hide PluginOrder.ConstraintEdges, GraphEdges, Reversed;
    var before := PluginOrder.ConstraintEdges(keys, RunBefore(graph));
    var after := PluginOrder.ConstraintEdges(keys, RunAfter(graph));
    var edges := GraphEdges(graph);
    forall e ensures e in before <==> e in edges {
      assert e == (e.0, e.1);
      assert (e.0, e.1) in before <==> (e.0, e.1) in edges;
    }
    forall e ensures e in after <==> e in Reversed(edges) {
      assert e == (e.0, e.1);
      assert (e.0, e.1) in after <==> (e.1, e.0) in edges;
    }
  }

  lemma ReversedTwice(edges: Edges)
    ensures Reversed(Reversed(edges)) == edges
  {
    hide Reversed;
    forall e ensures e in Reversed(Reversed(edges)) <==> e in edges {
      assert e == (e.0, e.1);
      assert (e.0, e.1) in Reversed(Reversed(edges)) <==> (e.0, e.1) in edges;
    }
  }
}
