/** The serial program: recursive depth-first traversal with a global sum. */
module Serial {
  import opened Graphs
  import opened GraphBuild

  class SerialProgram {
    const graph: OsGraph
    var sum: int

    constructor (graph: OsGraph)
      ensures this.graph == graph && sum == 0
    {
      this.graph := graph;
      sum := 0;
    }

    ghost predicate Ready()
      reads this, graph, graph.visited, graph.numNeighbours, graph.rows, graph.info
    {
      && graph.Shaped() && graph.View().Valid()
      && forall n :: 0 <= n < graph.numNodes ==> graph.visited[n] != Processing
    }

    ghost function DoneSet(): set<nat>
      reads graph, graph.visited
    {
      set n: nat | n < graph.visited.Length && graph.visited[n] == Done
    }

    ghost function Todo(): set<nat>
      reads graph, graph.visited
    {
      set n: nat | n < graph.visited.Length && graph.visited[n] == NotVisited
    }

    /** process_node. The nodes it adds are reachable from idx, it leaves none of their neighbours
        unvisited, and it adds their values to the sum once each. */
    method ProcessNode(idx: nat)
      requires Ready() && idx < graph.numNodes && graph.visited[idx] == NotVisited
      modifies this`sum, graph.visited
      decreases Todo()
      ensures Ready() && graph.View() == old(graph.View())
      ensures old(DoneSet()) <= DoneSet() && idx in DoneSet()
      ensures Todo() <= old(Todo())
      ensures forall n :: n in DoneSet() - old(DoneSet()) ==>
        Reaches(graph.View(), idx, n) && Explored(graph.View(), DoneSet(), n)
      ensures sum == old(sum) + SumOf(graph.View(), DoneSet() - old(DoneSet()))
    {
      ghost var g, done0 := graph.View(), DoneSet();
      sum := sum + graph.info[idx];
      graph.visited[idx] := Done;
      assert DoneSet() == done0 + {idx};
      ReachesSelf(g, idx);
      SumAdd(g, {}, idx);
      SumNone(g);
      assert {} + {idx} == {idx} == DoneSet() - done0;
      assert idx in old(Todo()) && idx !in Todo();
      for i := 0 to graph.numNeighbours[idx]
        invariant Ready() && graph.View() == g
        invariant done0 + {idx} <= DoneSet() && Todo() < old(Todo())
        invariant forall k :: 0 <= k < i ==> g.adj[idx][k] in DoneSet()
        invariant forall n :: n in DoneSet() - done0 ==> Reaches(g, idx, n) && (n == idx || Explored(g, DoneSet(), n))
        invariant sum == old(sum) + SumOf(g, DoneSet() - done0)
      {
        var n := graph.rows[idx, i];
        assert n == g.adj[idx][i];
        if graph.visited[n] == NotVisited {
          ghost var done1 := DoneSet();
          ProcessNode(n);
          SumUnion(g, done1 - done0, DoneSet() - done1);
          assert DoneSet() - done0 == (done1 - done0) + (DoneSet() - done1);
          forall m | m in DoneSet() - done1 ensures Reaches(g, idx, m) { EdgeReaches(g, idx, n, m); }
        }
      }
    }

    /** The whole program: it marks exactly what node 0 reaches, and reports the sum of that. */
    method Run()
      requires Ready() && graph.numNodes > 0 && sum == 0
      requires forall n :: 0 <= n < graph.numNodes ==> graph.visited[n] == NotVisited
      modifies this`sum, graph.visited
      ensures graph.View() == old(graph.View())
      ensures DoneSet() == ReachSet(graph.View()) && sum == Total(graph.View())
    {
      assert DoneSet() == {};
      ProcessNode(0);
      assert DoneSet() - {} == DoneSet();
      ClosedIsReachSet(graph.View(), DoneSet());
    }
  }

  /** All neighbours of n are in the set. */
  ghost predicate Explored(g: Graph, s: set<nat>, n: nat)
  {
    forall v :: Edge(g, n, v) ==> v in s
  }

  /** The program on the graph built from an edge list. */
  method SerialSum(values: seq<int>, edges: seq<EdgeEntry>) returns (sum: int)
    requires Fits(|values|, edges) && |values| > 0
    ensures sum == Total(GraphOf(values, edges))
  {
    var graph := new OsGraph.FromData(values, edges);
    var p := new SerialProgram(graph);
    p.Run();
    sum := p.sum;
  }
}
