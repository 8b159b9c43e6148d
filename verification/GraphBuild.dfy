/** The graph record that the programs traverse: building its adjacency arrays from an edge list. */
module GraphBuild {
  import opened Graphs

  datatype EdgeEntry = EdgeEntry(src: nat, dst: nat)

  /** What one edge adds to the neighbours of node n: a loop counts twice. */
  function Ends(e: EdgeEntry, n: nat): seq<nat>
  {
    (if e.src == n then [e.dst] else []) + (if e.dst == n then [e.src] else [])
  }

  /** The neighbours of node n, in the order of the edge list. */
  function Neighbours(edges: seq<EdgeEntry>, n: nat): seq<nat>
  {
    if edges == [] then [] else Neighbours(edges[..|edges| - 1], n) + Ends(edges[|edges| - 1], n)
  }

  /** The edge list a file must contain for the arrays to hold it: endpoints are nodes, and no
      node has more neighbours than there are nodes. */
  predicate Fits(numNodes: nat, edges: seq<EdgeEntry>)
  {
    && (forall i :: 0 <= i < |edges| ==> edges[i].src < numNodes && edges[i].dst < numNodes)
    && (forall n: nat :: n < numNodes ==> |Neighbours(edges, n)| <= numNodes)
  }

  function GraphOf(values: seq<int>, edges: seq<EdgeEntry>): (g: Graph)
    ensures |g.adj| == |values|
  {
    Graph(values, seq(|values|, n requires 0 <= n < |values| => Neighbours(edges, n)))
  }

  lemma {:induction false} NeighboursInRange(numNodes: nat, edges: seq<EdgeEntry>, n: nat, i: nat)
    requires forall i :: 0 <= i < |edges| ==> edges[i].src < numNodes && edges[i].dst < numNodes
    requires i < |Neighbours(edges, n)|
    ensures Neighbours(edges, n)[i] < numNodes
  {
    var m := |edges| - 1;
    if i < |Neighbours(edges[..m], n)| { NeighboursInRange(numNodes, edges[..m], n, i); }
  }

  lemma GraphOfValid(values: seq<int>, edges: seq<EdgeEntry>)
    requires Fits(|values|, edges)
    ensures GraphOf(values, edges).Valid()
  {
    var g := GraphOf(values, edges);
    forall n, i | 0 <= n < |g.adj| && 0 <= i < |g.adj[n]| ensures g.adj[n][i] < |g.adj| {
      NeighboursInRange(|values|, edges, n, i);
    }
  }

  /** The adjacency is symmetric, with multiplicity. */
  lemma {:induction false} Symmetric(edges: seq<EdgeEntry>, u: nat, v: nat)
    ensures multiset(Neighbours(edges, u))[v] == multiset(Neighbours(edges, v))[u]
  {
    hide Ends;
    if edges != [] {
      var m := |edges| - 1;
      Symmetric(edges[..m], u, v);
      EndsCount(edges[m], u, v);
      EndsCount(edges[m], v, u);
      CountAppend(Neighbours(edges[..m], u), Ends(edges[m], u), v);
      CountAppend(Neighbours(edges[..m], v), Ends(edges[m], v), u);
    }
  }

  lemma EndsCount(e: EdgeEntry, u: nat, v: nat)
    ensures multiset(Ends(e, u))[v] ==
      (if e.src == u && e.dst == v then 1 else 0) + (if e.dst == u && e.src == v then 1 else 0)
  {
  }

  lemma CountAppend(a: seq<nat>, b: seq<nat>, v: nat)
    ensures multiset(a + b)[v] == multiset(a)[v] + multiset(b)[v]
  {
  }

  function Degrees(edges: seq<EdgeEntry>, k: nat): nat
  {
    if k == 0 then 0 else Degrees(edges, k - 1) + |Neighbours(edges, k - 1)|
  }

  lemma {:induction false} DegreesOfOneMore(edges: seq<EdgeEntry>, e: EdgeEntry, k: nat)
    ensures Degrees(edges + [e], k) == Degrees(edges, k) + (if e.src < k then 1 else 0) + (if e.dst < k then 1 else 0)
  {
    if k > 0 {
      DegreesOfOneMore(edges, e, k - 1);
      assert (edges + [e])[..|edges + [e]| - 1] == edges;
    }
  }

  /** The neighbour counts add up to twice the number of edges. */
  lemma {:induction false} HandShake(edges: seq<EdgeEntry>, numNodes: nat)
    requires forall i :: 0 <= i < |edges| ==> edges[i].src < numNodes && edges[i].dst < numNodes
    ensures Degrees(edges, numNodes) == 2 * |edges|
    decreases |edges|
  {
    hide Degrees;
    if edges == [] {
      NoDegrees(numNodes);
    } else {
      var m := |edges| - 1;
      HandShake(edges[..m], numNodes);
      DegreesOfOneMore(edges[..m], edges[m], numNodes);
      assert edges[..m] + [edges[m]] == edges;
    }
  }

  lemma {:induction false} NoDegrees(k: nat)
    ensures Degrees([], k) == 0
  {
    if k > 0 { NoDegrees(k - 1); }
  }

  /** Later edges only add neighbours. */
  lemma {:induction false} NeighboursGrow(edges: seq<EdgeEntry>, k: nat, n: nat)
    requires k <= |edges|
    ensures |Neighbours(edges[..k], n)| <= |Neighbours(edges, n)|
  {
    if k < |edges| {
      NeighboursGrow(edges[..|edges| - 1], k, n);
      assert edges[..|edges| - 1][..k] == edges[..k];
    } else {
      assert edges[..k] == edges;
    }
  }

  lemma NoNeighbours()
    ensures forall n :: Neighbours([], n) == []
  {
  }

  lemma NeighboursStep(edges: seq<EdgeEntry>, k: nat, n: nat)
    requires k < |edges|
    ensures Neighbours(edges[..k + 1], n) == Neighbours(edges[..k], n) + Ends(edges[k], n)
  {
    assert edges[..k + 1][..|edges[..k + 1]| - 1] == edges[..k];
  }

  lemma RoomForEnds(e: EdgeEntry, n: nat)
    ensures |Ends(e, n)| == (if e.src == n then 1 else 0) + (if e.dst == n then 1 else 0)
  {
  }

  /** The rows after both ends of an edge have been entered, one after the other. */
  function BothEnds(ns: seq<seq<nat>>, e: EdgeEntry): (r: seq<seq<nat>>)
    requires e.src < |ns| && e.dst < |ns|
    ensures |r| == |ns|
  {
    var a := ns[e.src := ns[e.src] + [e.dst]];
    a[e.dst := a[e.dst] + [e.src]]
  }

  lemma BothEndsAre(ns: seq<seq<nat>>, e: EdgeEntry, n: nat)
    requires e.src < |ns| && e.dst < |ns| && n < |ns|
    ensures BothEnds(ns, e)[n] == ns[n] + Ends(e, n)
  {
  }

  /** os_graph_t: node i has its value, a row of neighbours with room for one entry per node, and
      the number of entries in use. */
  class OsGraph {
    const numNodes: nat
    const info: array<int>
    const rows: array2<nat>
    const numNeighbours: array<nat>
    const visited: array<Mark>

    ghost predicate Shaped()
      reads this, numNeighbours
    {
      && info.Length == numNeighbours.Length == visited.Length == rows.Length0 == rows.Length1 == numNodes
      && forall n :: 0 <= n < numNodes ==> numNeighbours[n] <= numNodes
    }

    function Row(n: nat): (row: seq<nat>)
      requires Shaped() && n < numNodes
      reads this, numNeighbours, rows
      ensures |row| == numNeighbours[n]
    {
      seq(numNeighbours[n], i requires 0 <= i < numNeighbours[n] reads this, numNeighbours, rows
        requires Shaped() && n < numNodes => rows[n, i])
    }

    function View(): (g: Graph)
      requires Shaped()
      reads this, info, numNeighbours, rows
      ensures |g.info| == |g.adj| == numNodes
    {
      Graph(info[..], seq(numNodes, n requires 0 <= n < numNodes && Shaped() reads this, numNeighbours, rows => Row(n)))
    }

    /** One more neighbour in row n, behind those that are there; ns are the rows. */
    method Append(n: nat, v: nat, ghost ns: seq<seq<nat>>) returns (ghost ns': seq<seq<nat>>)
      requires |ns| == numNodes && (forall m :: 0 <= m < numNodes ==> Holds(m, ns[m]))
      requires n < numNodes && |ns[n]| < rows.Length1
      modifies rows, numNeighbours
      ensures ns' == ns[n := ns[n] + [v]]
      ensures forall m :: 0 <= m < numNodes ==> Holds(m, ns'[m])
    {
      rows[n, numNeighbours[n]] := v;
      numNeighbours[n] := numNeighbours[n] + 1;
      ns' := ns[n := ns[n] + [v]];
    }

    method AddNodes(values: seq<int>)
      requires |values| == numNodes == info.Length == numNeighbours.Length
      modifies info, numNeighbours
      ensures info[..] == values && forall n :: 0 <= n < numNodes ==> numNeighbours[n] == 0
    {
      for n := 0 to numNodes
        invariant forall i :: 0 <= i < n ==> info[i] == values[i] && numNeighbours[i] == 0
      {
        info[n] := values[n];
        numNeighbours[n] := 0;
      }
    }

    method AddEdges(edges: seq<EdgeEntry>)
      requires Fits(numNodes, edges) && rows.Length0 == rows.Length1 == numNeighbours.Length == numNodes
      requires forall n :: 0 <= n < numNodes ==> numNeighbours[n] == 0
      modifies rows, numNeighbours
      ensures forall n :: 0 <= n < numNodes ==> Holds(n, Neighbours(edges, n)) && numNeighbours[n] <= numNodes
    {
      hide Neighbours, Ends;
      ghost var ns := seq(numNodes, n requires 0 <= n => Neighbours([], n));
      NoNeighbours();
      assert edges[..0] == [];
      for k := 0 to |edges|
        invariant |ns| == numNodes && forall n :: 0 <= n < numNodes ==>
          ns[n] == Neighbours(edges[..k], n) && Holds(n, ns[n])
      {
        var e := edges[k];
        ghost var ns0 := ns;
        forall n: nat | n < numNodes
          ensures Neighbours(edges[..k + 1], n) == ns0[n] + Ends(e, n) && |ns0[n] + Ends(e, n)| <= numNodes
        {
          NeighboursStep(edges, k, n);
          NeighboursGrow(edges, k + 1, n);
        }
        RoomForEnds(e, e.src);
        RoomForEnds(e, e.dst);
        forall n: nat | n < numNodes
          ensures BothEnds(ns0, e)[n] == ns0[n] + Ends(e, n)
        {
          BothEndsAre(ns0, e, n);
        }
        ns := Append(e.src, e.dst, ns);
        ns := Append(e.dst, e.src, ns);
      }
      assert edges[..|edges|] == edges;
    }

    lemma RowHolds(n: nat, ns: seq<nat>)
      requires Shaped() && n < numNodes && Holds(n, ns)
      ensures Row(n) == ns
    {
    }

    /** create_graph_from_data. */
    constructor FromData(values: seq<int>, edges: seq<EdgeEntry>)
      requires Fits(|values|, edges)
      ensures Shaped() && fresh(visited) && fresh(info) && fresh(rows) && fresh(numNeighbours)
      ensures numNodes == |values| && View() == GraphOf(values, edges) && View().Valid()
      ensures forall n :: 0 <= n < numNodes ==> visited[n] == NotVisited
    {
      numNodes := |values|;
      info := new int[|values|];
      rows := new nat[|values|, |values|];
      numNeighbours := new nat[|values|];
      visited := new Mark[|values|];
      new;
      hide Neighbours, Fits;
      AddNodes(values);
      AddEdges(edges);
      ClearVisited();
      GraphOfValid(values, edges);
      forall n: nat | n < numNodes ensures Row(n) == Neighbours(edges, n) { RowHolds(n, Neighbours(edges, n)); }
    }

    method ClearVisited()
      requires visited.Length == numNodes
      modifies visited
      ensures forall n :: 0 <= n < numNodes ==> visited[n] == NotVisited
    {
      for n := 0 to numNodes
        invariant forall i :: 0 <= i < n ==> visited[i] == NotVisited
      {
        visited[n] := NotVisited;
      }
    }

    /** Row n is in use up to exactly the given neighbours. */
    ghost predicate Holds(n: nat, ns: seq<nat>)
      reads this, numNeighbours, rows
    {
      && n < numNeighbours.Length && n < rows.Length0 && numNeighbours[n] == |ns| <= rows.Length1
      && forall i :: 0 <= i < |ns| ==> rows[n, i] == ns[i]
    }
  }
}
