/** Graphs, reachability, and sums over sets of nodes: what a traversal is supposed to compute. */
module Graphs {

  datatype Mark = NotVisited | Processing | Done

  /** A graph: the value of each node and, in order, its neighbours. */
  datatype Graph = Graph(info: seq<int>, adj: seq<seq<nat>>) {
    predicate Valid()
    {
      |info| == |adj| && forall n, i :: 0 <= n < |adj| && 0 <= i < |adj[n]| ==> adj[n][i] < |adj|
    }

    function Size(): nat { |adj| }
  }

  predicate Edge(g: Graph, u: nat, v: nat)
  {
    u < |g.adj| && v in g.adj[u]
  }

  ghost predicate Path(g: Graph, p: seq<nat>)
  {
    && |p| > 0 && (forall i :: 0 <= i < |p| ==> p[i] < g.Size())
    && forall i :: 0 <= i < |p| - 1 ==> Edge(g, p[i], p[i + 1])
  }

  ghost predicate PathFrom(g: Graph, p: seq<nat>, u: nat, v: nat)
  {
    Path(g, p) && p[0] == u && p[|p| - 1] == v
  }

  ghost predicate Reaches(g: Graph, u: nat, v: nat)
  {
    exists p :: PathFrom(g, p, u, v)
  }

  lemma ReachesSelf(g: Graph, u: nat)
    requires u < g.Size()
    ensures Reaches(g, u, u)
  {
    assert PathFrom(g, [u], u, u);
  }

  lemma ReachesEdge(g: Graph, u: nat, v: nat, w: nat)
    requires Reaches(g, u, v) && Edge(g, v, w) && w < g.Size()
    ensures Reaches(g, u, w)
  {
    var p :| PathFrom(g, p, u, v);
    assert PathFrom(g, p + [w], u, w);
  }

  /** An edge in front of a path. */
  lemma EdgeReaches(g: Graph, u: nat, v: nat, w: nat)
    requires Edge(g, u, v) && Reaches(g, v, w)
    ensures Reaches(g, u, w)
  {
    var p :| PathFrom(g, p, v, w);
    var q := [u] + p;
    forall i | 0 <= i < |q| - 1 ensures Edge(g, q[i], q[i + 1]) {
      if i > 0 { assert Edge(g, p[i - 1], p[i]); }
    }
    assert PathFrom(g, q, u, w);
  }

  ghost predicate Closed(g: Graph, s: set<nat>)
  {
    forall u, v :: u in s && Edge(g, u, v) ==> v in s
  }

  /** A closed set contains what its members reach. */
  lemma {:induction false} ClosedReaches(g: Graph, s: set<nat>, p: seq<nat>)
    requires Closed(g, s) && Path(g, p) && p[0] in s
    ensures p[|p| - 1] in s
    decreases |p|
  {
    if |p| > 1 {
      var q := p[1..];
      assert Edge(g, p[0], p[1]);
      forall i | 0 <= i < |q| - 1 ensures Edge(g, q[i], q[i + 1]) { assert Edge(g, p[i + 1], p[i + 2]); }
      ClosedReaches(g, s, q);
    }
  }

  /** The nodes that node 0 reaches. */
  ghost function ReachSet(g: Graph): set<nat>
  {
    set n: nat | n < g.Size() && Reaches(g, 0, n)
  }

  /** A closed set of reachable nodes around node 0 is the set of reachable nodes. */
  lemma ClosedIsReachSet(g: Graph, s: set<nat>)
    requires Closed(g, s) && 0 in s && g.Size() > 0
    requires forall n :: n in s ==> n < g.Size() && Reaches(g, 0, n)
    ensures s == ReachSet(g)
  {
    forall n | n in ReachSet(g) ensures n in s {
      var p :| PathFrom(g, p, 0, n);
      ClosedReaches(g, s, p);
    }
  }

  // ----- sums

  function SumBelow(info: seq<int>, s: set<nat>, k: nat): int
    requires k <= |info|
  {
    if k == 0 then 0 else SumBelow(info, s, k - 1) + (if k - 1 in s then info[k - 1] else 0)
  }

  /** The sum of the values of the nodes in s. */
  function SumOf(g: Graph, s: set<nat>): int
  {
    SumBelow(g.info, s, |g.info|)
  }

  lemma {:induction false} SumBelowUnion(info: seq<int>, s: set<nat>, t: set<nat>, k: nat)
    requires k <= |info| && s !! t
    ensures SumBelow(info, s + t, k) == SumBelow(info, s, k) + SumBelow(info, t, k)
  {
    if k > 0 { SumBelowUnion(info, s, t, k - 1); }
  }

  lemma {:induction false} SumBelowOne(info: seq<int>, n: nat, k: nat)
    requires k <= |info|
    ensures SumBelow(info, {n}, k) == if n < k then info[n] else 0
  {
    if k > 0 { SumBelowOne(info, n, k - 1); }
  }

  lemma {:induction false} SumBelowNone(info: seq<int>, k: nat)
    requires k <= |info|
    ensures SumBelow(info, {}, k) == 0
  {
    if k > 0 { SumBelowNone(info, k - 1); }
  }

  lemma SumUnion(g: Graph, s: set<nat>, t: set<nat>)
    requires s !! t
    ensures SumOf(g, s + t) == SumOf(g, s) + SumOf(g, t)
  {
    SumBelowUnion(g.info, s, t, |g.info|);
  }

  lemma SumAdd(g: Graph, s: set<nat>, n: nat)
    requires n !in s && n < |g.info|
    ensures SumOf(g, s + {n}) == SumOf(g, s) + g.info[n]
  {
    SumUnion(g, s, {n});
    SumBelowOne(g.info, n, |g.info|);
  }

  lemma SumNone(g: Graph)
    ensures SumOf(g, {}) == 0
  {
    SumBelowNone(g.info, |g.info|);
  }

  /** The value that the traversal from node 0 has to report. */
  ghost function Total(g: Graph): int { SumOf(g, ReachSet(g)) }
}
