/**
 * The values a graph is made of: its mode, node handles, edges, and the
 * adjacency lists that the edge list determines.
 */
module GraphTypes {

  /** g[u] lists the ends of u's outgoing edges in insertion order; nodes are 0 .. |g|-1. */
  type Adjacency = seq<seq<nat>>

  predicate WellFormed(g: Adjacency) {
    forall u, j :: 0 <= u < |g| && 0 <= j < |g[u]| ==> g[u][j] < |g|
  }

  /** Fixed when the graph is created. */
  datatype Mode = Directed | Undirected

  /**
   * A node handle, modelled by its index (the node's position in creation order)
   * alone: handles of different graphs with the same index are equal.
   */
  datatype Node = Node(index: nat)

  /** An edge from start to end; in an undirected graph it is traversable both ways. */
  datatype Edge = Edge(start: Node, end: Node, weight: int)

  /** Every edge joins two of the nodes 0 .. n-1. */
  predicate EdgesWithin(n: nat, edges: seq<Edge>) {
    forall k :: 0 <= k < |edges| ==> edges[k].start.index < n && edges[k].end.index < n
  }

  function EmptyLists(n: nat): (g: Adjacency)
    ensures |g| == n && forall u :: 0 <= u < n ==> g[u] == []
  {
    if n == 0 then [] else EmptyLists(n - 1) + [[]]
  }

  /**
   * Records one edge in the adjacency lists: the end is appended to the start's
   * list and, in an undirected graph, the start to the end's list (once only for
   * a self-loop).
   */
  function Attach(mode: Mode, g: Adjacency, e: Edge): Adjacency
    requires e.start.index < |g| && e.end.index < |g|
  {
    var (u, v) := (e.start.index, e.end.index);
    var g1 := g[u := g[u] + [v]];
    if mode == Undirected && u != v then g1[v := g1[v] + [u]] else g1
  }

  /** The adjacency lists of a graph whose edges were added in the order of edges. */
  function AdjacencyOf(mode: Mode, n: nat, edges: seq<Edge>): (g: Adjacency)
    requires EdgesWithin(n, edges)
    ensures |g| == n && WellFormed(g)
  {
    if edges == [] then EmptyLists(n)
    else Attach(mode, AdjacencyOf(mode, n, edges[..|edges| - 1]), edges[|edges| - 1])
  }

  /**
   * Reference definition of one node's adjacency list: for each edge in insertion
   * order that leaves u (or, undirected, touches u), the node at its other end.
   */
  function Incident(mode: Mode, edges: seq<Edge>, u: nat): seq<nat> {
    if edges == [] then []
    else
      var e := edges[|edges| - 1];
      var rest := Incident(mode, edges[..|edges| - 1], u);
      if e.start.index == u then rest + [e.end.index]
      else if mode == Undirected && e.end.index == u then rest + [e.start.index]
      else rest
  }

  /** e can be followed from u to v in a graph of the given mode. */
  ghost predicate Joins(mode: Mode, e: Edge, u: nat, v: nat) {
    || (e.start.index == u && e.end.index == v)
    || (mode == Undirected && e.end.index == u && e.start.index == v)
  }

  /** The adjacency lists agree, entry by entry and in order, with the edge list. */
  lemma {:induction false} AdjacencyIsIncident(mode: Mode, n: nat, edges: seq<Edge>)
    requires EdgesWithin(n, edges)
    ensures forall u :: 0 <= u < n ==> AdjacencyOf(mode, n, edges)[u] == Incident(mode, edges, u)
  {
    if edges != [] {
      AdjacencyIsIncident(mode, n, edges[..|edges| - 1]);
    }
  }

  /** v is in u's list exactly when some edge can be followed from u to v. */
  lemma {:induction false} IncidentMembership(mode: Mode, edges: seq<Edge>, u: nat, v: nat)
    ensures v in Incident(mode, edges, u) <==> exists k :: 0 <= k < |edges| && Joins(mode, edges[k], u, v)
  {
    if edges != [] {
      var init := edges[..|edges| - 1];
      IncidentMembership(mode, init, u, v);
      if exists k :: 0 <= k < |edges| && Joins(mode, edges[k], u, v) {
        var k :| 0 <= k < |edges| && Joins(mode, edges[k], u, v);
        if k < |init| {
          assert Joins(mode, init[k], u, v);
        }
      }
      if exists k :: 0 <= k < |init| && Joins(mode, init[k], u, v) {
        var k :| 0 <= k < |init| && Joins(mode, init[k], u, v);
        assert Joins(mode, edges[k], u, v);
      }
    }
  }

  /** Every adjacency entry stands for an edge of the list, and every edge has its entries. */
  lemma AdjacencyMatchesEdges(mode: Mode, n: nat, edges: seq<Edge>, u: nat, v: nat)
    requires EdgesWithin(n, edges) && u < n
    ensures v in AdjacencyOf(mode, n, edges)[u] <==> exists k :: 0 <= k < |edges| && Joins(mode, edges[k], u, v)
  {
    AdjacencyIsIncident(mode, n, edges);
    IncidentMembership(mode, edges, u, v);
  }

  /** A node added after all the edges starts with an empty list. */
  lemma AdjacencyOfNewNode(mode: Mode, n: nat, edges: seq<Edge>)
    requires EdgesWithin(n, edges)
    ensures EdgesWithin(n + 1, edges)
    ensures AdjacencyOf(mode, n + 1, edges) == AdjacencyOf(mode, n, edges) + [[]]
  {
    AdjacencyIsIncident(mode, n, edges);
    AdjacencyIsIncident(mode, n + 1, edges);
    var a, b := AdjacencyOf(mode, n + 1, edges), AdjacencyOf(mode, n, edges) + [[]];
    forall u | 0 <= u < n + 1
      ensures a[u] == b[u]
    {
      if u == n {
        if a[u] != [] {
          IncidentMembership(mode, edges, n, a[u][0]);
        }
      }
    }
  }

  /** The transposed graph's edges: every edge reversed, in the same order. */
  function Transposed(edges: seq<Edge>): (t: seq<Edge>)
    ensures |t| == |edges|
    ensures forall k :: 0 <= k < |edges| ==> t[k] == Edge(edges[k].end, edges[k].start, edges[k].weight)
  {
    if edges == [] then [] else Transposed(edges[..|edges| - 1]) + [Edge(edges[|edges| - 1].end, edges[|edges| - 1].start, edges[|edges| - 1].weight)]
  }

  lemma TransposedWithin(n: nat, edges: seq<Edge>)
    requires EdgesWithin(n, edges)
    ensures EdgesWithin(n, Transposed(edges))
  {
  }

  /** In the transposed directed graph, u has v as a successor exactly when v has u in the original. */
  lemma TransposedReversesEdges(n: nat, edges: seq<Edge>, u: nat, v: nat)
    requires EdgesWithin(n, edges) && u < n && v < n
    ensures EdgesWithin(n, Transposed(edges))
    ensures v in AdjacencyOf(Directed, n, Transposed(edges))[u] <==> u in AdjacencyOf(Directed, n, edges)[v]
  {
    var t := Transposed(edges);
    AdjacencyMatchesEdges(Directed, n, t, u, v);
    AdjacencyMatchesEdges(Directed, n, edges, v, u);
    if exists k :: 0 <= k < |t| && Joins(Directed, t[k], u, v) {
      var k :| 0 <= k < |t| && Joins(Directed, t[k], u, v);
      assert Joins(Directed, edges[k], v, u);
    }
    if exists k :: 0 <= k < |edges| && Joins(Directed, edges[k], v, u) {
      var k :| 0 <= k < |edges| && Joins(Directed, edges[k], v, u);
      assert Joins(Directed, t[k], u, v);
    }
  }
}
