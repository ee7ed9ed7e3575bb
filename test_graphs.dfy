/**
 * Building the graphs of the package's tests: n calls of MakeNode, then one call
 * of MakeEdgeWeight per listed edge, in order.
 */
module TestGraphs {
  import opened GraphTypes
  import opened Graphs

  /** The edges are those named by the (start index, end index, weight) triples, in order. */
  predicate EdgesAre(edges: seq<Edge>, triples: seq<(nat, nat, int)>) {
    && |edges| == |triples|
    && forall k :: 0 <= k < |triples| ==> edges[k] == Edge(Node(triples[k].0), Node(triples[k].1), triples[k].2)
  }

  /** n calls of MakeNode on an empty graph; nodes holds the handles returned, in order. */
  method AddNodes(graph: Graph, n: nat) returns (nodes: seq<Node>)
    requires graph.Valid() && graph.nodes == [] && graph.edges == []
    modifies graph
    ensures graph.Valid()
    ensures nodes == graph.nodes && |nodes| == n && graph.edges == []
  {
    nodes := [];
    for i := 0 to n
      invariant graph.Valid()
      invariant nodes == graph.nodes && |nodes| == i && graph.edges == []
    {
      var node := graph.MakeNode();
      nodes := nodes + [node];
    }
  }

  /** One call of MakeEdgeWeight per triple, in order, on a graph with no edges yet. */
  method AddEdges(graph: Graph, triples: seq<(nat, nat, int)>)
    requires graph.Valid() && graph.edges == []
    requires forall k :: 0 <= k < |triples| ==> triples[k].0 < |graph.nodes| && triples[k].1 < |graph.nodes|
    modifies graph
    ensures graph.Valid() && graph.nodes == old(graph.nodes)
    ensures EdgesAre(graph.edges, triples)
  {
    for k := 0 to |triples|
      invariant graph.Valid() && graph.nodes == old(graph.nodes)
      invariant EdgesAre(graph.edges, triples[..k])
    {
      var (u, v, w) := triples[k];
      var ok := graph.MakeEdgeWeight(graph.nodes[u], graph.nodes[v], w);
      assert ok by {
        assert graph.nodes[u] in graph.nodes && graph.nodes[v] in graph.nodes;
      }
      assert graph.edges[k] == Edge(Node(u), Node(v), w);
    }
  }

  /** A graph of the given mode with nodes 0 .. n-1 and the listed edges, added in order. */
  method BuildGraph(mode: Mode, n: nat, triples: seq<(nat, nat, int)>) returns (graph: Graph, nodes: seq<Node>)
    requires forall k :: 0 <= k < |triples| ==> triples[k].0 < n && triples[k].1 < n
    ensures fresh(graph) && graph.Valid() && graph.mode == mode
    ensures nodes == graph.nodes && |nodes| == n
    ensures EdgesAre(graph.edges, triples)
  {
    graph := new Graph(mode);
    nodes := AddNodes(graph, n);
    AddEdges(graph, triples);
  }
}
