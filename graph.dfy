/**
 * The graph object: a mode fixed at creation, the nodes in creation order, the
 * edges in insertion order, and the adjacency lists kept in step with the edges.
 * Nodes and edges are only ever appended. The three algorithms are queries that
 * leave the graph unchanged.
 */
module Graphs {
  import opened DepthFirst
  import opened GraphTypes
  import opened Components
  import opened Kruskal

  /** The node handles for a list of node indices. */
  function Handles(s: seq<nat>): seq<Node> {
    seq(|s|, k requires 0 <= k < |s| => Node(s[k]))
  }

  /** Every edge goes forward in order: wherever order holds both ends, the start comes first. */
  ghost predicate EdgesForward(order: seq<Node>, edges: seq<Edge>) {
    forall k, i, j :: 0 <= k < |edges| && 0 <= i < |order| && 0 <= j < |order| && order[i] == edges[k].start && order[j] == edges[k].end ==> i < j
  }

  class Graph {
    const mode: Mode
    var nodes: seq<Node>
    var edges: seq<Edge>
    var adjacency: Adjacency

    /** Node i has index i, every edge joins two nodes, and the adjacency lists are those the edges determine. */
    ghost predicate Valid()
      reads this
    {
      && (forall i :: 0 <= i < |nodes| ==> nodes[i] == Node(i))
      && EdgesWithin(|nodes|, edges)
      && adjacency == AdjacencyOf(mode, |nodes|, edges)
    }

    /** An empty graph of the given mode. */
    constructor (mode: Mode)
      ensures Valid() && this.mode == mode && nodes == [] && edges == []
    {
      this.mode := mode;
      nodes := [];
      edges := [];
      adjacency := [];
    }

    /** Adds a node; its index is the number of nodes before it, and it has no edges yet. */
    method MakeNode() returns (node: Node)
      requires Valid()
      modifies this
      ensures Valid()
      ensures node == Node(|old(nodes)|) && nodes == old(nodes) + [node]
      ensures edges == old(edges) && adjacency == old(adjacency) + [[]]
    {
      AdjacencyOfNewNode(mode, |nodes|, edges);
      node := Node(|nodes|);
      nodes := nodes + [node];
      adjacency := adjacency + [[]];
    }

    /**
     * Adds an edge of the given weight when both ends are nodes of this graph; the end
     * is appended to the start's list and, in an undirected graph, the start to the
     * end's. Otherwise reports failure and changes nothing.
     */
    method MakeEdgeWeight(from: Node, to: Node, weight: int) returns (ok: bool)
      requires Valid()
      modifies this
      ensures Valid() && nodes == old(nodes)
      ensures ok <==> from in nodes && to in nodes
      ensures ok ==> edges == old(edges) + [Edge(from, to, weight)] && adjacency == Attach(mode, old(adjacency), Edge(from, to, weight))
      ensures !ok ==> edges == old(edges) && adjacency == old(adjacency)
    {
      if from.index < |nodes| && to.index < |nodes| {
        assert nodes[from.index] == from && nodes[to.index] == to;
        var e := Edge(from, to, weight);
        ghost var before := edges;
        edges := edges + [e];
        assert edges[..|edges| - 1] == before;
        adjacency := Attach(mode, adjacency, e);
        ok := true;
      } else {
        ok := false;
      }
    }

    /** Adds an edge of weight 1. */
    method MakeEdge(from: Node, to: Node) returns (ok: bool)
      requires Valid()
      modifies this
      ensures Valid() && nodes == old(nodes)
      ensures ok <==> from in nodes && to in nodes
      ensures ok ==> edges == old(edges) + [Edge(from, to, 1)] && adjacency == Attach(mode, old(adjacency), Edge(from, to, 1))
      ensures !ok ==> edges == old(edges) && adjacency == old(adjacency)
    {
      ok := MakeEdgeWeight(from, to, 1);
    }

    /** The adjacency lists of the transposed graph. */
    ghost function TransposedAdjacency(): (gt: Adjacency)
      reads this
      requires Valid()
      ensures |gt| == |nodes| && WellFormed(gt)
    {
      TransposedWithin(|nodes|, edges);
      AdjacencyOf(mode, |nodes|, Transposed(edges))
    }

    /** A new graph over the same nodes with every edge reversed, in the same order. */
    method Transpose() returns (t: Graph)
      requires Valid()
      ensures fresh(t) && t.Valid() && t.mode == mode
      ensures t.nodes == nodes && t.edges == Transposed(edges) && t.adjacency == TransposedAdjacency()
    {
      t := new Graph(mode);
      for i := 0 to |nodes|
        invariant fresh(t) && t.Valid() && t.mode == mode
        invariant t.nodes == nodes[..i] && t.edges == []
      {
        var node := t.MakeNode();
        assert nodes[..i + 1] == nodes[..i] + [nodes[i]];
      }
      assert nodes[..|nodes|] == nodes;
      for k := 0 to |edges|
        invariant fresh(t) && t.Valid() && t.mode == mode
        invariant t.nodes == nodes && t.edges == Transposed(edges[..k])
      {
        var e := edges[k];
        var ok := t.MakeEdgeWeight(e.end, e.start, e.weight);
        assert ok by {
          assert t.nodes[e.end.index] == e.end && t.nodes[e.start.index] == e.start;
        }
        assert edges[..k + 1][..k] == edges[..k];
      }
      assert edges[..|edges|] == edges;
    }

    /**
     * TopologicalSort: the nodes in reverse finishing order of a depth-first search
     * that takes its roots in index order. Every node appears exactly once, and when
     * the graph has no cycle every edge goes forward.
     */
    method TopologicalSort() returns (order: seq<Node>)
      requires Valid()
      ensures order == Handles(TopoOrder(adjacency))
      ensures |order| == |nodes| && forall v :: v in order <==> v in nodes
      ensures forall i, j :: 0 <= i < j < |order| ==> order[i] != order[j]
      ensures Acyclic(adjacency) ==> EdgesForward(order, edges)
    {
      var indices := TopologicalOrder(adjacency);
      order := Handles(indices);
      forall v | v in nodes
        ensures v in order
      {
        var i :| 0 <= i < |nodes| && nodes[i] == v;
        assert i in indices;
        var j :| 0 <= j < |indices| && indices[j] == i;
        assert order[j] == v;
      }
      forall v | v in order
        ensures v in nodes
      {
        var j :| 0 <= j < |order| && order[j] == v;
        assert indices[j] in indices;
        assert nodes[indices[j]] == v;
      }
      if Acyclic(adjacency) {
        forall k, i, j | 0 <= k < |edges| && 0 <= i < |order| && 0 <= j < |order| && order[i] == edges[k].start && order[j] == edges[k].end
          ensures i < j
        {
          var e := edges[k];
          AdjacencyMatchesEdges(mode, |nodes|, edges, e.start.index, e.end.index);
          assert Joins(mode, edges[k], e.start.index, e.end.index);
          assert indices[i] == e.start.index && indices[j] == e.end.index;
        }
      }
    }

    /**
     * StronglyConnectedComponents: pass 1 orders the nodes by decreasing finishing
     * time; pass 2 searches the transposed graph in that order, and each search
     * tree is one component. The components split the nodes: none is empty and
     * every node lies in exactly one.
     */
    method StronglyConnectedComponents() returns (components: seq<seq<Node>>)
      requires Valid()
      ensures |components| == |Kosaraju(adjacency, TransposedAdjacency())|
      ensures forall k :: 0 <= k < |components| ==> components[k] == Handles(Kosaraju(adjacency, TransposedAdjacency())[k])
      ensures Partition(Kosaraju(adjacency, TransposedAdjacency()), |nodes|)
    {
      var order := TopologicalOrder(adjacency);
      var t := Transpose();
      PermutationBounds(order, |nodes|);
      var trees := CollectTrees(t.adjacency, order);
      components := seq(|trees|, k requires 0 <= k < |trees| => Handles(trees[k]));
      KosarajuPartition(adjacency, t.adjacency);
    }

    /**
     * MinimumSpanningTree: Kruskal's algorithm over the edges. The result is made of
     * graph edges, has no cycle, and connects the ends of every graph edge.
     */
    method MinimumSpanningTree() returns (mst: seq<Edge>)
      requires Valid()
      ensures mst == SpanningForest(|nodes|, edges)
      ensures multiset(mst) <= multiset(edges) && IsForest(mst)
      ensures forall e :: e in edges ==> Connected(mst, e.start.index, e.end.index)
      ensures |nodes| > 0 ==> |mst| < |nodes|
    {
      mst := MinimumSpanningEdges(|nodes|, edges);
      SpanningForestSpans(|nodes|, edges);
    }
  }
}
