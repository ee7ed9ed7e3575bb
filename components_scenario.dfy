/**
 * The graph of CLRS 3rd ed., figure 22.9, built through the Graph class and split
 * into strongly connected components. Nodes (with the book's names): 0 c, 1 g, 2 f, 3 h, 4 d, 5 b, 6 e, 7 a.
 */
module ComponentsScenario {
  import opened DepthFirst
  import opened GraphTypes
  import opened Components
  import opened Graphs
  import opened TestGraphs

  function SccEdges(): seq<Edge> {
    [Edge(Node(0), Node(1), 1), Edge(Node(0), Node(4), 1), Edge(Node(1), Node(2), 1), Edge(Node(1), Node(3), 1), Edge(Node(2), Node(1), 1), Edge(Node(3), Node(3), 1), Edge(Node(4), Node(3), 1), Edge(Node(4), Node(0), 1), Edge(Node(5), Node(6), 1), Edge(Node(5), Node(0), 1), Edge(Node(5), Node(2), 1), Edge(Node(6), Node(2), 1), Edge(Node(6), Node(7), 1), Edge(Node(7), Node(5), 1)]
  }

  function SccAdjacency(): Adjacency {
    [[1, 4], [2, 3], [1], [3], [3, 0], [6, 0, 2], [2, 7], [5]]
  }

  function SccTransposedEdges(): seq<Edge> {
    [Edge(Node(1), Node(0), 1), Edge(Node(4), Node(0), 1), Edge(Node(2), Node(1), 1), Edge(Node(3), Node(1), 1), Edge(Node(1), Node(2), 1), Edge(Node(3), Node(3), 1), Edge(Node(3), Node(4), 1), Edge(Node(0), Node(4), 1), Edge(Node(6), Node(5), 1), Edge(Node(0), Node(5), 1), Edge(Node(2), Node(5), 1), Edge(Node(2), Node(6), 1), Edge(Node(7), Node(6), 1), Edge(Node(5), Node(7), 1)]
  }

  function SccTransposedAdjacency(): Adjacency {
    [[4, 5], [0, 2], [1, 5, 6], [1, 3, 4], [0], [7], [5], [6]]
  }

  // Pass 1: the depth-first search of the graph, one call at a time.

  lemma Pass1Each2_1(g: Adjacency, s: Search)
    requires g == SccAdjacency() && s == Search([true, true, true, false, false, false, false, false], [])
    ensures VisitEach(g, g[2], 1, s) == Search([true, true, true, false, false, false, false, false], [])
  {
  }

  lemma Pass1Each2_0(g: Adjacency, s: Search)
    requires g == SccAdjacency() && s == Search([true, true, true, false, false, false, false, false], [])
    ensures VisitEach(g, g[2], 0, s) == Search([true, true, true, false, false, false, false, false], [])
  {
    Pass1Each2_1(g, Search([true, true, true, false, false, false, false, false], []));
  }

  lemma Pass1Visit2(g: Adjacency, s: Search)
    requires g == SccAdjacency() && s == Search([true, true, false, false, false, false, false, false], [])
    ensures Visit(g, 2, s) == Search([true, true, true, false, false, false, false, false], [2])
  {
    assert s.visited[2 := true] == [true, true, true, false, false, false, false, false];
    Pass1Each2_0(g, Search([true, true, true, false, false, false, false, false], []));
  }

  lemma Pass1Each3_1(g: Adjacency, s: Search)
    requires g == SccAdjacency() && s == Search([true, true, true, true, false, false, false, false], [2])
    ensures VisitEach(g, g[3], 1, s) == Search([true, true, true, true, false, false, false, false], [2])
  {
  }

  lemma Pass1Each3_0(g: Adjacency, s: Search)
    requires g == SccAdjacency() && s == Search([true, true, true, true, false, false, false, false], [2])
    ensures VisitEach(g, g[3], 0, s) == Search([true, true, true, true, false, false, false, false], [2])
  {
    Pass1Each3_1(g, Search([true, true, true, true, false, false, false, false], [2]));
  }

  lemma Pass1Visit3(g: Adjacency, s: Search)
    requires g == SccAdjacency() && s == Search([true, true, true, false, false, false, false, false], [2])
    ensures Visit(g, 3, s) == Search([true, true, true, true, false, false, false, false], [2, 3])
  {
    assert s.visited[3 := true] == [true, true, true, true, false, false, false, false];
    Pass1Each3_0(g, Search([true, true, true, true, false, false, false, false], [2]));
  }

  lemma Pass1Each1_2(g: Adjacency, s: Search)
    requires g == SccAdjacency() && s == Search([true, true, true, true, false, false, false, false], [2, 3])
    ensures VisitEach(g, g[1], 2, s) == Search([true, true, true, true, false, false, false, false], [2, 3])
  {
  }

  lemma Pass1Each1_1(g: Adjacency, s: Search)
    requires g == SccAdjacency() && s == Search([true, true, true, false, false, false, false, false], [2])
    ensures VisitEach(g, g[1], 1, s) == Search([true, true, true, true, false, false, false, false], [2, 3])
  {
    Pass1Visit3(g, s);
    Pass1Each1_2(g, Search([true, true, true, true, false, false, false, false], [2, 3]));
  }

  lemma Pass1Each1_0(g: Adjacency, s: Search)
    requires g == SccAdjacency() && s == Search([true, true, false, false, false, false, false, false], [])
    ensures VisitEach(g, g[1], 0, s) == Search([true, true, true, true, false, false, false, false], [2, 3])
  {
    Pass1Visit2(g, s);
    Pass1Each1_1(g, Search([true, true, true, false, false, false, false, false], [2]));
  }

  lemma Pass1Visit1(g: Adjacency, s: Search)
    requires g == SccAdjacency() && s == Search([true, false, false, false, false, false, false, false], [])
    ensures Visit(g, 1, s) == Search([true, true, true, true, false, false, false, false], [2, 3, 1])
  {
    assert s.visited[1 := true] == [true, true, false, false, false, false, false, false];
    Pass1Each1_0(g, Search([true, true, false, false, false, false, false, false], []));
  }

  lemma Pass1Each4_2(g: Adjacency, s: Search)
    requires g == SccAdjacency() && s == Search([true, true, true, true, true, false, false, false], [2, 3, 1])
    ensures VisitEach(g, g[4], 2, s) == Search([true, true, true, true, true, false, false, false], [2, 3, 1])
  {
  }

  lemma Pass1Each4_1(g: Adjacency, s: Search)
    requires g == SccAdjacency() && s == Search([true, true, true, true, true, false, false, false], [2, 3, 1])
    ensures VisitEach(g, g[4], 1, s) == Search([true, true, true, true, true, false, false, false], [2, 3, 1])
  {
    Pass1Each4_2(g, Search([true, true, true, true, true, false, false, false], [2, 3, 1]));
  }

  lemma Pass1Each4_0(g: Adjacency, s: Search)
    requires g == SccAdjacency() && s == Search([true, true, true, true, true, false, false, false], [2, 3, 1])
    ensures VisitEach(g, g[4], 0, s) == Search([true, true, true, true, true, false, false, false], [2, 3, 1])
  {
    Pass1Each4_1(g, Search([true, true, true, true, true, false, false, false], [2, 3, 1]));
  }

  lemma Pass1Visit4(g: Adjacency, s: Search)
    requires g == SccAdjacency() && s == Search([true, true, true, true, false, false, false, false], [2, 3, 1])
    ensures Visit(g, 4, s) == Search([true, true, true, true, true, false, false, false], [2, 3, 1, 4])
  {
    assert s.visited[4 := true] == [true, true, true, true, true, false, false, false];
    Pass1Each4_0(g, Search([true, true, true, true, true, false, false, false], [2, 3, 1]));
  }

  lemma Pass1Each0_2(g: Adjacency, s: Search)
    requires g == SccAdjacency() && s == Search([true, true, true, true, true, false, false, false], [2, 3, 1, 4])
    ensures VisitEach(g, g[0], 2, s) == Search([true, true, true, true, true, false, false, false], [2, 3, 1, 4])
  {
  }

  lemma Pass1Each0_1(g: Adjacency, s: Search)
    requires g == SccAdjacency() && s == Search([true, true, true, true, false, false, false, false], [2, 3, 1])
    ensures VisitEach(g, g[0], 1, s) == Search([true, true, true, true, true, false, false, false], [2, 3, 1, 4])
  {
    Pass1Visit4(g, s);
    Pass1Each0_2(g, Search([true, true, true, true, true, false, false, false], [2, 3, 1, 4]));
  }

  lemma Pass1Each0_0(g: Adjacency, s: Search)
    requires g == SccAdjacency() && s == Search([true, false, false, false, false, false, false, false], [])
    ensures VisitEach(g, g[0], 0, s) == Search([true, true, true, true, true, false, false, false], [2, 3, 1, 4])
  {
    Pass1Visit1(g, s);
    Pass1Each0_1(g, Search([true, true, true, true, false, false, false, false], [2, 3, 1]));
  }

  lemma Pass1Visit0(g: Adjacency, s: Search)
    requires g == SccAdjacency() && s == Search([false, false, false, false, false, false, false, false], [])
    ensures Visit(g, 0, s) == Search([true, true, true, true, true, false, false, false], [2, 3, 1, 4, 0])
  {
    assert s.visited[0 := true] == [true, false, false, false, false, false, false, false];
    Pass1Each0_0(g, Search([true, false, false, false, false, false, false, false], []));
  }

  lemma Pass1Each7_1(g: Adjacency, s: Search)
    requires g == SccAdjacency() && s == Search([true, true, true, true, true, true, true, true], [2, 3, 1, 4, 0])
    ensures VisitEach(g, g[7], 1, s) == Search([true, true, true, true, true, true, true, true], [2, 3, 1, 4, 0])
  {
  }

  lemma Pass1Each7_0(g: Adjacency, s: Search)
    requires g == SccAdjacency() && s == Search([true, true, true, true, true, true, true, true], [2, 3, 1, 4, 0])
    ensures VisitEach(g, g[7], 0, s) == Search([true, true, true, true, true, true, true, true], [2, 3, 1, 4, 0])
  {
    Pass1Each7_1(g, Search([true, true, true, true, true, true, true, true], [2, 3, 1, 4, 0]));
  }

  lemma Pass1Visit7(g: Adjacency, s: Search)
    requires g == SccAdjacency() && s == Search([true, true, true, true, true, true, true, false], [2, 3, 1, 4, 0])
    ensures Visit(g, 7, s) == Search([true, true, true, true, true, true, true, true], [2, 3, 1, 4, 0, 7])
  {
    assert s.visited[7 := true] == [true, true, true, true, true, true, true, true];
    Pass1Each7_0(g, Search([true, true, true, true, true, true, true, true], [2, 3, 1, 4, 0]));
  }

  lemma Pass1Each6_2(g: Adjacency, s: Search)
    requires g == SccAdjacency() && s == Search([true, true, true, true, true, true, true, true], [2, 3, 1, 4, 0, 7])
    ensures VisitEach(g, g[6], 2, s) == Search([true, true, true, true, true, true, true, true], [2, 3, 1, 4, 0, 7])
  {
  }

  lemma Pass1Each6_1(g: Adjacency, s: Search)
    requires g == SccAdjacency() && s == Search([true, true, true, true, true, true, true, false], [2, 3, 1, 4, 0])
    ensures VisitEach(g, g[6], 1, s) == Search([true, true, true, true, true, true, true, true], [2, 3, 1, 4, 0, 7])
  {
    Pass1Visit7(g, s);
    Pass1Each6_2(g, Search([true, true, true, true, true, true, true, true], [2, 3, 1, 4, 0, 7]));
  }

  lemma Pass1Each6_0(g: Adjacency, s: Search)
    requires g == SccAdjacency() && s == Search([true, true, true, true, true, true, true, false], [2, 3, 1, 4, 0])
    ensures VisitEach(g, g[6], 0, s) == Search([true, true, true, true, true, true, true, true], [2, 3, 1, 4, 0, 7])
  {
    Pass1Each6_1(g, Search([true, true, true, true, true, true, true, false], [2, 3, 1, 4, 0]));
  }

  lemma Pass1Visit6(g: Adjacency, s: Search)
    requires g == SccAdjacency() && s == Search([true, true, true, true, true, true, false, false], [2, 3, 1, 4, 0])
    ensures Visit(g, 6, s) == Search([true, true, true, true, true, true, true, true], [2, 3, 1, 4, 0, 7, 6])
  {
    assert s.visited[6 := true] == [true, true, true, true, true, true, true, false];
    Pass1Each6_0(g, Search([true, true, true, true, true, true, true, false], [2, 3, 1, 4, 0]));
  }

  lemma Pass1Each5_3(g: Adjacency, s: Search)
    requires g == SccAdjacency() && s == Search([true, true, true, true, true, true, true, true], [2, 3, 1, 4, 0, 7, 6])
    ensures VisitEach(g, g[5], 3, s) == Search([true, true, true, true, true, true, true, true], [2, 3, 1, 4, 0, 7, 6])
  {
  }

  lemma Pass1Each5_2(g: Adjacency, s: Search)
    requires g == SccAdjacency() && s == Search([true, true, true, true, true, true, true, true], [2, 3, 1, 4, 0, 7, 6])
    ensures VisitEach(g, g[5], 2, s) == Search([true, true, true, true, true, true, true, true], [2, 3, 1, 4, 0, 7, 6])
  {
    Pass1Each5_3(g, Search([true, true, true, true, true, true, true, true], [2, 3, 1, 4, 0, 7, 6]));
  }

  lemma Pass1Each5_1(g: Adjacency, s: Search)
    requires g == SccAdjacency() && s == Search([true, true, true, true, true, true, true, true], [2, 3, 1, 4, 0, 7, 6])
    ensures VisitEach(g, g[5], 1, s) == Search([true, true, true, true, true, true, true, true], [2, 3, 1, 4, 0, 7, 6])
  {
    Pass1Each5_2(g, Search([true, true, true, true, true, true, true, true], [2, 3, 1, 4, 0, 7, 6]));
  }

  lemma Pass1Each5_0(g: Adjacency, s: Search)
    requires g == SccAdjacency() && s == Search([true, true, true, true, true, true, false, false], [2, 3, 1, 4, 0])
    ensures VisitEach(g, g[5], 0, s) == Search([true, true, true, true, true, true, true, true], [2, 3, 1, 4, 0, 7, 6])
  {
    Pass1Visit6(g, s);
    Pass1Each5_1(g, Search([true, true, true, true, true, true, true, true], [2, 3, 1, 4, 0, 7, 6]));
  }

  lemma Pass1Visit5(g: Adjacency, s: Search)
    requires g == SccAdjacency() && s == Search([true, true, true, true, true, false, false, false], [2, 3, 1, 4, 0])
    ensures Visit(g, 5, s) == Search([true, true, true, true, true, true, true, true], [2, 3, 1, 4, 0, 7, 6, 5])
  {
    assert s.visited[5 := true] == [true, true, true, true, true, true, false, false];
    Pass1Each5_0(g, Search([true, true, true, true, true, true, false, false], [2, 3, 1, 4, 0]));
  }

  lemma Pass1Sweep8(g: Adjacency, roots: seq<nat>, s: Search)
    requires g == SccAdjacency() && roots == [0, 1, 2, 3, 4, 5, 6, 7] && s == Search([true, true, true, true, true, true, true, true], [2, 3, 1, 4, 0, 7, 6, 5])
    ensures VisitEach(g, roots, 8, s) == Search([true, true, true, true, true, true, true, true], [2, 3, 1, 4, 0, 7, 6, 5])
  {
  }

  lemma Pass1Sweep7(g: Adjacency, roots: seq<nat>, s: Search)
    requires g == SccAdjacency() && roots == [0, 1, 2, 3, 4, 5, 6, 7] && s == Search([true, true, true, true, true, true, true, true], [2, 3, 1, 4, 0, 7, 6, 5])
    ensures VisitEach(g, roots, 7, s) == Search([true, true, true, true, true, true, true, true], [2, 3, 1, 4, 0, 7, 6, 5])
  {
    Pass1Sweep8(g, roots, Search([true, true, true, true, true, true, true, true], [2, 3, 1, 4, 0, 7, 6, 5]));
  }

  lemma Pass1Sweep6(g: Adjacency, roots: seq<nat>, s: Search)
    requires g == SccAdjacency() && roots == [0, 1, 2, 3, 4, 5, 6, 7] && s == Search([true, true, true, true, true, true, true, true], [2, 3, 1, 4, 0, 7, 6, 5])
    ensures VisitEach(g, roots, 6, s) == Search([true, true, true, true, true, true, true, true], [2, 3, 1, 4, 0, 7, 6, 5])
  {
    Pass1Sweep7(g, roots, Search([true, true, true, true, true, true, true, true], [2, 3, 1, 4, 0, 7, 6, 5]));
  }

  lemma Pass1Sweep5(g: Adjacency, roots: seq<nat>, s: Search)
    requires g == SccAdjacency() && roots == [0, 1, 2, 3, 4, 5, 6, 7] && s == Search([true, true, true, true, true, false, false, false], [2, 3, 1, 4, 0])
    ensures VisitEach(g, roots, 5, s) == Search([true, true, true, true, true, true, true, true], [2, 3, 1, 4, 0, 7, 6, 5])
  {
    Pass1Visit5(g, s);
    Pass1Sweep6(g, roots, Search([true, true, true, true, true, true, true, true], [2, 3, 1, 4, 0, 7, 6, 5]));
  }

  lemma Pass1Sweep4(g: Adjacency, roots: seq<nat>, s: Search)
    requires g == SccAdjacency() && roots == [0, 1, 2, 3, 4, 5, 6, 7] && s == Search([true, true, true, true, true, false, false, false], [2, 3, 1, 4, 0])
    ensures VisitEach(g, roots, 4, s) == Search([true, true, true, true, true, true, true, true], [2, 3, 1, 4, 0, 7, 6, 5])
  {
    Pass1Sweep5(g, roots, Search([true, true, true, true, true, false, false, false], [2, 3, 1, 4, 0]));
  }

  lemma Pass1Sweep3(g: Adjacency, roots: seq<nat>, s: Search)
    requires g == SccAdjacency() && roots == [0, 1, 2, 3, 4, 5, 6, 7] && s == Search([true, true, true, true, true, false, false, false], [2, 3, 1, 4, 0])
    ensures VisitEach(g, roots, 3, s) == Search([true, true, true, true, true, true, true, true], [2, 3, 1, 4, 0, 7, 6, 5])
  {
    Pass1Sweep4(g, roots, Search([true, true, true, true, true, false, false, false], [2, 3, 1, 4, 0]));
  }

  lemma Pass1Sweep2(g: Adjacency, roots: seq<nat>, s: Search)
    requires g == SccAdjacency() && roots == [0, 1, 2, 3, 4, 5, 6, 7] && s == Search([true, true, true, true, true, false, false, false], [2, 3, 1, 4, 0])
    ensures VisitEach(g, roots, 2, s) == Search([true, true, true, true, true, true, true, true], [2, 3, 1, 4, 0, 7, 6, 5])
  {
    Pass1Sweep3(g, roots, Search([true, true, true, true, true, false, false, false], [2, 3, 1, 4, 0]));
  }

  lemma Pass1Sweep1(g: Adjacency, roots: seq<nat>, s: Search)
    requires g == SccAdjacency() && roots == [0, 1, 2, 3, 4, 5, 6, 7] && s == Search([true, true, true, true, true, false, false, false], [2, 3, 1, 4, 0])
    ensures VisitEach(g, roots, 1, s) == Search([true, true, true, true, true, true, true, true], [2, 3, 1, 4, 0, 7, 6, 5])
  {
    Pass1Sweep2(g, roots, Search([true, true, true, true, true, false, false, false], [2, 3, 1, 4, 0]));
  }

  lemma Pass1Sweep0(g: Adjacency, roots: seq<nat>, s: Search)
    requires g == SccAdjacency() && roots == [0, 1, 2, 3, 4, 5, 6, 7] && s == Search([false, false, false, false, false, false, false, false], [])
    ensures VisitEach(g, roots, 0, s) == Search([true, true, true, true, true, true, true, true], [2, 3, 1, 4, 0, 7, 6, 5])
  {
    Pass1Visit0(g, s);
    Pass1Sweep1(g, roots, Search([true, true, true, true, true, false, false, false], [2, 3, 1, 4, 0]));
  }
  // Pass 2: the searches of the transposed graph, one root at a time.

  lemma Pass2Each6_1(g: Adjacency, s: Search)
    requires g == SccTransposedAdjacency() && s == Search([false, false, false, false, false, true, true, true], [])
    ensures VisitEach(g, g[6], 1, s) == Search([false, false, false, false, false, true, true, true], [])
  {
  }

  lemma Pass2Each6_0(g: Adjacency, s: Search)
    requires g == SccTransposedAdjacency() && s == Search([false, false, false, false, false, true, true, true], [])
    ensures VisitEach(g, g[6], 0, s) == Search([false, false, false, false, false, true, true, true], [])
  {
    Pass2Each6_1(g, Search([false, false, false, false, false, true, true, true], []));
  }

  lemma Pass2Visit6(g: Adjacency, s: Search)
    requires g == SccTransposedAdjacency() && s == Search([false, false, false, false, false, true, false, true], [])
    ensures Visit(g, 6, s) == Search([false, false, false, false, false, true, true, true], [6])
  {
    assert s.visited[6 := true] == [false, false, false, false, false, true, true, true];
    Pass2Each6_0(g, Search([false, false, false, false, false, true, true, true], []));
  }

  lemma Pass2Each7_1(g: Adjacency, s: Search)
    requires g == SccTransposedAdjacency() && s == Search([false, false, false, false, false, true, true, true], [6])
    ensures VisitEach(g, g[7], 1, s) == Search([false, false, false, false, false, true, true, true], [6])
  {
  }

  lemma Pass2Each7_0(g: Adjacency, s: Search)
    requires g == SccTransposedAdjacency() && s == Search([false, false, false, false, false, true, false, true], [])
    ensures VisitEach(g, g[7], 0, s) == Search([false, false, false, false, false, true, true, true], [6])
  {
    Pass2Visit6(g, s);
    Pass2Each7_1(g, Search([false, false, false, false, false, true, true, true], [6]));
  }

  lemma Pass2Visit7(g: Adjacency, s: Search)
    requires g == SccTransposedAdjacency() && s == Search([false, false, false, false, false, true, false, false], [])
    ensures Visit(g, 7, s) == Search([false, false, false, false, false, true, true, true], [6, 7])
  {
    assert s.visited[7 := true] == [false, false, false, false, false, true, false, true];
    Pass2Each7_0(g, Search([false, false, false, false, false, true, false, true], []));
  }

  lemma Pass2Each5_1(g: Adjacency, s: Search)
    requires g == SccTransposedAdjacency() && s == Search([false, false, false, false, false, true, true, true], [6, 7])
    ensures VisitEach(g, g[5], 1, s) == Search([false, false, false, false, false, true, true, true], [6, 7])
  {
  }

  lemma Pass2Each5_0(g: Adjacency, s: Search)
    requires g == SccTransposedAdjacency() && s == Search([false, false, false, false, false, true, false, false], [])
    ensures VisitEach(g, g[5], 0, s) == Search([false, false, false, false, false, true, true, true], [6, 7])
  {
    Pass2Visit7(g, s);
    Pass2Each5_1(g, Search([false, false, false, false, false, true, true, true], [6, 7]));
  }

  lemma Pass2Visit5(g: Adjacency, s: Search)
    requires g == SccTransposedAdjacency() && s == Search([false, false, false, false, false, false, false, false], [])
    ensures Visit(g, 5, s) == Search([false, false, false, false, false, true, true, true], [6, 7, 5])
  {
    assert s.visited[5 := true] == [false, false, false, false, false, true, false, false];
    Pass2Each5_0(g, Search([false, false, false, false, false, true, false, false], []));
  }

  lemma Pass2Each4_1(g: Adjacency, s: Search)
    requires g == SccTransposedAdjacency() && s == Search([true, false, false, false, true, true, true, true], [])
    ensures VisitEach(g, g[4], 1, s) == Search([true, false, false, false, true, true, true, true], [])
  {
  }

  lemma Pass2Each4_0(g: Adjacency, s: Search)
    requires g == SccTransposedAdjacency() && s == Search([true, false, false, false, true, true, true, true], [])
    ensures VisitEach(g, g[4], 0, s) == Search([true, false, false, false, true, true, true, true], [])
  {
    Pass2Each4_1(g, Search([true, false, false, false, true, true, true, true], []));
  }

  lemma Pass2Visit4(g: Adjacency, s: Search)
    requires g == SccTransposedAdjacency() && s == Search([true, false, false, false, false, true, true, true], [])
    ensures Visit(g, 4, s) == Search([true, false, false, false, true, true, true, true], [4])
  {
    assert s.visited[4 := true] == [true, false, false, false, true, true, true, true];
    Pass2Each4_0(g, Search([true, false, false, false, true, true, true, true], []));
  }

  lemma Pass2Each0_2(g: Adjacency, s: Search)
    requires g == SccTransposedAdjacency() && s == Search([true, false, false, false, true, true, true, true], [4])
    ensures VisitEach(g, g[0], 2, s) == Search([true, false, false, false, true, true, true, true], [4])
  {
  }

  lemma Pass2Each0_1(g: Adjacency, s: Search)
    requires g == SccTransposedAdjacency() && s == Search([true, false, false, false, true, true, true, true], [4])
    ensures VisitEach(g, g[0], 1, s) == Search([true, false, false, false, true, true, true, true], [4])
  {
    Pass2Each0_2(g, Search([true, false, false, false, true, true, true, true], [4]));
  }

  lemma Pass2Each0_0(g: Adjacency, s: Search)
    requires g == SccTransposedAdjacency() && s == Search([true, false, false, false, false, true, true, true], [])
    ensures VisitEach(g, g[0], 0, s) == Search([true, false, false, false, true, true, true, true], [4])
  {
    Pass2Visit4(g, s);
    Pass2Each0_1(g, Search([true, false, false, false, true, true, true, true], [4]));
  }

  lemma Pass2Visit0(g: Adjacency, s: Search)
    requires g == SccTransposedAdjacency() && s == Search([false, false, false, false, false, true, true, true], [])
    ensures Visit(g, 0, s) == Search([true, false, false, false, true, true, true, true], [4, 0])
  {
    assert s.visited[0 := true] == [true, false, false, false, false, true, true, true];
    Pass2Each0_0(g, Search([true, false, false, false, false, true, true, true], []));
  }

  lemma Pass2Each2_3(g: Adjacency, s: Search)
    requires g == SccTransposedAdjacency() && s == Search([true, true, true, false, true, true, true, true], [])
    ensures VisitEach(g, g[2], 3, s) == Search([true, true, true, false, true, true, true, true], [])
  {
  }

  lemma Pass2Each2_2(g: Adjacency, s: Search)
    requires g == SccTransposedAdjacency() && s == Search([true, true, true, false, true, true, true, true], [])
    ensures VisitEach(g, g[2], 2, s) == Search([true, true, true, false, true, true, true, true], [])
  {
    Pass2Each2_3(g, Search([true, true, true, false, true, true, true, true], []));
  }

  lemma Pass2Each2_1(g: Adjacency, s: Search)
    requires g == SccTransposedAdjacency() && s == Search([true, true, true, false, true, true, true, true], [])
    ensures VisitEach(g, g[2], 1, s) == Search([true, true, true, false, true, true, true, true], [])
  {
    Pass2Each2_2(g, Search([true, true, true, false, true, true, true, true], []));
  }

  lemma Pass2Each2_0(g: Adjacency, s: Search)
    requires g == SccTransposedAdjacency() && s == Search([true, true, true, false, true, true, true, true], [])
    ensures VisitEach(g, g[2], 0, s) == Search([true, true, true, false, true, true, true, true], [])
  {
    Pass2Each2_1(g, Search([true, true, true, false, true, true, true, true], []));
  }

  lemma Pass2Visit2(g: Adjacency, s: Search)
    requires g == SccTransposedAdjacency() && s == Search([true, true, false, false, true, true, true, true], [])
    ensures Visit(g, 2, s) == Search([true, true, true, false, true, true, true, true], [2])
  {
    assert s.visited[2 := true] == [true, true, true, false, true, true, true, true];
    Pass2Each2_0(g, Search([true, true, true, false, true, true, true, true], []));
  }

  lemma Pass2Each1_2(g: Adjacency, s: Search)
    requires g == SccTransposedAdjacency() && s == Search([true, true, true, false, true, true, true, true], [2])
    ensures VisitEach(g, g[1], 2, s) == Search([true, true, true, false, true, true, true, true], [2])
  {
  }

  lemma Pass2Each1_1(g: Adjacency, s: Search)
    requires g == SccTransposedAdjacency() && s == Search([true, true, false, false, true, true, true, true], [])
    ensures VisitEach(g, g[1], 1, s) == Search([true, true, true, false, true, true, true, true], [2])
  {
    Pass2Visit2(g, s);
    Pass2Each1_2(g, Search([true, true, true, false, true, true, true, true], [2]));
  }

  lemma Pass2Each1_0(g: Adjacency, s: Search)
    requires g == SccTransposedAdjacency() && s == Search([true, true, false, false, true, true, true, true], [])
    ensures VisitEach(g, g[1], 0, s) == Search([true, true, true, false, true, true, true, true], [2])
  {
    Pass2Each1_1(g, Search([true, true, false, false, true, true, true, true], []));
  }

  lemma Pass2Visit1(g: Adjacency, s: Search)
    requires g == SccTransposedAdjacency() && s == Search([true, false, false, false, true, true, true, true], [])
    ensures Visit(g, 1, s) == Search([true, true, true, false, true, true, true, true], [2, 1])
  {
    assert s.visited[1 := true] == [true, true, false, false, true, true, true, true];
    Pass2Each1_0(g, Search([true, true, false, false, true, true, true, true], []));
  }

  lemma Pass2Each3_3(g: Adjacency, s: Search)
    requires g == SccTransposedAdjacency() && s == Search([true, true, true, true, true, true, true, true], [])
    ensures VisitEach(g, g[3], 3, s) == Search([true, true, true, true, true, true, true, true], [])
  {
  }

  lemma Pass2Each3_2(g: Adjacency, s: Search)
    requires g == SccTransposedAdjacency() && s == Search([true, true, true, true, true, true, true, true], [])
    ensures VisitEach(g, g[3], 2, s) == Search([true, true, true, true, true, true, true, true], [])
  {
    Pass2Each3_3(g, Search([true, true, true, true, true, true, true, true], []));
  }

  lemma Pass2Each3_1(g: Adjacency, s: Search)
    requires g == SccTransposedAdjacency() && s == Search([true, true, true, true, true, true, true, true], [])
    ensures VisitEach(g, g[3], 1, s) == Search([true, true, true, true, true, true, true, true], [])
  {
    Pass2Each3_2(g, Search([true, true, true, true, true, true, true, true], []));
  }

  lemma Pass2Each3_0(g: Adjacency, s: Search)
    requires g == SccTransposedAdjacency() && s == Search([true, true, true, true, true, true, true, true], [])
    ensures VisitEach(g, g[3], 0, s) == Search([true, true, true, true, true, true, true, true], [])
  {
    Pass2Each3_1(g, Search([true, true, true, true, true, true, true, true], []));
  }

  lemma Pass2Visit3(g: Adjacency, s: Search)
    requires g == SccTransposedAdjacency() && s == Search([true, true, true, false, true, true, true, true], [])
    ensures Visit(g, 3, s) == Search([true, true, true, true, true, true, true, true], [3])
  {
    assert s.visited[3 := true] == [true, true, true, true, true, true, true, true];
    Pass2Each3_0(g, Search([true, true, true, true, true, true, true, true], []));
  }

  lemma Pass2Trees8(g: Adjacency, roots: seq<nat>, visited: seq<bool>)
    requires g == SccTransposedAdjacency() && roots == [5, 6, 7, 0, 4, 1, 3, 2] && visited == [true, true, true, true, true, true, true, true]
    ensures Trees(g, roots, 8, visited) == []
  {
  }

  lemma Pass2Trees7(g: Adjacency, roots: seq<nat>, visited: seq<bool>)
    requires g == SccTransposedAdjacency() && roots == [5, 6, 7, 0, 4, 1, 3, 2] && visited == [true, true, true, true, true, true, true, true]
    ensures Trees(g, roots, 7, visited) == []
  {
    Pass2Trees8(g, roots, [true, true, true, true, true, true, true, true]);
  }

  lemma Pass2Trees6(g: Adjacency, roots: seq<nat>, visited: seq<bool>)
    requires g == SccTransposedAdjacency() && roots == [5, 6, 7, 0, 4, 1, 3, 2] && visited == [true, true, true, false, true, true, true, true]
    ensures Trees(g, roots, 6, visited) == [[3]]
  {
    Pass2Visit3(g, Search(visited, []));
    Pass2Trees7(g, roots, [true, true, true, true, true, true, true, true]);
  }

  lemma Pass2Trees5(g: Adjacency, roots: seq<nat>, visited: seq<bool>)
    requires g == SccTransposedAdjacency() && roots == [5, 6, 7, 0, 4, 1, 3, 2] && visited == [true, false, false, false, true, true, true, true]
    ensures Trees(g, roots, 5, visited) == [[2, 1], [3]]
  {
    Pass2Visit1(g, Search(visited, []));
    Pass2Trees6(g, roots, [true, true, true, false, true, true, true, true]);
  }

  lemma Pass2Trees4(g: Adjacency, roots: seq<nat>, visited: seq<bool>)
    requires g == SccTransposedAdjacency() && roots == [5, 6, 7, 0, 4, 1, 3, 2] && visited == [true, false, false, false, true, true, true, true]
    ensures Trees(g, roots, 4, visited) == [[2, 1], [3]]
  {
    Pass2Trees5(g, roots, [true, false, false, false, true, true, true, true]);
  }

  lemma Pass2Trees3(g: Adjacency, roots: seq<nat>, visited: seq<bool>)
    requires g == SccTransposedAdjacency() && roots == [5, 6, 7, 0, 4, 1, 3, 2] && visited == [false, false, false, false, false, true, true, true]
    ensures Trees(g, roots, 3, visited) == [[4, 0], [2, 1], [3]]
  {
    Pass2Visit0(g, Search(visited, []));
    Pass2Trees4(g, roots, [true, false, false, false, true, true, true, true]);
  }

  lemma Pass2Trees2(g: Adjacency, roots: seq<nat>, visited: seq<bool>)
    requires g == SccTransposedAdjacency() && roots == [5, 6, 7, 0, 4, 1, 3, 2] && visited == [false, false, false, false, false, true, true, true]
    ensures Trees(g, roots, 2, visited) == [[4, 0], [2, 1], [3]]
  {
    Pass2Trees3(g, roots, [false, false, false, false, false, true, true, true]);
  }

  lemma Pass2Trees1(g: Adjacency, roots: seq<nat>, visited: seq<bool>)
    requires g == SccTransposedAdjacency() && roots == [5, 6, 7, 0, 4, 1, 3, 2] && visited == [false, false, false, false, false, true, true, true]
    ensures Trees(g, roots, 1, visited) == [[4, 0], [2, 1], [3]]
  {
    Pass2Trees2(g, roots, [false, false, false, false, false, true, true, true]);
  }

  lemma Pass2Trees0(g: Adjacency, roots: seq<nat>, visited: seq<bool>)
    requires g == SccTransposedAdjacency() && roots == [5, 6, 7, 0, 4, 1, 3, 2] && visited == [false, false, false, false, false, false, false, false]
    ensures Trees(g, roots, 0, visited) == [[6, 7, 5], [4, 0], [2, 1], [3]]
  {
    Pass2Visit5(g, Search(visited, []));
    Pass2Trees1(g, roots, [false, false, false, false, false, true, true, true]);
  }
  // The adjacency lists of the graph and of its transpose after each edge.

  lemma SccPrefix0(es: seq<Edge>)
    requires es == []
    ensures EdgesWithin(8, es) && AdjacencyOf(Directed, 8, es) == [[], [], [], [], [], [], [], []]
  {
    assert EmptyLists(8) == [[], [], [], [], [], [], [], []];
  }

  lemma SccPrefix1(es: seq<Edge>)
    requires es == [Edge(Node(0), Node(1), 1)]
    ensures EdgesWithin(8, es) && AdjacencyOf(Directed, 8, es) == [[1], [], [], [], [], [], [], []]
  {
    assert es[..0] == [];
    SccPrefix0(es[..0]);
    assert [] + [1] == [1];
    assert Attach(Directed, [[], [], [], [], [], [], [], []], es[0]) == [[1], [], [], [], [], [], [], []];
  }

  lemma SccPrefix2(es: seq<Edge>)
    requires es == [Edge(Node(0), Node(1), 1), Edge(Node(0), Node(4), 1)]
    ensures EdgesWithin(8, es) && AdjacencyOf(Directed, 8, es) == [[1, 4], [], [], [], [], [], [], []]
  {
    assert es[..1] == [Edge(Node(0), Node(1), 1)];
    SccPrefix1(es[..1]);
    assert [1] + [4] == [1, 4];
    assert Attach(Directed, [[1], [], [], [], [], [], [], []], es[1]) == [[1, 4], [], [], [], [], [], [], []];
  }

  lemma SccPrefix3(es: seq<Edge>)
    requires es == [Edge(Node(0), Node(1), 1), Edge(Node(0), Node(4), 1), Edge(Node(1), Node(2), 1)]
    ensures EdgesWithin(8, es) && AdjacencyOf(Directed, 8, es) == [[1, 4], [2], [], [], [], [], [], []]
  {
    assert es[..2] == [Edge(Node(0), Node(1), 1), Edge(Node(0), Node(4), 1)];
    SccPrefix2(es[..2]);
    assert [] + [2] == [2];
    assert Attach(Directed, [[1, 4], [], [], [], [], [], [], []], es[2]) == [[1, 4], [2], [], [], [], [], [], []];
  }

  lemma SccPrefix4(es: seq<Edge>)
    requires es == [Edge(Node(0), Node(1), 1), Edge(Node(0), Node(4), 1), Edge(Node(1), Node(2), 1), Edge(Node(1), Node(3), 1)]
    ensures EdgesWithin(8, es) && AdjacencyOf(Directed, 8, es) == [[1, 4], [2, 3], [], [], [], [], [], []]
  {
    assert es[..3] == [Edge(Node(0), Node(1), 1), Edge(Node(0), Node(4), 1), Edge(Node(1), Node(2), 1)];
    SccPrefix3(es[..3]);
    assert [2] + [3] == [2, 3];
    assert Attach(Directed, [[1, 4], [2], [], [], [], [], [], []], es[3]) == [[1, 4], [2, 3], [], [], [], [], [], []];
  }

  lemma SccPrefix5(es: seq<Edge>)
    requires es == [Edge(Node(0), Node(1), 1), Edge(Node(0), Node(4), 1), Edge(Node(1), Node(2), 1), Edge(Node(1), Node(3), 1), Edge(Node(2), Node(1), 1)]
    ensures EdgesWithin(8, es) && AdjacencyOf(Directed, 8, es) == [[1, 4], [2, 3], [1], [], [], [], [], []]
  {
    assert es[..4] == [Edge(Node(0), Node(1), 1), Edge(Node(0), Node(4), 1), Edge(Node(1), Node(2), 1), Edge(Node(1), Node(3), 1)];
    SccPrefix4(es[..4]);
    assert [] + [1] == [1];
    assert Attach(Directed, [[1, 4], [2, 3], [], [], [], [], [], []], es[4]) == [[1, 4], [2, 3], [1], [], [], [], [], []];
  }

  lemma SccPrefix6(es: seq<Edge>)
    requires es == [Edge(Node(0), Node(1), 1), Edge(Node(0), Node(4), 1), Edge(Node(1), Node(2), 1), Edge(Node(1), Node(3), 1), Edge(Node(2), Node(1), 1), Edge(Node(3), Node(3), 1)]
    ensures EdgesWithin(8, es) && AdjacencyOf(Directed, 8, es) == [[1, 4], [2, 3], [1], [3], [], [], [], []]
  {
    assert es[..5] == [Edge(Node(0), Node(1), 1), Edge(Node(0), Node(4), 1), Edge(Node(1), Node(2), 1), Edge(Node(1), Node(3), 1), Edge(Node(2), Node(1), 1)];
    SccPrefix5(es[..5]);
    assert [] + [3] == [3];
    assert Attach(Directed, [[1, 4], [2, 3], [1], [], [], [], [], []], es[5]) == [[1, 4], [2, 3], [1], [3], [], [], [], []];
  }

  lemma SccPrefix7(es: seq<Edge>)
    requires es == [Edge(Node(0), Node(1), 1), Edge(Node(0), Node(4), 1), Edge(Node(1), Node(2), 1), Edge(Node(1), Node(3), 1), Edge(Node(2), Node(1), 1), Edge(Node(3), Node(3), 1), Edge(Node(4), Node(3), 1)]
    ensures EdgesWithin(8, es) && AdjacencyOf(Directed, 8, es) == [[1, 4], [2, 3], [1], [3], [3], [], [], []]
  {
    assert es[..6] == [Edge(Node(0), Node(1), 1), Edge(Node(0), Node(4), 1), Edge(Node(1), Node(2), 1), Edge(Node(1), Node(3), 1), Edge(Node(2), Node(1), 1), Edge(Node(3), Node(3), 1)];
    SccPrefix6(es[..6]);
    assert [] + [3] == [3];
    assert Attach(Directed, [[1, 4], [2, 3], [1], [3], [], [], [], []], es[6]) == [[1, 4], [2, 3], [1], [3], [3], [], [], []];
  }

  lemma SccPrefix8(es: seq<Edge>)
    requires es == [Edge(Node(0), Node(1), 1), Edge(Node(0), Node(4), 1), Edge(Node(1), Node(2), 1), Edge(Node(1), Node(3), 1), Edge(Node(2), Node(1), 1), Edge(Node(3), Node(3), 1), Edge(Node(4), Node(3), 1), Edge(Node(4), Node(0), 1)]
    ensures EdgesWithin(8, es) && AdjacencyOf(Directed, 8, es) == [[1, 4], [2, 3], [1], [3], [3, 0], [], [], []]
  {
    assert es[..7] == [Edge(Node(0), Node(1), 1), Edge(Node(0), Node(4), 1), Edge(Node(1), Node(2), 1), Edge(Node(1), Node(3), 1), Edge(Node(2), Node(1), 1), Edge(Node(3), Node(3), 1), Edge(Node(4), Node(3), 1)];
    SccPrefix7(es[..7]);
    assert [3] + [0] == [3, 0];
    assert Attach(Directed, [[1, 4], [2, 3], [1], [3], [3], [], [], []], es[7]) == [[1, 4], [2, 3], [1], [3], [3, 0], [], [], []];
  }

  lemma SccPrefix9(es: seq<Edge>)
    requires es == [Edge(Node(0), Node(1), 1), Edge(Node(0), Node(4), 1), Edge(Node(1), Node(2), 1), Edge(Node(1), Node(3), 1), Edge(Node(2), Node(1), 1), Edge(Node(3), Node(3), 1), Edge(Node(4), Node(3), 1), Edge(Node(4), Node(0), 1), Edge(Node(5), Node(6), 1)]
    ensures EdgesWithin(8, es) && AdjacencyOf(Directed, 8, es) == [[1, 4], [2, 3], [1], [3], [3, 0], [6], [], []]
  {
    assert es[..8] == [Edge(Node(0), Node(1), 1), Edge(Node(0), Node(4), 1), Edge(Node(1), Node(2), 1), Edge(Node(1), Node(3), 1), Edge(Node(2), Node(1), 1), Edge(Node(3), Node(3), 1), Edge(Node(4), Node(3), 1), Edge(Node(4), Node(0), 1)];
    SccPrefix8(es[..8]);
    assert [] + [6] == [6];
    assert Attach(Directed, [[1, 4], [2, 3], [1], [3], [3, 0], [], [], []], es[8]) == [[1, 4], [2, 3], [1], [3], [3, 0], [6], [], []];
  }

  lemma SccPrefix10(es: seq<Edge>)
    requires es == [Edge(Node(0), Node(1), 1), Edge(Node(0), Node(4), 1), Edge(Node(1), Node(2), 1), Edge(Node(1), Node(3), 1), Edge(Node(2), Node(1), 1), Edge(Node(3), Node(3), 1), Edge(Node(4), Node(3), 1), Edge(Node(4), Node(0), 1), Edge(Node(5), Node(6), 1), Edge(Node(5), Node(0), 1)]
    ensures EdgesWithin(8, es) && AdjacencyOf(Directed, 8, es) == [[1, 4], [2, 3], [1], [3], [3, 0], [6, 0], [], []]
  {
    assert es[..9] == [Edge(Node(0), Node(1), 1), Edge(Node(0), Node(4), 1), Edge(Node(1), Node(2), 1), Edge(Node(1), Node(3), 1), Edge(Node(2), Node(1), 1), Edge(Node(3), Node(3), 1), Edge(Node(4), Node(3), 1), Edge(Node(4), Node(0), 1), Edge(Node(5), Node(6), 1)];
    SccPrefix9(es[..9]);
    assert [6] + [0] == [6, 0];
    assert Attach(Directed, [[1, 4], [2, 3], [1], [3], [3, 0], [6], [], []], es[9]) == [[1, 4], [2, 3], [1], [3], [3, 0], [6, 0], [], []];
  }

  lemma SccPrefix11(es: seq<Edge>)
    requires es == [Edge(Node(0), Node(1), 1), Edge(Node(0), Node(4), 1), Edge(Node(1), Node(2), 1), Edge(Node(1), Node(3), 1), Edge(Node(2), Node(1), 1), Edge(Node(3), Node(3), 1), Edge(Node(4), Node(3), 1), Edge(Node(4), Node(0), 1), Edge(Node(5), Node(6), 1), Edge(Node(5), Node(0), 1), Edge(Node(5), Node(2), 1)]
    ensures EdgesWithin(8, es) && AdjacencyOf(Directed, 8, es) == [[1, 4], [2, 3], [1], [3], [3, 0], [6, 0, 2], [], []]
  {
    assert es[..10] == [Edge(Node(0), Node(1), 1), Edge(Node(0), Node(4), 1), Edge(Node(1), Node(2), 1), Edge(Node(1), Node(3), 1), Edge(Node(2), Node(1), 1), Edge(Node(3), Node(3), 1), Edge(Node(4), Node(3), 1), Edge(Node(4), Node(0), 1), Edge(Node(5), Node(6), 1), Edge(Node(5), Node(0), 1)];
    SccPrefix10(es[..10]);
    assert [6, 0] + [2] == [6, 0, 2];
    assert Attach(Directed, [[1, 4], [2, 3], [1], [3], [3, 0], [6, 0], [], []], es[10]) == [[1, 4], [2, 3], [1], [3], [3, 0], [6, 0, 2], [], []];
  }

  lemma SccPrefix12(es: seq<Edge>)
    requires es == [Edge(Node(0), Node(1), 1), Edge(Node(0), Node(4), 1), Edge(Node(1), Node(2), 1), Edge(Node(1), Node(3), 1), Edge(Node(2), Node(1), 1), Edge(Node(3), Node(3), 1), Edge(Node(4), Node(3), 1), Edge(Node(4), Node(0), 1), Edge(Node(5), Node(6), 1), Edge(Node(5), Node(0), 1), Edge(Node(5), Node(2), 1), Edge(Node(6), Node(2), 1)]
    ensures EdgesWithin(8, es) && AdjacencyOf(Directed, 8, es) == [[1, 4], [2, 3], [1], [3], [3, 0], [6, 0, 2], [2], []]
  {
    assert es[..11] == [Edge(Node(0), Node(1), 1), Edge(Node(0), Node(4), 1), Edge(Node(1), Node(2), 1), Edge(Node(1), Node(3), 1), Edge(Node(2), Node(1), 1), Edge(Node(3), Node(3), 1), Edge(Node(4), Node(3), 1), Edge(Node(4), Node(0), 1), Edge(Node(5), Node(6), 1), Edge(Node(5), Node(0), 1), Edge(Node(5), Node(2), 1)];
    SccPrefix11(es[..11]);
    assert [] + [2] == [2];
    assert Attach(Directed, [[1, 4], [2, 3], [1], [3], [3, 0], [6, 0, 2], [], []], es[11]) == [[1, 4], [2, 3], [1], [3], [3, 0], [6, 0, 2], [2], []];
  }

  lemma SccPrefix13(es: seq<Edge>)
    requires es == [Edge(Node(0), Node(1), 1), Edge(Node(0), Node(4), 1), Edge(Node(1), Node(2), 1), Edge(Node(1), Node(3), 1), Edge(Node(2), Node(1), 1), Edge(Node(3), Node(3), 1), Edge(Node(4), Node(3), 1), Edge(Node(4), Node(0), 1), Edge(Node(5), Node(6), 1), Edge(Node(5), Node(0), 1), Edge(Node(5), Node(2), 1), Edge(Node(6), Node(2), 1), Edge(Node(6), Node(7), 1)]
    ensures EdgesWithin(8, es) && AdjacencyOf(Directed, 8, es) == [[1, 4], [2, 3], [1], [3], [3, 0], [6, 0, 2], [2, 7], []]
  {
    assert es[..12] == [Edge(Node(0), Node(1), 1), Edge(Node(0), Node(4), 1), Edge(Node(1), Node(2), 1), Edge(Node(1), Node(3), 1), Edge(Node(2), Node(1), 1), Edge(Node(3), Node(3), 1), Edge(Node(4), Node(3), 1), Edge(Node(4), Node(0), 1), Edge(Node(5), Node(6), 1), Edge(Node(5), Node(0), 1), Edge(Node(5), Node(2), 1), Edge(Node(6), Node(2), 1)];
    SccPrefix12(es[..12]);
    assert [2] + [7] == [2, 7];
    assert Attach(Directed, [[1, 4], [2, 3], [1], [3], [3, 0], [6, 0, 2], [2], []], es[12]) == [[1, 4], [2, 3], [1], [3], [3, 0], [6, 0, 2], [2, 7], []];
  }

  lemma SccPrefix14(es: seq<Edge>)
    requires es == [Edge(Node(0), Node(1), 1), Edge(Node(0), Node(4), 1), Edge(Node(1), Node(2), 1), Edge(Node(1), Node(3), 1), Edge(Node(2), Node(1), 1), Edge(Node(3), Node(3), 1), Edge(Node(4), Node(3), 1), Edge(Node(4), Node(0), 1), Edge(Node(5), Node(6), 1), Edge(Node(5), Node(0), 1), Edge(Node(5), Node(2), 1), Edge(Node(6), Node(2), 1), Edge(Node(6), Node(7), 1), Edge(Node(7), Node(5), 1)]
    ensures EdgesWithin(8, es) && AdjacencyOf(Directed, 8, es) == [[1, 4], [2, 3], [1], [3], [3, 0], [6, 0, 2], [2, 7], [5]]
  {
    assert es[..13] == [Edge(Node(0), Node(1), 1), Edge(Node(0), Node(4), 1), Edge(Node(1), Node(2), 1), Edge(Node(1), Node(3), 1), Edge(Node(2), Node(1), 1), Edge(Node(3), Node(3), 1), Edge(Node(4), Node(3), 1), Edge(Node(4), Node(0), 1), Edge(Node(5), Node(6), 1), Edge(Node(5), Node(0), 1), Edge(Node(5), Node(2), 1), Edge(Node(6), Node(2), 1), Edge(Node(6), Node(7), 1)];
    SccPrefix13(es[..13]);
    assert [] + [5] == [5];
    assert Attach(Directed, [[1, 4], [2, 3], [1], [3], [3, 0], [6, 0, 2], [2, 7], []], es[13]) == [[1, 4], [2, 3], [1], [3], [3, 0], [6, 0, 2], [2, 7], [5]];
  }
  lemma SccTransposedPrefix0(es: seq<Edge>)
    requires es == []
    ensures EdgesWithin(8, es) && AdjacencyOf(Directed, 8, es) == [[], [], [], [], [], [], [], []]
  {
    assert EmptyLists(8) == [[], [], [], [], [], [], [], []];
  }

  lemma SccTransposedPrefix1(es: seq<Edge>)
    requires es == [Edge(Node(1), Node(0), 1)]
    ensures EdgesWithin(8, es) && AdjacencyOf(Directed, 8, es) == [[], [0], [], [], [], [], [], []]
  {
    assert es[..0] == [];
    SccTransposedPrefix0(es[..0]);
    assert [] + [0] == [0];
    assert Attach(Directed, [[], [], [], [], [], [], [], []], es[0]) == [[], [0], [], [], [], [], [], []];
  }

  lemma SccTransposedPrefix2(es: seq<Edge>)
    requires es == [Edge(Node(1), Node(0), 1), Edge(Node(4), Node(0), 1)]
    ensures EdgesWithin(8, es) && AdjacencyOf(Directed, 8, es) == [[], [0], [], [], [0], [], [], []]
  {
    assert es[..1] == [Edge(Node(1), Node(0), 1)];
    SccTransposedPrefix1(es[..1]);
    assert [] + [0] == [0];
    assert Attach(Directed, [[], [0], [], [], [], [], [], []], es[1]) == [[], [0], [], [], [0], [], [], []];
  }

  lemma SccTransposedPrefix3(es: seq<Edge>)
    requires es == [Edge(Node(1), Node(0), 1), Edge(Node(4), Node(0), 1), Edge(Node(2), Node(1), 1)]
    ensures EdgesWithin(8, es) && AdjacencyOf(Directed, 8, es) == [[], [0], [1], [], [0], [], [], []]
  {
    assert es[..2] == [Edge(Node(1), Node(0), 1), Edge(Node(4), Node(0), 1)];
    SccTransposedPrefix2(es[..2]);
    assert [] + [1] == [1];
    assert Attach(Directed, [[], [0], [], [], [0], [], [], []], es[2]) == [[], [0], [1], [], [0], [], [], []];
  }

  lemma SccTransposedPrefix4(es: seq<Edge>)
    requires es == [Edge(Node(1), Node(0), 1), Edge(Node(4), Node(0), 1), Edge(Node(2), Node(1), 1), Edge(Node(3), Node(1), 1)]
    ensures EdgesWithin(8, es) && AdjacencyOf(Directed, 8, es) == [[], [0], [1], [1], [0], [], [], []]
  {
    assert es[..3] == [Edge(Node(1), Node(0), 1), Edge(Node(4), Node(0), 1), Edge(Node(2), Node(1), 1)];
    SccTransposedPrefix3(es[..3]);
    assert [] + [1] == [1];
    assert Attach(Directed, [[], [0], [1], [], [0], [], [], []], es[3]) == [[], [0], [1], [1], [0], [], [], []];
  }

  lemma SccTransposedPrefix5(es: seq<Edge>)
    requires es == [Edge(Node(1), Node(0), 1), Edge(Node(4), Node(0), 1), Edge(Node(2), Node(1), 1), Edge(Node(3), Node(1), 1), Edge(Node(1), Node(2), 1)]
    ensures EdgesWithin(8, es) && AdjacencyOf(Directed, 8, es) == [[], [0, 2], [1], [1], [0], [], [], []]
  {
    assert es[..4] == [Edge(Node(1), Node(0), 1), Edge(Node(4), Node(0), 1), Edge(Node(2), Node(1), 1), Edge(Node(3), Node(1), 1)];
    SccTransposedPrefix4(es[..4]);
    assert [0] + [2] == [0, 2];
    assert Attach(Directed, [[], [0], [1], [1], [0], [], [], []], es[4]) == [[], [0, 2], [1], [1], [0], [], [], []];
  }

  lemma SccTransposedPrefix6(es: seq<Edge>)
    requires es == [Edge(Node(1), Node(0), 1), Edge(Node(4), Node(0), 1), Edge(Node(2), Node(1), 1), Edge(Node(3), Node(1), 1), Edge(Node(1), Node(2), 1), Edge(Node(3), Node(3), 1)]
    ensures EdgesWithin(8, es) && AdjacencyOf(Directed, 8, es) == [[], [0, 2], [1], [1, 3], [0], [], [], []]
  {
    assert es[..5] == [Edge(Node(1), Node(0), 1), Edge(Node(4), Node(0), 1), Edge(Node(2), Node(1), 1), Edge(Node(3), Node(1), 1), Edge(Node(1), Node(2), 1)];
    SccTransposedPrefix5(es[..5]);
    assert [1] + [3] == [1, 3];
    assert Attach(Directed, [[], [0, 2], [1], [1], [0], [], [], []], es[5]) == [[], [0, 2], [1], [1, 3], [0], [], [], []];
  }

  lemma SccTransposedPrefix7(es: seq<Edge>)
    requires es == [Edge(Node(1), Node(0), 1), Edge(Node(4), Node(0), 1), Edge(Node(2), Node(1), 1), Edge(Node(3), Node(1), 1), Edge(Node(1), Node(2), 1), Edge(Node(3), Node(3), 1), Edge(Node(3), Node(4), 1)]
    ensures EdgesWithin(8, es) && AdjacencyOf(Directed, 8, es) == [[], [0, 2], [1], [1, 3, 4], [0], [], [], []]
  {
    assert es[..6] == [Edge(Node(1), Node(0), 1), Edge(Node(4), Node(0), 1), Edge(Node(2), Node(1), 1), Edge(Node(3), Node(1), 1), Edge(Node(1), Node(2), 1), Edge(Node(3), Node(3), 1)];
    SccTransposedPrefix6(es[..6]);
    assert [1, 3] + [4] == [1, 3, 4];
    assert Attach(Directed, [[], [0, 2], [1], [1, 3], [0], [], [], []], es[6]) == [[], [0, 2], [1], [1, 3, 4], [0], [], [], []];
  }

  lemma SccTransposedPrefix8(es: seq<Edge>)
    requires es == [Edge(Node(1), Node(0), 1), Edge(Node(4), Node(0), 1), Edge(Node(2), Node(1), 1), Edge(Node(3), Node(1), 1), Edge(Node(1), Node(2), 1), Edge(Node(3), Node(3), 1), Edge(Node(3), Node(4), 1), Edge(Node(0), Node(4), 1)]
    ensures EdgesWithin(8, es) && AdjacencyOf(Directed, 8, es) == [[4], [0, 2], [1], [1, 3, 4], [0], [], [], []]
  {
    assert es[..7] == [Edge(Node(1), Node(0), 1), Edge(Node(4), Node(0), 1), Edge(Node(2), Node(1), 1), Edge(Node(3), Node(1), 1), Edge(Node(1), Node(2), 1), Edge(Node(3), Node(3), 1), Edge(Node(3), Node(4), 1)];
    SccTransposedPrefix7(es[..7]);
    assert [] + [4] == [4];
    assert Attach(Directed, [[], [0, 2], [1], [1, 3, 4], [0], [], [], []], es[7]) == [[4], [0, 2], [1], [1, 3, 4], [0], [], [], []];
  }

  lemma SccTransposedPrefix9(es: seq<Edge>)
    requires es == [Edge(Node(1), Node(0), 1), Edge(Node(4), Node(0), 1), Edge(Node(2), Node(1), 1), Edge(Node(3), Node(1), 1), Edge(Node(1), Node(2), 1), Edge(Node(3), Node(3), 1), Edge(Node(3), Node(4), 1), Edge(Node(0), Node(4), 1), Edge(Node(6), Node(5), 1)]
    ensures EdgesWithin(8, es) && AdjacencyOf(Directed, 8, es) == [[4], [0, 2], [1], [1, 3, 4], [0], [], [5], []]
  {
    assert es[..8] == [Edge(Node(1), Node(0), 1), Edge(Node(4), Node(0), 1), Edge(Node(2), Node(1), 1), Edge(Node(3), Node(1), 1), Edge(Node(1), Node(2), 1), Edge(Node(3), Node(3), 1), Edge(Node(3), Node(4), 1), Edge(Node(0), Node(4), 1)];
    SccTransposedPrefix8(es[..8]);
    assert [] + [5] == [5];
    assert Attach(Directed, [[4], [0, 2], [1], [1, 3, 4], [0], [], [], []], es[8]) == [[4], [0, 2], [1], [1, 3, 4], [0], [], [5], []];
  }

  lemma SccTransposedPrefix10(es: seq<Edge>)
    requires es == [Edge(Node(1), Node(0), 1), Edge(Node(4), Node(0), 1), Edge(Node(2), Node(1), 1), Edge(Node(3), Node(1), 1), Edge(Node(1), Node(2), 1), Edge(Node(3), Node(3), 1), Edge(Node(3), Node(4), 1), Edge(Node(0), Node(4), 1), Edge(Node(6), Node(5), 1), Edge(Node(0), Node(5), 1)]
    ensures EdgesWithin(8, es) && AdjacencyOf(Directed, 8, es) == [[4, 5], [0, 2], [1], [1, 3, 4], [0], [], [5], []]
  {
    assert es[..9] == [Edge(Node(1), Node(0), 1), Edge(Node(4), Node(0), 1), Edge(Node(2), Node(1), 1), Edge(Node(3), Node(1), 1), Edge(Node(1), Node(2), 1), Edge(Node(3), Node(3), 1), Edge(Node(3), Node(4), 1), Edge(Node(0), Node(4), 1), Edge(Node(6), Node(5), 1)];
    SccTransposedPrefix9(es[..9]);
    assert [4] + [5] == [4, 5];
    assert Attach(Directed, [[4], [0, 2], [1], [1, 3, 4], [0], [], [5], []], es[9]) == [[4, 5], [0, 2], [1], [1, 3, 4], [0], [], [5], []];
  }

  lemma SccTransposedPrefix11(es: seq<Edge>)
    requires es == [Edge(Node(1), Node(0), 1), Edge(Node(4), Node(0), 1), Edge(Node(2), Node(1), 1), Edge(Node(3), Node(1), 1), Edge(Node(1), Node(2), 1), Edge(Node(3), Node(3), 1), Edge(Node(3), Node(4), 1), Edge(Node(0), Node(4), 1), Edge(Node(6), Node(5), 1), Edge(Node(0), Node(5), 1), Edge(Node(2), Node(5), 1)]
    ensures EdgesWithin(8, es) && AdjacencyOf(Directed, 8, es) == [[4, 5], [0, 2], [1, 5], [1, 3, 4], [0], [], [5], []]
  {
    assert es[..10] == [Edge(Node(1), Node(0), 1), Edge(Node(4), Node(0), 1), Edge(Node(2), Node(1), 1), Edge(Node(3), Node(1), 1), Edge(Node(1), Node(2), 1), Edge(Node(3), Node(3), 1), Edge(Node(3), Node(4), 1), Edge(Node(0), Node(4), 1), Edge(Node(6), Node(5), 1), Edge(Node(0), Node(5), 1)];
    SccTransposedPrefix10(es[..10]);
    assert [1] + [5] == [1, 5];
    assert Attach(Directed, [[4, 5], [0, 2], [1], [1, 3, 4], [0], [], [5], []], es[10]) == [[4, 5], [0, 2], [1, 5], [1, 3, 4], [0], [], [5], []];
  }

  lemma SccTransposedPrefix12(es: seq<Edge>)
    requires es == [Edge(Node(1), Node(0), 1), Edge(Node(4), Node(0), 1), Edge(Node(2), Node(1), 1), Edge(Node(3), Node(1), 1), Edge(Node(1), Node(2), 1), Edge(Node(3), Node(3), 1), Edge(Node(3), Node(4), 1), Edge(Node(0), Node(4), 1), Edge(Node(6), Node(5), 1), Edge(Node(0), Node(5), 1), Edge(Node(2), Node(5), 1), Edge(Node(2), Node(6), 1)]
    ensures EdgesWithin(8, es) && AdjacencyOf(Directed, 8, es) == [[4, 5], [0, 2], [1, 5, 6], [1, 3, 4], [0], [], [5], []]
  {
    assert es[..11] == [Edge(Node(1), Node(0), 1), Edge(Node(4), Node(0), 1), Edge(Node(2), Node(1), 1), Edge(Node(3), Node(1), 1), Edge(Node(1), Node(2), 1), Edge(Node(3), Node(3), 1), Edge(Node(3), Node(4), 1), Edge(Node(0), Node(4), 1), Edge(Node(6), Node(5), 1), Edge(Node(0), Node(5), 1), Edge(Node(2), Node(5), 1)];
    SccTransposedPrefix11(es[..11]);
    assert [1, 5] + [6] == [1, 5, 6];
    assert Attach(Directed, [[4, 5], [0, 2], [1, 5], [1, 3, 4], [0], [], [5], []], es[11]) == [[4, 5], [0, 2], [1, 5, 6], [1, 3, 4], [0], [], [5], []];
  }

  lemma SccTransposedPrefix13(es: seq<Edge>)
    requires es == [Edge(Node(1), Node(0), 1), Edge(Node(4), Node(0), 1), Edge(Node(2), Node(1), 1), Edge(Node(3), Node(1), 1), Edge(Node(1), Node(2), 1), Edge(Node(3), Node(3), 1), Edge(Node(3), Node(4), 1), Edge(Node(0), Node(4), 1), Edge(Node(6), Node(5), 1), Edge(Node(0), Node(5), 1), Edge(Node(2), Node(5), 1), Edge(Node(2), Node(6), 1), Edge(Node(7), Node(6), 1)]
    ensures EdgesWithin(8, es) && AdjacencyOf(Directed, 8, es) == [[4, 5], [0, 2], [1, 5, 6], [1, 3, 4], [0], [], [5], [6]]
  {
    assert es[..12] == [Edge(Node(1), Node(0), 1), Edge(Node(4), Node(0), 1), Edge(Node(2), Node(1), 1), Edge(Node(3), Node(1), 1), Edge(Node(1), Node(2), 1), Edge(Node(3), Node(3), 1), Edge(Node(3), Node(4), 1), Edge(Node(0), Node(4), 1), Edge(Node(6), Node(5), 1), Edge(Node(0), Node(5), 1), Edge(Node(2), Node(5), 1), Edge(Node(2), Node(6), 1)];
    SccTransposedPrefix12(es[..12]);
    assert [] + [6] == [6];
    assert Attach(Directed, [[4, 5], [0, 2], [1, 5, 6], [1, 3, 4], [0], [], [5], []], es[12]) == [[4, 5], [0, 2], [1, 5, 6], [1, 3, 4], [0], [], [5], [6]];
  }

  lemma SccTransposedPrefix14(es: seq<Edge>)
    requires es == [Edge(Node(1), Node(0), 1), Edge(Node(4), Node(0), 1), Edge(Node(2), Node(1), 1), Edge(Node(3), Node(1), 1), Edge(Node(1), Node(2), 1), Edge(Node(3), Node(3), 1), Edge(Node(3), Node(4), 1), Edge(Node(0), Node(4), 1), Edge(Node(6), Node(5), 1), Edge(Node(0), Node(5), 1), Edge(Node(2), Node(5), 1), Edge(Node(2), Node(6), 1), Edge(Node(7), Node(6), 1), Edge(Node(5), Node(7), 1)]
    ensures EdgesWithin(8, es) && AdjacencyOf(Directed, 8, es) == [[4, 5], [0, 2], [1, 5, 6], [1, 3, 4], [0], [7], [5], [6]]
  {
    assert es[..13] == [Edge(Node(1), Node(0), 1), Edge(Node(4), Node(0), 1), Edge(Node(2), Node(1), 1), Edge(Node(3), Node(1), 1), Edge(Node(1), Node(2), 1), Edge(Node(3), Node(3), 1), Edge(Node(3), Node(4), 1), Edge(Node(0), Node(4), 1), Edge(Node(6), Node(5), 1), Edge(Node(0), Node(5), 1), Edge(Node(2), Node(5), 1), Edge(Node(2), Node(6), 1), Edge(Node(7), Node(6), 1)];
    SccTransposedPrefix13(es[..13]);
    assert [] + [7] == [7];
    assert Attach(Directed, [[4, 5], [0, 2], [1, 5, 6], [1, 3, 4], [0], [], [5], [6]], es[13]) == [[4, 5], [0, 2], [1, 5, 6], [1, 3, 4], [0], [7], [5], [6]];
  }

  lemma SccFinishOrder(g: Adjacency)
    requires g == SccAdjacency()
    ensures FinishOrder(g) == [2, 3, 1, 4, 0, 7, 6, 5]
  {
    assert Indices(8) == [0, 1, 2, 3, 4, 5, 6, 7];
    assert Undiscovered(8) == [false, false, false, false, false, false, false, false];
    Pass1Sweep0(g, Indices(8), Search(Undiscovered(8), []));
  }

  lemma SccTopoOrder(g: Adjacency)
    requires g == SccAdjacency()
    ensures TopoOrder(g) == [5, 6, 7, 0, 4, 1, 3, 2]
  {
    SccFinishOrder(g);
  }

  lemma SccKosaraju(g: Adjacency, gt: Adjacency)
    requires g == SccAdjacency() && gt == SccTransposedAdjacency()
    ensures Kosaraju(g, gt) == [[6, 7, 5], [4, 0], [2, 1], [3]]
  {
    SccTopoOrder(g);
    Pass2Trees0(gt, TopoOrder(g), Undiscovered(8));
  }

  lemma SccTransposes(es: seq<Edge>)
    requires es == SccEdges()
    ensures Transposed(es) == SccTransposedEdges()
  {
  }

  /** The components as node handles, from the components as indices. */
  lemma SccHandles(components: seq<seq<Node>>, cs: seq<seq<nat>>)
    requires cs == [[6, 7, 5], [4, 0], [2, 1], [3]]
    requires |components| == |cs| && forall k :: 0 <= k < |components| ==> components[k] == Handles(cs[k])
    ensures components == [[Node(6), Node(7), Node(5)], [Node(4), Node(0)], [Node(2), Node(1)], [Node(3)]]
  {
    assert components[0] == Handles(cs[0]);
    assert Handles([6, 7, 5]) == [Node(6), Node(7), Node(5)];
    assert components[1] == Handles(cs[1]);
    assert Handles([4, 0]) == [Node(4), Node(0)];
    assert components[2] == Handles(cs[2]);
    assert Handles([2, 1]) == [Node(2), Node(1)];
    assert components[3] == Handles(cs[3]);
    assert Handles([3]) == [Node(3)];
  }

  /** What the built graph's fields come to, and what its components are. */
  lemma SccBuilt(nodes: seq<Node>, edges: seq<Edge>, adjacency: Adjacency)
    requires |nodes| == 8 && forall i :: 0 <= i < |nodes| ==> nodes[i] == Node(i)
    requires EdgesAre(edges, [(0, 1, 1), (0, 4, 1), (1, 2, 1), (1, 3, 1), (2, 1, 1), (3, 3, 1), (4, 3, 1), (4, 0, 1), (5, 6, 1), (5, 0, 1), (5, 2, 1), (6, 2, 1), (6, 7, 1), (7, 5, 1)])
    requires EdgesWithin(8, edges) && adjacency == AdjacencyOf(Directed, 8, edges)
    ensures nodes == [Node(0), Node(1), Node(2), Node(3), Node(4), Node(5), Node(6), Node(7)] && edges == SccEdges()
    ensures EdgesWithin(8, Transposed(edges))
    ensures Kosaraju(adjacency, AdjacencyOf(Directed, 8, Transposed(edges))) == [[6, 7, 5], [4, 0], [2, 1], [3]]
  {
    assert nodes == [Node(0), Node(1), Node(2), Node(3), Node(4), Node(5), Node(6), Node(7)];
    assert edges == SccEdges();
    SccPrefix14(edges);
    SccTransposes(edges);
    SccTransposedPrefix14(Transposed(edges));
    SccKosaraju(adjacency, AdjacencyOf(Directed, 8, Transposed(edges)));
  }

  /** Some node of the component has the index of node. */
  ghost predicate Contains(component: seq<Node>, node: Node) {
    exists k :: 0 <= k < |component| && component[k].index == node.index
  }

  /** componentContains: whether some node of the component has the index of node. */
  method ComponentContains(component: seq<Node>, node: Node) returns (found: bool)
    ensures found <==> Contains(component, node)
  {
    for i := 0 to |component|
      invariant forall k :: 0 <= k < i ==> component[k].index != node.index
    {
      if component[i].index == node.index {
        return true;
      }
    }
    return false;
  }

  /** Every node wanted at position j lies in component j. */
  ghost predicate AllWantedFound(components: seq<seq<Node>>, want: seq<seq<Node>>)
    requires |components| <= |want|
  {
    forall j, i :: 0 <= j < |components| && 0 <= i < |want[j]| ==> Contains(components[j], want[j][i])
  }

  /**
   * The test's check of the components: for each component j and each node wanted
   * there, componentContains; it succeeds when no lookup fails.
   */
  method CheckComponents(components: seq<seq<Node>>, want: seq<seq<Node>>) returns (allFound: bool)
    requires |components| <= |want|
    ensures allFound <==> AllWantedFound(components, want)
  {
    allFound := true;
    for j := 0 to |components|
      invariant allFound <==> forall j', i :: 0 <= j' < j && 0 <= i < |want[j']| ==> Contains(components[j'], want[j'][i])
    {
      for i := 0 to |want[j]|
        invariant allFound <==>
          && (forall j', i' :: 0 <= j' < j && 0 <= i' < |want[j']| ==> Contains(components[j'], want[j'][i']))
          && (forall i' :: 0 <= i' < i ==> Contains(components[j], want[j][i']))
      {
        var found := ComponentContains(components[j], want[j][i]);
        allFound := allFound && found;
      }
    }
  }

  /** Each wanted node is in the component of the same position. */
  lemma WantedContained(components: seq<seq<Node>>, want: seq<seq<Node>>)
    requires components == [[Node(6), Node(7), Node(5)], [Node(4), Node(0)], [Node(2), Node(1)], [Node(3)]] && want == [[Node(6), Node(7), Node(5)], [Node(0), Node(4)], [Node(2), Node(1)], [Node(3)]]
    ensures |want| == |components| && AllWantedFound(components, want)
  {
    assert components[0][0].index == want[0][0].index;
    assert components[0][1].index == want[0][1].index;
    assert components[0][2].index == want[0][2].index;
    assert components[1][1].index == want[1][0].index;
    assert components[1][0].index == want[1][1].index;
    assert components[2][0].index == want[2][0].index;
    assert components[2][1].index == want[2][1].index;
    assert components[3][0].index == want[3][0].index;
  }

  /**
   * The test of the components: nodes get the indices 0 .. 7 in creation order;
   * the components come out as {e, a, b}, {d, c}, {f, g} and {h} (h alone, its
   * self-loop notwithstanding), each listed in finishing order; and every node the
   * test wants in a component is found there by CheckComponents.
   */
  method StronglyConnectedComponentsScenario() returns (nodes: seq<Node>, components: seq<seq<Node>>, allFound: bool)
    ensures |nodes| == 8 && forall i :: 0 <= i < 8 ==> nodes[i].index == i
    ensures components == [[nodes[6], nodes[7], nodes[5]], [nodes[4], nodes[0]], [nodes[2], nodes[1]], [nodes[3]]]
    ensures allFound
  {
    var graph;
    graph, nodes := BuildGraph(Directed, 8, [(0, 1, 1), (0, 4, 1), (1, 2, 1), (1, 3, 1), (2, 1, 1), (3, 3, 1), (4, 3, 1), (4, 0, 1), (5, 6, 1), (5, 0, 1), (5, 2, 1), (6, 2, 1), (6, 7, 1), (7, 5, 1)]);
    SccBuilt(graph.nodes, graph.edges, graph.adjacency);
    components := graph.StronglyConnectedComponents();
    SccHandles(components, Kosaraju(graph.adjacency, graph.TransposedAdjacency()));
    var want := [[nodes[6], nodes[7], nodes[5]], [nodes[0], nodes[4]], [nodes[2], nodes[1]], [nodes[3]]];
    WantedContained(components, want);
    allFound := CheckComponents(components, want);
  }
}
