/**
 * The dressing graph of CLRS 3rd ed., figure 22.7, built through the Graph class
 * and sorted topologically. Nodes: 0 shirt, 1 tie, 2 jacket, 3 belt, 4 watch, 5 undershorts, 6 pants, 7 shoes, 8 socks.
 */
module TopologicalScenario {
  import opened DepthFirst
  import opened GraphTypes
  import opened Graphs
  import opened TestGraphs

  /** Which garment must go on before which, in the order the edges are added. */
  function ClothingEdges(): seq<Edge> {
    [Edge(Node(0), Node(1), 1), Edge(Node(1), Node(2), 1), Edge(Node(0), Node(3), 1), Edge(Node(3), Node(2), 1), Edge(Node(5), Node(6), 1), Edge(Node(5), Node(7), 1), Edge(Node(6), Node(3), 1), Edge(Node(6), Node(7), 1), Edge(Node(8), Node(7), 1)]
  }

  function ClothingAdjacency(): Adjacency {
    [[1, 3], [2], [], [2], [], [6, 7], [3, 7], [], [7]]
  }

  // The depth-first search, one call at a time: each lemma states the result of
  // one DFS-VISIT, or of the root loop from one root onwards.

  lemma ClothingEach2_0(g: Adjacency, s: Search)
    requires g == ClothingAdjacency() && s == Search([true, true, true, false, false, false, false, false, false], [])
    ensures VisitEach(g, g[2], 0, s) == Search([true, true, true, false, false, false, false, false, false], [])
  {
  }

  lemma ClothingVisit2(g: Adjacency, s: Search)
    requires g == ClothingAdjacency() && s == Search([true, true, false, false, false, false, false, false, false], [])
    ensures Visit(g, 2, s) == Search([true, true, true, false, false, false, false, false, false], [2])
  {
    assert s.visited[2 := true] == [true, true, true, false, false, false, false, false, false];
    ClothingEach2_0(g, Search([true, true, true, false, false, false, false, false, false], []));
  }

  lemma ClothingEach1_1(g: Adjacency, s: Search)
    requires g == ClothingAdjacency() && s == Search([true, true, true, false, false, false, false, false, false], [2])
    ensures VisitEach(g, g[1], 1, s) == Search([true, true, true, false, false, false, false, false, false], [2])
  {
  }

  lemma ClothingEach1_0(g: Adjacency, s: Search)
    requires g == ClothingAdjacency() && s == Search([true, true, false, false, false, false, false, false, false], [])
    ensures VisitEach(g, g[1], 0, s) == Search([true, true, true, false, false, false, false, false, false], [2])
  {
    ClothingVisit2(g, s);
    ClothingEach1_1(g, Search([true, true, true, false, false, false, false, false, false], [2]));
  }

  lemma ClothingVisit1(g: Adjacency, s: Search)
    requires g == ClothingAdjacency() && s == Search([true, false, false, false, false, false, false, false, false], [])
    ensures Visit(g, 1, s) == Search([true, true, true, false, false, false, false, false, false], [2, 1])
  {
    assert s.visited[1 := true] == [true, true, false, false, false, false, false, false, false];
    ClothingEach1_0(g, Search([true, true, false, false, false, false, false, false, false], []));
  }

  lemma ClothingEach3_1(g: Adjacency, s: Search)
    requires g == ClothingAdjacency() && s == Search([true, true, true, true, false, false, false, false, false], [2, 1])
    ensures VisitEach(g, g[3], 1, s) == Search([true, true, true, true, false, false, false, false, false], [2, 1])
  {
  }

  lemma ClothingEach3_0(g: Adjacency, s: Search)
    requires g == ClothingAdjacency() && s == Search([true, true, true, true, false, false, false, false, false], [2, 1])
    ensures VisitEach(g, g[3], 0, s) == Search([true, true, true, true, false, false, false, false, false], [2, 1])
  {
    ClothingEach3_1(g, Search([true, true, true, true, false, false, false, false, false], [2, 1]));
  }

  lemma ClothingVisit3(g: Adjacency, s: Search)
    requires g == ClothingAdjacency() && s == Search([true, true, true, false, false, false, false, false, false], [2, 1])
    ensures Visit(g, 3, s) == Search([true, true, true, true, false, false, false, false, false], [2, 1, 3])
  {
    assert s.visited[3 := true] == [true, true, true, true, false, false, false, false, false];
    ClothingEach3_0(g, Search([true, true, true, true, false, false, false, false, false], [2, 1]));
  }

  lemma ClothingEach0_2(g: Adjacency, s: Search)
    requires g == ClothingAdjacency() && s == Search([true, true, true, true, false, false, false, false, false], [2, 1, 3])
    ensures VisitEach(g, g[0], 2, s) == Search([true, true, true, true, false, false, false, false, false], [2, 1, 3])
  {
  }

  lemma ClothingEach0_1(g: Adjacency, s: Search)
    requires g == ClothingAdjacency() && s == Search([true, true, true, false, false, false, false, false, false], [2, 1])
    ensures VisitEach(g, g[0], 1, s) == Search([true, true, true, true, false, false, false, false, false], [2, 1, 3])
  {
    ClothingVisit3(g, s);
    ClothingEach0_2(g, Search([true, true, true, true, false, false, false, false, false], [2, 1, 3]));
  }

  lemma ClothingEach0_0(g: Adjacency, s: Search)
    requires g == ClothingAdjacency() && s == Search([true, false, false, false, false, false, false, false, false], [])
    ensures VisitEach(g, g[0], 0, s) == Search([true, true, true, true, false, false, false, false, false], [2, 1, 3])
  {
    ClothingVisit1(g, s);
    ClothingEach0_1(g, Search([true, true, true, false, false, false, false, false, false], [2, 1]));
  }

  lemma ClothingVisit0(g: Adjacency, s: Search)
    requires g == ClothingAdjacency() && s == Search([false, false, false, false, false, false, false, false, false], [])
    ensures Visit(g, 0, s) == Search([true, true, true, true, false, false, false, false, false], [2, 1, 3, 0])
  {
    assert s.visited[0 := true] == [true, false, false, false, false, false, false, false, false];
    ClothingEach0_0(g, Search([true, false, false, false, false, false, false, false, false], []));
  }

  lemma ClothingEach4_0(g: Adjacency, s: Search)
    requires g == ClothingAdjacency() && s == Search([true, true, true, true, true, false, false, false, false], [2, 1, 3, 0])
    ensures VisitEach(g, g[4], 0, s) == Search([true, true, true, true, true, false, false, false, false], [2, 1, 3, 0])
  {
  }

  lemma ClothingVisit4(g: Adjacency, s: Search)
    requires g == ClothingAdjacency() && s == Search([true, true, true, true, false, false, false, false, false], [2, 1, 3, 0])
    ensures Visit(g, 4, s) == Search([true, true, true, true, true, false, false, false, false], [2, 1, 3, 0, 4])
  {
    assert s.visited[4 := true] == [true, true, true, true, true, false, false, false, false];
    ClothingEach4_0(g, Search([true, true, true, true, true, false, false, false, false], [2, 1, 3, 0]));
  }

  lemma ClothingEach7_0(g: Adjacency, s: Search)
    requires g == ClothingAdjacency() && s == Search([true, true, true, true, true, true, true, true, false], [2, 1, 3, 0, 4])
    ensures VisitEach(g, g[7], 0, s) == Search([true, true, true, true, true, true, true, true, false], [2, 1, 3, 0, 4])
  {
  }

  lemma ClothingVisit7(g: Adjacency, s: Search)
    requires g == ClothingAdjacency() && s == Search([true, true, true, true, true, true, true, false, false], [2, 1, 3, 0, 4])
    ensures Visit(g, 7, s) == Search([true, true, true, true, true, true, true, true, false], [2, 1, 3, 0, 4, 7])
  {
    assert s.visited[7 := true] == [true, true, true, true, true, true, true, true, false];
    ClothingEach7_0(g, Search([true, true, true, true, true, true, true, true, false], [2, 1, 3, 0, 4]));
  }

  lemma ClothingEach6_2(g: Adjacency, s: Search)
    requires g == ClothingAdjacency() && s == Search([true, true, true, true, true, true, true, true, false], [2, 1, 3, 0, 4, 7])
    ensures VisitEach(g, g[6], 2, s) == Search([true, true, true, true, true, true, true, true, false], [2, 1, 3, 0, 4, 7])
  {
  }

  lemma ClothingEach6_1(g: Adjacency, s: Search)
    requires g == ClothingAdjacency() && s == Search([true, true, true, true, true, true, true, false, false], [2, 1, 3, 0, 4])
    ensures VisitEach(g, g[6], 1, s) == Search([true, true, true, true, true, true, true, true, false], [2, 1, 3, 0, 4, 7])
  {
    ClothingVisit7(g, s);
    ClothingEach6_2(g, Search([true, true, true, true, true, true, true, true, false], [2, 1, 3, 0, 4, 7]));
  }

  lemma ClothingEach6_0(g: Adjacency, s: Search)
    requires g == ClothingAdjacency() && s == Search([true, true, true, true, true, true, true, false, false], [2, 1, 3, 0, 4])
    ensures VisitEach(g, g[6], 0, s) == Search([true, true, true, true, true, true, true, true, false], [2, 1, 3, 0, 4, 7])
  {
    ClothingEach6_1(g, Search([true, true, true, true, true, true, true, false, false], [2, 1, 3, 0, 4]));
  }

  lemma ClothingVisit6(g: Adjacency, s: Search)
    requires g == ClothingAdjacency() && s == Search([true, true, true, true, true, true, false, false, false], [2, 1, 3, 0, 4])
    ensures Visit(g, 6, s) == Search([true, true, true, true, true, true, true, true, false], [2, 1, 3, 0, 4, 7, 6])
  {
    assert s.visited[6 := true] == [true, true, true, true, true, true, true, false, false];
    ClothingEach6_0(g, Search([true, true, true, true, true, true, true, false, false], [2, 1, 3, 0, 4]));
  }

  lemma ClothingEach5_2(g: Adjacency, s: Search)
    requires g == ClothingAdjacency() && s == Search([true, true, true, true, true, true, true, true, false], [2, 1, 3, 0, 4, 7, 6])
    ensures VisitEach(g, g[5], 2, s) == Search([true, true, true, true, true, true, true, true, false], [2, 1, 3, 0, 4, 7, 6])
  {
  }

  lemma ClothingEach5_1(g: Adjacency, s: Search)
    requires g == ClothingAdjacency() && s == Search([true, true, true, true, true, true, true, true, false], [2, 1, 3, 0, 4, 7, 6])
    ensures VisitEach(g, g[5], 1, s) == Search([true, true, true, true, true, true, true, true, false], [2, 1, 3, 0, 4, 7, 6])
  {
    ClothingEach5_2(g, Search([true, true, true, true, true, true, true, true, false], [2, 1, 3, 0, 4, 7, 6]));
  }

  lemma ClothingEach5_0(g: Adjacency, s: Search)
    requires g == ClothingAdjacency() && s == Search([true, true, true, true, true, true, false, false, false], [2, 1, 3, 0, 4])
    ensures VisitEach(g, g[5], 0, s) == Search([true, true, true, true, true, true, true, true, false], [2, 1, 3, 0, 4, 7, 6])
  {
    ClothingVisit6(g, s);
    ClothingEach5_1(g, Search([true, true, true, true, true, true, true, true, false], [2, 1, 3, 0, 4, 7, 6]));
  }

  lemma ClothingVisit5(g: Adjacency, s: Search)
    requires g == ClothingAdjacency() && s == Search([true, true, true, true, true, false, false, false, false], [2, 1, 3, 0, 4])
    ensures Visit(g, 5, s) == Search([true, true, true, true, true, true, true, true, false], [2, 1, 3, 0, 4, 7, 6, 5])
  {
    assert s.visited[5 := true] == [true, true, true, true, true, true, false, false, false];
    ClothingEach5_0(g, Search([true, true, true, true, true, true, false, false, false], [2, 1, 3, 0, 4]));
  }

  lemma ClothingEach8_1(g: Adjacency, s: Search)
    requires g == ClothingAdjacency() && s == Search([true, true, true, true, true, true, true, true, true], [2, 1, 3, 0, 4, 7, 6, 5])
    ensures VisitEach(g, g[8], 1, s) == Search([true, true, true, true, true, true, true, true, true], [2, 1, 3, 0, 4, 7, 6, 5])
  {
  }

  lemma ClothingEach8_0(g: Adjacency, s: Search)
    requires g == ClothingAdjacency() && s == Search([true, true, true, true, true, true, true, true, true], [2, 1, 3, 0, 4, 7, 6, 5])
    ensures VisitEach(g, g[8], 0, s) == Search([true, true, true, true, true, true, true, true, true], [2, 1, 3, 0, 4, 7, 6, 5])
  {
    ClothingEach8_1(g, Search([true, true, true, true, true, true, true, true, true], [2, 1, 3, 0, 4, 7, 6, 5]));
  }

  lemma ClothingVisit8(g: Adjacency, s: Search)
    requires g == ClothingAdjacency() && s == Search([true, true, true, true, true, true, true, true, false], [2, 1, 3, 0, 4, 7, 6, 5])
    ensures Visit(g, 8, s) == Search([true, true, true, true, true, true, true, true, true], [2, 1, 3, 0, 4, 7, 6, 5, 8])
  {
    assert s.visited[8 := true] == [true, true, true, true, true, true, true, true, true];
    ClothingEach8_0(g, Search([true, true, true, true, true, true, true, true, true], [2, 1, 3, 0, 4, 7, 6, 5]));
  }

  lemma ClothingSweep9(g: Adjacency, roots: seq<nat>, s: Search)
    requires g == ClothingAdjacency() && roots == [0, 1, 2, 3, 4, 5, 6, 7, 8] && s == Search([true, true, true, true, true, true, true, true, true], [2, 1, 3, 0, 4, 7, 6, 5, 8])
    ensures VisitEach(g, roots, 9, s) == Search([true, true, true, true, true, true, true, true, true], [2, 1, 3, 0, 4, 7, 6, 5, 8])
  {
  }

  lemma ClothingSweep8(g: Adjacency, roots: seq<nat>, s: Search)
    requires g == ClothingAdjacency() && roots == [0, 1, 2, 3, 4, 5, 6, 7, 8] && s == Search([true, true, true, true, true, true, true, true, false], [2, 1, 3, 0, 4, 7, 6, 5])
    ensures VisitEach(g, roots, 8, s) == Search([true, true, true, true, true, true, true, true, true], [2, 1, 3, 0, 4, 7, 6, 5, 8])
  {
    ClothingVisit8(g, s);
    ClothingSweep9(g, roots, Search([true, true, true, true, true, true, true, true, true], [2, 1, 3, 0, 4, 7, 6, 5, 8]));
  }

  lemma ClothingSweep7(g: Adjacency, roots: seq<nat>, s: Search)
    requires g == ClothingAdjacency() && roots == [0, 1, 2, 3, 4, 5, 6, 7, 8] && s == Search([true, true, true, true, true, true, true, true, false], [2, 1, 3, 0, 4, 7, 6, 5])
    ensures VisitEach(g, roots, 7, s) == Search([true, true, true, true, true, true, true, true, true], [2, 1, 3, 0, 4, 7, 6, 5, 8])
  {
    ClothingSweep8(g, roots, Search([true, true, true, true, true, true, true, true, false], [2, 1, 3, 0, 4, 7, 6, 5]));
  }

  lemma ClothingSweep6(g: Adjacency, roots: seq<nat>, s: Search)
    requires g == ClothingAdjacency() && roots == [0, 1, 2, 3, 4, 5, 6, 7, 8] && s == Search([true, true, true, true, true, true, true, true, false], [2, 1, 3, 0, 4, 7, 6, 5])
    ensures VisitEach(g, roots, 6, s) == Search([true, true, true, true, true, true, true, true, true], [2, 1, 3, 0, 4, 7, 6, 5, 8])
  {
    ClothingSweep7(g, roots, Search([true, true, true, true, true, true, true, true, false], [2, 1, 3, 0, 4, 7, 6, 5]));
  }

  lemma ClothingSweep5(g: Adjacency, roots: seq<nat>, s: Search)
    requires g == ClothingAdjacency() && roots == [0, 1, 2, 3, 4, 5, 6, 7, 8] && s == Search([true, true, true, true, true, false, false, false, false], [2, 1, 3, 0, 4])
    ensures VisitEach(g, roots, 5, s) == Search([true, true, true, true, true, true, true, true, true], [2, 1, 3, 0, 4, 7, 6, 5, 8])
  {
    ClothingVisit5(g, s);
    ClothingSweep6(g, roots, Search([true, true, true, true, true, true, true, true, false], [2, 1, 3, 0, 4, 7, 6, 5]));
  }

  lemma ClothingSweep4(g: Adjacency, roots: seq<nat>, s: Search)
    requires g == ClothingAdjacency() && roots == [0, 1, 2, 3, 4, 5, 6, 7, 8] && s == Search([true, true, true, true, false, false, false, false, false], [2, 1, 3, 0])
    ensures VisitEach(g, roots, 4, s) == Search([true, true, true, true, true, true, true, true, true], [2, 1, 3, 0, 4, 7, 6, 5, 8])
  {
    ClothingVisit4(g, s);
    ClothingSweep5(g, roots, Search([true, true, true, true, true, false, false, false, false], [2, 1, 3, 0, 4]));
  }

  lemma ClothingSweep3(g: Adjacency, roots: seq<nat>, s: Search)
    requires g == ClothingAdjacency() && roots == [0, 1, 2, 3, 4, 5, 6, 7, 8] && s == Search([true, true, true, true, false, false, false, false, false], [2, 1, 3, 0])
    ensures VisitEach(g, roots, 3, s) == Search([true, true, true, true, true, true, true, true, true], [2, 1, 3, 0, 4, 7, 6, 5, 8])
  {
    ClothingSweep4(g, roots, Search([true, true, true, true, false, false, false, false, false], [2, 1, 3, 0]));
  }

  lemma ClothingSweep2(g: Adjacency, roots: seq<nat>, s: Search)
    requires g == ClothingAdjacency() && roots == [0, 1, 2, 3, 4, 5, 6, 7, 8] && s == Search([true, true, true, true, false, false, false, false, false], [2, 1, 3, 0])
    ensures VisitEach(g, roots, 2, s) == Search([true, true, true, true, true, true, true, true, true], [2, 1, 3, 0, 4, 7, 6, 5, 8])
  {
    ClothingSweep3(g, roots, Search([true, true, true, true, false, false, false, false, false], [2, 1, 3, 0]));
  }

  lemma ClothingSweep1(g: Adjacency, roots: seq<nat>, s: Search)
    requires g == ClothingAdjacency() && roots == [0, 1, 2, 3, 4, 5, 6, 7, 8] && s == Search([true, true, true, true, false, false, false, false, false], [2, 1, 3, 0])
    ensures VisitEach(g, roots, 1, s) == Search([true, true, true, true, true, true, true, true, true], [2, 1, 3, 0, 4, 7, 6, 5, 8])
  {
    ClothingSweep2(g, roots, Search([true, true, true, true, false, false, false, false, false], [2, 1, 3, 0]));
  }

  lemma ClothingSweep0(g: Adjacency, roots: seq<nat>, s: Search)
    requires g == ClothingAdjacency() && roots == [0, 1, 2, 3, 4, 5, 6, 7, 8] && s == Search([false, false, false, false, false, false, false, false, false], [])
    ensures VisitEach(g, roots, 0, s) == Search([true, true, true, true, true, true, true, true, true], [2, 1, 3, 0, 4, 7, 6, 5, 8])
  {
    ClothingVisit0(g, s);
    ClothingSweep1(g, roots, Search([true, true, true, true, false, false, false, false, false], [2, 1, 3, 0]));
  }
  // The adjacency lists after each edge is added.

  lemma ClothingPrefix0(es: seq<Edge>)
    requires es == []
    ensures EdgesWithin(9, es) && AdjacencyOf(Directed, 9, es) == [[], [], [], [], [], [], [], [], []]
  {
    assert EmptyLists(9) == [[], [], [], [], [], [], [], [], []];
  }

  lemma ClothingPrefix1(es: seq<Edge>)
    requires es == [Edge(Node(0), Node(1), 1)]
    ensures EdgesWithin(9, es) && AdjacencyOf(Directed, 9, es) == [[1], [], [], [], [], [], [], [], []]
  {
    assert es[..0] == [];
    ClothingPrefix0(es[..0]);
    assert [] + [1] == [1];
    assert Attach(Directed, [[], [], [], [], [], [], [], [], []], es[0]) == [[1], [], [], [], [], [], [], [], []];
  }

  lemma ClothingPrefix2(es: seq<Edge>)
    requires es == [Edge(Node(0), Node(1), 1), Edge(Node(1), Node(2), 1)]
    ensures EdgesWithin(9, es) && AdjacencyOf(Directed, 9, es) == [[1], [2], [], [], [], [], [], [], []]
  {
    assert es[..1] == [Edge(Node(0), Node(1), 1)];
    ClothingPrefix1(es[..1]);
    assert [] + [2] == [2];
    assert Attach(Directed, [[1], [], [], [], [], [], [], [], []], es[1]) == [[1], [2], [], [], [], [], [], [], []];
  }

  lemma ClothingPrefix3(es: seq<Edge>)
    requires es == [Edge(Node(0), Node(1), 1), Edge(Node(1), Node(2), 1), Edge(Node(0), Node(3), 1)]
    ensures EdgesWithin(9, es) && AdjacencyOf(Directed, 9, es) == [[1, 3], [2], [], [], [], [], [], [], []]
  {
    assert es[..2] == [Edge(Node(0), Node(1), 1), Edge(Node(1), Node(2), 1)];
    ClothingPrefix2(es[..2]);
    assert [1] + [3] == [1, 3];
    assert Attach(Directed, [[1], [2], [], [], [], [], [], [], []], es[2]) == [[1, 3], [2], [], [], [], [], [], [], []];
  }

  lemma ClothingPrefix4(es: seq<Edge>)
    requires es == [Edge(Node(0), Node(1), 1), Edge(Node(1), Node(2), 1), Edge(Node(0), Node(3), 1), Edge(Node(3), Node(2), 1)]
    ensures EdgesWithin(9, es) && AdjacencyOf(Directed, 9, es) == [[1, 3], [2], [], [2], [], [], [], [], []]
  {
    assert es[..3] == [Edge(Node(0), Node(1), 1), Edge(Node(1), Node(2), 1), Edge(Node(0), Node(3), 1)];
    ClothingPrefix3(es[..3]);
    assert [] + [2] == [2];
    assert Attach(Directed, [[1, 3], [2], [], [], [], [], [], [], []], es[3]) == [[1, 3], [2], [], [2], [], [], [], [], []];
  }

  lemma ClothingPrefix5(es: seq<Edge>)
    requires es == [Edge(Node(0), Node(1), 1), Edge(Node(1), Node(2), 1), Edge(Node(0), Node(3), 1), Edge(Node(3), Node(2), 1), Edge(Node(5), Node(6), 1)]
    ensures EdgesWithin(9, es) && AdjacencyOf(Directed, 9, es) == [[1, 3], [2], [], [2], [], [6], [], [], []]
  {
    assert es[..4] == [Edge(Node(0), Node(1), 1), Edge(Node(1), Node(2), 1), Edge(Node(0), Node(3), 1), Edge(Node(3), Node(2), 1)];
    ClothingPrefix4(es[..4]);
    assert [] + [6] == [6];
    assert Attach(Directed, [[1, 3], [2], [], [2], [], [], [], [], []], es[4]) == [[1, 3], [2], [], [2], [], [6], [], [], []];
  }

  lemma ClothingPrefix6(es: seq<Edge>)
    requires es == [Edge(Node(0), Node(1), 1), Edge(Node(1), Node(2), 1), Edge(Node(0), Node(3), 1), Edge(Node(3), Node(2), 1), Edge(Node(5), Node(6), 1), Edge(Node(5), Node(7), 1)]
    ensures EdgesWithin(9, es) && AdjacencyOf(Directed, 9, es) == [[1, 3], [2], [], [2], [], [6, 7], [], [], []]
  {
    assert es[..5] == [Edge(Node(0), Node(1), 1), Edge(Node(1), Node(2), 1), Edge(Node(0), Node(3), 1), Edge(Node(3), Node(2), 1), Edge(Node(5), Node(6), 1)];
    ClothingPrefix5(es[..5]);
    assert [6] + [7] == [6, 7];
    assert Attach(Directed, [[1, 3], [2], [], [2], [], [6], [], [], []], es[5]) == [[1, 3], [2], [], [2], [], [6, 7], [], [], []];
  }

  lemma ClothingPrefix7(es: seq<Edge>)
    requires es == [Edge(Node(0), Node(1), 1), Edge(Node(1), Node(2), 1), Edge(Node(0), Node(3), 1), Edge(Node(3), Node(2), 1), Edge(Node(5), Node(6), 1), Edge(Node(5), Node(7), 1), Edge(Node(6), Node(3), 1)]
    ensures EdgesWithin(9, es) && AdjacencyOf(Directed, 9, es) == [[1, 3], [2], [], [2], [], [6, 7], [3], [], []]
  {
    assert es[..6] == [Edge(Node(0), Node(1), 1), Edge(Node(1), Node(2), 1), Edge(Node(0), Node(3), 1), Edge(Node(3), Node(2), 1), Edge(Node(5), Node(6), 1), Edge(Node(5), Node(7), 1)];
    ClothingPrefix6(es[..6]);
    assert [] + [3] == [3];
    assert Attach(Directed, [[1, 3], [2], [], [2], [], [6, 7], [], [], []], es[6]) == [[1, 3], [2], [], [2], [], [6, 7], [3], [], []];
  }

  lemma ClothingPrefix8(es: seq<Edge>)
    requires es == [Edge(Node(0), Node(1), 1), Edge(Node(1), Node(2), 1), Edge(Node(0), Node(3), 1), Edge(Node(3), Node(2), 1), Edge(Node(5), Node(6), 1), Edge(Node(5), Node(7), 1), Edge(Node(6), Node(3), 1), Edge(Node(6), Node(7), 1)]
    ensures EdgesWithin(9, es) && AdjacencyOf(Directed, 9, es) == [[1, 3], [2], [], [2], [], [6, 7], [3, 7], [], []]
  {
    assert es[..7] == [Edge(Node(0), Node(1), 1), Edge(Node(1), Node(2), 1), Edge(Node(0), Node(3), 1), Edge(Node(3), Node(2), 1), Edge(Node(5), Node(6), 1), Edge(Node(5), Node(7), 1), Edge(Node(6), Node(3), 1)];
    ClothingPrefix7(es[..7]);
    assert [3] + [7] == [3, 7];
    assert Attach(Directed, [[1, 3], [2], [], [2], [], [6, 7], [3], [], []], es[7]) == [[1, 3], [2], [], [2], [], [6, 7], [3, 7], [], []];
  }

  lemma ClothingPrefix9(es: seq<Edge>)
    requires es == [Edge(Node(0), Node(1), 1), Edge(Node(1), Node(2), 1), Edge(Node(0), Node(3), 1), Edge(Node(3), Node(2), 1), Edge(Node(5), Node(6), 1), Edge(Node(5), Node(7), 1), Edge(Node(6), Node(3), 1), Edge(Node(6), Node(7), 1), Edge(Node(8), Node(7), 1)]
    ensures EdgesWithin(9, es) && AdjacencyOf(Directed, 9, es) == [[1, 3], [2], [], [2], [], [6, 7], [3, 7], [], [7]]
  {
    assert es[..8] == [Edge(Node(0), Node(1), 1), Edge(Node(1), Node(2), 1), Edge(Node(0), Node(3), 1), Edge(Node(3), Node(2), 1), Edge(Node(5), Node(6), 1), Edge(Node(5), Node(7), 1), Edge(Node(6), Node(3), 1), Edge(Node(6), Node(7), 1)];
    ClothingPrefix8(es[..8]);
    assert [] + [7] == [7];
    assert Attach(Directed, [[1, 3], [2], [], [2], [], [6, 7], [3, 7], [], []], es[8]) == [[1, 3], [2], [], [2], [], [6, 7], [3, 7], [], [7]];
  }

  lemma ClothingFinishOrder(g: Adjacency)
    requires g == ClothingAdjacency()
    ensures FinishOrder(g) == [2, 1, 3, 0, 4, 7, 6, 5, 8]
  {
    assert Indices(9) == [0, 1, 2, 3, 4, 5, 6, 7, 8];
    assert Undiscovered(9) == [false, false, false, false, false, false, false, false, false];
    ClothingSweep0(g, Indices(9), Search(Undiscovered(9), []));
  }

  lemma ClothingTopoOrder(g: Adjacency)
    requires g == ClothingAdjacency()
    ensures TopoOrder(g) == [8, 5, 6, 7, 4, 0, 3, 1, 2]
  {
    ClothingFinishOrder(g);
  }

  lemma ClothingHandles()
    ensures Handles([8, 5, 6, 7, 4, 0, 3, 1, 2]) == [Node(8), Node(5), Node(6), Node(7), Node(4), Node(0), Node(3), Node(1), Node(2)]
  {
  }

  /** Every edge leads to a node that finishes earlier, so the graph has no cycle. */
  lemma ClothingAcyclic(g: Adjacency)
    requires g == ClothingAdjacency()
    ensures Acyclic(g)
  {
    RankedIsAcyclic(g, [3, 1, 0, 2, 4, 7, 6, 5, 8]);
  }

  /** What the built graph's fields come to, and what its topological order is. */
  lemma ClothingBuilt(nodes: seq<Node>, edges: seq<Edge>, adjacency: Adjacency)
    requires |nodes| == 9 && forall i :: 0 <= i < |nodes| ==> nodes[i] == Node(i)
    requires EdgesAre(edges, [(0, 1, 1), (1, 2, 1), (0, 3, 1), (3, 2, 1), (5, 6, 1), (5, 7, 1), (6, 3, 1), (6, 7, 1), (8, 7, 1)])
    requires EdgesWithin(9, edges) && adjacency == AdjacencyOf(Directed, 9, edges)
    ensures nodes == [Node(0), Node(1), Node(2), Node(3), Node(4), Node(5), Node(6), Node(7), Node(8)] && edges == ClothingEdges()
    ensures Handles(TopoOrder(adjacency)) == [Node(8), Node(5), Node(6), Node(7), Node(4), Node(0), Node(3), Node(1), Node(2)]
    ensures Acyclic(adjacency)
  {
    assert nodes == [Node(0), Node(1), Node(2), Node(3), Node(4), Node(5), Node(6), Node(7), Node(8)];
    assert edges == ClothingEdges();
    ClothingPrefix9(edges);
    ClothingTopoOrder(adjacency);
    ClothingAcyclic(adjacency);
    ClothingHandles();
  }

  /**
   * The test of the topological sort: nodes get the indices 0 .. 8 in creation
   * order, the sort yields socks, undershorts, pants, shoes, watch, shirt, belt,
   * tie, jacket, and every edge goes forward in that order.
   */
  method TopologicalSortScenario() returns (nodes: seq<Node>, result: seq<Node>)
    ensures |nodes| == 9 && forall i :: 0 <= i < 9 ==> nodes[i].index == i
    ensures result == [nodes[8], nodes[5], nodes[6], nodes[7], nodes[4], nodes[0], nodes[3], nodes[1], nodes[2]]
    ensures EdgesForward(result, ClothingEdges())
  {
    var graph;
    graph, nodes := BuildGraph(Directed, 9, [(0, 1, 1), (1, 2, 1), (0, 3, 1), (3, 2, 1), (5, 6, 1), (5, 7, 1), (6, 3, 1), (6, 7, 1), (8, 7, 1)]);
    ClothingBuilt(graph.nodes, graph.edges, graph.adjacency);
    result := graph.TopologicalSort();
  }
}
