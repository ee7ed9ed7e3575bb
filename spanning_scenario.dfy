/**
 * The graph of CLRS 3rd ed., figure 23.4, built through the Graph class, and its
 * minimum spanning tree tallied as the package's test does. Nodes: 0 a, 1 b, 2 c, 3 d, 4 e, 5 f, 6 g, 7 h, 8 i.
 */
module SpanningScenario {
  import opened DepthFirst
  import opened GraphTypes
  import opened Kruskal
  import opened Graphs
  import opened TestGraphs

  function MstEdges(): seq<Edge> {
    [Edge(Node(0), Node(1), 4), Edge(Node(0), Node(7), 8), Edge(Node(1), Node(7), 11), Edge(Node(1), Node(2), 8), Edge(Node(2), Node(8), 2), Edge(Node(2), Node(5), 4), Edge(Node(2), Node(3), 7), Edge(Node(3), Node(4), 9), Edge(Node(3), Node(5), 14), Edge(Node(4), Node(5), 10), Edge(Node(5), Node(6), 2), Edge(Node(6), Node(7), 1), Edge(Node(6), Node(8), 6), Edge(Node(7), Node(8), 7)]
  }

  /** The sum of the weights of es. */
  function TotalWeight(es: seq<Edge>): int {
    if es == [] then 0 else TotalWeight(es[..|es| - 1]) + es[|es| - 1].weight
  }

  /** covered holds exactly the nodes at an end of some edge of es. */
  ghost predicate TouchedBy(covered: set<Node>, es: seq<Edge>) {
    forall x :: x in covered <==> exists k :: 0 <= k < |es| && (es[k].start == x || es[k].end == x)
  }

  /**
   * The test's tally of a spanning tree: the set of nodes that its edges touch
   * (a map used as a set in the test), and the sum of its weights.
   */
  method SpanSummary(mst: seq<Edge>) returns (covered: set<Node>, cost: int)
    ensures TouchedBy(covered, mst) && cost == TotalWeight(mst)
  {
    covered, cost := {}, 0;
    for i := 0 to |mst|
      invariant TouchedBy(covered, mst[..i])
      invariant cost == TotalWeight(mst[..i])
    {
      var edge := mst[i];
      if edge.start !in covered {
        covered := covered + {edge.start};
      }
      if edge.end !in covered {
        covered := covered + {edge.end};
      }
      cost := cost + edge.weight;
      assert mst[..i + 1][..i] == mst[..i];
    }
    assert mst[..|mst|] == mst;
  }

  // Kruskal's sort of the edges by weight, one insertion at a time.

  lemma SortFrom14(es: seq<Edge>)
    requires es == []
    ensures SortByWeight(es) == []
  {
  }

  lemma InsertAt13(e: Edge, s: seq<Edge>)
    requires e == Edge(Node(7), Node(8), 7) && s == []
    ensures InsertByWeight(e, s) == [Edge(Node(7), Node(8), 7)]
  {
    assert s == [] + [];
    InsertByWeightBetween(e, [], []);
  }

  lemma SortFrom13(es: seq<Edge>)
    requires es == [Edge(Node(7), Node(8), 7)]
    ensures SortByWeight(es) == [Edge(Node(7), Node(8), 7)]
  {
    assert es[1..] == [];
    SortFrom14(es[1..]);
    InsertAt13(es[0], SortByWeight(es[1..]));
  }

  lemma InsertAt12(e: Edge, s: seq<Edge>)
    requires e == Edge(Node(6), Node(8), 6) && s == [Edge(Node(7), Node(8), 7)]
    ensures InsertByWeight(e, s) == [Edge(Node(6), Node(8), 6), Edge(Node(7), Node(8), 7)]
  {
    assert s == [] + [Edge(Node(7), Node(8), 7)];
    InsertByWeightBetween(e, [], [Edge(Node(7), Node(8), 7)]);
  }

  lemma SortFrom12(es: seq<Edge>)
    requires es == [Edge(Node(6), Node(8), 6), Edge(Node(7), Node(8), 7)]
    ensures SortByWeight(es) == [Edge(Node(6), Node(8), 6), Edge(Node(7), Node(8), 7)]
  {
    assert es[1..] == [Edge(Node(7), Node(8), 7)];
    SortFrom13(es[1..]);
    InsertAt12(es[0], SortByWeight(es[1..]));
  }

  lemma InsertAt11(e: Edge, s: seq<Edge>)
    requires e == Edge(Node(6), Node(7), 1) && s == [Edge(Node(6), Node(8), 6), Edge(Node(7), Node(8), 7)]
    ensures InsertByWeight(e, s) == [Edge(Node(6), Node(7), 1), Edge(Node(6), Node(8), 6), Edge(Node(7), Node(8), 7)]
  {
    assert s == [] + [Edge(Node(6), Node(8), 6), Edge(Node(7), Node(8), 7)];
    InsertByWeightBetween(e, [], [Edge(Node(6), Node(8), 6), Edge(Node(7), Node(8), 7)]);
  }

  lemma SortFrom11(es: seq<Edge>)
    requires es == [Edge(Node(6), Node(7), 1), Edge(Node(6), Node(8), 6), Edge(Node(7), Node(8), 7)]
    ensures SortByWeight(es) == [Edge(Node(6), Node(7), 1), Edge(Node(6), Node(8), 6), Edge(Node(7), Node(8), 7)]
  {
    assert es[1..] == [Edge(Node(6), Node(8), 6), Edge(Node(7), Node(8), 7)];
    SortFrom12(es[1..]);
    InsertAt11(es[0], SortByWeight(es[1..]));
  }

  lemma InsertAt10(e: Edge, s: seq<Edge>)
    requires e == Edge(Node(5), Node(6), 2) && s == [Edge(Node(6), Node(7), 1), Edge(Node(6), Node(8), 6), Edge(Node(7), Node(8), 7)]
    ensures InsertByWeight(e, s) == [Edge(Node(6), Node(7), 1), Edge(Node(5), Node(6), 2), Edge(Node(6), Node(8), 6), Edge(Node(7), Node(8), 7)]
  {
    assert s == [Edge(Node(6), Node(7), 1)] + [Edge(Node(6), Node(8), 6), Edge(Node(7), Node(8), 7)];
    InsertByWeightBetween(e, [Edge(Node(6), Node(7), 1)], [Edge(Node(6), Node(8), 6), Edge(Node(7), Node(8), 7)]);
  }

  lemma SortFrom10(es: seq<Edge>)
    requires es == [Edge(Node(5), Node(6), 2), Edge(Node(6), Node(7), 1), Edge(Node(6), Node(8), 6), Edge(Node(7), Node(8), 7)]
    ensures SortByWeight(es) == [Edge(Node(6), Node(7), 1), Edge(Node(5), Node(6), 2), Edge(Node(6), Node(8), 6), Edge(Node(7), Node(8), 7)]
  {
    assert es[1..] == [Edge(Node(6), Node(7), 1), Edge(Node(6), Node(8), 6), Edge(Node(7), Node(8), 7)];
    SortFrom11(es[1..]);
    InsertAt10(es[0], SortByWeight(es[1..]));
  }

  lemma InsertAt9(e: Edge, s: seq<Edge>)
    requires e == Edge(Node(4), Node(5), 10) && s == [Edge(Node(6), Node(7), 1), Edge(Node(5), Node(6), 2), Edge(Node(6), Node(8), 6), Edge(Node(7), Node(8), 7)]
    ensures InsertByWeight(e, s) == [Edge(Node(6), Node(7), 1), Edge(Node(5), Node(6), 2), Edge(Node(6), Node(8), 6), Edge(Node(7), Node(8), 7), Edge(Node(4), Node(5), 10)]
  {
    assert s == [Edge(Node(6), Node(7), 1), Edge(Node(5), Node(6), 2), Edge(Node(6), Node(8), 6), Edge(Node(7), Node(8), 7)] + [];
    InsertByWeightBetween(e, [Edge(Node(6), Node(7), 1), Edge(Node(5), Node(6), 2), Edge(Node(6), Node(8), 6), Edge(Node(7), Node(8), 7)], []);
  }

  lemma SortFrom9(es: seq<Edge>)
    requires es == [Edge(Node(4), Node(5), 10), Edge(Node(5), Node(6), 2), Edge(Node(6), Node(7), 1), Edge(Node(6), Node(8), 6), Edge(Node(7), Node(8), 7)]
    ensures SortByWeight(es) == [Edge(Node(6), Node(7), 1), Edge(Node(5), Node(6), 2), Edge(Node(6), Node(8), 6), Edge(Node(7), Node(8), 7), Edge(Node(4), Node(5), 10)]
  {
    assert es[1..] == [Edge(Node(5), Node(6), 2), Edge(Node(6), Node(7), 1), Edge(Node(6), Node(8), 6), Edge(Node(7), Node(8), 7)];
    SortFrom10(es[1..]);
    InsertAt9(es[0], SortByWeight(es[1..]));
  }

  lemma InsertAt8(e: Edge, s: seq<Edge>)
    requires e == Edge(Node(3), Node(5), 14) && s == [Edge(Node(6), Node(7), 1), Edge(Node(5), Node(6), 2), Edge(Node(6), Node(8), 6), Edge(Node(7), Node(8), 7), Edge(Node(4), Node(5), 10)]
    ensures InsertByWeight(e, s) == [Edge(Node(6), Node(7), 1), Edge(Node(5), Node(6), 2), Edge(Node(6), Node(8), 6), Edge(Node(7), Node(8), 7), Edge(Node(4), Node(5), 10), Edge(Node(3), Node(5), 14)]
  {
    assert s == [Edge(Node(6), Node(7), 1), Edge(Node(5), Node(6), 2), Edge(Node(6), Node(8), 6), Edge(Node(7), Node(8), 7), Edge(Node(4), Node(5), 10)] + [];
    InsertByWeightBetween(e, [Edge(Node(6), Node(7), 1), Edge(Node(5), Node(6), 2), Edge(Node(6), Node(8), 6), Edge(Node(7), Node(8), 7), Edge(Node(4), Node(5), 10)], []);
  }

  lemma SortFrom8(es: seq<Edge>)
    requires es == [Edge(Node(3), Node(5), 14), Edge(Node(4), Node(5), 10), Edge(Node(5), Node(6), 2), Edge(Node(6), Node(7), 1), Edge(Node(6), Node(8), 6), Edge(Node(7), Node(8), 7)]
    ensures SortByWeight(es) == [Edge(Node(6), Node(7), 1), Edge(Node(5), Node(6), 2), Edge(Node(6), Node(8), 6), Edge(Node(7), Node(8), 7), Edge(Node(4), Node(5), 10), Edge(Node(3), Node(5), 14)]
  {
    assert es[1..] == [Edge(Node(4), Node(5), 10), Edge(Node(5), Node(6), 2), Edge(Node(6), Node(7), 1), Edge(Node(6), Node(8), 6), Edge(Node(7), Node(8), 7)];
    SortFrom9(es[1..]);
    InsertAt8(es[0], SortByWeight(es[1..]));
  }

  lemma InsertAt7(e: Edge, s: seq<Edge>)
    requires e == Edge(Node(3), Node(4), 9) && s == [Edge(Node(6), Node(7), 1), Edge(Node(5), Node(6), 2), Edge(Node(6), Node(8), 6), Edge(Node(7), Node(8), 7), Edge(Node(4), Node(5), 10), Edge(Node(3), Node(5), 14)]
    ensures InsertByWeight(e, s) == [Edge(Node(6), Node(7), 1), Edge(Node(5), Node(6), 2), Edge(Node(6), Node(8), 6), Edge(Node(7), Node(8), 7), Edge(Node(3), Node(4), 9), Edge(Node(4), Node(5), 10), Edge(Node(3), Node(5), 14)]
  {
    assert s == [Edge(Node(6), Node(7), 1), Edge(Node(5), Node(6), 2), Edge(Node(6), Node(8), 6), Edge(Node(7), Node(8), 7)] + [Edge(Node(4), Node(5), 10), Edge(Node(3), Node(5), 14)];
    InsertByWeightBetween(e, [Edge(Node(6), Node(7), 1), Edge(Node(5), Node(6), 2), Edge(Node(6), Node(8), 6), Edge(Node(7), Node(8), 7)], [Edge(Node(4), Node(5), 10), Edge(Node(3), Node(5), 14)]);
  }

  lemma SortFrom7(es: seq<Edge>)
    requires es == [Edge(Node(3), Node(4), 9), Edge(Node(3), Node(5), 14), Edge(Node(4), Node(5), 10), Edge(Node(5), Node(6), 2), Edge(Node(6), Node(7), 1), Edge(Node(6), Node(8), 6), Edge(Node(7), Node(8), 7)]
    ensures SortByWeight(es) == [Edge(Node(6), Node(7), 1), Edge(Node(5), Node(6), 2), Edge(Node(6), Node(8), 6), Edge(Node(7), Node(8), 7), Edge(Node(3), Node(4), 9), Edge(Node(4), Node(5), 10), Edge(Node(3), Node(5), 14)]
  {
    assert es[1..] == [Edge(Node(3), Node(5), 14), Edge(Node(4), Node(5), 10), Edge(Node(5), Node(6), 2), Edge(Node(6), Node(7), 1), Edge(Node(6), Node(8), 6), Edge(Node(7), Node(8), 7)];
    SortFrom8(es[1..]);
    InsertAt7(es[0], SortByWeight(es[1..]));
  }

  lemma InsertAt6(e: Edge, s: seq<Edge>)
    requires e == Edge(Node(2), Node(3), 7) && s == [Edge(Node(6), Node(7), 1), Edge(Node(5), Node(6), 2), Edge(Node(6), Node(8), 6), Edge(Node(7), Node(8), 7), Edge(Node(3), Node(4), 9), Edge(Node(4), Node(5), 10), Edge(Node(3), Node(5), 14)]
    ensures InsertByWeight(e, s) == [Edge(Node(6), Node(7), 1), Edge(Node(5), Node(6), 2), Edge(Node(6), Node(8), 6), Edge(Node(2), Node(3), 7), Edge(Node(7), Node(8), 7), Edge(Node(3), Node(4), 9), Edge(Node(4), Node(5), 10), Edge(Node(3), Node(5), 14)]
  {
    assert s == [Edge(Node(6), Node(7), 1), Edge(Node(5), Node(6), 2), Edge(Node(6), Node(8), 6)] + [Edge(Node(7), Node(8), 7), Edge(Node(3), Node(4), 9), Edge(Node(4), Node(5), 10), Edge(Node(3), Node(5), 14)];
    InsertByWeightBetween(e, [Edge(Node(6), Node(7), 1), Edge(Node(5), Node(6), 2), Edge(Node(6), Node(8), 6)], [Edge(Node(7), Node(8), 7), Edge(Node(3), Node(4), 9), Edge(Node(4), Node(5), 10), Edge(Node(3), Node(5), 14)]);
  }

  lemma SortFrom6(es: seq<Edge>)
    requires es == [Edge(Node(2), Node(3), 7), Edge(Node(3), Node(4), 9), Edge(Node(3), Node(5), 14), Edge(Node(4), Node(5), 10), Edge(Node(5), Node(6), 2), Edge(Node(6), Node(7), 1), Edge(Node(6), Node(8), 6), Edge(Node(7), Node(8), 7)]
    ensures SortByWeight(es) == [Edge(Node(6), Node(7), 1), Edge(Node(5), Node(6), 2), Edge(Node(6), Node(8), 6), Edge(Node(2), Node(3), 7), Edge(Node(7), Node(8), 7), Edge(Node(3), Node(4), 9), Edge(Node(4), Node(5), 10), Edge(Node(3), Node(5), 14)]
  {
    assert es[1..] == [Edge(Node(3), Node(4), 9), Edge(Node(3), Node(5), 14), Edge(Node(4), Node(5), 10), Edge(Node(5), Node(6), 2), Edge(Node(6), Node(7), 1), Edge(Node(6), Node(8), 6), Edge(Node(7), Node(8), 7)];
    SortFrom7(es[1..]);
    InsertAt6(es[0], SortByWeight(es[1..]));
  }

  lemma InsertAt5(e: Edge, s: seq<Edge>)
    requires e == Edge(Node(2), Node(5), 4) && s == [Edge(Node(6), Node(7), 1), Edge(Node(5), Node(6), 2), Edge(Node(6), Node(8), 6), Edge(Node(2), Node(3), 7), Edge(Node(7), Node(8), 7), Edge(Node(3), Node(4), 9), Edge(Node(4), Node(5), 10), Edge(Node(3), Node(5), 14)]
    ensures InsertByWeight(e, s) == [Edge(Node(6), Node(7), 1), Edge(Node(5), Node(6), 2), Edge(Node(2), Node(5), 4), Edge(Node(6), Node(8), 6), Edge(Node(2), Node(3), 7), Edge(Node(7), Node(8), 7), Edge(Node(3), Node(4), 9), Edge(Node(4), Node(5), 10), Edge(Node(3), Node(5), 14)]
  {
    assert s == [Edge(Node(6), Node(7), 1), Edge(Node(5), Node(6), 2)] + [Edge(Node(6), Node(8), 6), Edge(Node(2), Node(3), 7), Edge(Node(7), Node(8), 7), Edge(Node(3), Node(4), 9), Edge(Node(4), Node(5), 10), Edge(Node(3), Node(5), 14)];
    InsertByWeightBetween(e, [Edge(Node(6), Node(7), 1), Edge(Node(5), Node(6), 2)], [Edge(Node(6), Node(8), 6), Edge(Node(2), Node(3), 7), Edge(Node(7), Node(8), 7), Edge(Node(3), Node(4), 9), Edge(Node(4), Node(5), 10), Edge(Node(3), Node(5), 14)]);
  }

  lemma SortFrom5(es: seq<Edge>)
    requires es == [Edge(Node(2), Node(5), 4), Edge(Node(2), Node(3), 7), Edge(Node(3), Node(4), 9), Edge(Node(3), Node(5), 14), Edge(Node(4), Node(5), 10), Edge(Node(5), Node(6), 2), Edge(Node(6), Node(7), 1), Edge(Node(6), Node(8), 6), Edge(Node(7), Node(8), 7)]
    ensures SortByWeight(es) == [Edge(Node(6), Node(7), 1), Edge(Node(5), Node(6), 2), Edge(Node(2), Node(5), 4), Edge(Node(6), Node(8), 6), Edge(Node(2), Node(3), 7), Edge(Node(7), Node(8), 7), Edge(Node(3), Node(4), 9), Edge(Node(4), Node(5), 10), Edge(Node(3), Node(5), 14)]
  {
    assert es[1..] == [Edge(Node(2), Node(3), 7), Edge(Node(3), Node(4), 9), Edge(Node(3), Node(5), 14), Edge(Node(4), Node(5), 10), Edge(Node(5), Node(6), 2), Edge(Node(6), Node(7), 1), Edge(Node(6), Node(8), 6), Edge(Node(7), Node(8), 7)];
    SortFrom6(es[1..]);
    InsertAt5(es[0], SortByWeight(es[1..]));
  }

  lemma InsertAt4(e: Edge, s: seq<Edge>)
    requires e == Edge(Node(2), Node(8), 2) && s == [Edge(Node(6), Node(7), 1), Edge(Node(5), Node(6), 2), Edge(Node(2), Node(5), 4), Edge(Node(6), Node(8), 6), Edge(Node(2), Node(3), 7), Edge(Node(7), Node(8), 7), Edge(Node(3), Node(4), 9), Edge(Node(4), Node(5), 10), Edge(Node(3), Node(5), 14)]
    ensures InsertByWeight(e, s) == [Edge(Node(6), Node(7), 1), Edge(Node(2), Node(8), 2), Edge(Node(5), Node(6), 2), Edge(Node(2), Node(5), 4), Edge(Node(6), Node(8), 6), Edge(Node(2), Node(3), 7), Edge(Node(7), Node(8), 7), Edge(Node(3), Node(4), 9), Edge(Node(4), Node(5), 10), Edge(Node(3), Node(5), 14)]
  {
    assert s == [Edge(Node(6), Node(7), 1)] + [Edge(Node(5), Node(6), 2), Edge(Node(2), Node(5), 4), Edge(Node(6), Node(8), 6), Edge(Node(2), Node(3), 7), Edge(Node(7), Node(8), 7), Edge(Node(3), Node(4), 9), Edge(Node(4), Node(5), 10), Edge(Node(3), Node(5), 14)];
    InsertByWeightBetween(e, [Edge(Node(6), Node(7), 1)], [Edge(Node(5), Node(6), 2), Edge(Node(2), Node(5), 4), Edge(Node(6), Node(8), 6), Edge(Node(2), Node(3), 7), Edge(Node(7), Node(8), 7), Edge(Node(3), Node(4), 9), Edge(Node(4), Node(5), 10), Edge(Node(3), Node(5), 14)]);
  }

  lemma SortFrom4(es: seq<Edge>)
    requires es == [Edge(Node(2), Node(8), 2), Edge(Node(2), Node(5), 4), Edge(Node(2), Node(3), 7), Edge(Node(3), Node(4), 9), Edge(Node(3), Node(5), 14), Edge(Node(4), Node(5), 10), Edge(Node(5), Node(6), 2), Edge(Node(6), Node(7), 1), Edge(Node(6), Node(8), 6), Edge(Node(7), Node(8), 7)]
    ensures SortByWeight(es) == [Edge(Node(6), Node(7), 1), Edge(Node(2), Node(8), 2), Edge(Node(5), Node(6), 2), Edge(Node(2), Node(5), 4), Edge(Node(6), Node(8), 6), Edge(Node(2), Node(3), 7), Edge(Node(7), Node(8), 7), Edge(Node(3), Node(4), 9), Edge(Node(4), Node(5), 10), Edge(Node(3), Node(5), 14)]
  {
    assert es[1..] == [Edge(Node(2), Node(5), 4), Edge(Node(2), Node(3), 7), Edge(Node(3), Node(4), 9), Edge(Node(3), Node(5), 14), Edge(Node(4), Node(5), 10), Edge(Node(5), Node(6), 2), Edge(Node(6), Node(7), 1), Edge(Node(6), Node(8), 6), Edge(Node(7), Node(8), 7)];
    SortFrom5(es[1..]);
    InsertAt4(es[0], SortByWeight(es[1..]));
  }

  lemma InsertAt3(e: Edge, s: seq<Edge>)
    requires e == Edge(Node(1), Node(2), 8) && s == [Edge(Node(6), Node(7), 1), Edge(Node(2), Node(8), 2), Edge(Node(5), Node(6), 2), Edge(Node(2), Node(5), 4), Edge(Node(6), Node(8), 6), Edge(Node(2), Node(3), 7), Edge(Node(7), Node(8), 7), Edge(Node(3), Node(4), 9), Edge(Node(4), Node(5), 10), Edge(Node(3), Node(5), 14)]
    ensures InsertByWeight(e, s) == [Edge(Node(6), Node(7), 1), Edge(Node(2), Node(8), 2), Edge(Node(5), Node(6), 2), Edge(Node(2), Node(5), 4), Edge(Node(6), Node(8), 6), Edge(Node(2), Node(3), 7), Edge(Node(7), Node(8), 7), Edge(Node(1), Node(2), 8), Edge(Node(3), Node(4), 9), Edge(Node(4), Node(5), 10), Edge(Node(3), Node(5), 14)]
  {
    assert s == [Edge(Node(6), Node(7), 1), Edge(Node(2), Node(8), 2), Edge(Node(5), Node(6), 2), Edge(Node(2), Node(5), 4), Edge(Node(6), Node(8), 6), Edge(Node(2), Node(3), 7), Edge(Node(7), Node(8), 7)] + [Edge(Node(3), Node(4), 9), Edge(Node(4), Node(5), 10), Edge(Node(3), Node(5), 14)];
    InsertByWeightBetween(e, [Edge(Node(6), Node(7), 1), Edge(Node(2), Node(8), 2), Edge(Node(5), Node(6), 2), Edge(Node(2), Node(5), 4), Edge(Node(6), Node(8), 6), Edge(Node(2), Node(3), 7), Edge(Node(7), Node(8), 7)], [Edge(Node(3), Node(4), 9), Edge(Node(4), Node(5), 10), Edge(Node(3), Node(5), 14)]);
  }

  lemma SortFrom3(es: seq<Edge>)
    requires es == [Edge(Node(1), Node(2), 8), Edge(Node(2), Node(8), 2), Edge(Node(2), Node(5), 4), Edge(Node(2), Node(3), 7), Edge(Node(3), Node(4), 9), Edge(Node(3), Node(5), 14), Edge(Node(4), Node(5), 10), Edge(Node(5), Node(6), 2), Edge(Node(6), Node(7), 1), Edge(Node(6), Node(8), 6), Edge(Node(7), Node(8), 7)]
    ensures SortByWeight(es) == [Edge(Node(6), Node(7), 1), Edge(Node(2), Node(8), 2), Edge(Node(5), Node(6), 2), Edge(Node(2), Node(5), 4), Edge(Node(6), Node(8), 6), Edge(Node(2), Node(3), 7), Edge(Node(7), Node(8), 7), Edge(Node(1), Node(2), 8), Edge(Node(3), Node(4), 9), Edge(Node(4), Node(5), 10), Edge(Node(3), Node(5), 14)]
  {
    assert es[1..] == [Edge(Node(2), Node(8), 2), Edge(Node(2), Node(5), 4), Edge(Node(2), Node(3), 7), Edge(Node(3), Node(4), 9), Edge(Node(3), Node(5), 14), Edge(Node(4), Node(5), 10), Edge(Node(5), Node(6), 2), Edge(Node(6), Node(7), 1), Edge(Node(6), Node(8), 6), Edge(Node(7), Node(8), 7)];
    SortFrom4(es[1..]);
    InsertAt3(es[0], SortByWeight(es[1..]));
  }

  lemma InsertAt2(e: Edge, s: seq<Edge>)
    requires e == Edge(Node(1), Node(7), 11) && s == [Edge(Node(6), Node(7), 1), Edge(Node(2), Node(8), 2), Edge(Node(5), Node(6), 2), Edge(Node(2), Node(5), 4), Edge(Node(6), Node(8), 6), Edge(Node(2), Node(3), 7), Edge(Node(7), Node(8), 7), Edge(Node(1), Node(2), 8), Edge(Node(3), Node(4), 9), Edge(Node(4), Node(5), 10), Edge(Node(3), Node(5), 14)]
    ensures InsertByWeight(e, s) == [Edge(Node(6), Node(7), 1), Edge(Node(2), Node(8), 2), Edge(Node(5), Node(6), 2), Edge(Node(2), Node(5), 4), Edge(Node(6), Node(8), 6), Edge(Node(2), Node(3), 7), Edge(Node(7), Node(8), 7), Edge(Node(1), Node(2), 8), Edge(Node(3), Node(4), 9), Edge(Node(4), Node(5), 10), Edge(Node(1), Node(7), 11), Edge(Node(3), Node(5), 14)]
  {
    assert s == [Edge(Node(6), Node(7), 1), Edge(Node(2), Node(8), 2), Edge(Node(5), Node(6), 2), Edge(Node(2), Node(5), 4), Edge(Node(6), Node(8), 6), Edge(Node(2), Node(3), 7), Edge(Node(7), Node(8), 7), Edge(Node(1), Node(2), 8), Edge(Node(3), Node(4), 9), Edge(Node(4), Node(5), 10)] + [Edge(Node(3), Node(5), 14)];
    InsertByWeightBetween(e, [Edge(Node(6), Node(7), 1), Edge(Node(2), Node(8), 2), Edge(Node(5), Node(6), 2), Edge(Node(2), Node(5), 4), Edge(Node(6), Node(8), 6), Edge(Node(2), Node(3), 7), Edge(Node(7), Node(8), 7), Edge(Node(1), Node(2), 8), Edge(Node(3), Node(4), 9), Edge(Node(4), Node(5), 10)], [Edge(Node(3), Node(5), 14)]);
  }

  lemma SortFrom2(es: seq<Edge>)
    requires es == [Edge(Node(1), Node(7), 11), Edge(Node(1), Node(2), 8), Edge(Node(2), Node(8), 2), Edge(Node(2), Node(5), 4), Edge(Node(2), Node(3), 7), Edge(Node(3), Node(4), 9), Edge(Node(3), Node(5), 14), Edge(Node(4), Node(5), 10), Edge(Node(5), Node(6), 2), Edge(Node(6), Node(7), 1), Edge(Node(6), Node(8), 6), Edge(Node(7), Node(8), 7)]
    ensures SortByWeight(es) == [Edge(Node(6), Node(7), 1), Edge(Node(2), Node(8), 2), Edge(Node(5), Node(6), 2), Edge(Node(2), Node(5), 4), Edge(Node(6), Node(8), 6), Edge(Node(2), Node(3), 7), Edge(Node(7), Node(8), 7), Edge(Node(1), Node(2), 8), Edge(Node(3), Node(4), 9), Edge(Node(4), Node(5), 10), Edge(Node(1), Node(7), 11), Edge(Node(3), Node(5), 14)]
  {
    assert es[1..] == [Edge(Node(1), Node(2), 8), Edge(Node(2), Node(8), 2), Edge(Node(2), Node(5), 4), Edge(Node(2), Node(3), 7), Edge(Node(3), Node(4), 9), Edge(Node(3), Node(5), 14), Edge(Node(4), Node(5), 10), Edge(Node(5), Node(6), 2), Edge(Node(6), Node(7), 1), Edge(Node(6), Node(8), 6), Edge(Node(7), Node(8), 7)];
    SortFrom3(es[1..]);
    InsertAt2(es[0], SortByWeight(es[1..]));
  }

  lemma InsertAt1(e: Edge, s: seq<Edge>)
    requires e == Edge(Node(0), Node(7), 8) && s == [Edge(Node(6), Node(7), 1), Edge(Node(2), Node(8), 2), Edge(Node(5), Node(6), 2), Edge(Node(2), Node(5), 4), Edge(Node(6), Node(8), 6), Edge(Node(2), Node(3), 7), Edge(Node(7), Node(8), 7), Edge(Node(1), Node(2), 8), Edge(Node(3), Node(4), 9), Edge(Node(4), Node(5), 10), Edge(Node(1), Node(7), 11), Edge(Node(3), Node(5), 14)]
    ensures InsertByWeight(e, s) == [Edge(Node(6), Node(7), 1), Edge(Node(2), Node(8), 2), Edge(Node(5), Node(6), 2), Edge(Node(2), Node(5), 4), Edge(Node(6), Node(8), 6), Edge(Node(2), Node(3), 7), Edge(Node(7), Node(8), 7), Edge(Node(0), Node(7), 8), Edge(Node(1), Node(2), 8), Edge(Node(3), Node(4), 9), Edge(Node(4), Node(5), 10), Edge(Node(1), Node(7), 11), Edge(Node(3), Node(5), 14)]
  {
    assert s == [Edge(Node(6), Node(7), 1), Edge(Node(2), Node(8), 2), Edge(Node(5), Node(6), 2), Edge(Node(2), Node(5), 4), Edge(Node(6), Node(8), 6), Edge(Node(2), Node(3), 7), Edge(Node(7), Node(8), 7)] + [Edge(Node(1), Node(2), 8), Edge(Node(3), Node(4), 9), Edge(Node(4), Node(5), 10), Edge(Node(1), Node(7), 11), Edge(Node(3), Node(5), 14)];
    InsertByWeightBetween(e, [Edge(Node(6), Node(7), 1), Edge(Node(2), Node(8), 2), Edge(Node(5), Node(6), 2), Edge(Node(2), Node(5), 4), Edge(Node(6), Node(8), 6), Edge(Node(2), Node(3), 7), Edge(Node(7), Node(8), 7)], [Edge(Node(1), Node(2), 8), Edge(Node(3), Node(4), 9), Edge(Node(4), Node(5), 10), Edge(Node(1), Node(7), 11), Edge(Node(3), Node(5), 14)]);
  }

  lemma SortFrom1(es: seq<Edge>)
    requires es == [Edge(Node(0), Node(7), 8), Edge(Node(1), Node(7), 11), Edge(Node(1), Node(2), 8), Edge(Node(2), Node(8), 2), Edge(Node(2), Node(5), 4), Edge(Node(2), Node(3), 7), Edge(Node(3), Node(4), 9), Edge(Node(3), Node(5), 14), Edge(Node(4), Node(5), 10), Edge(Node(5), Node(6), 2), Edge(Node(6), Node(7), 1), Edge(Node(6), Node(8), 6), Edge(Node(7), Node(8), 7)]
    ensures SortByWeight(es) == [Edge(Node(6), Node(7), 1), Edge(Node(2), Node(8), 2), Edge(Node(5), Node(6), 2), Edge(Node(2), Node(5), 4), Edge(Node(6), Node(8), 6), Edge(Node(2), Node(3), 7), Edge(Node(7), Node(8), 7), Edge(Node(0), Node(7), 8), Edge(Node(1), Node(2), 8), Edge(Node(3), Node(4), 9), Edge(Node(4), Node(5), 10), Edge(Node(1), Node(7), 11), Edge(Node(3), Node(5), 14)]
  {
    assert es[1..] == [Edge(Node(1), Node(7), 11), Edge(Node(1), Node(2), 8), Edge(Node(2), Node(8), 2), Edge(Node(2), Node(5), 4), Edge(Node(2), Node(3), 7), Edge(Node(3), Node(4), 9), Edge(Node(3), Node(5), 14), Edge(Node(4), Node(5), 10), Edge(Node(5), Node(6), 2), Edge(Node(6), Node(7), 1), Edge(Node(6), Node(8), 6), Edge(Node(7), Node(8), 7)];
    SortFrom2(es[1..]);
    InsertAt1(es[0], SortByWeight(es[1..]));
  }

  lemma InsertAt0(e: Edge, s: seq<Edge>)
    requires e == Edge(Node(0), Node(1), 4) && s == [Edge(Node(6), Node(7), 1), Edge(Node(2), Node(8), 2), Edge(Node(5), Node(6), 2), Edge(Node(2), Node(5), 4), Edge(Node(6), Node(8), 6), Edge(Node(2), Node(3), 7), Edge(Node(7), Node(8), 7), Edge(Node(0), Node(7), 8), Edge(Node(1), Node(2), 8), Edge(Node(3), Node(4), 9), Edge(Node(4), Node(5), 10), Edge(Node(1), Node(7), 11), Edge(Node(3), Node(5), 14)]
    ensures InsertByWeight(e, s) == [Edge(Node(6), Node(7), 1), Edge(Node(2), Node(8), 2), Edge(Node(5), Node(6), 2), Edge(Node(0), Node(1), 4), Edge(Node(2), Node(5), 4), Edge(Node(6), Node(8), 6), Edge(Node(2), Node(3), 7), Edge(Node(7), Node(8), 7), Edge(Node(0), Node(7), 8), Edge(Node(1), Node(2), 8), Edge(Node(3), Node(4), 9), Edge(Node(4), Node(5), 10), Edge(Node(1), Node(7), 11), Edge(Node(3), Node(5), 14)]
  {
    assert s == [Edge(Node(6), Node(7), 1), Edge(Node(2), Node(8), 2), Edge(Node(5), Node(6), 2)] + [Edge(Node(2), Node(5), 4), Edge(Node(6), Node(8), 6), Edge(Node(2), Node(3), 7), Edge(Node(7), Node(8), 7), Edge(Node(0), Node(7), 8), Edge(Node(1), Node(2), 8), Edge(Node(3), Node(4), 9), Edge(Node(4), Node(5), 10), Edge(Node(1), Node(7), 11), Edge(Node(3), Node(5), 14)];
    InsertByWeightBetween(e, [Edge(Node(6), Node(7), 1), Edge(Node(2), Node(8), 2), Edge(Node(5), Node(6), 2)], [Edge(Node(2), Node(5), 4), Edge(Node(6), Node(8), 6), Edge(Node(2), Node(3), 7), Edge(Node(7), Node(8), 7), Edge(Node(0), Node(7), 8), Edge(Node(1), Node(2), 8), Edge(Node(3), Node(4), 9), Edge(Node(4), Node(5), 10), Edge(Node(1), Node(7), 11), Edge(Node(3), Node(5), 14)]);
  }

  lemma SortFrom0(es: seq<Edge>)
    requires es == [Edge(Node(0), Node(1), 4), Edge(Node(0), Node(7), 8), Edge(Node(1), Node(7), 11), Edge(Node(1), Node(2), 8), Edge(Node(2), Node(8), 2), Edge(Node(2), Node(5), 4), Edge(Node(2), Node(3), 7), Edge(Node(3), Node(4), 9), Edge(Node(3), Node(5), 14), Edge(Node(4), Node(5), 10), Edge(Node(5), Node(6), 2), Edge(Node(6), Node(7), 1), Edge(Node(6), Node(8), 6), Edge(Node(7), Node(8), 7)]
    ensures SortByWeight(es) == [Edge(Node(6), Node(7), 1), Edge(Node(2), Node(8), 2), Edge(Node(5), Node(6), 2), Edge(Node(0), Node(1), 4), Edge(Node(2), Node(5), 4), Edge(Node(6), Node(8), 6), Edge(Node(2), Node(3), 7), Edge(Node(7), Node(8), 7), Edge(Node(0), Node(7), 8), Edge(Node(1), Node(2), 8), Edge(Node(3), Node(4), 9), Edge(Node(4), Node(5), 10), Edge(Node(1), Node(7), 11), Edge(Node(3), Node(5), 14)]
  {
    assert es[1..] == [Edge(Node(0), Node(7), 8), Edge(Node(1), Node(7), 11), Edge(Node(1), Node(2), 8), Edge(Node(2), Node(8), 2), Edge(Node(2), Node(5), 4), Edge(Node(2), Node(3), 7), Edge(Node(3), Node(4), 9), Edge(Node(3), Node(5), 14), Edge(Node(4), Node(5), 10), Edge(Node(5), Node(6), 2), Edge(Node(6), Node(7), 1), Edge(Node(6), Node(8), 6), Edge(Node(7), Node(8), 7)];
    SortFrom1(es[1..]);
    InsertAt0(es[0], SortByWeight(es[1..]));
  }

  // The scan over the sorted edges, one edge at a time.

  lemma GrowPrefix0(es: seq<Edge>)
    requires es == []
    ensures EdgesWithin(9, es) && Grow(9, es) == Forest([0, 1, 2, 3, 4, 5, 6, 7, 8], [])
  {
    assert Indices(9) == [0, 1, 2, 3, 4, 5, 6, 7, 8];
  }

  lemma GrowPrefix1(es: seq<Edge>)
    requires es == [Edge(Node(6), Node(7), 1)]
    ensures EdgesWithin(9, es) && Grow(9, es) == Forest([0, 1, 2, 3, 4, 5, 7, 7, 8], [Edge(Node(6), Node(7), 1)])
  {
    assert es[..0] == [];
    GrowPrefix0(es[..0]);
  }

  lemma GrowPrefix2(es: seq<Edge>)
    requires es == [Edge(Node(6), Node(7), 1), Edge(Node(2), Node(8), 2)]
    ensures EdgesWithin(9, es) && Grow(9, es) == Forest([0, 1, 8, 3, 4, 5, 7, 7, 8], [Edge(Node(6), Node(7), 1), Edge(Node(2), Node(8), 2)])
  {
    assert es[..1] == [Edge(Node(6), Node(7), 1)];
    GrowPrefix1(es[..1]);
  }

  lemma GrowPrefix3(es: seq<Edge>)
    requires es == [Edge(Node(6), Node(7), 1), Edge(Node(2), Node(8), 2), Edge(Node(5), Node(6), 2)]
    ensures EdgesWithin(9, es) && Grow(9, es) == Forest([0, 1, 8, 3, 4, 7, 7, 7, 8], [Edge(Node(6), Node(7), 1), Edge(Node(2), Node(8), 2), Edge(Node(5), Node(6), 2)])
  {
    assert es[..2] == [Edge(Node(6), Node(7), 1), Edge(Node(2), Node(8), 2)];
    GrowPrefix2(es[..2]);
  }

  lemma GrowPrefix4(es: seq<Edge>)
    requires es == [Edge(Node(6), Node(7), 1), Edge(Node(2), Node(8), 2), Edge(Node(5), Node(6), 2), Edge(Node(0), Node(1), 4)]
    ensures EdgesWithin(9, es) && Grow(9, es) == Forest([1, 1, 8, 3, 4, 7, 7, 7, 8], [Edge(Node(6), Node(7), 1), Edge(Node(2), Node(8), 2), Edge(Node(5), Node(6), 2), Edge(Node(0), Node(1), 4)])
  {
    assert es[..3] == [Edge(Node(6), Node(7), 1), Edge(Node(2), Node(8), 2), Edge(Node(5), Node(6), 2)];
    GrowPrefix3(es[..3]);
  }

  lemma GrowPrefix5(es: seq<Edge>)
    requires es == [Edge(Node(6), Node(7), 1), Edge(Node(2), Node(8), 2), Edge(Node(5), Node(6), 2), Edge(Node(0), Node(1), 4), Edge(Node(2), Node(5), 4)]
    ensures EdgesWithin(9, es) && Grow(9, es) == Forest([1, 1, 7, 3, 4, 7, 7, 7, 7], [Edge(Node(6), Node(7), 1), Edge(Node(2), Node(8), 2), Edge(Node(5), Node(6), 2), Edge(Node(0), Node(1), 4), Edge(Node(2), Node(5), 4)])
  {
    assert es[..4] == [Edge(Node(6), Node(7), 1), Edge(Node(2), Node(8), 2), Edge(Node(5), Node(6), 2), Edge(Node(0), Node(1), 4)];
    GrowPrefix4(es[..4]);
  }

  lemma GrowPrefix6(es: seq<Edge>)
    requires es == [Edge(Node(6), Node(7), 1), Edge(Node(2), Node(8), 2), Edge(Node(5), Node(6), 2), Edge(Node(0), Node(1), 4), Edge(Node(2), Node(5), 4), Edge(Node(6), Node(8), 6)]
    ensures EdgesWithin(9, es) && Grow(9, es) == Forest([1, 1, 7, 3, 4, 7, 7, 7, 7], [Edge(Node(6), Node(7), 1), Edge(Node(2), Node(8), 2), Edge(Node(5), Node(6), 2), Edge(Node(0), Node(1), 4), Edge(Node(2), Node(5), 4)])
  {
    assert es[..5] == [Edge(Node(6), Node(7), 1), Edge(Node(2), Node(8), 2), Edge(Node(5), Node(6), 2), Edge(Node(0), Node(1), 4), Edge(Node(2), Node(5), 4)];
    GrowPrefix5(es[..5]);
  }

  lemma GrowPrefix7(es: seq<Edge>)
    requires es == [Edge(Node(6), Node(7), 1), Edge(Node(2), Node(8), 2), Edge(Node(5), Node(6), 2), Edge(Node(0), Node(1), 4), Edge(Node(2), Node(5), 4), Edge(Node(6), Node(8), 6), Edge(Node(2), Node(3), 7)]
    ensures EdgesWithin(9, es) && Grow(9, es) == Forest([1, 1, 3, 3, 4, 3, 3, 3, 3], [Edge(Node(6), Node(7), 1), Edge(Node(2), Node(8), 2), Edge(Node(5), Node(6), 2), Edge(Node(0), Node(1), 4), Edge(Node(2), Node(5), 4), Edge(Node(2), Node(3), 7)])
  {
    assert es[..6] == [Edge(Node(6), Node(7), 1), Edge(Node(2), Node(8), 2), Edge(Node(5), Node(6), 2), Edge(Node(0), Node(1), 4), Edge(Node(2), Node(5), 4), Edge(Node(6), Node(8), 6)];
    GrowPrefix6(es[..6]);
  }

  lemma GrowPrefix8(es: seq<Edge>)
    requires es == [Edge(Node(6), Node(7), 1), Edge(Node(2), Node(8), 2), Edge(Node(5), Node(6), 2), Edge(Node(0), Node(1), 4), Edge(Node(2), Node(5), 4), Edge(Node(6), Node(8), 6), Edge(Node(2), Node(3), 7), Edge(Node(7), Node(8), 7)]
    ensures EdgesWithin(9, es) && Grow(9, es) == Forest([1, 1, 3, 3, 4, 3, 3, 3, 3], [Edge(Node(6), Node(7), 1), Edge(Node(2), Node(8), 2), Edge(Node(5), Node(6), 2), Edge(Node(0), Node(1), 4), Edge(Node(2), Node(5), 4), Edge(Node(2), Node(3), 7)])
  {
    assert es[..7] == [Edge(Node(6), Node(7), 1), Edge(Node(2), Node(8), 2), Edge(Node(5), Node(6), 2), Edge(Node(0), Node(1), 4), Edge(Node(2), Node(5), 4), Edge(Node(6), Node(8), 6), Edge(Node(2), Node(3), 7)];
    GrowPrefix7(es[..7]);
  }

  lemma GrowPrefix9(es: seq<Edge>)
    requires es == [Edge(Node(6), Node(7), 1), Edge(Node(2), Node(8), 2), Edge(Node(5), Node(6), 2), Edge(Node(0), Node(1), 4), Edge(Node(2), Node(5), 4), Edge(Node(6), Node(8), 6), Edge(Node(2), Node(3), 7), Edge(Node(7), Node(8), 7), Edge(Node(0), Node(7), 8)]
    ensures EdgesWithin(9, es) && Grow(9, es) == Forest([3, 3, 3, 3, 4, 3, 3, 3, 3], [Edge(Node(6), Node(7), 1), Edge(Node(2), Node(8), 2), Edge(Node(5), Node(6), 2), Edge(Node(0), Node(1), 4), Edge(Node(2), Node(5), 4), Edge(Node(2), Node(3), 7), Edge(Node(0), Node(7), 8)])
  {
    assert es[..8] == [Edge(Node(6), Node(7), 1), Edge(Node(2), Node(8), 2), Edge(Node(5), Node(6), 2), Edge(Node(0), Node(1), 4), Edge(Node(2), Node(5), 4), Edge(Node(6), Node(8), 6), Edge(Node(2), Node(3), 7), Edge(Node(7), Node(8), 7)];
    GrowPrefix8(es[..8]);
  }

  lemma GrowPrefix10(es: seq<Edge>)
    requires es == [Edge(Node(6), Node(7), 1), Edge(Node(2), Node(8), 2), Edge(Node(5), Node(6), 2), Edge(Node(0), Node(1), 4), Edge(Node(2), Node(5), 4), Edge(Node(6), Node(8), 6), Edge(Node(2), Node(3), 7), Edge(Node(7), Node(8), 7), Edge(Node(0), Node(7), 8), Edge(Node(1), Node(2), 8)]
    ensures EdgesWithin(9, es) && Grow(9, es) == Forest([3, 3, 3, 3, 4, 3, 3, 3, 3], [Edge(Node(6), Node(7), 1), Edge(Node(2), Node(8), 2), Edge(Node(5), Node(6), 2), Edge(Node(0), Node(1), 4), Edge(Node(2), Node(5), 4), Edge(Node(2), Node(3), 7), Edge(Node(0), Node(7), 8)])
  {
    assert es[..9] == [Edge(Node(6), Node(7), 1), Edge(Node(2), Node(8), 2), Edge(Node(5), Node(6), 2), Edge(Node(0), Node(1), 4), Edge(Node(2), Node(5), 4), Edge(Node(6), Node(8), 6), Edge(Node(2), Node(3), 7), Edge(Node(7), Node(8), 7), Edge(Node(0), Node(7), 8)];
    GrowPrefix9(es[..9]);
  }

  lemma GrowPrefix11(es: seq<Edge>)
    requires es == [Edge(Node(6), Node(7), 1), Edge(Node(2), Node(8), 2), Edge(Node(5), Node(6), 2), Edge(Node(0), Node(1), 4), Edge(Node(2), Node(5), 4), Edge(Node(6), Node(8), 6), Edge(Node(2), Node(3), 7), Edge(Node(7), Node(8), 7), Edge(Node(0), Node(7), 8), Edge(Node(1), Node(2), 8), Edge(Node(3), Node(4), 9)]
    ensures EdgesWithin(9, es) && Grow(9, es) == Forest([4, 4, 4, 4, 4, 4, 4, 4, 4], [Edge(Node(6), Node(7), 1), Edge(Node(2), Node(8), 2), Edge(Node(5), Node(6), 2), Edge(Node(0), Node(1), 4), Edge(Node(2), Node(5), 4), Edge(Node(2), Node(3), 7), Edge(Node(0), Node(7), 8), Edge(Node(3), Node(4), 9)])
  {
    assert es[..10] == [Edge(Node(6), Node(7), 1), Edge(Node(2), Node(8), 2), Edge(Node(5), Node(6), 2), Edge(Node(0), Node(1), 4), Edge(Node(2), Node(5), 4), Edge(Node(6), Node(8), 6), Edge(Node(2), Node(3), 7), Edge(Node(7), Node(8), 7), Edge(Node(0), Node(7), 8), Edge(Node(1), Node(2), 8)];
    GrowPrefix10(es[..10]);
  }

  lemma GrowPrefix12(es: seq<Edge>)
    requires es == [Edge(Node(6), Node(7), 1), Edge(Node(2), Node(8), 2), Edge(Node(5), Node(6), 2), Edge(Node(0), Node(1), 4), Edge(Node(2), Node(5), 4), Edge(Node(6), Node(8), 6), Edge(Node(2), Node(3), 7), Edge(Node(7), Node(8), 7), Edge(Node(0), Node(7), 8), Edge(Node(1), Node(2), 8), Edge(Node(3), Node(4), 9), Edge(Node(4), Node(5), 10)]
    ensures EdgesWithin(9, es) && Grow(9, es) == Forest([4, 4, 4, 4, 4, 4, 4, 4, 4], [Edge(Node(6), Node(7), 1), Edge(Node(2), Node(8), 2), Edge(Node(5), Node(6), 2), Edge(Node(0), Node(1), 4), Edge(Node(2), Node(5), 4), Edge(Node(2), Node(3), 7), Edge(Node(0), Node(7), 8), Edge(Node(3), Node(4), 9)])
  {
    assert es[..11] == [Edge(Node(6), Node(7), 1), Edge(Node(2), Node(8), 2), Edge(Node(5), Node(6), 2), Edge(Node(0), Node(1), 4), Edge(Node(2), Node(5), 4), Edge(Node(6), Node(8), 6), Edge(Node(2), Node(3), 7), Edge(Node(7), Node(8), 7), Edge(Node(0), Node(7), 8), Edge(Node(1), Node(2), 8), Edge(Node(3), Node(4), 9)];
    GrowPrefix11(es[..11]);
  }

  lemma GrowPrefix13(es: seq<Edge>)
    requires es == [Edge(Node(6), Node(7), 1), Edge(Node(2), Node(8), 2), Edge(Node(5), Node(6), 2), Edge(Node(0), Node(1), 4), Edge(Node(2), Node(5), 4), Edge(Node(6), Node(8), 6), Edge(Node(2), Node(3), 7), Edge(Node(7), Node(8), 7), Edge(Node(0), Node(7), 8), Edge(Node(1), Node(2), 8), Edge(Node(3), Node(4), 9), Edge(Node(4), Node(5), 10), Edge(Node(1), Node(7), 11)]
    ensures EdgesWithin(9, es) && Grow(9, es) == Forest([4, 4, 4, 4, 4, 4, 4, 4, 4], [Edge(Node(6), Node(7), 1), Edge(Node(2), Node(8), 2), Edge(Node(5), Node(6), 2), Edge(Node(0), Node(1), 4), Edge(Node(2), Node(5), 4), Edge(Node(2), Node(3), 7), Edge(Node(0), Node(7), 8), Edge(Node(3), Node(4), 9)])
  {
    assert es[..12] == [Edge(Node(6), Node(7), 1), Edge(Node(2), Node(8), 2), Edge(Node(5), Node(6), 2), Edge(Node(0), Node(1), 4), Edge(Node(2), Node(5), 4), Edge(Node(6), Node(8), 6), Edge(Node(2), Node(3), 7), Edge(Node(7), Node(8), 7), Edge(Node(0), Node(7), 8), Edge(Node(1), Node(2), 8), Edge(Node(3), Node(4), 9), Edge(Node(4), Node(5), 10)];
    GrowPrefix12(es[..12]);
  }

  lemma GrowPrefix14(es: seq<Edge>)
    requires es == [Edge(Node(6), Node(7), 1), Edge(Node(2), Node(8), 2), Edge(Node(5), Node(6), 2), Edge(Node(0), Node(1), 4), Edge(Node(2), Node(5), 4), Edge(Node(6), Node(8), 6), Edge(Node(2), Node(3), 7), Edge(Node(7), Node(8), 7), Edge(Node(0), Node(7), 8), Edge(Node(1), Node(2), 8), Edge(Node(3), Node(4), 9), Edge(Node(4), Node(5), 10), Edge(Node(1), Node(7), 11), Edge(Node(3), Node(5), 14)]
    ensures EdgesWithin(9, es) && Grow(9, es) == Forest([4, 4, 4, 4, 4, 4, 4, 4, 4], [Edge(Node(6), Node(7), 1), Edge(Node(2), Node(8), 2), Edge(Node(5), Node(6), 2), Edge(Node(0), Node(1), 4), Edge(Node(2), Node(5), 4), Edge(Node(2), Node(3), 7), Edge(Node(0), Node(7), 8), Edge(Node(3), Node(4), 9)])
  {
    assert es[..13] == [Edge(Node(6), Node(7), 1), Edge(Node(2), Node(8), 2), Edge(Node(5), Node(6), 2), Edge(Node(0), Node(1), 4), Edge(Node(2), Node(5), 4), Edge(Node(6), Node(8), 6), Edge(Node(2), Node(3), 7), Edge(Node(7), Node(8), 7), Edge(Node(0), Node(7), 8), Edge(Node(1), Node(2), 8), Edge(Node(3), Node(4), 9), Edge(Node(4), Node(5), 10), Edge(Node(1), Node(7), 11)];
    GrowPrefix13(es[..13]);
  }

  lemma MstEdgesAre(es: seq<Edge>)
    requires EdgesAre(es, [(0, 1, 4), (0, 7, 8), (1, 7, 11), (1, 2, 8), (2, 8, 2), (2, 5, 4), (2, 3, 7), (3, 4, 9), (3, 5, 14), (4, 5, 10), (5, 6, 2), (6, 7, 1), (6, 8, 6), (7, 8, 7)])
    ensures es == [Edge(Node(0), Node(1), 4), Edge(Node(0), Node(7), 8), Edge(Node(1), Node(7), 11), Edge(Node(1), Node(2), 8), Edge(Node(2), Node(8), 2), Edge(Node(2), Node(5), 4), Edge(Node(2), Node(3), 7), Edge(Node(3), Node(4), 9), Edge(Node(3), Node(5), 14), Edge(Node(4), Node(5), 10), Edge(Node(5), Node(6), 2), Edge(Node(6), Node(7), 1), Edge(Node(6), Node(8), 6), Edge(Node(7), Node(8), 7)]
  {
  }

  lemma MstSorted(es: seq<Edge>)
    requires EdgesAre(es, [(0, 1, 4), (0, 7, 8), (1, 7, 11), (1, 2, 8), (2, 8, 2), (2, 5, 4), (2, 3, 7), (3, 4, 9), (3, 5, 14), (4, 5, 10), (5, 6, 2), (6, 7, 1), (6, 8, 6), (7, 8, 7)])
    ensures EdgesWithin(9, es) && SortByWeight(es) == [Edge(Node(6), Node(7), 1), Edge(Node(2), Node(8), 2), Edge(Node(5), Node(6), 2), Edge(Node(0), Node(1), 4), Edge(Node(2), Node(5), 4), Edge(Node(6), Node(8), 6), Edge(Node(2), Node(3), 7), Edge(Node(7), Node(8), 7), Edge(Node(0), Node(7), 8), Edge(Node(1), Node(2), 8), Edge(Node(3), Node(4), 9), Edge(Node(4), Node(5), 10), Edge(Node(1), Node(7), 11), Edge(Node(3), Node(5), 14)]
  {
    MstEdgesAre(es);
    SortFrom0(es);
  }

  lemma MstScan(s: seq<Edge>)
    requires s == [Edge(Node(6), Node(7), 1), Edge(Node(2), Node(8), 2), Edge(Node(5), Node(6), 2), Edge(Node(0), Node(1), 4), Edge(Node(2), Node(5), 4), Edge(Node(6), Node(8), 6), Edge(Node(2), Node(3), 7), Edge(Node(7), Node(8), 7), Edge(Node(0), Node(7), 8), Edge(Node(1), Node(2), 8), Edge(Node(3), Node(4), 9), Edge(Node(4), Node(5), 10), Edge(Node(1), Node(7), 11), Edge(Node(3), Node(5), 14)]
    ensures EdgesWithin(9, s) && Grow(9, s).chosen == [Edge(Node(6), Node(7), 1), Edge(Node(2), Node(8), 2), Edge(Node(5), Node(6), 2), Edge(Node(0), Node(1), 4), Edge(Node(2), Node(5), 4), Edge(Node(2), Node(3), 7), Edge(Node(0), Node(7), 8), Edge(Node(3), Node(4), 9)]
  {
    GrowPrefix14(s);
  }

  lemma MstCost()
    ensures TotalWeight([Edge(Node(6), Node(7), 1), Edge(Node(2), Node(8), 2), Edge(Node(5), Node(6), 2), Edge(Node(0), Node(1), 4), Edge(Node(2), Node(5), 4), Edge(Node(2), Node(3), 7), Edge(Node(0), Node(7), 8), Edge(Node(3), Node(4), 9)]) == 37
  {
    assert [Edge(Node(6), Node(7), 1)][..0] == [];
    assert TotalWeight([Edge(Node(6), Node(7), 1)]) == 1;
    assert [Edge(Node(6), Node(7), 1), Edge(Node(2), Node(8), 2)][..1] == [Edge(Node(6), Node(7), 1)];
    assert TotalWeight([Edge(Node(6), Node(7), 1), Edge(Node(2), Node(8), 2)]) == 3;
    assert [Edge(Node(6), Node(7), 1), Edge(Node(2), Node(8), 2), Edge(Node(5), Node(6), 2)][..2] == [Edge(Node(6), Node(7), 1), Edge(Node(2), Node(8), 2)];
    assert TotalWeight([Edge(Node(6), Node(7), 1), Edge(Node(2), Node(8), 2), Edge(Node(5), Node(6), 2)]) == 5;
    assert [Edge(Node(6), Node(7), 1), Edge(Node(2), Node(8), 2), Edge(Node(5), Node(6), 2), Edge(Node(0), Node(1), 4)][..3] == [Edge(Node(6), Node(7), 1), Edge(Node(2), Node(8), 2), Edge(Node(5), Node(6), 2)];
    assert TotalWeight([Edge(Node(6), Node(7), 1), Edge(Node(2), Node(8), 2), Edge(Node(5), Node(6), 2), Edge(Node(0), Node(1), 4)]) == 9;
    assert [Edge(Node(6), Node(7), 1), Edge(Node(2), Node(8), 2), Edge(Node(5), Node(6), 2), Edge(Node(0), Node(1), 4), Edge(Node(2), Node(5), 4)][..4] == [Edge(Node(6), Node(7), 1), Edge(Node(2), Node(8), 2), Edge(Node(5), Node(6), 2), Edge(Node(0), Node(1), 4)];
    assert TotalWeight([Edge(Node(6), Node(7), 1), Edge(Node(2), Node(8), 2), Edge(Node(5), Node(6), 2), Edge(Node(0), Node(1), 4), Edge(Node(2), Node(5), 4)]) == 13;
    assert [Edge(Node(6), Node(7), 1), Edge(Node(2), Node(8), 2), Edge(Node(5), Node(6), 2), Edge(Node(0), Node(1), 4), Edge(Node(2), Node(5), 4), Edge(Node(2), Node(3), 7)][..5] == [Edge(Node(6), Node(7), 1), Edge(Node(2), Node(8), 2), Edge(Node(5), Node(6), 2), Edge(Node(0), Node(1), 4), Edge(Node(2), Node(5), 4)];
    assert TotalWeight([Edge(Node(6), Node(7), 1), Edge(Node(2), Node(8), 2), Edge(Node(5), Node(6), 2), Edge(Node(0), Node(1), 4), Edge(Node(2), Node(5), 4), Edge(Node(2), Node(3), 7)]) == 20;
    assert [Edge(Node(6), Node(7), 1), Edge(Node(2), Node(8), 2), Edge(Node(5), Node(6), 2), Edge(Node(0), Node(1), 4), Edge(Node(2), Node(5), 4), Edge(Node(2), Node(3), 7), Edge(Node(0), Node(7), 8)][..6] == [Edge(Node(6), Node(7), 1), Edge(Node(2), Node(8), 2), Edge(Node(5), Node(6), 2), Edge(Node(0), Node(1), 4), Edge(Node(2), Node(5), 4), Edge(Node(2), Node(3), 7)];
    assert TotalWeight([Edge(Node(6), Node(7), 1), Edge(Node(2), Node(8), 2), Edge(Node(5), Node(6), 2), Edge(Node(0), Node(1), 4), Edge(Node(2), Node(5), 4), Edge(Node(2), Node(3), 7), Edge(Node(0), Node(7), 8)]) == 28;
    assert [Edge(Node(6), Node(7), 1), Edge(Node(2), Node(8), 2), Edge(Node(5), Node(6), 2), Edge(Node(0), Node(1), 4), Edge(Node(2), Node(5), 4), Edge(Node(2), Node(3), 7), Edge(Node(0), Node(7), 8), Edge(Node(3), Node(4), 9)][..7] == [Edge(Node(6), Node(7), 1), Edge(Node(2), Node(8), 2), Edge(Node(5), Node(6), 2), Edge(Node(0), Node(1), 4), Edge(Node(2), Node(5), 4), Edge(Node(2), Node(3), 7), Edge(Node(0), Node(7), 8)];
    assert TotalWeight([Edge(Node(6), Node(7), 1), Edge(Node(2), Node(8), 2), Edge(Node(5), Node(6), 2), Edge(Node(0), Node(1), 4), Edge(Node(2), Node(5), 4), Edge(Node(2), Node(3), 7), Edge(Node(0), Node(7), 8), Edge(Node(3), Node(4), 9)]) == 37;
  }

  function NodesBelow(n: nat): set<Node> {
    set i | 0 <= i < n :: Node(i)
  }

  /** There are exactly n nodes with index below n. */
  lemma {:induction false} NodesBelowCount(n: nat)
    ensures |NodesBelow(n)| == n
  {
    if n > 0 {
      NodesBelowCount(n - 1);
      assert NodesBelow(n) == NodesBelow(n - 1) + {Node(n - 1)};
    }
  }

  /** A set holding every node below n, and no other, has n elements. */
  lemma CoveredCount(covered: set<Node>, n: nat)
    requires forall i :: 0 <= i < n ==> Node(i) in covered
    requires forall x :: x in covered ==> x.index < n
    ensures |covered| == n
  {
    forall x | x in covered
      ensures x in NodesBelow(n)
    {
      assert x == Node(x.index);
    }
    assert covered == NodesBelow(n);
    NodesBelowCount(n);
  }

  lemma MstTouchesAll(mst: seq<Edge>, covered: set<Node>)
    requires mst == [Edge(Node(6), Node(7), 1), Edge(Node(2), Node(8), 2), Edge(Node(5), Node(6), 2), Edge(Node(0), Node(1), 4), Edge(Node(2), Node(5), 4), Edge(Node(2), Node(3), 7), Edge(Node(0), Node(7), 8), Edge(Node(3), Node(4), 9)]
    requires TouchedBy(covered, mst)
    ensures forall i :: 0 <= i < 9 ==> Node(i) in covered
  {
    assert Node(0) in covered by { assert mst[3].start == Node(0); }
    assert Node(1) in covered by { assert mst[3].end == Node(1); }
    assert Node(2) in covered by { assert mst[1].start == Node(2); }
    assert Node(3) in covered by { assert mst[5].end == Node(3); }
    assert Node(4) in covered by { assert mst[7].end == Node(4); }
    assert Node(5) in covered by { assert mst[2].start == Node(5); }
    assert Node(6) in covered by { assert mst[0].start == Node(6); }
    assert Node(7) in covered by { assert mst[0].end == Node(7); }
    assert Node(8) in covered by { assert mst[1].end == Node(8); }
  }

  lemma MstTouchesOnly(mst: seq<Edge>, covered: set<Node>)
    requires mst == [Edge(Node(6), Node(7), 1), Edge(Node(2), Node(8), 2), Edge(Node(5), Node(6), 2), Edge(Node(0), Node(1), 4), Edge(Node(2), Node(5), 4), Edge(Node(2), Node(3), 7), Edge(Node(0), Node(7), 8), Edge(Node(3), Node(4), 9)]
    requires TouchedBy(covered, mst)
    ensures forall x :: x in covered ==> x.index < 9
  {
    forall x | x in covered
      ensures x.index < 9
    {
      var k :| 0 <= k < |mst| && (mst[k].start == x || mst[k].end == x);
    }
  }

  /** The tally of the tree found: every node touched, and the weights summing to 37. */
  lemma MstTally(mst: seq<Edge>, covered: set<Node>)
    requires mst == [Edge(Node(6), Node(7), 1), Edge(Node(2), Node(8), 2), Edge(Node(5), Node(6), 2), Edge(Node(0), Node(1), 4), Edge(Node(2), Node(5), 4), Edge(Node(2), Node(3), 7), Edge(Node(0), Node(7), 8), Edge(Node(3), Node(4), 9)]
    requires TouchedBy(covered, mst)
    ensures |covered| == 9 && TotalWeight(mst) == 37
  {
    MstTouchesAll(mst, covered);
    MstTouchesOnly(mst, covered);
    CoveredCount(covered, 9);
    MstCost();
  }

  /** What the built graph's fields come to, and which edges Kruskal's scan takes. */
  lemma MstBuilt(nodes: seq<Node>, edges: seq<Edge>)
    requires |nodes| == 9 && EdgesAre(edges, [(0, 1, 4), (0, 7, 8), (1, 7, 11), (1, 2, 8), (2, 8, 2), (2, 5, 4), (2, 3, 7), (3, 4, 9), (3, 5, 14), (4, 5, 10), (5, 6, 2), (6, 7, 1), (6, 8, 6), (7, 8, 7)])
    ensures EdgesWithin(|nodes|, edges) && SpanningForest(|nodes|, edges) == [Edge(Node(6), Node(7), 1), Edge(Node(2), Node(8), 2), Edge(Node(5), Node(6), 2), Edge(Node(0), Node(1), 4), Edge(Node(2), Node(5), 4), Edge(Node(2), Node(3), 7), Edge(Node(0), Node(7), 8), Edge(Node(3), Node(4), 9)]
  {
    MstSorted(edges);
    MstScan(SortByWeight(edges));
  }

  /**
   * The test of the spanning tree: the tree found for the book's graph touches all
   * nine nodes and weighs 37.
   */
  method MinimumSpanningTreeScenario() returns (mst: seq<Edge>, covered: set<Node>, cost: int)
    ensures mst == [Edge(Node(6), Node(7), 1), Edge(Node(2), Node(8), 2), Edge(Node(5), Node(6), 2), Edge(Node(0), Node(1), 4), Edge(Node(2), Node(5), 4), Edge(Node(2), Node(3), 7), Edge(Node(0), Node(7), 8), Edge(Node(3), Node(4), 9)]
    ensures |covered| == 9 && cost == 37
  {
    var graph, nodes := BuildGraph(Undirected, 9, [(0, 1, 4), (0, 7, 8), (1, 7, 11), (1, 2, 8), (2, 8, 2), (2, 5, 4), (2, 3, 7), (3, 4, 9), (3, 5, 14), (4, 5, 10), (5, 6, 2), (6, 7, 1), (6, 8, 6), (7, 8, 7)]);
    mst := graph.MinimumSpanningTree();
    MstBuilt(graph.nodes, graph.edges);
    covered, cost := SpanSummary(mst);
    MstTally(mst, covered);
  }
}
