# Graph library core: topological sort, strongly connected components, minimum spanning tree

This project models the core of the `graph` package of algoimpl (Go): a graph
object in `Directed` or `Undirected` mode that hands out nodes with dense
indices and records edges in insertion order, plus its three algorithms. It
proves properties of each algorithm for all graphs. It also proves the three
scenarios of the package's test file (`go/graph/functions_test.go`) for the
graphs built there.

- `graph_types.dfy` (module `GraphTypes`) holds the values: `Mode`, `Node` (a
  handle modelled by its index alone), `Edge` (start, end, weight), and the adjacency lists that an edge list
  determines (`AdjacencyOf`). In undirected mode an edge is listed under both of
  its ends.
- `graph.dfy` (module `Graphs`) holds the class `Graph`. Its fields `nodes`,
  `edges` and `adjacency` are sequences that only grow. `MakeNode`, `MakeEdge`
  and `MakeEdgeWeight` append to them. `TopologicalSort`,
  `StronglyConnectedComponents` and `MinimumSpanningTree` read the graph and
  change nothing.
- `depth_first.dfy` (module `DepthFirst`) holds the depth-first search of CLRS
  3rd ed., section 22.4. The functions `Visit`, `VisitEach`, `FinishOrder` and
  `TopoOrder` specify it. The methods `DfsVisit`, `FinishOrderOf` and
  `TopologicalOrder` run it over a visited array and are proved equal to those
  functions. Roots are taken in ascending index order and successors in
  adjacency-list order; the result is the finish list reversed.
- `components.dfy` (module `Components`) holds pass 2 of Kosaraju's algorithm
  (CLRS section 22.5). One search tree is grown on the transposed graph from each
  root still undiscovered in topological order. Each tree lists its nodes in
  finishing order.
- `union_find.dfy` (module `UnionFind`) holds the disjoint-set forest of CLRS
  section 21.3. It is a class over `parent` and `rank` arrays, with union by rank
  and path compression. Its abstract value is the partition that `Find` gives.
- `kruskal.dfy` (module `Kruskal`) holds Kruskal's algorithm (CLRS section 23.2).
  `SortByWeight` is a stable insertion sort. `Grow` is the scan, with one tree
  name per node. The method `MinimumSpanningEdges` runs the scan over
  `DisjointSets`, stops once n-1 edges are taken, and is proved equal to
  `SpanningForest`.
- `test_graphs.dfy`, `topological_scenario.dfy`, `components_scenario.dfy` and
  `spanning_scenario.dfy` hold the three test scenarios. The test code
  (building the graph, calling the algorithm, its checking loops and
  `componentContains`) is written as methods. The outcome of each is proved by
  evaluating the specification functions one DFS call, one sort insertion or one
  scanned edge at a time.

## Model

| member | source | states |
|---|---|---|
| Graphs.Graph.constructor | go/graph/functions_test.go:8 | A new graph has the given mode, no nodes and no edges, and satisfies the class invariant. |
| Graphs.Graph.MakeNode | go/graph/functions_test.go:11-19 | The new node's index is the number of nodes before it. It is appended to the nodes, gets an empty adjacency list, and the edges are unchanged. |
| Graphs.Graph.MakeEdgeWeight | go/graph/functions_test.go:113-126 | Succeeds exactly when both ends are nodes of the graph. On success the edge is appended and the adjacency lists gain its entries. On failure nothing changes. Nodes never change. |
| Graphs.Graph.MakeEdge | go/graph/functions_test.go:20-28 | The same as MakeEdgeWeight with weight 1. |
| Graphs.Graph.Transpose | go/graph/functions_test.go:150 | A fresh graph over the same nodes (same indices) whose edges are the reversed edges in the same order; its adjacency is the transposed adjacency. |
| Graphs.Graph.TopologicalSort | go/graph/functions_test.go:40 | The result is the reversed DFS finish order as node handles. It lists every node of the graph exactly once. When the graph has no cycle, every edge goes forward in it. |
| Graphs.Graph.StronglyConnectedComponents | go/graph/functions_test.go:88 | The components are the pass-2 search trees of Kosaraju's method, as node handles. They partition the nodes: none is empty and every node lies in exactly one. |
| Graphs.Graph.MinimumSpanningTree | go/graph/functions_test.go:127 | The result is Kruskal's choice from the stably sorted edges. It is made of graph edges, closes no cycle, connects the two ends of every graph edge, and has fewer edges than there are nodes. |
| GraphTypes.AdjacencyIsIncident | go/graph/functions_test.go:20-28 | Each adjacency list equals the reference list: the other ends of the edges that leave (or, undirected, touch) that node, in insertion order. |
| GraphTypes.AdjacencyMatchesEdges | go/graph/functions_test.go:29 | v is in u's adjacency list exactly when some edge can be followed from u to v. This is the consistency between adjacency and edges that `verify` checks. |
| GraphTypes.AdjacencyOfNewNode | go/graph/functions_test.go:11-19 | Adding a node after the edges leaves every list unchanged and gives the new node an empty list. |
| GraphTypes.TransposedReversesEdges | go/graph/functions_test.go:150 | In the transposed directed graph, v follows u exactly when u follows v in the original. |
| DepthFirst.VisitGrows | go/graph/functions_test.go:40 | DFS-VISIT only adds discoveries and appends to the finish list exactly the nodes it newly discovers, each once. |
| DepthFirst.FinishOrderIsPermutation | go/graph/functions_test.go:40 | The finish order lists each node 0 .. n-1 exactly once. |
| DepthFirst.TopoOrderIsPermutation | go/graph/functions_test.go:30-45 | The topological order lists each node 0 .. n-1 exactly once. |
| DepthFirst.FinishOrderClosed | go/graph/functions_test.go:20-39 | On an acyclic graph, every successor of a node finishes before that node does. |
| DepthFirst.TopoOrderRespectsEdges | go/graph/functions_test.go:20-39 | On an acyclic graph, for every edge u→v, u comes before v in the topological order. |
| DepthFirst.RankedIsAcyclic | go/graph/functions_test.go:20-28 | A graph whose nodes can be ranked so that every edge goes to a lower rank has no cycle. |
| DepthFirst.DfsVisit | go/graph/functions_test.go:40 | The recursive visit over a visited array leaves the array and finish list that the Visit specification gives. |
| DepthFirst.FinishOrderOf | go/graph/functions_test.go:40 | The loop over the roots in ascending order computes FinishOrder. |
| DepthFirst.TopologicalOrder | go/graph/functions_test.go:40 | Returns TopoOrder, a permutation of the nodes. On an acyclic graph it respects every edge. |
| Components.TreesPartition | go/graph/functions_test.go:88-95 | Any root order that lists every node makes pass 2 split the nodes into non-empty, disjoint trees that cover all of them. |
| Components.KosarajuPartition | go/graph/functions_test.go:88-95 | The components of Kosaraju's method partition the nodes. |
| Components.CollectTrees | go/graph/functions_test.go:88 | Pass 2 over a visited array yields exactly the Trees specification. |
| UnionFind.CompressKeepsRoots | go/graph/functions_test.go:127 | Pointing a node at its root keeps the rank ordering and every element's root. |
| UnionFind.LinkMovesRoots | go/graph/functions_test.go:127 | Hanging one root under another moves exactly the first root's set to the second and keeps the rank ordering. |
| UnionFind.DisjointSets.constructor | go/graph/functions_test.go:127 | Every element starts alone in its own set. |
| UnionFind.DisjointSets.FindSet | go/graph/functions_test.go:127 | Returns the representative of x and leaves x pointing directly at it (path compression); no element moves to another set. |
| UnionFind.DisjointSets.Link | go/graph/functions_test.go:127 | The root of lower rank goes under the other; on a tie the second root wins. Only the two linked sets change, becoming one. |
| UnionFind.DisjointSets.Union | go/graph/functions_test.go:127 | Afterwards x and y share a representative, which is one of their old ones. The two sets merge and every other set is unchanged. |
| Kruskal.InsertByWeightAdds | go/graph/functions_test.go:127 | Inserting an edge adds exactly that edge to the multiset. |
| Kruskal.InsertByWeightBetween | go/graph/functions_test.go:127 | The inserted edge lands after the strictly lighter prefix and before the first edge at least as heavy. |
| Kruskal.SortByWeightPermutes | go/graph/functions_test.go:127 | Sorting keeps every edge, as often as it occurs. |
| Kruskal.SortByWeightSorted | go/graph/functions_test.go:127 | The sorted edges are in non-decreasing order of weight. |
| Kruskal.SortByWeightStable | go/graph/functions_test.go:127 | The edges of any one weight keep their insertion order. |
| Kruskal.GrowIsForest | go/graph/functions_test.go:127 | The edges the scan takes never close a cycle. |
| Kruskal.GrowChoosesInput | go/graph/functions_test.go:127 | The scan takes only scanned edges, each at most as often as it occurs. |
| Kruskal.GrowCountsTrees | go/graph/functions_test.go:127 | The number of trees plus the number of taken edges is always n. |
| Kruskal.SettledScanStays | go/graph/functions_test.go:127 | Once n-1 edges are taken, the rest of the scan changes nothing. |
| Kruskal.ScanStopped | go/graph/functions_test.go:127 | Stopping at the end of the edges, or as soon as n-1 edges are taken, gives the full scan's result. |
| Kruskal.SpanningForestSpans | go/graph/functions_test.go:127-141 | The spanning forest is made of input edges, has no cycle, connects the ends of every input edge, and has at most n-1 edges. |
| Kruskal.SpanningForestCovers | go/graph/functions_test.go:128-141 | When every node has an edge to another node, every node is an end of some chosen edge. |
| Kruskal.ScanEdge | go/graph/functions_test.go:127 | One scan step over the disjoint sets. It takes the edge exactly when its ends have different tree names, and it keeps the sets' partition equal to the scan's. |
| Kruskal.MinimumSpanningEdges | go/graph/functions_test.go:127 | Sorting, then the loop with union-find that stops at n-1 edges, returns SpanningForest. |
| TestGraphs.AddNodes | go/graph/functions_test.go:11-19 | n MakeNode calls on an empty graph give nodes of indices 0 .. n-1 and no edges. |
| TestGraphs.AddEdges | go/graph/functions_test.go:20-28 | One MakeEdgeWeight call per triple leaves exactly the listed edges, in order. |
| TestGraphs.BuildGraph | go/graph/functions_test.go:8-28 | A fresh valid graph of the given mode with nodes 0 .. n-1 and exactly the listed edges. |
| TopologicalScenario.ClothingFinishOrder | go/graph/functions_test.go:30-40 | For the dressing graph, the DFS finish order is [2,1,3,0,4,7,6,5,8]. |
| TopologicalScenario.ClothingTopoOrder | go/graph/functions_test.go:30-39 | For the dressing graph, the topological order is [8,5,6,7,4,0,3,1,2]. |
| TopologicalScenario.ClothingAcyclic | go/graph/functions_test.go:20-28 | The dressing graph has no cycle. |
| TopologicalScenario.ClothingBuilt | go/graph/functions_test.go:8-40 | The built graph's nodes and edges are the test's. Its order is socks, undershorts, pants, shoes, watch, shirt, belt, tie, jacket, and it is acyclic. |
| TopologicalScenario.TopologicalSortScenario | go/graph/functions_test.go:7-46 | The nodes get indices 0 .. 8 in creation order. TopologicalSort returns exactly the wanted order, and every edge of the test goes forward in it. |
| ComponentsScenario.SccFinishOrder | go/graph/functions_test.go:60-73 | Pass 1 on the test graph finishes in the order [2,3,1,4,0,7,6,5]. |
| ComponentsScenario.SccKosaraju | go/graph/functions_test.go:60-88 | The components of the test graph are [6,7,5], [4,0], [2,1] and [3]. The self-looped node 3 is alone. |
| ComponentsScenario.SccBuilt | go/graph/functions_test.go:49-88 | The built graph's nodes and edges are the test's, and its components are those above. |
| ComponentsScenario.ComponentContains | go/graph/functions_test.go:148-155 | True exactly when some element of the component has the index of the node. |
| ComponentsScenario.CheckComponents | go/graph/functions_test.go:89-95 | The test's nested check succeeds exactly when every wanted node j, i is contained in component j. |
| ComponentsScenario.WantedContained | go/graph/functions_test.go:75-95 | Every node the test wants in a component lies in the component at that position. |
| ComponentsScenario.StronglyConnectedComponentsScenario | go/graph/functions_test.go:48-96 | The nodes get indices 0 .. 7. The components come out as {e,a,b}, {d,c}, {f,g}, {h}, in that order, and the test's check finds every wanted node. |
| SpanningScenario.SpanSummary | go/graph/functions_test.go:128-138 | The loop's set holds exactly the nodes at an end of some tree edge, and its cost is the sum of the tree's weights. |
| SpanningScenario.MstSorted | go/graph/functions_test.go:113-127 | Kruskal's stable sort of the test's fourteen edges gives the listed order. |
| SpanningScenario.MstScan | go/graph/functions_test.go:127 | The scan over the sorted edges takes the eight listed edges. |
| SpanningScenario.MstCost | go/graph/functions_test.go:142-144 | The eight edges weigh 37 in total. |
| SpanningScenario.NodesBelowCount | go/graph/functions_test.go:139 | There are exactly n nodes with an index below n. |
| SpanningScenario.CoveredCount | go/graph/functions_test.go:139-141 | A set that holds every node below n and no other has n elements. |
| SpanningScenario.MstTouchesAll | go/graph/functions_test.go:128-136 | Every one of the nine nodes is an end of some tree edge. |
| SpanningScenario.MstTouchesOnly | go/graph/functions_test.go:128-136 | Only nodes 0 .. 8 are ends of tree edges. |
| SpanningScenario.MstTally | go/graph/functions_test.go:139-144 | The set of touched nodes has 9 elements and the tree weighs 37. |
| SpanningScenario.MstBuilt | go/graph/functions_test.go:113-127 | For the built graph, the spanning forest is the listed eight edges. |
| SpanningScenario.MinimumSpanningTreeScenario | go/graph/functions_test.go:98-146 | The test's tree is the listed eight edges. The tally covers 9 nodes, as many as the graph has, and the cost is 37. |

## Left out

- The implementation files of the package are not part of this model. The
  operations follow the behaviour that the tests fix and the algorithms of CLRS
  3rd ed. that they cite (sections 21.3, 22.4, 22.5 and 23.2).
- `Node.Value` and the payload write in the loop of
  `go/graph/functions_test.go:110-112` are not modelled. The payload plays no part
  in the algorithms, and the loop walks a Go map in unspecified order.
- `graph.verify(t)` (lines 29 and 74) is not modelled as a call. The consistency
  it checks is the class invariant `Graph.Valid` together with
  `GraphTypes.AdjacencyMatchesEdges`.
- The `testing.T` reporting is not modelled. The check loops are modelled by
  their outcome: the topological test's comparison loop by the exact result, and
  the components check by `CheckComponents`. The quirk that a short result is accepted by
  the comparison at lines 41-45 is not modelled.
- Graphs.Graph.TopologicalSort: on a graph with a cycle, only termination and the
  permutation property are stated. Cycle detection is not modelled. The algorithms
  are not restricted to one mode: calling one in the wrong mode is not modelled as
  an error.
- Graphs.Graph.StronglyConnectedComponents: states the partition and the exact
  trees, but not that two nodes share a component exactly when each reaches the
  other.
- Graphs.Graph.MinimumSpanningTree: states that the result is a spanning forest of
  input edges, but not that its weight is minimal over all spanning forests. For the
  test's graph the weight 37 is proved by evaluation.
- Kruskal.SortByWeight: the edges are sorted by a stable insertion sort. The sort
  routine the package calls is not part of this model. Only the order it produces
  matters, and for equal weights that is insertion order.
- Graphs.Graph.MakeEdgeWeight: an endpoint that is not a node of the graph gives a
  failure result and leaves the graph unchanged. How the package itself treats
  such a call is not stated by any of the source lines modelled here.
- A node handle is modelled as its index alone (`GraphTypes.Node`). The graph a
  handle belongs to is not recorded, so handles of two graphs with the same index
  are equal, as are the nodes of a graph and of its transpose
  (`go/graph/functions_test.go:150`).
- Graphs.Graph.StronglyConnectedComponents: returns the original graph's handles
  where the package returns the transposed graph's handles with the same indices.
  The scenario's equality with `nodes[6], nodes[7], nodes[5], …` is therefore an
  equality of indices, which is what `componentContains` compares.
- Graphs.Graph.MakeEdgeWeight: a handle taken from another graph whose index is in
  range is not detected; it is accepted as this graph's node of that index.
- In an undirected graph a self-loop appears once in its node's adjacency list.
  None of the tests adds one.
- Within a component, the nodes are listed in the finishing order of the pass-2
  search. The test checks membership only.
- The graphs of the scenarios are built by loops over the test's calls (one
  MakeNode per node, one MakeEdgeWeight per edge) rather than by straight-line
  calls. The test's string-keyed map of nodes is replaced by the node indices 0 .. 8.
- Integers are unbounded. Edge weights and the cost sum do not model Go's `int`
  overflow, which the test's small weights cannot reach.
