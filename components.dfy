/**
 * The second pass of the strongly connected components algorithm (CLRS 3rd ed.,
 * section 22.5): depth-first searches on the transposed graph, one per root still
 * undiscovered when its turn comes, each search's tree being one component.
 */
module Components {
  import opened DepthFirst
  import opened GraphTypes

  function Flatten(cs: seq<seq<nat>>): seq<nat> {
    if cs == [] then [] else cs[0] + Flatten(cs[1..])
  }

  /**
   * The search trees grown from roots[i..] in order, starting from the discovered
   * set visited; each tree lists its nodes in finishing order.
   */
  function Trees(g: Adjacency, roots: seq<nat>, i: nat, visited: seq<bool>): seq<seq<nat>>
    requires WellFormed(g) && |visited| == |g| && i <= |roots|
    requires forall j :: 0 <= j < |roots| ==> roots[j] < |g|
    decreases |roots| - i
  {
    if i == |roots| then []
    else if visited[roots[i]] then Trees(g, roots, i + 1, visited)
    else
      var r := Visit(g, roots[i], Search(visited, []));
      [r.finished] + Trees(g, roots, i + 1, r.visited)
  }

  /**
   * STRONGLY-CONNECTED-COMPONENTS: pass 1 orders the nodes of g by decreasing
   * finishing time (the topological order); pass 2 searches the transpose gt
   * in that order.
   */
  function Kosaraju(g: Adjacency, gt: Adjacency): seq<seq<nat>>
    requires WellFormed(g) && WellFormed(gt) && |gt| == |g|
  {
    TopoOrderIsPermutation(g);
    Trees(gt, TopoOrder(g), 0, Undiscovered(|g|))
  }

  /** cs splits the nodes 0 .. n-1: no part is empty and every node lies in exactly one part, once. */
  ghost predicate Partition(cs: seq<seq<nat>>, n: nat) {
    (forall k :: 0 <= k < |cs| ==> cs[k] != []) && IsPermutation(Flatten(cs), n)
  }

  lemma DistinctConcat(a: seq<nat>, b: seq<nat>)
    requires Distinct(a) && Distinct(b) && forall v :: v in a ==> v !in b
    ensures Distinct(a + b)
  {
    forall i, j | 0 <= i < j < |a + b|
      ensures (a + b)[i] != (a + b)[j]
    {
      if i < |a| && j >= |a| {
        assert (a + b)[i] in a && (a + b)[j] in b;
      }
    }
  }

  /**
   * When every undiscovered node is among the remaining roots, the trees hold each
   * undiscovered node exactly once, and nothing else.
   */
  lemma {:induction false} TreesCoverUndiscovered(g: Adjacency, roots: seq<nat>, i: nat, visited: seq<bool>)
    requires WellFormed(g) && |visited| == |g| && i <= |roots|
    requires forall j :: 0 <= j < |roots| ==> roots[j] < |g|
    requires forall v: nat :: v < |g| && !visited[v] ==> v in roots[i..]
    ensures forall k :: 0 <= k < |Trees(g, roots, i, visited)| ==> Trees(g, roots, i, visited)[k] != []
    ensures Distinct(Flatten(Trees(g, roots, i, visited)))
    ensures forall v: nat :: v in Flatten(Trees(g, roots, i, visited)) <==> v < |g| && !visited[v]
    decreases |roots| - i
  {
    if i == |roots| {
      assert forall v: nat :: v < |g| ==> visited[v];
    } else if visited[roots[i]] {
      forall v: nat | v < |g| && !visited[v]
        ensures v in roots[i + 1..]
      {
        assert v in roots[i..] && v != roots[i];
        var j :| i <= j < |roots| && roots[j] == v;
        assert roots[i + 1..][j - i - 1] == v;
      }
      TreesCoverUndiscovered(g, roots, i + 1, visited);
    } else {
      var s := Search(visited, []);
      var r := Visit(g, roots[i], s);
      VisitGrows(g, roots[i], s);
      assert r.finished[|s.finished|..] == r.finished;
      forall v: nat | v < |g| && !r.visited[v]
        ensures v in roots[i + 1..]
      {
        assert v in roots[i..] && v != roots[i];
        var j :| i <= j < |roots| && roots[j] == v;
        assert roots[i + 1..][j - i - 1] == v;
      }
      TreesCoverUndiscovered(g, roots, i + 1, r.visited);
      var rest := Trees(g, roots, i + 1, r.visited);
      var cs := [r.finished] + rest;
      assert cs[1..] == rest;
      assert Flatten(cs) == r.finished + Flatten(rest);
      DistinctConcat(r.finished, Flatten(rest));
    }
  }

  /** Searching from every node in turn, with nothing discovered yet, reaches each node exactly once. */
  lemma TreesCoverAll(g: Adjacency, roots: seq<nat>)
    requires WellFormed(g) && forall j :: 0 <= j < |roots| ==> roots[j] < |g|
    requires forall v: nat :: v < |g| ==> v in roots
    ensures forall k :: 0 <= k < |Trees(g, roots, 0, Undiscovered(|g|))| ==> Trees(g, roots, 0, Undiscovered(|g|))[k] != []
    ensures Distinct(Flatten(Trees(g, roots, 0, Undiscovered(|g|))))
    ensures forall v: nat :: v in Flatten(Trees(g, roots, 0, Undiscovered(|g|))) <==> v < |g|
  {
    var none := Undiscovered(|g|);
    forall v: nat | v < |g| && !none[v]
      ensures v in roots[0..]
    {
      assert roots[0..] == roots;
    }
    TreesCoverUndiscovered(g, roots, 0, none);
  }

  /** Non-empty parts that hold every node below n exactly once make a partition. */
  lemma PartitionByCover(cs: seq<seq<nat>>, n: nat)
    requires forall k :: 0 <= k < |cs| ==> cs[k] != []
    requires Distinct(Flatten(cs)) && forall v: nat :: v in Flatten(cs) <==> v < n
    ensures Partition(cs, n)
  {
    PermutationLength(Flatten(cs), n);
  }

  /** Whatever order pass 1 produces, as long as it lists every node, pass 2 partitions the nodes. */
  lemma TreesPartition(g: Adjacency, roots: seq<nat>)
    requires WellFormed(g) && forall v: nat :: v in roots <==> v < |g|
    ensures forall j :: 0 <= j < |roots| ==> roots[j] < |g|
    ensures Partition(Trees(g, roots, 0, Undiscovered(|g|)), |g|)
  {
    PermutationBounds(roots, |g|);
    TreesCoverAll(g, roots);
    PartitionByCover(Trees(g, roots, 0, Undiscovered(|g|)), |g|);
  }

  /** The components are a partition of the nodes. */
  lemma KosarajuPartition(g: Adjacency, gt: Adjacency)
    requires WellFormed(g) && WellFormed(gt) && |gt| == |g|
    ensures Partition(Kosaraju(g, gt), |g|)
  {
    TopoOrderIsPermutation(g);
    TreesPartition(gt, TopoOrder(g));
  }

  /** Pass 2 over a visited array: one DFS-VISIT per undiscovered root, each collecting a fresh finish list. */
  method CollectTrees(g: Adjacency, roots: seq<nat>) returns (trees: seq<seq<nat>>)
    requires WellFormed(g) && forall j :: 0 <= j < |roots| ==> roots[j] < |g|
    ensures trees == Trees(g, roots, 0, Undiscovered(|g|))
  {
    var visited := new bool[|g|](_ => false);
    assert visited[..] == Undiscovered(|g|);
    trees := [];
    for i := 0 to |roots|
      invariant visited.Length == |g|
      invariant trees + Trees(g, roots, i, visited[..]) == Trees(g, roots, 0, Undiscovered(|g|))
    {
      var u := roots[i];
      if !visited[u] {
        ghost var before := visited[..];
        var tree := DfsVisit(g, u, visited, []);
        assert [tree] + Trees(g, roots, i + 1, visited[..]) == Trees(g, roots, i, before);
        trees := trees + [tree];
      }
    }
  }
}
