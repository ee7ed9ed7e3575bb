/**
 * Depth-first search over adjacency lists: the DFS of CLRS 3rd ed., section 22.3,
 * as topological sort (section 22.4) and both passes of the strongly connected
 * components algorithm (section 22.5) use it.
 *
 * The search is specified by the functions Visit and VisitEach; the recursive
 * method DfsVisit and the sweep FinishOrderOf implement it over a visited array
 * and are proved equal to them.
 */
module DepthFirst {
  import opened GraphTypes

  /** The state of a search: the nodes discovered so far, and the nodes finished so far in finishing order. */
  datatype Search = Search(visited: seq<bool>, finished: seq<nat>)

  // ---------------------------------------------------------------------------
  // Termination measure
  // ---------------------------------------------------------------------------

  ghost function Unvisited(visited: seq<bool>): set<nat> {
    set v: nat | v < |visited| && !visited[v]
  }

  /** b marks at least the nodes a marks. */
  ghost predicate Monotone(a: seq<bool>, b: seq<bool>) {
    |a| == |b| && forall v :: 0 <= v < |a| && a[v] ==> b[v]
  }

  lemma UnvisitedShrinks(a: seq<bool>, b: seq<bool>, u: nat)
    requires Monotone(a, b) && u < |a| && !a[u] && b[u]
    ensures Unvisited(b) < Unvisited(a)
  {
    assert u in Unvisited(a) - Unvisited(b);
  }

  // ---------------------------------------------------------------------------
  // The search, as functions
  // ---------------------------------------------------------------------------

  /** DFS-VISIT(u): discover u, visit its undiscovered successors in list order, then finish u. */
  function Visit(g: Adjacency, u: nat, s: Search): (r: Search)
    requires WellFormed(g) && |s.visited| == |g| && u < |g| && !s.visited[u]
    ensures Monotone(s.visited, r.visited) && r.visited[u]
    decreases Unvisited(s.visited), 0, 0
  {
    UnvisitedShrinks(s.visited, s.visited[u := true], u);
    var r := VisitEach(g, g[u], 0, Search(s.visited[u := true], s.finished));
    Search(r.visited, r.finished + [u])
  }

  /** Visits, in order, every node of succ[i..] that is still undiscovered when its turn comes. */
  function VisitEach(g: Adjacency, succ: seq<nat>, i: nat, s: Search): (r: Search)
    requires WellFormed(g) && |s.visited| == |g| && i <= |succ|
    requires forall j :: 0 <= j < |succ| ==> succ[j] < |g|
    ensures Monotone(s.visited, r.visited)
    ensures forall j :: i <= j < |succ| ==> r.visited[succ[j]]
    decreases Unvisited(s.visited), 1, |succ| - i
  {
    if i == |succ| then s
    else
      var s' := if s.visited[succ[i]] then s else Visit(g, succ[i], s);
      VisitEach(g, succ, i + 1, s')
  }

  /** The nodes 0 .. n-1 in ascending order. */
  function Indices(n: nat): (r: seq<nat>)
    ensures |r| == n && forall j :: 0 <= j < n ==> r[j] == j
  {
    if n == 0 then [] else Indices(n - 1) + [n - 1]
  }

  /** No node discovered. */
  function Undiscovered(n: nat): (r: seq<bool>)
    ensures |r| == n && forall j :: 0 <= j < n ==> !r[j]
  {
    if n == 0 then [] else Undiscovered(n - 1) + [false]
  }

  /** The finishing order of a DFS that takes its roots in ascending index order. */
  function FinishOrder(g: Adjacency): seq<nat>
    requires WellFormed(g)
  {
    VisitEach(g, Indices(|g|), 0, Search(Undiscovered(|g|), [])).finished
  }

  function Reverse(s: seq<nat>): (r: seq<nat>)
    ensures |r| == |s| && forall k :: 0 <= k < |s| ==> r[k] == s[|s| - 1 - k]
  {
    if s == [] then [] else Reverse(s[1..]) + [s[0]]
  }

  /** TOPOLOGICAL-SORT: the finishing order reversed. */
  function TopoOrder(g: Adjacency): seq<nat>
    requires WellFormed(g)
  {
    Reverse(FinishOrder(g))
  }

  // ---------------------------------------------------------------------------
  // Every node discovered during a call is finished in it, exactly once
  // ---------------------------------------------------------------------------

  ghost predicate Distinct(s: seq<nat>) {
    forall i, j :: 0 <= i < j < |s| ==> s[i] != s[j]
  }

  /**
   * r continues the search s: it has discovered at least what s had, and its finish
   * list is that of s followed by exactly the nodes r discovered beyond s, each once.
   */
  ghost predicate Grows(s: Search, r: Search) {
    && Monotone(s.visited, r.visited)
    && |r.visited| == |s.visited|
    && |s.finished| <= |r.finished|
    && r.finished[..|s.finished|] == s.finished
    && Distinct(r.finished[|s.finished|..])
    && forall v: nat :: v in r.finished[|s.finished|..] <==> v < |r.visited| && r.visited[v] && !s.visited[v]
  }

  lemma GrowsReflexive(s: Search)
    ensures Grows(s, s)
  {
    assert s.finished[|s.finished|..] == [];
  }

  lemma GrowsTransitive(a: Search, b: Search, c: Search)
    requires Grows(a, b) && Grows(b, c)
    ensures Grows(a, c)
  {
    var x, y := b.finished[|a.finished|..], c.finished[|b.finished|..];
    assert c.finished[..|b.finished|] == a.finished + x;
    assert c.finished == a.finished + x + y;
    assert c.finished[..|a.finished|] == a.finished;
    assert c.finished[|a.finished|..] == x + y;
    forall i, j | 0 <= i < j < |x + y|
      ensures (x + y)[i] != (x + y)[j]
    {
      if i < |x| && j >= |x| {
        assert (x + y)[i] in x && (x + y)[j] in y;
      }
    }
  }

  lemma {:induction false} VisitGrows(g: Adjacency, u: nat, s: Search)
    requires WellFormed(g) && |s.visited| == |g| && u < |g| && !s.visited[u]
    ensures Grows(s, Visit(g, u, s))
    decreases Unvisited(s.visited), 0, 0
  {
    UnvisitedShrinks(s.visited, s.visited[u := true], u);
    var s1 := Search(s.visited[u := true], s.finished);
    var r1 := VisitEach(g, g[u], 0, s1);
    VisitEachGrows(g, g[u], 0, s1);
    var r := Visit(g, u, s);
    var d1 := r1.finished[|s.finished|..];
    assert r.finished == s.finished + (d1 + [u]);
    assert r.finished[|s.finished|..] == d1 + [u];
    assert u !in d1;
  }

  lemma {:induction false} VisitEachGrows(g: Adjacency, succ: seq<nat>, i: nat, s: Search)
    requires WellFormed(g) && |s.visited| == |g| && i <= |succ|
    requires forall j :: 0 <= j < |succ| ==> succ[j] < |g|
    ensures Grows(s, VisitEach(g, succ, i, s))
    decreases Unvisited(s.visited), 1, |succ| - i
  {
    if i == |succ| {
      GrowsReflexive(s);
    } else {
      var s' := if s.visited[succ[i]] then s else Visit(g, succ[i], s);
      if s.visited[succ[i]] {
        GrowsReflexive(s);
      } else {
        VisitGrows(g, succ[i], s);
      }
      VisitEachGrows(g, succ, i + 1, s');
      GrowsTransitive(s, s', VisitEach(g, succ, i + 1, s'));
    }
  }

  // ---------------------------------------------------------------------------
  // The finishing order is a permutation of the nodes
  // ---------------------------------------------------------------------------

  /** s lists every node 0 .. n-1 exactly once. */
  ghost predicate IsPermutation(s: seq<nat>, n: nat) {
    |s| == n && Distinct(s) && forall v: nat :: v in s <==> v < n
  }

  lemma {:induction false} DistinctCardinality(s: seq<nat>)
    requires Distinct(s)
    ensures |set v: nat | v in s| == |s|
  {
    if s != [] {
      var t := s[..|s| - 1];
      assert s == t + [s[|s| - 1]];
      assert Distinct(t);
      DistinctCardinality(t);
      assert (set v: nat | v in s) == (set v: nat | v in t) + {s[|s| - 1]};
      assert s[|s| - 1] !in (set v: nat | v in t);
    }
  }

  /** The set of nodes 0 .. n-1. */
  ghost function Below(n: nat): (r: set<nat>)
    ensures |r| == n && forall v: nat :: v in r <==> v < n
  {
    if n == 0 then {} else Below(n - 1) + {n - 1}
  }

  /** A duplicate-free list holding exactly the nodes 0 .. n-1 has length n. */
  lemma PermutationLength(s: seq<nat>, n: nat)
    requires Distinct(s) && forall v: nat :: v in s <==> v < n
    ensures |s| == n
  {
    DistinctCardinality(s);
    assert (set v: nat | v in s) == Below(n);
  }

  lemma FinishOrderIsPermutation(g: Adjacency)
    requires WellFormed(g)
    ensures IsPermutation(FinishOrder(g), |g|)
  {
    var s0 := Search(Undiscovered(|g|), []);
    var r := VisitEach(g, Indices(|g|), 0, s0);
    VisitEachGrows(g, Indices(|g|), 0, s0);
    assert r.finished[|s0.finished|..] == r.finished;
    forall v: nat | v < |g|
      ensures r.visited[v]
    {
      assert Indices(|g|)[v] == v;
    }
    PermutationLength(r.finished, |g|);
  }

  lemma ReverseIsPermutation(s: seq<nat>, n: nat)
    requires IsPermutation(s, n)
    ensures IsPermutation(Reverse(s), n)
  {
    var r := Reverse(s);
    forall v
      ensures v in r <==> v in s
    {
      if v in s {
        var k :| 0 <= k < |s| && s[k] == v;
        assert r[|s| - 1 - k] == v;
      }
    }
  }

  /** TopologicalSort returns every node exactly once, whether or not the graph has a cycle. */
  lemma TopoOrderIsPermutation(g: Adjacency)
    requires WellFormed(g)
    ensures IsPermutation(TopoOrder(g), |g|)
    ensures forall j :: 0 <= j < |TopoOrder(g)| ==> TopoOrder(g)[j] < |g|
  {
    FinishOrderIsPermutation(g);
    ReverseIsPermutation(FinishOrder(g), |g|);
    PermutationBounds(TopoOrder(g), |g|);
  }

  lemma PermutationBounds(s: seq<nat>, n: nat)
    requires forall v: nat :: v in s ==> v < n
    ensures forall j :: 0 <= j < |s| ==> s[j] < n
  {
    forall j | 0 <= j < |s|
      ensures s[j] < n
    {
      assert s[j] in s;
    }
  }

  // ---------------------------------------------------------------------------
  // On an acyclic graph every edge points forward in the topological order
  // ---------------------------------------------------------------------------

  /** p is a walk along edges of g: each node of p has the next one among its successors. */
  ghost predicate IsPath(g: Adjacency, p: seq<nat>) {
    && (forall i :: 0 <= i < |p| ==> p[i] < |g|)
    && (forall i :: 0 <= i < |p| - 1 ==> p[i + 1] in g[p[i]])
  }

  /** No walk of one or more edges returns to where it started. */
  ghost predicate Acyclic(g: Adjacency) {
    forall p :: IsPath(g, p) && |p| >= 2 ==> p[0] != p[|p| - 1]
  }

  /** Every finished node has all of its successors finished before it. */
  ghost predicate ClosedBefore(g: Adjacency, f: seq<nat>) {
    forall i :: 0 <= i < |f| ==> f[i] < |g| && forall v :: v in g[f[i]] ==> v in f[..i]
  }

  /**
   * The discovered but unfinished nodes are exactly those of stack (the recursion
   * stack of the search), and every finished node is discovered.
   */
  ghost predicate OnStack(s: Search, stack: seq<nat>) {
    && (forall v :: v in s.finished ==> v < |s.visited| && s.visited[v])
    && (forall v :: 0 <= v < |s.visited| ==> (s.visited[v] && v !in s.finished <==> v in stack))
    && (forall v :: v in stack ==> v < |s.visited|)
  }

  /** An edge from the top of a walk back into the walk closes a cycle. */
  lemma BackEdgeMakesCycle(g: Adjacency, p: seq<nat>, j: nat, v: nat)
    requires IsPath(g, p) && j < |p| && p[j] == v && v in g[p[|p| - 1]]
    ensures !Acyclic(g)
  {
    var c := p[j..] + [v];
    assert IsPath(g, c);
    assert |c| >= 2 && c[0] == c[|c| - 1];
  }

  lemma GrowsKeepsStack(s: Search, r: Search, stack: seq<nat>)
    requires Grows(s, r) && OnStack(s, stack)
    ensures OnStack(r, stack)
  {
    assert r.finished == s.finished + r.finished[|s.finished|..];
  }

  /** When u's successors are all discovered and u is the top of an acyclic walk, they are all finished. */
  lemma SuccessorsFinished(g: Adjacency, stack: seq<nat>, r: Search)
    requires WellFormed(g) && Acyclic(g) && IsPath(g, stack) && |stack| > 0 && OnStack(r, stack)
    requires |r.visited| == |g|
    requires forall v :: v in g[stack[|stack| - 1]] ==> r.visited[v]
    ensures forall v :: v in g[stack[|stack| - 1]] ==> v in r.finished
  {
    forall v | v in g[stack[|stack| - 1]]
      ensures v in r.finished
    {
      if v !in r.finished {
        var k :| 0 <= k < |stack| && stack[k] == v;
        BackEdgeMakesCycle(g, stack, k, v);
      }
    }
  }

  lemma FinishExtendsClosed(g: Adjacency, f: seq<nat>, u: nat)
    requires ClosedBefore(g, f) && u < |g| && forall v :: v in g[u] ==> v in f
    ensures ClosedBefore(g, f + [u])
  {
    var f' := f + [u];
    forall i | 0 <= i < |f'|
      ensures f'[i] < |g| && forall v :: v in g[f'[i]] ==> v in f'[..i]
    {
      if i < |f| {
        assert f'[..i] == f[..i];
      } else {
        assert f'[..i] == f;
      }
    }
  }

  lemma {:induction false} VisitClosed(g: Adjacency, u: nat, s: Search, stack: seq<nat>)
    requires WellFormed(g) && |s.visited| == |g| && u < |g| && !s.visited[u]
    requires Acyclic(g) && IsPath(g, stack + [u])
    requires ClosedBefore(g, s.finished) && OnStack(s, stack)
    ensures ClosedBefore(g, Visit(g, u, s).finished)
    decreases Unvisited(s.visited), 0, 0
  {
    UnvisitedShrinks(s.visited, s.visited[u := true], u);
    var s1 := Search(s.visited[u := true], s.finished);
    var stack1 := stack + [u];
    assert OnStack(s1, stack1);
    forall j | 0 <= j < |g[u]|
      ensures IsPath(g, stack1 + [g[u][j]])
    {
      assert (stack1 + [g[u][j]])[..|stack1|] == stack1;
    }
    VisitEachClosed(g, g[u], 0, s1, stack1);
    var r1 := VisitEach(g, g[u], 0, s1);
    VisitEachGrows(g, g[u], 0, s1);
    GrowsKeepsStack(s1, r1, stack1);
    forall v | v in g[u]
      ensures r1.visited[v]
    {
      var j :| 0 <= j < |g[u]| && g[u][j] == v;
    }
    SuccessorsFinished(g, stack1, r1);
    FinishExtendsClosed(g, r1.finished, u);
  }

  lemma {:induction false} VisitEachClosed(g: Adjacency, succ: seq<nat>, i: nat, s: Search, stack: seq<nat>)
    requires WellFormed(g) && |s.visited| == |g| && i <= |succ|
    requires forall j :: 0 <= j < |succ| ==> succ[j] < |g|
    requires Acyclic(g) && forall j :: i <= j < |succ| ==> IsPath(g, stack + [succ[j]])
    requires ClosedBefore(g, s.finished) && OnStack(s, stack)
    ensures ClosedBefore(g, VisitEach(g, succ, i, s).finished)
    decreases Unvisited(s.visited), 1, |succ| - i
  {
    if i < |succ| {
      var s' := if s.visited[succ[i]] then s else Visit(g, succ[i], s);
      if !s.visited[succ[i]] {
        VisitClosed(g, succ[i], s, stack);
        VisitGrows(g, succ[i], s);
        GrowsKeepsStack(s, s', stack);
      }
      VisitEachClosed(g, succ, i + 1, s', stack);
    }
  }

  lemma FinishOrderClosed(g: Adjacency)
    requires WellFormed(g) && Acyclic(g)
    ensures ClosedBefore(g, FinishOrder(g))
  {
    var n := |g|;
    var s0 := Search(Undiscovered(n), []);
    forall j | 0 <= j < n
      ensures IsPath(g, [] + [Indices(n)[j]])
    {
    }
    VisitEachClosed(g, Indices(n), 0, s0, []);
  }

  /** Whenever order holds both ends of an edge, the start comes first. */
  ghost predicate RespectsEdges(g: Adjacency, order: seq<nat>) {
    forall i, j :: 0 <= i < |order| && 0 <= j < |order| && order[i] < |g| && order[j] in g[order[i]] ==> i < j
  }

  /**
   * On an acyclic graph, TopologicalSort places the start of every edge before
   * its end.
   */
  lemma TopoOrderRespectsEdges(g: Adjacency)
    requires WellFormed(g) && Acyclic(g)
    ensures RespectsEdges(g, TopoOrder(g))
  {
    FinishOrderClosed(g);
    FinishOrderIsPermutation(g);
    ReversedClosedRespectsEdges(g, FinishOrder(g));
  }

  /** Reversing a duplicate-free list in which successors finish first puts every edge forward. */
  lemma ReversedClosedRespectsEdges(g: Adjacency, f: seq<nat>)
    requires ClosedBefore(g, f) && Distinct(f)
    ensures RespectsEdges(g, Reverse(f))
  {
    var o := Reverse(f);
    forall i, j | 0 <= i < |o| && 0 <= j < |o| && o[i] < |g| && o[j] in g[o[i]]
      ensures i < j
    {
      var a, b := |f| - 1 - i, |f| - 1 - j;
      assert o[i] == f[a] && o[j] == f[b];
      assert f[b] in f[..a];
      var k :| 0 <= k < a && f[..a][k] == f[b];
      assert f[k] == f[b];
    }
  }

  /** An order that strictly decreases along every edge rules out cycles. */
  lemma RankedIsAcyclic(g: Adjacency, rank: seq<nat>)
    requires |rank| == |g|
    requires forall u, v :: 0 <= u < |g| && v in g[u] && v < |g| ==> rank[v] < rank[u]
    ensures Acyclic(g)
  {
    forall p | IsPath(g, p) && |p| >= 2
      ensures p[0] != p[|p| - 1]
    {
      RankDecreasesAlongPath(g, rank, p, |p| - 1);
    }
  }

  lemma {:induction false} RankDecreasesAlongPath(g: Adjacency, rank: seq<nat>, p: seq<nat>, k: nat)
    requires |rank| == |g|
    requires forall u, v :: 0 <= u < |g| && v in g[u] && v < |g| ==> rank[v] < rank[u]
    requires IsPath(g, p) && 1 <= k < |p|
    ensures rank[p[k]] < rank[p[0]]
  {
    if k > 1 {
      RankDecreasesAlongPath(g, rank, p, k - 1);
    }
  }

  // ---------------------------------------------------------------------------
  // The search, as methods over a visited array
  // ---------------------------------------------------------------------------

  /** DFS-VISIT: marks u and everything it discovers in visited and returns the extended finish list. */
  method DfsVisit(g: Adjacency, u: nat, visited: array<bool>, finished: seq<nat>) returns (done: seq<nat>)
    requires WellFormed(g) && visited.Length == |g| && u < |g| && !visited[u]
    modifies visited
    ensures Search(visited[..], done) == Visit(g, u, Search(old(visited[..]), finished))
    decreases Unvisited(visited[..]), 0
  {
    ghost var entry := visited[..];
    visited[u] := true;
    ghost var start := Search(visited[..], finished);
    assert visited[..] == entry[u := true];
    var succ := g[u];
    done := finished;
    for i := 0 to |succ|
      invariant visited.Length == |g| && visited[u]
      invariant Monotone(entry, visited[..])
      invariant VisitEach(g, succ, i, Search(visited[..], done)) == VisitEach(g, succ, 0, start)
    {
      var v := succ[i];
      if !visited[v] {
        UnvisitedShrinks(entry, visited[..], u);
        done := DfsVisit(g, v, visited, done);
      }
    }
    done := done + [u];
  }

  /** The DFS sweep over all roots in ascending index order; returns the finish list. */
  method FinishOrderOf(g: Adjacency) returns (finished: seq<nat>)
    requires WellFormed(g)
    ensures finished == FinishOrder(g)
  {
    var n := |g|;
    var visited := new bool[n](_ => false);
    var roots := Indices(n);
    finished := [];
    assert visited[..] == Undiscovered(n);
    for i := 0 to n
      invariant visited.Length == n
      invariant VisitEach(g, roots, i, Search(visited[..], finished)) == FinishSearch(g)
    {
      if !visited[i] {
        finished := DfsVisit(g, i, visited, finished);
      }
    }
  }

  ghost function FinishSearch(g: Adjacency): Search
    requires WellFormed(g)
  {
    VisitEach(g, Indices(|g|), 0, Search(Undiscovered(|g|), []))
  }

  /** TOPOLOGICAL-SORT over adjacency lists: every node once, and on an acyclic graph every edge forward. */
  method TopologicalOrder(g: Adjacency) returns (order: seq<nat>)
    requires WellFormed(g)
    ensures order == TopoOrder(g)
    ensures IsPermutation(order, |g|)
    ensures Acyclic(g) ==> RespectsEdges(g, order)
  {
    var finished := FinishOrderOf(g);
    order := Reverse(finished);
    TopoOrderIsPermutation(g);
    if Acyclic(g) {
      TopoOrderRespectsEdges(g);
    }
  }
}
