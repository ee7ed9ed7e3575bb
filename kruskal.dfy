/**
 * Kruskal's minimum spanning tree algorithm (CLRS 3rd ed., section 23.2): the
 * edges are sorted by weight, ties kept in insertion order, and each is taken
 * when its ends lie in different trees of the edges taken so far; the scan stops
 * once n-1 edges are taken.
 *
 * Grow specifies the scan with one tree name per node: two nodes share a name
 * exactly when the taken edges connect them. The method MinimumSpanningEdges
 * runs the scan over the disjoint sets of UnionFind and is proved equal to it.
 */
module Kruskal {
  import opened DepthFirst
  import opened GraphTypes
  import opened UnionFind

  // ---------------------------------------------------------------------------
  // Sorting by weight, stably
  // ---------------------------------------------------------------------------

  /** Places e before the first element that weighs at least as much. */
  function InsertByWeight(e: Edge, s: seq<Edge>): seq<Edge> {
    if s == [] || e.weight <= s[0].weight then [e] + s
    else [s[0]] + InsertByWeight(e, s[1..])
  }

  /** The edges in ascending order of weight; edges of equal weight keep their insertion order. */
  function SortByWeight(es: seq<Edge>): seq<Edge> {
    if es == [] then [] else InsertByWeight(es[0], SortByWeight(es[1..]))
  }

  lemma {:induction false} InsertByWeightAdds(e: Edge, s: seq<Edge>)
    ensures multiset(InsertByWeight(e, s)) == multiset(s) + multiset{e}
  {
    if s != [] && e.weight > s[0].weight {
      InsertByWeightAdds(e, s[1..]);
      assert s == [s[0]] + s[1..];
    }
  }

  /** e lands right after the edges that are strictly lighter, before an edge at least as heavy. */
  lemma {:induction false} InsertByWeightBetween(e: Edge, lighter: seq<Edge>, rest: seq<Edge>)
    requires forall j :: 0 <= j < |lighter| ==> lighter[j].weight < e.weight
    requires rest != [] ==> e.weight <= rest[0].weight
    ensures InsertByWeight(e, lighter + rest) == lighter + [e] + rest
  {
    if lighter == [] {
      assert lighter + rest == rest;
    } else {
      InsertByWeightBetween(e, lighter[1..], rest);
      assert (lighter + rest)[0] == lighter[0] && (lighter + rest)[1..] == lighter[1..] + rest;
      assert lighter + [e] + rest == [lighter[0]] + (lighter[1..] + [e] + rest);
    }
  }

  /** The sort only reorders: the result holds each edge as often as the input does. */
  lemma {:induction false} SortByWeightPermutes(es: seq<Edge>)
    ensures multiset(SortByWeight(es)) == multiset(es)
  {
    if es != [] {
      SortByWeightPermutes(es[1..]);
      InsertByWeightAdds(es[0], SortByWeight(es[1..]));
      assert es == [es[0]] + es[1..];
    }
  }

  ghost predicate SortedByWeight(s: seq<Edge>) {
    forall i, j :: 0 <= i < j < |s| ==> s[i].weight <= s[j].weight
  }

  lemma {:induction false} InsertKeepsSorted(e: Edge, s: seq<Edge>)
    requires SortedByWeight(s)
    ensures SortedByWeight(InsertByWeight(e, s))
  {
    if s != [] && e.weight > s[0].weight {
      InsertKeepsSorted(e, s[1..]);
      var r := InsertByWeight(e, s[1..]);
      InsertByWeightAdds(e, s[1..]);
      forall j | 0 <= j < |r|
        ensures s[0].weight <= r[j].weight
      {
        assert r[j] in multiset(r);
        if r[j] != e {
          assert r[j] in multiset(s[1..]);
          var k :| 0 <= k < |s[1..]| && s[1..][k] == r[j];
          assert s[k + 1] == r[j];
        }
      }
    }
  }

  lemma {:induction false} SortByWeightSorted(es: seq<Edge>)
    ensures SortedByWeight(SortByWeight(es))
  {
    if es != [] {
      SortByWeightSorted(es[1..]);
      InsertKeepsSorted(es[0], SortByWeight(es[1..]));
    }
  }

  /** The edges of s that weigh w, in their order in s. */
  function WithWeight(s: seq<Edge>, w: int): seq<Edge> {
    if s == [] then [] else (if s[0].weight == w then [s[0]] else []) + WithWeight(s[1..], w)
  }

  lemma WithWeightCons(x: Edge, r: seq<Edge>, w: int)
    ensures WithWeight([x] + r, w) == (if x.weight == w then [x] else []) + WithWeight(r, w)
  {
    assert ([x] + r)[0] == x && ([x] + r)[1..] == r;
  }

  lemma {:induction false} InsertWithWeight(e: Edge, s: seq<Edge>, w: int)
    ensures WithWeight(InsertByWeight(e, s), w) == (if e.weight == w then [e] else []) + WithWeight(s, w)
  {
    if s == [] || e.weight <= s[0].weight {
      assert InsertByWeight(e, s) == [e] + s;
      WithWeightCons(e, s, w);
    } else {
      var r := InsertByWeight(e, s[1..]);
      assert InsertByWeight(e, s) == [s[0]] + r;
      InsertWithWeight(e, s[1..], w);
      WithWeightCons(s[0], r, w);
      var rest := WithWeight(s[1..], w);
      if s[0].weight == w {
        assert WithWeight(s, w) == [s[0]] + rest;
        assert WithWeight(r, w) == rest;
      } else {
        assert WithWeight(s, w) == rest;
      }
    }
  }

  /** The sort is stable: the edges of any one weight come out in their input order. */
  lemma {:induction false} SortByWeightStable(es: seq<Edge>, w: int)
    ensures WithWeight(SortByWeight(es), w) == WithWeight(es, w)
  {
    if es != [] {
      SortByWeightStable(es[1..], w);
      InsertWithWeight(es[0], SortByWeight(es[1..]), w);
    }
  }

  /** Sorting keeps every edge within the nodes. */
  lemma SortedWithin(n: nat, es: seq<Edge>)
    requires EdgesWithin(n, es)
    ensures EdgesWithin(n, SortByWeight(es))
  {
    var s := SortByWeight(es);
    SortByWeightPermutes(es);
    forall k | 0 <= k < |s|
      ensures s[k].start.index < n && s[k].end.index < n
    {
      assert s[k] in multiset(es);
      var j :| 0 <= j < |es| && es[j] == s[k];
    }
  }

  // ---------------------------------------------------------------------------
  // Connectivity through a set of undirected edges
  // ---------------------------------------------------------------------------

  /** One of es joins x and y, in either direction. */
  ghost predicate Linked(es: seq<Edge>, x: nat, y: nat) {
    exists e :: e in es && Joins(Undirected, e, x, y)
  }

  ghost predicate IsWalk(es: seq<Edge>, p: seq<nat>) {
    |p| > 0 && forall i :: 0 <= i < |p| - 1 ==> Linked(es, p[i], p[i + 1])
  }

  /** Some walk along es leads from x to y. */
  ghost predicate Connected(es: seq<Edge>, x: nat, y: nat) {
    exists p :: IsWalk(es, p) && p[0] == x && p[|p| - 1] == y
  }

  /** Every edge of es joins two nodes that the edges before it do not connect: es has no cycle. */
  ghost predicate IsForest(es: seq<Edge>) {
    forall k :: 0 <= k < |es| ==> !Connected(es[..k], es[k].start.index, es[k].end.index)
  }

  lemma ConnectedToSelf(es: seq<Edge>, x: nat)
    ensures Connected(es, x, x)
  {
    assert IsWalk(es, [x]);
  }

  lemma ConnectedByNothing(x: nat, y: nat)
    requires Connected([], x, y)
    ensures x == y
  {
    var p :| IsWalk([], p) && p[0] == x && p[|p| - 1] == y;
    assert |p| == 1 || Linked([], p[0], p[1]);
  }

  lemma ConnectedByMore(es: seq<Edge>, e: Edge, x: nat, y: nat)
    requires Connected(es, x, y)
    ensures Connected(es + [e], x, y)
  {
    var p :| IsWalk(es, p) && p[0] == x && p[|p| - 1] == y;
    forall i | 0 <= i < |p| - 1
      ensures Linked(es + [e], p[i], p[i + 1])
    {
      assert Linked(es, p[i], p[i + 1]);
      var c :| c in es && Joins(Undirected, c, p[i], p[i + 1]);
      assert c in es + [e];
    }
    assert IsWalk(es + [e], p);
  }

  lemma ConnectedThrough(es: seq<Edge>, x: nat, s: nat, t: nat, y: nat)
    requires Connected(es, x, s) && Linked(es, s, t) && Connected(es, t, y)
    ensures Connected(es, x, y)
  {
    var p :| IsWalk(es, p) && p[0] == x && p[|p| - 1] == s;
    var q :| IsWalk(es, q) && q[0] == t && q[|q| - 1] == y;
    var w := p + q;
    forall i | 0 <= i < |w| - 1
      ensures Linked(es, w[i], w[i + 1])
    {
      if i < |p| - 1 {
        assert w[i] == p[i] && w[i + 1] == p[i + 1];
      } else if i == |p| - 1 {
        assert w[i] == s && w[i + 1] == t;
      } else {
        assert w[i] == q[i - |p|] && w[i + 1] == q[i - |p| + 1];
      }
    }
    assert IsWalk(es, w);
  }

  /** Names that agree across every edge agree along every walk. */
  lemma {:induction false} WalkKeepsLabel(es: seq<Edge>, tree: seq<nat>, p: seq<nat>)
    requires forall e :: e in es ==> e.start.index < |tree| && e.end.index < |tree| && tree[e.start.index] == tree[e.end.index]
    requires IsWalk(es, p) && p[0] < |tree|
    ensures p[|p| - 1] < |tree| && tree[p[|p| - 1]] == tree[p[0]]
  {
    if |p| > 1 {
      var q := p[..|p| - 1];
      forall i | 0 <= i < |q| - 1
        ensures Linked(es, q[i], q[i + 1])
      {
        assert q[i] == p[i] && q[i + 1] == p[i + 1];
      }
      WalkKeepsLabel(es, tree, q);
      assert Linked(es, p[|p| - 2], p[|p| - 1]);
    }
  }

  /** A node joined to a different node is an end of one of the edges. */
  ghost predicate Touches(es: seq<Edge>, x: nat) {
    exists e :: e in es && (e.start.index == x || e.end.index == x)
  }

  lemma ConnectedTouches(es: seq<Edge>, x: nat, y: nat)
    requires Connected(es, x, y) && x != y
    ensures Touches(es, x) && Touches(es, y)
  {
    var p :| IsWalk(es, p) && p[0] == x && p[|p| - 1] == y;
    assert Linked(es, p[0], p[1]);
    assert Linked(es, p[|p| - 2], p[|p| - 1]);
  }

  // ---------------------------------------------------------------------------
  // The scan, as functions over one tree name per node
  // ---------------------------------------------------------------------------

  /** The edges taken so far, and for each node the name of its tree. */
  datatype Forest = Forest(tree: seq<nat>, chosen: seq<Edge>)

  /** Takes e when its ends carry different tree names, merging the first end's tree into the second's. */
  function AddEdge(f: Forest, e: Edge): Forest
    requires e.start.index < |f.tree| && e.end.index < |f.tree|
  {
    var a := f.tree[e.start.index];
    var b := f.tree[e.end.index];
    if a == b then f
    else Forest(seq(|f.tree|, x requires 0 <= x < |f.tree| => if f.tree[x] == a then b else f.tree[x]), f.chosen + [e])
  }

  /** The scan over es in order, from every node alone in its own tree. */
  function Grow(n: nat, es: seq<Edge>): (f: Forest)
    requires EdgesWithin(n, es)
    ensures |f.tree| == n
  {
    if es == [] then Forest(Indices(n), [])
    else AddEdge(Grow(n, es[..|es| - 1]), es[|es| - 1])
  }

  /** MST-KRUSKAL: the edges the scan takes from the edges sorted by weight. */
  function SpanningForest(n: nat, edges: seq<Edge>): seq<Edge>
    requires EdgesWithin(n, edges)
  {
    SortedWithin(n, edges);
    Grow(n, SortByWeight(edges)).chosen
  }

  /** The tree names follow the chosen edges: equal exactly when the chosen edges connect the nodes. */
  ghost predicate Tracks(n: nat, f: Forest) {
    && |f.tree| == n && EdgesWithin(n, f.chosen)
    && forall x, y :: 0 <= x < n && 0 <= y < n ==> (f.tree[x] == f.tree[y] <==> Connected(f.chosen, x, y))
  }

  lemma StartTracks(n: nat)
    ensures Tracks(n, Forest(Indices(n), []))
  {
    forall x, y | 0 <= x < n && 0 <= y < n
      ensures Indices(n)[x] == Indices(n)[y] <==> Connected([], x, y)
    {
      if x == y {
        ConnectedToSelf([], x);
      }
      if Connected([], x, y) {
        ConnectedByNothing(x, y);
      }
    }
  }

  lemma ChosenAgree(n: nat, f: Forest, c: Edge)
    requires Tracks(n, f) && c in f.chosen
    ensures c.start.index < n && c.end.index < n && f.tree[c.start.index] == f.tree[c.end.index]
  {
    var k :| 0 <= k < |f.chosen| && f.chosen[k] == c;
    assert IsWalk(f.chosen, [c.start.index, c.end.index]) by {
      assert Joins(Undirected, c, c.start.index, c.end.index);
    }
  }

  lemma AddEdgeTracks(n: nat, f: Forest, e: Edge)
    requires Tracks(n, f) && e.start.index < n && e.end.index < n
    ensures Tracks(n, AddEdge(f, e))
  {
    var u, v := e.start.index, e.end.index;
    var a, b := f.tree[u], f.tree[v];
    if a != b {
      var f' := AddEdge(f, e);
      var es' := f.chosen + [e];
      assert Linked(es', u, v) by {
        assert e in es' && Joins(Undirected, e, u, v);
      }
      assert Linked(es', v, u) by {
        assert e in es' && Joins(Undirected, e, v, u);
      }
      forall c | c in es'
        ensures c.start.index < n && c.end.index < n && f'.tree[c.start.index] == f'.tree[c.end.index]
      {
        if c != e {
          ChosenAgree(n, f, c);
        }
      }
      forall x, y | 0 <= x < n && 0 <= y < n
        ensures f'.tree[x] == f'.tree[y] <==> Connected(es', x, y)
      {
        if Connected(es', x, y) {
          var p :| IsWalk(es', p) && p[0] == x && p[|p| - 1] == y;
          WalkKeepsLabel(es', f'.tree, p);
        }
        if f'.tree[x] == f'.tree[y] {
          if (f.tree[x] == a) == (f.tree[y] == a) {
            ConnectedByMore(f.chosen, e, x, y);
          } else if f.tree[x] == a {
            ConnectedByMore(f.chosen, e, x, u);
            ConnectedByMore(f.chosen, e, v, y);
            ConnectedThrough(es', x, u, v, y);
          } else {
            ConnectedByMore(f.chosen, e, x, v);
            ConnectedByMore(f.chosen, e, u, y);
            ConnectedThrough(es', x, v, u, y);
          }
        }
      }
    }
  }

  lemma {:induction false} GrowTracks(n: nat, es: seq<Edge>)
    requires EdgesWithin(n, es)
    ensures Tracks(n, Grow(n, es))
  {
    if es == [] {
      StartTracks(n);
    } else {
      GrowTracks(n, es[..|es| - 1]);
      AddEdgeTracks(n, Grow(n, es[..|es| - 1]), es[|es| - 1]);
    }
  }

  /** After the scan, the two ends of every scanned edge carry the same tree name. */
  lemma {:induction false} GrowJoinsEnds(n: nat, es: seq<Edge>)
    requires EdgesWithin(n, es)
    ensures forall k :: 0 <= k < |es| ==> Grow(n, es).tree[es[k].start.index] == Grow(n, es).tree[es[k].end.index]
  {
    if es != [] {
      var init := es[..|es| - 1];
      GrowJoinsEnds(n, init);
      assert forall k :: 0 <= k < |init| ==> init[k] == es[k];
    }
  }

  /** The chosen edges never close a cycle. */
  lemma {:induction false} GrowIsForest(n: nat, es: seq<Edge>)
    requires EdgesWithin(n, es)
    ensures IsForest(Grow(n, es).chosen)
  {
    if es != [] {
      var init := es[..|es| - 1];
      var f := Grow(n, init);
      GrowIsForest(n, init);
      GrowTracks(n, init);
      var c := Grow(n, es).chosen;
      if c != f.chosen {
        assert c == f.chosen + [es[|es| - 1]];
        forall k | 0 <= k < |c|
          ensures !Connected(c[..k], c[k].start.index, c[k].end.index)
        {
          if k < |f.chosen| {
            assert c[..k] == f.chosen[..k];
          } else {
            assert c[..k] == f.chosen;
          }
        }
      }
    }
  }

  /** The chosen edges are input edges, each taken at most as often as it occurs. */
  lemma {:induction false} GrowChoosesInput(n: nat, es: seq<Edge>)
    requires EdgesWithin(n, es)
    ensures multiset(Grow(n, es).chosen) <= multiset(es)
  {
    if es != [] {
      var init := es[..|es| - 1];
      var e := es[|es| - 1];
      var f := Grow(n, init);
      GrowChoosesInput(n, init);
      assert es == init + [e];
      assert multiset(es) == multiset(init) + multiset{e};
      if Grow(n, es).chosen != f.chosen {
        assert Grow(n, es).chosen == f.chosen + [e];
        assert multiset(Grow(n, es).chosen) == multiset(f.chosen) + multiset{e};
      }
    }
  }

  /** The distinct tree names in use: one per tree. */
  ghost function TreeNames(tree: seq<nat>): set<nat> {
    set x | 0 <= x < |tree| :: tree[x]
  }

  /** Trees plus chosen edges always number n: each taken edge merges two trees into one. */
  lemma {:induction false} GrowCountsTrees(n: nat, es: seq<Edge>)
    requires EdgesWithin(n, es)
    ensures |TreeNames(Grow(n, es).tree)| + |Grow(n, es).chosen| == n
  {
    if es == [] {
      assert TreeNames(Indices(n)) == Below(n) by {
        forall v: nat | v < n
          ensures v in TreeNames(Indices(n))
        {
          assert Indices(n)[v] == v;
        }
      }
    } else {
      var init := es[..|es| - 1];
      var e := es[|es| - 1];
      var f := Grow(n, init);
      GrowCountsTrees(n, init);
      var a, b := f.tree[e.start.index], f.tree[e.end.index];
      if a != b {
        var f' := Grow(n, es);
        var s, s' := TreeNames(f.tree), TreeNames(f'.tree);
        assert s' == s - {a} by {
          forall y | y in s - {a}
            ensures y in s'
          {
            var x :| 0 <= x < n && f.tree[x] == y;
            assert f'.tree[x] == y;
          }
        }
        assert a in s;
        assert s == s' + {a};
      }
    }
  }

  /** With one tree left, every two nodes share its name. */
  lemma OneTreeLeft(tree: seq<nat>, x: nat, y: nat)
    requires |TreeNames(tree)| == 1 && x < |tree| && y < |tree|
    ensures tree[x] == tree[y]
  {
    var s := TreeNames(tree);
    assert tree[x] in s && tree[y] in s;
    assert s == (s - {tree[x]}) + {tree[x]};
    assert |s - {tree[x]}| == 0;
    assert tree[y] !in s - {tree[x]};
  }

  /** Once n-1 edges are taken there is one tree, and the rest of the scan takes nothing. */
  lemma {:induction false} SettledScanStays(n: nat, es: seq<Edge>, i: nat)
    requires EdgesWithin(n, es) && i <= |es| && |Grow(n, es[..i]).chosen| + 1 == n
    ensures Grow(n, es) == Grow(n, es[..i])
  {
    if i < |es| {
      var init := es[..|es| - 1];
      assert init[..i] == es[..i];
      SettledScanStays(n, init, i);
      GrowCountsTrees(n, init);
      var e := es[|es| - 1];
      OneTreeLeft(Grow(n, init).tree, e.start.index, e.end.index);
    } else {
      assert es[..i] == es;
    }
  }

  /** The scan may stop after all the edges, or as soon as n-1 of them are taken. */
  lemma ScanStopped(n: nat, es: seq<Edge>, i: nat)
    requires EdgesWithin(n, es) && i <= |es|
    requires i < |es| ==> |Grow(n, es[..i]).chosen| >= n - 1
    ensures Grow(n, es[..i]) == Grow(n, es)
  {
    if i < |es| {
      var f := Grow(n, es[..i]);
      GrowCountsTrees(n, es[..i]);
      assert es[0].start.index < n;
      assert f.tree[0] in TreeNames(f.tree);
      SettledScanStays(n, es, i);
    } else {
      assert es[..i] == es;
    }
  }

  /**
   * The chosen edges form a spanning forest of the input: they are input edges, they
   * close no cycle, they connect the ends of every input edge, and there are at
   * most n-1 of them.
   */
  lemma SpanningForestSpans(n: nat, edges: seq<Edge>)
    requires EdgesWithin(n, edges)
    ensures multiset(SpanningForest(n, edges)) <= multiset(edges)
    ensures IsForest(SpanningForest(n, edges))
    ensures forall e :: e in edges ==> Connected(SpanningForest(n, edges), e.start.index, e.end.index)
    ensures n > 0 ==> |SpanningForest(n, edges)| < n
  {
    SortedWithin(n, edges);
    var sorted := SortByWeight(edges);
    var f := Grow(n, sorted);
    GrowChoosesInput(n, sorted);
    SortByWeightPermutes(edges);
    GrowIsForest(n, sorted);
    GrowTracks(n, sorted);
    GrowJoinsEnds(n, sorted);
    SortByWeightPermutes(edges);
    forall e | e in edges
      ensures Connected(f.chosen, e.start.index, e.end.index)
    {
      assert e in multiset(sorted);
      var k :| 0 <= k < |sorted| && sorted[k] == e;
    }
    GrowCountsTrees(n, sorted);
    if n > 0 {
      assert f.tree[0] in TreeNames(f.tree);
    }
  }

  /** Some edge of es joins x to a node other than x. */
  ghost predicate HasNeighbour(es: seq<Edge>, x: nat) {
    exists e :: e in es && e.start.index != e.end.index && (e.start.index == x || e.end.index == x)
  }

  /** In a graph whose every node has an edge to another node, the spanning forest touches every node. */
  lemma SpanningForestCovers(n: nat, edges: seq<Edge>)
    requires EdgesWithin(n, edges)
    requires forall x: nat :: x < n ==> HasNeighbour(edges, x)
    ensures forall x: nat :: x < n ==> Touches(SpanningForest(n, edges), x)
  {
    SpanningForestSpans(n, edges);
    forall x: nat | x < n
      ensures Touches(SpanningForest(n, edges), x)
    {
      assert HasNeighbour(edges, x);
      var e :| e in edges && e.start.index != e.end.index && (e.start.index == x || e.end.index == x);
      ConnectedTouches(SpanningForest(n, edges), e.start.index, e.end.index);
    }
  }

  // ---------------------------------------------------------------------------
  // The scan over disjoint sets
  // ---------------------------------------------------------------------------

  /** Two nodes have the same representative exactly when they have the same tree name. */
  ghost predicate SamePartition(reps: seq<nat>, tree: seq<nat>) {
    |reps| == |tree| && forall x, y :: 0 <= x < |reps| && 0 <= y < |reps| ==> (reps[x] == reps[y] <==> tree[x] == tree[y])
  }

  /** Merging the sets of e's ends in step with AddEdge keeps the two partitions equal. */
  lemma UnionKeepsPartition(reps: seq<nat>, reps': seq<nat>, f: Forest, e: Edge)
    requires SamePartition(reps, f.tree) && e.start.index < |reps| && e.end.index < |reps|
    requires reps[e.start.index] != reps[e.end.index] && |reps'| == |reps|
    requires reps'[e.start.index] == reps[e.start.index] || reps'[e.start.index] == reps[e.end.index]
    requires forall z :: 0 <= z < |reps| ==>
      reps'[z] == if reps[z] == reps[e.start.index] || reps[z] == reps[e.end.index] then reps'[e.start.index] else reps[z]
    ensures SamePartition(reps', AddEdge(f, e).tree)
  {
  }

  /** One step of the scan: e is taken exactly when its ends lie in different sets, which are then united. */
  method ScanEdge(sets: DisjointSets, ghost f: Forest, e: Edge) returns (taken: bool)
    requires sets.Valid() && SamePartition(sets.Representatives(), f.tree)
    requires e.start.index < sets.size && e.end.index < sets.size
    modifies sets.parent, sets.rank
    ensures sets.Valid()
    ensures taken <==> f.tree[e.start.index] != f.tree[e.end.index]
    ensures SamePartition(sets.Representatives(), AddEdge(f, e).tree)
  {
    var u, v := e.start.index, e.end.index;
    ghost var reps := sets.Representatives();
    var ru := sets.FindSet(u);
    var rv := sets.FindSet(v);
    assert sets.Representatives() == reps;
    taken := ru != rv;
    if taken {
      sets.Union(u, v);
      UnionKeepsPartition(reps, sets.Representatives(), f, e);
    }
  }

  /**
   * MST-KRUSKAL over a disjoint-set forest: sort, then take every edge whose ends
   * have different representatives and union them, stopping at n-1 edges.
   */
  method MinimumSpanningEdges(n: nat, edges: seq<Edge>) returns (mst: seq<Edge>)
    requires EdgesWithin(n, edges)
    ensures mst == SpanningForest(n, edges)
  {
    var sorted := SortByWeight(edges);
    SortedWithin(n, edges);
    var sets := new DisjointSets(n);
    mst := [];
    ghost var f := Forest(Indices(n), []);
    assert sorted[..0] == [];
    var i := 0;
    while i < |sorted| && |mst| < n - 1
      invariant i <= |sorted|
      invariant sets.Valid() && sets.size == n
      invariant f == Grow(n, sorted[..i]) && mst == f.chosen
      invariant SamePartition(sets.Representatives(), f.tree)
      decreases |sorted| - i
    {
      var e := sorted[i];
      var taken := ScanEdge(sets, f, e);
      if taken {
        mst := mst + [e];
      }
      f := AddEdge(f, e);
      assert sorted[..i + 1][..i] == sorted[..i];
      i := i + 1;
    }
    ScanStopped(n, sorted, i);
  }
}
