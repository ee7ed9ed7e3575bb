/**
 * Disjoint sets over the elements 0 .. size-1 (CLRS 3rd ed., section 21.3):
 * parent pointers with union by rank and path compression, as MST-KRUSKAL
 * uses them.
 *
 * The abstract value is the partition given by Find: two elements are in the
 * same set exactly when they have the same root.
 */
module UnionFind {

  /** Every parent pointer stays in range and, unless it is a root's self-loop, leads to a higher rank. */
  ghost predicate RankOrdered(parent: seq<nat>, rank: seq<nat>) {
    && |parent| == |rank|
    && forall x :: 0 <= x < |parent| ==> parent[x] < |parent| && (parent[x] != x ==> rank[x] < rank[parent[x]])
  }

  /** The elements ranked above x: the termination measure of a walk to the root. */
  ghost function Above(rank: seq<nat>, x: nat): set<nat>
    requires x < |rank|
  {
    set y: nat | y < |rank| && rank[y] > rank[x]
  }

  lemma AboveShrinks(rank: seq<nat>, x: nat, y: nat)
    requires x < |rank| && y < |rank| && rank[x] < rank[y]
    ensures Above(rank, y) < Above(rank, x)
  {
    assert y in Above(rank, x) - Above(rank, y);
  }

  /** FIND-SET without side effects: the root reached by following parent pointers from x. */
  ghost function Root(parent: seq<nat>, rank: seq<nat>, x: nat): (r: nat)
    requires RankOrdered(parent, rank) && x < |parent|
    ensures r < |parent| && parent[r] == r
    ensures r == x || rank[x] < rank[r]
    decreases Above(rank, x)
  {
    if parent[x] == x then x
    else
      AboveShrinks(rank, x, parent[x]);
      Root(parent, rank, parent[x])
  }

  /** Pointing x straight at its root (path compression) keeps the ordering and every element's root. */
  lemma {:induction false} CompressKeepsRoots(parent: seq<nat>, rank: seq<nat>, x: nat, y: nat)
    requires RankOrdered(parent, rank) && x < |parent| && y < |parent|
    ensures RankOrdered(parent[x := Root(parent, rank, x)], rank)
    ensures Root(parent[x := Root(parent, rank, x)], rank, y) == Root(parent, rank, y)
    decreases Above(rank, y)
  {
    var p' := parent[x := Root(parent, rank, x)];
    if parent[y] != y && y != x {
      AboveShrinks(rank, y, parent[y]);
      CompressKeepsRoots(parent, rank, x, parent[y]);
    }
  }

  /**
   * Hanging the root loser under the root winner (whose rank may grow) keeps the
   * ordering and sends every element of loser's set to winner.
   */
  lemma {:induction false} LinkMovesRoots(parent: seq<nat>, rank: seq<nat>, rank': seq<nat>, loser: nat, winner: nat, z: nat)
    requires RankOrdered(parent, rank) && loser < |parent| && winner < |parent| && z < |parent|
    requires parent[loser] == loser && parent[winner] == winner
    requires |rank'| == |rank| && rank[winner] <= rank'[winner]
    requires forall y :: 0 <= y < |rank| && y != winner ==> rank'[y] == rank[y]
    requires loser != winner ==> rank'[loser] < rank'[winner]
    ensures RankOrdered(parent[loser := winner], rank')
    ensures Root(parent[loser := winner], rank', z) == if Root(parent, rank, z) == loser then winner else Root(parent, rank, z)
    decreases Above(rank, z)
  {
    var p' := parent[loser := winner];
    assert RankOrdered(p', rank') by {
      forall y | 0 <= y < |p'| && p'[y] != y
        ensures rank'[y] < rank'[p'[y]]
      {
        if y != loser {
          assert y != winner;
        }
      }
    }
    if parent[z] != z {
      AboveShrinks(rank, z, parent[z]);
      LinkMovesRoots(parent, rank, rank', loser, winner, parent[z]);
    }
  }

  class DisjointSets {
    const size: nat
    const parent: array<nat>
    const rank: array<nat>

    ghost predicate Valid()
      reads this, parent, rank
    {
      && parent.Length == size && rank.Length == size && parent != rank
      && RankOrdered(parent[..], rank[..])
    }

    /** The representative of x's set. */
    ghost function Find(x: nat): nat
      reads this, parent, rank
      requires Valid() && x < size
    {
      Root(parent[..], rank[..], x)
    }

    /** The representative of every element, in element order. */
    ghost function Representatives(): (r: seq<nat>)
      reads this, parent, rank
      requires Valid()
      ensures |r| == size && forall x :: 0 <= x < size ==> r[x] == Find(x)
    {
      var p, r := parent[..], rank[..];
      seq(size, x requires 0 <= x < |p| && RankOrdered(p, r) => Root(p, r, x))
    }

    /** MAKE-SET for every element: each element alone in its own set. */
    constructor (size: nat)
      ensures Valid() && this.size == size && fresh(parent) && fresh(rank)
      ensures forall x :: 0 <= x < size ==> Find(x) == x
    {
      this.size := size;
      parent := new nat[size](i => i);
      rank := new nat[size](_ => 0);
    }

    /** FIND-SET with path compression: the representative of x; no element changes set. */
    method FindSet(x: nat) returns (root: nat)
      requires Valid() && x < size
      modifies parent
      ensures Valid()
      ensures root == old(Find(x)) && parent[x] == root
      ensures forall y :: 0 <= y < size ==> Find(y) == old(Find(y))
      decreases Above(rank[..], x)
    {
      if parent[x] != x {
        AboveShrinks(rank[..], x, parent[x]);
        root := FindSet(parent[x]);
        ghost var p, r := parent[..], rank[..];
        assert root == Root(p, r, x) by {
          assert Find(x) == old(Find(x));
        }
        forall y | 0 <= y < size
          ensures Root(p[x := root], r, y) == Root(p, r, y)
        {
          CompressKeepsRoots(p, r, x, y);
        }
        CompressKeepsRoots(p, r, x, x);
        parent[x] := root;
        assert parent[..] == p[x := root];
      } else {
        root := x;
      }
    }

    /** LINK: the root of lower rank is hung under the other; on a tie the second root wins and gains a rank. */
    method Link(x: nat, y: nat)
      requires Valid() && x < size && y < size && parent[x] == x && parent[y] == y
      modifies parent, rank
      ensures Valid()
      ensures forall z :: 0 <= z < size ==>
        Find(z) == if old(Find(z)) == x || old(Find(z)) == y then (if old(rank[x]) > old(rank[y]) then x else y) else old(Find(z))
    {
      ghost var p, r := parent[..], rank[..];
      if rank[x] > rank[y] {
        parent[y] := x;
        forall z | 0 <= z < size
          ensures Root(parent[..], rank[..], z) == if Root(p, r, z) == y then x else Root(p, r, z)
        {
          LinkMovesRoots(p, r, r, y, x, z);
        }
      } else {
        parent[x] := y;
        if rank[x] == rank[y] {
          rank[y] := rank[y] + 1;
        }
        forall z | 0 <= z < size
          ensures Root(parent[..], rank[..], z) == if Root(p, r, z) == x then y else Root(p, r, z)
        {
          LinkMovesRoots(p, r, rank[..], x, y, z);
        }
      }
    }

    /** UNION: merges the sets of x and y; every other set is unchanged. */
    method Union(x: nat, y: nat)
      requires Valid() && x < size && y < size
      modifies parent, rank
      ensures Valid()
      ensures Find(x) == Find(y)
      ensures Find(x) == old(Find(x)) || Find(x) == old(Find(y))
      ensures forall z :: 0 <= z < size ==>
        Find(z) == if old(Find(z)) == old(Find(x)) || old(Find(z)) == old(Find(y)) then Find(x) else old(Find(z))
    {
      var a := FindSet(x);
      var b := FindSet(y);
      Link(a, b);
    }
  }
}
