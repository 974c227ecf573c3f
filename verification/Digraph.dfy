// Finite directed graphs as adjacency maps, with reachability by explicit paths.
// Shared by the planner's task graphs, the saved task table and the plugin graph.
module Digraph {
  type Graph<T(==)> = map<T, set<T>>

  predicate Edge<T(==)>(g: Graph<T>, x: T, y: T) {
    x in g && y in g[x]
  }

  // A nonempty sequence of nodes, each with an edge to the next.
  ghost predicate Path<T>(g: Graph<T>, p: seq<T>) {
    && |p| > 0
    && forall k :: 0 <= k < |p| - 1 ==> Edge(g, p[k], p[k + 1])
  }

  ghost predicate PathFromTo<T>(g: Graph<T>, p: seq<T>, x: T, y: T) {
    Path(g, p) && p[0] == x && p[|p| - 1] == y
  }

  // There is a path, possibly of no edges.
  ghost predicate Reaches<T(!new)>(g: Graph<T>, x: T, y: T) {
    exists p :: PathFromTo(g, p, x, y)
  }

  // There is a path of at least one edge.
  ghost predicate ReachesStrictly<T(!new)>(g: Graph<T>, x: T, y: T) {
    exists p :: PathFromTo(g, p, x, y) && |p| > 1
  }

  ghost predicate Acyclic<T(!new)>(g: Graph<T>) {
    forall x :: !ReachesStrictly(g, x, x)
  }

  ghost predicate Subgraph<T(!new)>(g: Graph<T>, h: Graph<T>) {
    forall x, y :: Edge(g, x, y) ==> Edge(h, x, y)
  }

  lemma ReachesSelf<T(!new)>(g: Graph<T>, x: T)
    ensures Reaches(g, x, x)
  {
    assert PathFromTo(g, [x], x, x);
  }

  lemma PathSlice<T>(g: Graph<T>, p: seq<T>, j: nat, k: nat)
    requires Path(g, p) && j < k <= |p|
    ensures Path(g, p[j..k])
  {
    var q := p[j..k];
    forall i | 0 <= i < |q| - 1
      ensures Edge(g, q[i], q[i + 1])
    {
      assert q[i] == p[j + i] && q[i + 1] == p[j + i + 1];
    }
  }

  lemma PathConcat<T>(g: Graph<T>, p: seq<T>, q: seq<T>, x: T, y: T, z: T)
    requires PathFromTo(g, p, x, y) && PathFromTo(g, q, y, z)
    ensures PathFromTo(g, p + q[1..], x, z)
  {
    var r := p + q[1..];
    forall k | 0 <= k < |r| - 1
      ensures Edge(g, r[k], r[k + 1])
    {
      if k < |p| - 1 {
        assert r[k] == p[k] && r[k + 1] == p[k + 1];
      } else {
        assert r[k] == q[k - (|p| - 1)] && r[k + 1] == q[k + 1 - (|p| - 1)];
      }
    }
  }

  lemma ReachesTransitive<T(!new)>(g: Graph<T>, x: T, y: T, z: T)
    requires Reaches(g, x, y) && Reaches(g, y, z)
    ensures Reaches(g, x, z)
  {
    var p :| PathFromTo(g, p, x, y);
    var q :| PathFromTo(g, q, y, z);
    PathConcat(g, p, q, x, y, z);
  }

  lemma EdgeReaches<T(!new)>(g: Graph<T>, x: T, y: T)
    requires Edge(g, x, y)
    ensures Reaches(g, x, y)
  {
    assert PathFromTo(g, [x, y], x, y);
  }

  // Reachability unfolds at its first edge.
  lemma ReachesIff<T(!new)>(g: Graph<T>, x: T, y: T)
    ensures Reaches(g, x, y) <==> x == y || exists z :: Edge(g, x, z) && Reaches(g, z, y)
  {
    if x == y {
      ReachesSelf(g, x);
    } else if Reaches(g, x, y) {
      var p :| PathFromTo(g, p, x, y);
      assert Edge(g, p[0], p[1]);
      assert PathFromTo(g, p[1..], p[1], y);
    }
    forall z | Edge(g, x, z) && Reaches(g, z, y)
      ensures Reaches(g, x, y)
    {
      EdgeReaches(g, x, z);
      ReachesTransitive(g, x, z, y);
    }
  }

  lemma FirstStep<T(!new)>(g: Graph<T>, x: T, y: T) returns (z: T)
    requires Reaches(g, x, y) && x != y
    ensures Edge(g, x, z) && Reaches(g, z, y)
  {
    ReachesIff(g, x, y);
    z :| Edge(g, x, z) && Reaches(g, z, y);
  }

  lemma EdgeThenReaches<T(!new)>(g: Graph<T>, x: T, z: T, y: T)
    requires Edge(g, x, z) && Reaches(g, z, y)
    ensures Reaches(g, x, y)
  {
    ReachesIff(g, x, y);
  }

  lemma SubgraphReaches<T(!new)>(g: Graph<T>, h: Graph<T>, x: T, y: T)
    requires Subgraph(g, h) && Reaches(g, x, y)
    ensures Reaches(h, x, y)
  {
    var p :| PathFromTo(g, p, x, y);
    assert PathFromTo(h, p, x, y);
  }
}
