/**
 The transaction dependency graph: every vertex carries the two edge maps `succs` and
 `preds`, and an edge's relation byte is stored on both sides.
 */
module DepGraph {

  datatype Graph<V(==)> = Graph(succs: map<V, map<V, bv8>>, preds: map<V, map<V, bv8>>)

  /** `u` has an edge to `v`. */
  predicate Edge<V>(g: Graph<V>, u: V, v: V) {
    u in g.succs && v in g.succs[u]
  }

  /** Both edge maps stay inside the graph and mirror each other, relation included. */
  ghost predicate Valid<V(!new)>(g: Graph<V>) {
    && g.succs.Keys == g.preds.Keys
    && (forall u, v :: Edge(g, u, v) ==> v in g.preds && u in g.preds[v] && g.preds[v][u] == g.succs[u][v])
    && (forall u, v :: v in g.preds && u in g.preds[v] ==> Edge(g, u, v))
  }

  /** A walk along edges; one vertex alone is a walk. */
  ghost predicate IsPath<V>(g: Graph<V>, p: seq<V>) {
    |p| > 0 && forall i, j :: 0 <= i < j < |p| && j == i + 1 ==> Edge(g, p[i], p[j])
  }

  ghost predicate PathFromTo<V>(g: Graph<V>, p: seq<V>, u: V, v: V) {
    IsPath(g, p) && p[0] == u && p[|p| - 1] == v
  }

  ghost predicate Reach<V(!new)>(g: Graph<V>, u: V, v: V) {
    exists p :: PathFromTo(g, p, u, v)
  }

  /** Two vertices are in the same strongly connected component. */
  ghost predicate Mutual<V(!new)>(g: Graph<V>, u: V, v: V) {
    Reach(g, u, v) && Reach(g, v, u)
  }

  lemma ReachRefl<V(!new)>(g: Graph<V>, u: V)
    ensures Reach(g, u, u)
  {
    assert PathFromTo(g, [u], u, u);
  }

  lemma ReachEdge<V(!new)>(g: Graph<V>, u: V, v: V)
    requires Edge(g, u, v)
    ensures Reach(g, u, v)
  {
    assert PathFromTo(g, [u, v], u, v);
  }

  lemma ReachTrans<V(!new)>(g: Graph<V>, u: V, v: V, w: V)
    requires Reach(g, u, v) && Reach(g, v, w)
    ensures Reach(g, u, w)
  {
    var p :| PathFromTo(g, p, u, v);
    var q :| PathFromTo(g, q, v, w);
    assert PathFromTo(g, p + q[1..], u, w);
  }

  /** A set that no edge leaves is never left by a walk. */
  lemma {:induction false} ClosedUnderReach<V(!new)>(g: Graph<V>, s: set<V>, u: V, v: V)
    requires u in s && Reach(g, u, v)
    requires forall x, y {:trigger Edge(g, x, y)} :: x in s && Edge(g, x, y) ==> y in s
    ensures v in s
  {
    var p :| PathFromTo(g, p, u, v);
    var i := 0;
    while i < |p| - 1
      invariant 0 <= i < |p| && p[i] in s
    {
      assert Edge(g, p[i], p[i + 1]);
      i := i + 1;
    }
  }
}
