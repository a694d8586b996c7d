/** Finite directed graphs given by adjacency lists, paths, and reachability. */
module Graphs {

  /** Node u has the successors adj[u], in order and possibly repeated. */
  type Graph = seq<seq<nat>>

  ghost predicate Closed(g: Graph) {
    forall u, k :: 0 <= u < |g| && 0 <= k < |g[u]| ==> g[u][k] < |g|
  }

  predicate Edge(g: Graph, u: nat, v: nat) {
    u < |g| && v in g[u]
  }

  ghost predicate IsPath(g: Graph, p: seq<nat>) {
    && |p| > 0
    && (forall i :: 0 <= i < |p| ==> p[i] < |g|)
    && (forall i, j :: 0 <= i < j < |p| && j == i + 1 ==> Edge(g, p[i], p[j]))
  }

  ghost predicate PathFromTo(g: Graph, p: seq<nat>, u: nat, v: nat) {
    IsPath(g, p) && p[0] == u && p[|p| - 1] == v
  }

  ghost predicate Reach(g: Graph, u: nat, v: nat) {
    exists p :: PathFromTo(g, p, u, v)
  }

  /** u and v belong to the same strongly connected component. */
  ghost predicate Mutual(g: Graph, u: nat, v: nat) {
    Reach(g, u, v) && Reach(g, v, u)
  }

  /** u lies on a directed cycle (a self loop counts). */
  ghost predicate OnCycle(g: Graph, u: nat) {
    exists v :: Edge(g, u, v) && Reach(g, v, u)
  }

  ghost predicate Acyclic(g: Graph) {
    forall u: nat :: u < |g| ==> !OnCycle(g, u)
  }

  lemma {:induction false} ReachRefl(g: Graph, u: nat)
    requires u < |g|
    ensures Reach(g, u, u)
  {
    assert PathFromTo(g, [u], u, u);
  }

  lemma {:induction false} ReachEdge(g: Graph, u: nat, v: nat)
    requires Closed(g) && Edge(g, u, v)
    ensures Reach(g, u, v)
  {
    assert PathFromTo(g, [u, v], u, v);
  }

  lemma {:induction false} ReachTrans(g: Graph, u: nat, v: nat, w: nat)
    requires Reach(g, u, v) && Reach(g, v, w)
    ensures Reach(g, u, w)
  {
    var p :| PathFromTo(g, p, u, v);
    var q :| PathFromTo(g, q, v, w);
    assert PathFromTo(g, p + q[1..], u, w);
  }

  lemma {:induction false} MutualTrans(g: Graph, u: nat, v: nat, w: nat)
    requires Mutual(g, u, v) && Mutual(g, v, w)
    ensures Mutual(g, u, w)
  {
    ReachTrans(g, u, v, w);
    ReachTrans(g, w, v, u);
  }

  lemma {:induction false} PathReach(g: Graph, p: seq<nat>, i: nat, j: nat)
    requires IsPath(g, p) && i <= j < |p|
    ensures Reach(g, p[i], p[j])
  {
    assert PathFromTo(g, p[i..j + 1], p[i], p[j]);
  }

  lemma {:induction false} ExtendPath(g: Graph, p: seq<nat>, v: nat)
    requires IsPath(g, p) && Edge(g, p[|p| - 1], v) && v < |g|
    ensures IsPath(g, p + [v])
  {}

  /** A walk that leaves a set of nodes does so along some edge. */
  lemma {:induction false} FirstExit(g: Graph, p: seq<nat>, inside: set<nat>) returns (i: nat)
    requires IsPath(g, p) && p[0] in inside && p[|p| - 1] !in inside
    ensures i + 1 < |p| && p[i] in inside && p[i + 1] !in inside
  {
    i := 0;
    while p[i + 1] in inside
      invariant i + 1 < |p| && p[i] in inside
      decreases |p| - i
    {
      i := i + 1;
    }
  }

  /** A set that is closed under edges is closed under reachability. */
  lemma {:induction false} ClosedSetReach(g: Graph, inside: set<nat>, u: nat, v: nat)
    requires u in inside && Reach(g, u, v)
    requires forall x, y :: x in inside && Edge(g, x, y) ==> y in inside
    ensures v in inside
  {
    var p :| PathFromTo(g, p, u, v);
    if v !in inside {
      var i := FirstExit(g, p, inside);
      assert false;
    }
  }

}
