/**
 * The depth of a graph, without reference to any numbering of its components: the longest
 * walk from a root along which no step can be undone.
 */
module Descents {
  import opened Graphs
  import opened FinishOrder
  import opened Components
  import opened Condensation

  /** Every node reaches the next one and is not reached from it. */
  ghost predicate Descent(g: Graph, p: seq<nat>) {
    && |p| > 0
    && (forall i :: 0 <= i < |p| ==> p[i] < |g|)
    && (forall i, j :: 0 <= i < j < |p| && j == i + 1 ==> Reach(g, p[i], p[j]) && !Reach(g, p[j], p[i]))
  }

  /** A descent from one of the roots; without roots every node counts as one. */
  ghost predicate DescentFrom(g: Graph, roots: seq<nat>, p: seq<nat>) {
    Descent(g, p) && (roots == [] || p[0] in roots)
  }

  /** No descent from a root has more than depth nodes, and one has exactly that many. */
  ghost predicate LongestDescent(g: Graph, roots: seq<nat>, depth: nat) {
    && (forall p :: DescentFrom(g, roots, p) ==> |p| <= depth)
    && (depth > 0 ==> exists p :: DescentFrom(g, roots, p) && |p| == depth)
  }

  /** The components of the roots, or every component if no root is given. */
  ghost function RootComponents(comp: seq<nat>, roots: seq<nat>, count: nat): set<nat>
    requires forall r :: r in roots ==> r < |comp|
  {
    if roots == [] then Below(count) else set r | r in roots :: comp[r]
  }

  /** A numbering of the components of a graph, and the references between them. */
  ghost predicate IsCondensed(g: Graph, roots: seq<nat>, comp: seq<nat>, members: seq<seq<nat>>, adj: ComponentGraph) {
    && Closed(g) && IsComponents(g, comp, members) && |adj| == |members| && IsCondensation(g, comp, adj) && Forward(adj)
    && forall r :: r in roots ==> r < |g|
  }

  /** Walking on along a path, a chain of components gets no shorter, and longer once the component is left. */
  lemma {:induction false} ChainAlong(g: Graph, roots: seq<nat>, comp: seq<nat>, members: seq<seq<nat>>, adj: ComponentGraph,
                                      chain: seq<nat>, path: seq<nat>) returns (r: seq<nat>)
    requires IsCondensed(g, roots, comp, members, adj) && IsPath(g, path)
    requires RootChainTo(adj, RootComponents(comp, roots, |adj|), chain, comp[path[0]])
    ensures RootChainTo(adj, RootComponents(comp, roots, |adj|), r, comp[path[|path| - 1]])
    ensures |r| >= |chain| && (comp[path[0]] != comp[path[|path| - 1]] ==> |r| > |chain|)
    decreases |path|
  {
    if |path| == 1 {
      r := chain;
    } else {
      var next := chain;
      assert Edge(g, path[0], path[1]);
      if comp[path[0]] != comp[path[1]] {
        assert EdgeBetween(g, comp, comp[path[0]], comp[path[1]]);
        ExtendChain(adj, RootComponents(comp, roots, |adj|), comp[path[0]], comp[path[1]], chain);
        next := chain + [comp[path[1]]];
      }
      r := ChainAlong(g, roots, comp, members, adj, next, path[1..]);
    }
  }

  /** A descent gives a chain of components at least as long. */
  lemma {:induction false} ChainOfDescent(g: Graph, roots: seq<nat>, comp: seq<nat>, members: seq<seq<nat>>,
      adj: ComponentGraph, p: seq<nat>)
    returns (r: seq<nat>)
    requires IsCondensed(g, roots, comp, members, adj) && DescentFrom(g, roots, p)
    ensures RootChainTo(adj, RootComponents(comp, roots, |adj|), r, comp[p[|p| - 1]]) && |r| >= |p|
    decreases |p|
  {
    if |p| == 1 {
      r := [comp[p[0]]];
      assert ChainFromRoot(adj, RootComponents(comp, roots, |adj|), r);
    } else {
      var n := |p| - 1;
      assert Descent(g, p[..n]);
      var front := ChainOfDescent(g, roots, comp, members, adj, p[..n]);
      assert Reach(g, p[n - 1], p[n]) && !Reach(g, p[n], p[n - 1]);
      var path :| PathFromTo(g, path, p[n - 1], p[n]);
      assert !Mutual(g, p[n - 1], p[n]);
      r := ChainAlong(g, roots, comp, members, adj, front, path);
    }
  }

  /** One node of a component in which a chain may begin. */
  lemma {:induction false} RootNode(g: Graph, roots: seq<nat>, comp: seq<nat>, members: seq<seq<nat>>,
      adj: ComponentGraph, c: nat)
    returns (v: nat)
    requires IsCondensed(g, roots, comp, members, adj) && c < |adj| && c in RootComponents(comp, roots, |adj|)
    ensures v < |g| && comp[v] == c && (roots == [] || v in roots)
  {
    if roots == [] {
      v := members[c][0];
      assert v in members[c];
    } else {
      v :| v in roots && comp[v] == c;
    }
  }

  /** The step from one component to the next cannot be undone. */
  lemma {:induction false} StepDown(g: Graph, roots: seq<nat>, comp: seq<nat>, members: seq<seq<nat>>,
      adj: ComponentGraph, x: nat, d: nat)
    returns (v: nat)
    requires IsCondensed(g, roots, comp, members, adj) && x < |g| && d in adj[comp[x]]
    ensures v < |g| && comp[v] == d && Reach(g, x, v) && !Reach(g, v, x)
  {
    var u: nat, w: nat :| u < |comp| && w < |comp| && Edge(g, u, w) && comp[u] == comp[x] && comp[w] == d;
    v := w;
    assert Mutual(g, x, u);
    ReachEdge(g, u, v);
    ReachTrans(g, x, u, v);
    assert !Mutual(g, x, v);
  }

  /** A chain of components gives a descent just as long. */
  lemma {:induction false} DescentOfChain(g: Graph, roots: seq<nat>, comp: seq<nat>, members: seq<seq<nat>>,
      adj: ComponentGraph, chain: seq<nat>)
    returns (p: seq<nat>)
    requires IsCondensed(g, roots, comp, members, adj) && ChainFromRoot(adj, RootComponents(comp, roots, |adj|), chain)
    ensures DescentFrom(g, roots, p) && |p| == |chain| && comp[p[|p| - 1]] == chain[|chain| - 1]
    decreases |chain|
  {
    var n := |chain| - 1;
    if n == 0 {
      var v := RootNode(g, roots, comp, members, adj, chain[0]);
      p := [v];
    } else {
      assert ChainFromRoot(adj, RootComponents(comp, roots, |adj|), chain[..n]);
      var front := DescentOfChain(g, roots, comp, members, adj, chain[..n]);
      assert chain[n] in adj[chain[n - 1]];
      var v := StepDown(g, roots, comp, members, adj, front[n - 1], chain[n]);
      p := front + [v];
    }
  }

  /** The longest chain of components is as long as the longest descent, however the components are numbered. */
  lemma {:induction false} LongestChainIsLongestDescent(
    g: Graph, roots: seq<nat>, comp: seq<nat>, members: seq<seq<nat>>, adj: ComponentGraph, depth: nat)
    requires IsCondensed(g, roots, comp, members, adj)
    ensures LongestChain(adj, RootComponents(comp, roots, |adj|), depth) <==> LongestDescent(g, roots, depth)
  {
    var starts := RootComponents(comp, roots, |adj|);
    if LongestChain(adj, starts, depth) {
      forall p | DescentFrom(g, roots, p) ensures |p| <= depth {
        var chain := ChainOfDescent(g, roots, comp, members, adj, p);
        assert ChainFromRoot(adj, starts, chain);
      }
      if depth > 0 {
        var chain :| ChainFromRoot(adj, starts, chain) && |chain| == depth;
        var p := DescentOfChain(g, roots, comp, members, adj, chain);
      }
    }
    if LongestDescent(g, roots, depth) {
      forall chain | ChainFromRoot(adj, starts, chain) ensures |chain| <= depth {
        var p := DescentOfChain(g, roots, comp, members, adj, chain);
      }
      if depth > 0 {
        var p :| DescentFrom(g, roots, p) && |p| == depth;
        var chain := ChainOfDescent(g, roots, comp, members, adj, p);
        assert ChainFromRoot(adj, starts, chain);
        var q := DescentOfChain(g, roots, comp, members, adj, chain);
      }
    }
  }
}
