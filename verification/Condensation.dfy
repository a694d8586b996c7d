/**
 * The graph of components: which components are cyclic, which are reachable from the
 * roots, and how long the longest chain of components from a root is.
 */
module Condensation {
  import opened Graphs
  import opened FinishOrder
  import opened Components

  /** adj[c] is the set of other components that component c refers to. */
  type ComponentGraph = seq<set<nat>>

  ghost predicate EdgeBetween(g: Graph, comp: seq<nat>, c: nat, d: nat) {
    exists u: nat, v: nat :: u < |comp| && v < |comp| && Edge(g, u, v) && comp[u] == c && comp[v] == d
  }

  ghost predicate IsCondensation(g: Graph, comp: seq<nat>, adj: ComponentGraph) {
    forall c, d: nat :: 0 <= c < |adj| ==> (d in adj[c] <==> c != d && EdgeBetween(g, comp, c, d))
  }

  /** References only lead to components with higher numbers. */
  ghost predicate Forward(adj: ComponentGraph) {
    forall c, d :: 0 <= c < |adj| && d in adj[c] ==> c < d < |adj|
  }

  ghost predicate IsChain(adj: ComponentGraph, p: seq<nat>) {
    && |p| > 0
    && (forall i :: 0 <= i < |p| ==> p[i] < |adj|)
    && (forall i, j :: 0 <= i < j < |p| && j == i + 1 ==> p[j] in adj[p[i]])
  }

  ghost predicate ChainFromRoot(adj: ComponentGraph, roots: set<nat>, p: seq<nat>) {
    IsChain(adj, p) && p[0] in roots
  }

  ghost predicate RootChainTo(adj: ComponentGraph, roots: set<nat>, p: seq<nat>, c: nat) {
    ChainFromRoot(adj, roots, p) && p[|p| - 1] == c
  }

  /** No chain from a root has more than depth components, and one has exactly that many. */
  ghost predicate LongestChain(adj: ComponentGraph, roots: set<nat>, depth: nat) {
    && (forall p :: ChainFromRoot(adj, roots, p) ==> |p| <= depth)
    && (depth > 0 ==> exists p :: ChainFromRoot(adj, roots, p) && |p| == depth)
  }

  /** One of the references read so far leads from component c to component d. */
  ghost predicate Seen(g: Graph, comp: seq<nat>, from: nat, k: nat, c: nat, d: nat) {
    exists u: nat, j: nat :: (u < from || (u == from && j < k)) && SeenAt(g, comp, u, j, c, d)
  }

  ghost predicate SeenAt(g: Graph, comp: seq<nat>, u: nat, j: nat, c: nat, d: nat) {
    u < |g| && u < |comp| && j < |g[u]| && g[u][j] < |comp| && comp[u] == c && comp[g[u][j]] == d
  }

  lemma {:induction false} SeenOneMore(g: Graph, comp: seq<nat>, from: nat, k: nat, c: nat, d: nat)
    ensures Seen(g, comp, from, k + 1, c, d) <==> Seen(g, comp, from, k, c, d) || SeenAt(g, comp, from, k, c, d)
  {}

  lemma {:induction false} SeenRow(g: Graph, comp: seq<nat>, from: nat, c: nat, d: nat)
    requires from < |g|
    ensures Seen(g, comp, from + 1, 0, c, d) <==> Seen(g, comp, from, |g[from]|, c, d)
  {
    if Seen(g, comp, from + 1, 0, c, d) {
      var u: nat, j: nat :| (u < from + 1 || (u == from + 1 && j < 0)) && SeenAt(g, comp, u, j, c, d);
      assert u < from || (u == from && j < |g[from]|);
    }
    if Seen(g, comp, from, |g[from]|, c, d) {
      var u: nat, j: nat :| (u < from || (u == from && j < |g[from]|)) && SeenAt(g, comp, u, j, c, d);
      assert u < from + 1;
    }
  }

  lemma {:induction false} SeenAll(g: Graph, comp: seq<nat>, c: nat, d: nat)
    requires Closed(g) && |comp| == |g|
    ensures Seen(g, comp, |g|, 0, c, d) <==> EdgeBetween(g, comp, c, d)
  {
    if EdgeBetween(g, comp, c, d) {
      var u: nat, v: nat :| u < |comp| && v < |comp| && Edge(g, u, v) && comp[u] == c && comp[v] == d;
      var j: nat :| j < |g[u]| && g[u][j] == v;
      assert SeenAt(g, comp, u, j, c, d);
    }
    if Seen(g, comp, |g|, 0, c, d) {
      var u: nat, j: nat :| (u < |g| || (u == |g| && j < 0)) && SeenAt(g, comp, u, j, c, d);
      assert Edge(g, u, g[u][j]);
    }
  }

  /** The sets hold exactly the references read so far between different components. */
  ghost predicate Collected(g: Graph, comp: seq<nat>, sets: seq<set<nat>>, from: nat, k: nat) {
    forall c, d: nat :: 0 <= c < |sets| ==> (d in sets[c] <==> c != d && Seen(g, comp, from, k, c, d))
  }

  lemma {:induction false} CollectedOneMore(g: Graph, comp: seq<nat>, sets: seq<set<nat>>, after: seq<set<nat>>,
      from: nat, k: nat)
    requires from < |g| && from < |comp| && k < |g[from]| && g[from][k] < |comp| && comp[from] < |sets|
    requires Collected(g, comp, sets, from, k)
    requires after == if comp[from] == comp[g[from][k]] then sets
                      else sets[comp[from] := sets[comp[from]] + {comp[g[from][k]]}]
    ensures Collected(g, comp, after, from, k + 1)
  {
    forall c, d: nat | 0 <= c < |sets| ensures d in after[c] <==> c != d && Seen(g, comp, from, k + 1, c, d) {
      SeenOneMore(g, comp, from, k, c, d);
    }
  }

  lemma {:induction false} CollectedRow(g: Graph, comp: seq<nat>, sets: seq<set<nat>>, from: nat)
    requires from < |g| && Collected(g, comp, sets, from, |g[from]|)
    ensures Collected(g, comp, sets, from + 1, 0)
  {
    forall c, d: nat | 0 <= c < |sets| ensures d in sets[c] <==> c != d && Seen(g, comp, from + 1, 0, c, d) {
      SeenRow(g, comp, from, c, d);
    }
  }

  lemma {:induction false} CollectedAll(g: Graph, comp: seq<nat>, members: seq<seq<nat>>, adj: ComponentGraph)
    requires Closed(g) && IsComponents(g, comp, members) && |adj| == |members| && Collected(g, comp, adj, |g|, 0)
    ensures IsCondensation(g, comp, adj) && Forward(adj)
  {
    forall c, d: nat | 0 <= c < |adj| ensures d in adj[c] <==> c != d && EdgeBetween(g, comp, c, d) {
      SeenAll(g, comp, c, d);
    }
  }

  /** The references between components, read off the references between nodes. */
  method Condense(g: Graph, comp: seq<nat>, members: seq<seq<nat>>) returns (adj: ComponentGraph)
    requires Closed(g) && IsComponents(g, comp, members)
    ensures |adj| == |members| && IsCondensation(g, comp, adj) && Forward(adj)
  {
    var sets := new set<nat>[|members|](_ => {});
    for from := 0 to |g|
      invariant Collected(g, comp, sets[..], from, 0)
    {
      for k := 0 to |g[from]|
        invariant Collected(g, comp, sets[..], from, k)
      {
        var fromComponent, toComponent := comp[from], comp[g[from][k]];
        ghost var before := sets[..];
        if fromComponent != toComponent {
          sets[fromComponent] := sets[fromComponent] + {toComponent};
        }
        CollectedOneMore(g, comp, before, sets[..], from, k);
      }
      CollectedRow(g, comp, sets[..], from);
    }
    CollectedAll(g, comp, members, sets[..]);
    adj := sets[..];
  }

  /** Components with several members, and single nodes that refer to themselves. */
  method CyclicComponents(g: Graph, comp: seq<nat>, members: seq<seq<nat>>) returns (cyclic: set<nat>)
    requires Closed(g) && IsComponents(g, comp, members)
    ensures forall v: nat :: v < |g| ==> (comp[v] in cyclic <==> OnCycle(g, v))
    ensures forall c :: c in cyclic ==> c < |members|
  {
    cyclic := {};
    for c := 0 to |members|
      invariant forall d :: d in cyclic ==> d < c
      invariant forall v: nat :: v < |g| && comp[v] < c ==> (comp[v] in cyclic <==> OnCycle(g, v))
    {
      forall v: nat | v < |g| && comp[v] == c
        ensures OnCycle(g, v) <==> |members[c]| > 1 || Edge(g, members[c][0], members[c][0])
      {
        CyclicMember(g, comp, members, c, v);
      }
      assert members[c][0] in members[c];
      if |members[c]| > 1 {
        cyclic := cyclic + {c};
      } else if members[c][0] in g[members[c][0]] {
        cyclic := cyclic + {c};
      }
    }
  }

  lemma {:induction false} CyclicMember(g: Graph, comp: seq<nat>, members: seq<seq<nat>>, c: nat, v: nat)
    requires Closed(g) && IsComponents(g, comp, members) && c < |members|
    requires v < |g| && comp[v] == c
    ensures OnCycle(g, v) <==> |members[c]| > 1 || Edge(g, members[c][0], members[c][0])
  {
    assert v in members[c];
    var i :| 0 <= i < |members[c]| && members[c][i] == v;
    if |members[c]| > 1 {
      var w := if i == 0 then members[c][1] else members[c][0];
      assert w in members[c];
      assert Mutual(g, v, w);
      var p :| PathFromTo(g, p, v, w);
      assert Edge(g, p[0], p[1]);
      PathReach(g, p, 1, |p| - 1);
      ReachTrans(g, p[1], w, v);
    }
    if Edge(g, v, v) {
      ReachRefl(g, v);
    }
    if OnCycle(g, v) {
      var w :| Edge(g, v, w) && Reach(g, w, v);
      ReachEdge(g, v, w);
      assert w in members[c];
    }
  }

  ghost predicate RootClosed(adj: ComponentGraph, roots: set<nat>, reachable: set<nat>) {
    && roots <= reachable
    && (forall c :: c in reachable ==> c < |adj|)
    && (forall c, d :: c in reachable && d in adj[c] ==> d in reachable)
  }

  /** The components that some chain from a root ends in. */
  ghost predicate IsReachable(adj: ComponentGraph, roots: set<nat>, reachable: set<nat>) {
    && RootClosed(adj, roots, reachable)
    && (forall c :: c in reachable ==> exists p :: RootChainTo(adj, roots, p, c))
  }

  lemma {:induction false} ExtendChain(adj: ComponentGraph, roots: set<nat>, c: nat, d: nat, p: seq<nat>)
    requires Forward(adj) && RootChainTo(adj, roots, p, c) && d in adj[c]
    ensures RootChainTo(adj, roots, p + [d], d)
  {}

  lemma {:induction false} ChainStays(adj: ComponentGraph, roots: set<nat>, reachable: set<nat>, p: seq<nat>, i: nat)
    requires RootClosed(adj, roots, reachable) && ChainFromRoot(adj, roots, p) && i < |p|
    ensures p[i] in reachable
  {
    if i > 0 {
      ChainStays(adj, roots, reachable, p, i - 1);
    }
  }

  /** A set's elements in some order. */
  method Elements(s: set<nat>) returns (r: seq<nat>)
    ensures Distinct(r) && forall v :: v in r <==> v in s
  {
    r := [];
    var rest := s;
    while rest != {}
      invariant rest <= s && Distinct(r)
      invariant forall v :: v in r <==> v in s - rest
    {
      var v :| v in rest;
      assert v !in r;
      assert forall i :: 0 <= i < |r| ==> r[i] in r;
      r := r + [v];
      rest := rest - {v};
    }
  }

  ghost predicate ReachInv(adj: ComponentGraph, roots: set<nat>, reachable: set<nat>, stack: seq<nat>) {
    && Forward(adj)
    && (forall c :: c in roots ==> c in reachable || c in stack)
    && (forall c :: c in reachable || c in stack ==> c < |adj|)
    && (forall c :: c in reachable || c in stack ==> exists p :: RootChainTo(adj, roots, p, c))
    && (forall c, d :: c in reachable && c < |adj| && d in adj[c] ==> d in reachable || d in stack)
  }

  lemma {:induction false} ReachVisit(adj: ComponentGraph, roots: set<nat>, reachable: set<nat>, stack: seq<nat>,
      c: nat, more: seq<nat>)
    requires ReachInv(adj, roots, reachable, stack + [c])
    requires c < |adj| && forall d :: d in more <==> d in adj[c]
    ensures ReachInv(adj, roots, reachable + {c}, stack + more)
  {
    assert c in stack + [c];
    forall d | d in more ensures exists p :: RootChainTo(adj, roots, p, d) {
      var p :| RootChainTo(adj, roots, p, c);
      ExtendChain(adj, roots, c, d, p);
    }
    assert forall d :: d in stack + [c] <==> d in stack || d == c;
    assert forall d :: d in stack + more <==> d in stack || d in more;
  }

  lemma {:induction false} ReachSkip(adj: ComponentGraph, roots: set<nat>, reachable: set<nat>, stack: seq<nat>, c: nat)
    requires ReachInv(adj, roots, reachable, stack + [c]) && c in reachable
    ensures ReachInv(adj, roots, reachable, stack)
  {
    assert forall d :: d in stack + [c] <==> d in stack || d == c;
  }

  lemma {:induction false} ReachStart(adj: ComponentGraph, rootComponents: seq<nat>)
    requires Forward(adj) && forall c :: c in rootComponents ==> c < |adj|
    ensures ReachInv(adj, (set c | c in rootComponents), {}, rootComponents)
  {
    var roots := set c | c in rootComponents;
    forall c | c in rootComponents ensures exists p :: RootChainTo(adj, roots, p, c) {
      assert RootChainTo(adj, roots, [c], c);
    }
  }

  lemma {:induction false} ReachTop(
    adj: ComponentGraph, roots: set<nat>, reachable: set<nat>, stack: seq<nat>, rest: seq<nat>, top: nat)
    requires ReachInv(adj, roots, reachable, stack)
    requires stack != [] && rest == stack[..|stack| - 1] && top == stack[|stack| - 1]
    ensures top < |adj| && top in Below(|adj|) && ReachInv(adj, roots, reachable, rest + [top])
  {
    assert stack[|stack| - 1] in stack;
    assert stack == rest + [top];
  }

  ghost function Below(n: nat): (s: set<nat>)
    ensures forall v: nat :: v in s <==> v < n
  {
    if n == 0 then {} else Below(n - 1) + {n - 1}
  }

  /** Take the top of the stack: skip it if it was visited, otherwise visit it and stack its targets. */
  method VisitTop(adj: ComponentGraph, ghost roots: set<nat>, reachable: set<nat>, stack: seq<nat>)
    returns (visited: set<nat>, pending: seq<nat>)
    requires ReachInv(adj, roots, reachable, stack) && stack != []
    ensures ReachInv(adj, roots, visited, pending)
    ensures (visited == reachable && |pending| < |stack|) || exists c :: c in Below(|adj|) && c !in reachable && visited == reachable + {c}
  {
    var component, rest := stack[|stack| - 1], stack[..|stack| - 1];
    ReachTop(adj, roots, reachable, stack, rest, component);
    if component in reachable {
      ReachSkip(adj, roots, reachable, rest, component);
      return reachable, rest;
    }
    var targets := Elements(adj[component]);
    ReachVisit(adj, roots, reachable, rest, component, targets);
    return reachable + {component}, rest + targets;
  }

  lemma {:induction false} AllReached(adj: ComponentGraph, roots: set<nat>, reachable: set<nat>)
    requires ReachInv(adj, roots, reachable, [])
    ensures IsReachable(adj, roots, reachable)
  {}

  method ReachableComponents(adj: ComponentGraph, rootComponents: seq<nat>) returns (reachable: set<nat>)
    requires Forward(adj) && forall c :: c in rootComponents ==> c < |adj|
    ensures IsReachable(adj, (set c | c in rootComponents), reachable)
  {
    ghost var roots := set c | c in rootComponents;
    reachable := {};
    var reachStack := rootComponents;
    ReachStart(adj, rootComponents);
    while |reachStack| > 0
      invariant ReachInv(adj, roots, reachable, reachStack)
      decreases Below(|adj|) - reachable, |reachStack|
    {
      reachable, reachStack := VisitTop(adj, roots, reachable, reachStack);
    }
    assert reachStack == [];
    AllReached(adj, roots, reachable);
  }
}
