/** The normalizer: from flat rows to a closed type graph with its cycles and its depth. */
module Metadata {
  import opened Graphs
  import opened FinishOrder
  import opened Components
  import opened Condensation
  import opened Descents
  import opened LongestChains
  import opened MetadataNodes
  import opened MetadataReferences
  import opened MetadataFunctions

  /** The nodes that the references of a field list lead to, in order. */
  function Targets(byName: map<string, nat>, fields: seq<Field>): (r: seq<nat>)
    requires forall k :: 0 <= k < |fields| && fields[k].reference.NodeReference? ==> fields[k].reference.target in byName
  {
    if fields == [] then []
    else
      var n := |fields| - 1;
      Targets(byName, fields[..n]) + (if fields[n].reference.NodeReference? then [byName[fields[n].reference.target]] else [])
  }

  lemma {:induction false} TargetsMember(byName: map<string, nat>, fields: seq<Field>, v: nat)
    requires forall k :: 0 <= k < |fields| && fields[k].reference.NodeReference? ==> fields[k].reference.target in byName
    ensures v in Targets(byName, fields) <==>
            exists k :: 0 <= k < |fields| && fields[k].reference.NodeReference? && byName[fields[k].reference.target] == v
    decreases |fields|
  {
    if fields != [] {
      var n := |fields| - 1;
      TargetsMember(byName, fields[..n], v);
      assert forall k :: 0 <= k < n ==> fields[..n][k] == fields[k];
      if k :| 0 <= k < |fields| && fields[k].reference.NodeReference? && byName[fields[k].reference.target] == v {
        if k < n {
          assert fields[..n][k] == fields[k];
        }
      }
    }
  }

  /** The type graph on node positions. */
  function Adjacency(nodes: seq<Node>): (g: Graph)
    requires TargetsClosed(nodes)
    ensures |g| == |nodes|
  {
    seq(|nodes|, i requires 0 <= i < |nodes| =>
      assert forall k :: 0 <= k < |nodes[i].fields| ==> TargetOk(nodes, nodes[i].fields[k].reference);
      Targets(IndexByName(nodes), nodes[i].fields))
  }

  /** Field k of node u refers to node v. */
  ghost predicate Refers(nodes: seq<Node>, u: nat, k: nat, v: nat) {
    && u < |nodes| && k < |nodes[u].fields| && nodes[u].fields[k].reference.NodeReference?
    && nodes[u].fields[k].reference.target in IndexByName(nodes)
    && IndexByName(nodes)[nodes[u].fields[k].reference.target] == v
  }

  lemma {:induction false} EdgeIsReference(nodes: seq<Node>, u: nat, v: nat)
    requires TargetsClosed(nodes)
    ensures Edge(Adjacency(nodes), u, v) <==> exists k :: Refers(nodes, u, k, v)
  {
    if u < |nodes| {
      assert forall k :: 0 <= k < |nodes[u].fields| ==> TargetOk(nodes, nodes[u].fields[k].reference);
      TargetsMember(IndexByName(nodes), nodes[u].fields, v);
      if k: nat :| && k < |nodes[u].fields| && nodes[u].fields[k].reference.NodeReference?
                   && IndexByName(nodes)[nodes[u].fields[k].reference.target] == v {
        assert Refers(nodes, u, k, v);
      }
    }
  }

  lemma {:induction false} AdjacencyClosed(nodes: seq<Node>)
    requires TargetsClosed(nodes)
    ensures Closed(Adjacency(nodes))
  {
    var g := Adjacency(nodes);
    forall u, k | 0 <= u < |g| && 0 <= k < |g[u]| ensures g[u][k] < |g| {
      EdgeIsReference(nodes, u, g[u][k]);
      assert Edge(g, u, g[u][k]);
      var m :| Refers(nodes, u, m, g[u][k]);
    }
  }

  datatype ComponentData = ComponentData(
    componentByNode: seq<nat>, nodesByComponent: seq<seq<nat>>, cyclicComponents: set<nat>, maximumDepth: nat)

  ghost predicate ComponentsOk(g: Graph, c: ComponentData) {
    && IsComponents(g, c.componentByNode, c.nodesByComponent)
    && (forall v: nat :: v < |g| ==> (c.componentByNode[v] in c.cyclicComponents <==> OnCycle(g, v)))
    && (forall d :: d in c.cyclicComponents ==> d < |c.nodesByComponent|)
  }

  method RootComponentList(comp: seq<nat>, roots: seq<nat>, count: nat) returns (list: seq<nat>)
    requires forall r :: r in roots ==> r < |comp| && comp[r] < count
    ensures (set c | c in list) == RootComponents(comp, roots, count)
    ensures forall c :: c in list ==> c < count
  {
    list := [];
    assert forall m :: 0 <= m < |roots| ==> roots[m] in roots;
    if roots == [] {
      for c := 0 to count
        invariant forall d: nat :: d in list <==> d < c
      {
        list := list + [c];
      }
    } else {
      for k := 0 to |roots|
        invariant forall d :: d in list <==> exists m :: 0 <= m < k && comp[roots[m]] == d
      {
        assert roots[k] in roots;
        list := list + [comp[roots[k]]];
      }
      forall d ensures d in list <==> d in RootComponents(comp, roots, count) {
        if d in list {
          var m :| 0 <= m < |roots| && comp[roots[m]] == d;
          assert roots[m] in roots;
        }
        if d in RootComponents(comp, roots, count) {
          var r :| r in roots && comp[r] == d;
          var m :| 0 <= m < |roots| && roots[m] == r;
        }
      }
    }
  }

  /**
   * The component analysis of a graph. It is refused exactly when the longest descent from
   * a root is longer than maxDepth.
   */
  method GraphComponents(g: Graph, roots: seq<nat>, maxDepth: nat) returns (r: Result<ComponentData>, ghost depth: nat)
    requires Closed(g) && forall r :: r in roots ==> r < |g|
    ensures LongestDescent(g, roots, depth)
    ensures r == Err(DepthLimit) || r.Ok?
    ensures r.Ok? <==> depth <= maxDepth
    ensures r.Ok? ==> ComponentsOk(g, r.value) && r.value.maximumDepth == depth
  {
    var componentByNode, nodesByComponent := FindComponents(g);
    var cyclic := CyclicComponents(g, componentByNode, nodesByComponent);
    var componentAdjacency := Condense(g, componentByNode, nodesByComponent);
    assert forall r :: r in roots ==> componentByNode[r] < |nodesByComponent|;
    var rootComponents := RootComponentList(componentByNode, roots, |nodesByComponent|);
    var maximumDepth := LongestDepth(componentAdjacency, rootComponents);
    LongestChainIsLongestDescent(g, roots, componentByNode, nodesByComponent, componentAdjacency, maximumDepth);
    depth := maximumDepth;
    if maximumDepth > maxDepth {
      r := Err(DepthLimit);
    } else {
      r := Ok(ComponentData(componentByNode, nodesByComponent, cyclic, maximumDepth));
    }
  }

  ghost predicate FromRoots(g: Graph, roots: seq<nat>, v: nat) {
    exists r :: r in roots && Reach(g, r, v)
  }

  /** The nodes reachable from the roots, by a worklist. */
  method ReachableNodes(g: Graph, roots: seq<nat>) returns (reachable: set<nat>)
    requires Closed(g) && forall r :: r in roots ==> r < |g|
    ensures forall v: nat :: v in reachable <==> FromRoots(g, roots, v)
    ensures forall v :: v in reachable ==> v < |g|
  {
    reachable := {};
    var stack := roots;
    forall r | r in roots ensures FromRoots(g, roots, r) {
      ReachRefl(g, r);
    }
    while |stack| > 0
      invariant NodeReachInv(g, roots, reachable, stack)
      decreases Below(|g|) - reachable, |stack|
    {
      var node, rest := stack[|stack| - 1], stack[..|stack| - 1];
      assert stack == rest + [node];
      NodeReachStep(g, roots, reachable, rest, node);
      if node in reachable {
        stack := rest;
      } else {
        assert node in Below(|g|);
        reachable, stack := reachable + {node}, rest + g[node];
      }
    }
    NodeReachEnd(g, roots, reachable);
  }

  ghost predicate NodeReachInv(g: Graph, roots: seq<nat>, reachable: set<nat>, stack: seq<nat>) {
    && Closed(g)
    && (forall r :: r in roots ==> r in reachable || r in stack)
    && (forall v :: v in reachable || v in stack ==> v < |g|)
    && (forall v {:trigger FromRoots(g, roots, v)} :: v in reachable || v in stack ==> FromRoots(g, roots, v))
    && (forall u, v: nat :: u in reachable && Edge(g, u, v) ==> v in reachable || v in stack)
  }

  lemma {:induction false} NodeReachStep(g: Graph, roots: seq<nat>, reachable: set<nat>, rest: seq<nat>, node: nat)
    requires NodeReachInv(g, roots, reachable, rest + [node])
    ensures node < |g|
    ensures node in reachable ==> NodeReachInv(g, roots, reachable, rest)
    ensures node !in reachable ==> NodeReachInv(g, roots, reachable + {node}, rest + g[node])
  {
    assert node in rest + [node];
    assert forall v :: v in rest + [node] <==> v in rest || v == node;
    forall v | v in g[node] ensures v < |g| && FromRoots(g, roots, v) {
      SuccessorFromRoots(g, roots, node, v);
    }
    assert forall v :: v in rest + g[node] <==> v in rest || v in g[node];
  }

  lemma {:induction false} SuccessorFromRoots(g: Graph, roots: seq<nat>, u: nat, v: nat)
    requires Closed(g) && FromRoots(g, roots, u) && Edge(g, u, v)
    ensures v < |g| && FromRoots(g, roots, v)
  {
    var r :| r in roots && Reach(g, r, u);
    ReachEdge(g, u, v);
    ReachTrans(g, r, u, v);
    var k :| 0 <= k < |g[u]| && g[u][k] == v;
  }

  lemma {:induction false} NodeReachEnd(g: Graph, roots: seq<nat>, reachable: set<nat>)
    requires NodeReachInv(g, roots, reachable, [])
    ensures forall v: nat :: v in reachable <==> FromRoots(g, roots, v)
  {
    forall v: nat ensures v in reachable <==> FromRoots(g, roots, v) {
      if FromRoots(g, roots, v) {
        var r :| r in roots && Reach(g, r, v);
        ClosedSetReach(g, reachable, r, v);
      }
    }
  }

  /** A node of the finished graph, with a flag per field: does the reference lie on a cycle? */
  datatype GraphNode = GraphNode(node: Node, cyclic: seq<bool>)

  datatype GraphParameter = GraphParameter(parameter: Parameter, cyclic: bool)

  datatype MetadataGraph = MetadataGraph(
    functionIdentity: Identity, nodes: seq<GraphNode>, parameters: seq<GraphParameter>, rootTypeNames: seq<string>,
    cycles: seq<seq<string>>, maximumDepth: nat, edgeCount: nat)

  function Nodes(graph: seq<GraphNode>): (r: seq<Node>)
    ensures |r| == |graph| && forall i :: 0 <= i < |graph| ==> r[i] == graph[i].node
  {
    seq(|graph|, i requires 0 <= i < |graph| => graph[i].node)
  }

  /** Exactly the references whose target leads back to the node are flagged. */
  ghost predicate FlagsExact(nodes: seq<Node>, graph: seq<GraphNode>) {
    TargetsClosed(nodes) && |graph| == |nodes| && forall i :: 0 <= i < |nodes| ==> NodeFlagsExact(nodes, i, graph[i])
  }

  /** An edge between nodes of one component makes the component cyclic and lies on a cycle. */
  lemma {:induction false} EdgeOnCycle(g: Graph, c: ComponentData, u: nat, v: nat)
    requires Closed(g) && ComponentsOk(g, c) && Edge(g, u, v)
    ensures u < |g| && v < |g|
    ensures c.componentByNode[u] == c.componentByNode[v] && c.componentByNode[u] in c.cyclicComponents <==> Reach(g, v, u)
  {
    ReachEdge(g, u, v);
    if Reach(g, v, u) {
      assert OnCycle(g, u);
    }
  }

  /** The flags of one node's fields. */
  method NodeFlags(nodes: seq<Node>, c: ComponentData, byName: map<string, nat>, i: nat) returns (flags: seq<bool>)
    requires TargetsClosed(nodes) && ComponentsOk(Adjacency(nodes), c) && byName == IndexByName(nodes) && i < |nodes|
    ensures NodeFlagsExact(nodes, i, GraphNode(nodes[i], flags))
  {
    ghost var g := Adjacency(nodes);
    AdjacencyClosed(nodes);
    flags := [];
    for k := 0 to |nodes[i].fields|
      invariant FlagsTo(nodes, i, k, flags)
    {
      var reference := nodes[i].fields[k].reference;
      var cyclic := false;
      if reference.NodeReference? {
        assert TargetOk(nodes, nodes[i].fields[k].reference);
        var target := byName[reference.target];
        assert Refers(nodes, i, k, target);
        EdgeIsReference(nodes, i, target);
        EdgeOnCycle(g, c, i, target);
        assert forall v: nat :: Refers(nodes, i, k, v) ==> v == target;
        var component := c.componentByNode[i];
        cyclic := component == c.componentByNode[target] && component in c.cyclicComponents;
      }
      FlagsNext(nodes, i, k, flags, cyclic);
      flags := flags + [cyclic];
    }
  }

  /** The flags of a node's first fields. */
  ghost predicate FlagsTo(nodes: seq<Node>, i: nat, k: nat, flags: seq<bool>)
    requires TargetsClosed(nodes)
  {
    && i < |nodes| && k <= |nodes[i].fields| && |flags| == k
    && (forall m: nat, v: nat :: m < k && Refers(nodes, i, m, v) ==> (flags[m] <==> Reach(Adjacency(nodes), v, i)))
    && (forall m: nat :: m < k && !nodes[i].fields[m].reference.NodeReference? ==> !flags[m])
  }

  lemma {:induction false} FlagsNext(nodes: seq<Node>, i: nat, k: nat, flags: seq<bool>, cyclic: bool)
    requires TargetsClosed(nodes) && FlagsTo(nodes, i, k, flags) && k < |nodes[i].fields|
    requires forall v: nat :: Refers(nodes, i, k, v) ==> (cyclic <==> Reach(Adjacency(nodes), v, i))
    requires !nodes[i].fields[k].reference.NodeReference? ==> !cyclic
    ensures FlagsTo(nodes, i, k + 1, flags + [cyclic])
  {}

  method FinalNodes(nodes: seq<Node>, c: ComponentData) returns (graph: seq<GraphNode>)
    requires TargetsClosed(nodes) && ComponentsOk(Adjacency(nodes), c)
    ensures FlagsExact(nodes, graph)
  {
    var byName := IndexByName(nodes);
    graph := [];
    for i := 0 to |nodes|
      invariant |graph| == i
      invariant forall j :: 0 <= j < i ==> NodeFlagsExact(nodes, j, graph[j])
    {
      var flags := NodeFlags(nodes, c, byName, i);
      graph := graph + [GraphNode(nodes[i], flags)];
    }
  }

  ghost predicate NodeFlagsExact(nodes: seq<Node>, i: nat, n: GraphNode)
    requires TargetsClosed(nodes)
  {
    && i < |nodes| && n.node == nodes[i] && |n.cyclic| == |nodes[i].fields|
    && (forall k: nat, v: nat :: Refers(nodes, i, k, v) ==> (n.cyclic[k] <==> Reach(Adjacency(nodes), v, i)))
    && (forall k: nat :: k < |nodes[i].fields| && !nodes[i].fields[k].reference.NodeReference? ==> !n.cyclic[k])
  }

  /** The edges left when every flagged reference is deleted. */
  ghost predicate UnflaggedEdge(nodes: seq<Node>, graph: seq<GraphNode>, u: nat, v: nat) {
    u < |graph| && exists k: nat :: Refers(nodes, u, k, v) && k < |graph[u].cyclic| && !graph[u].cyclic[k]
  }

  /** Deleting the flagged references leaves no cycle. */
  lemma {:induction false} UnflaggedAcyclic(nodes: seq<Node>, graph: seq<GraphNode>, rest: Graph)
    requires FlagsExact(nodes, graph) && Closed(rest) && |rest| == |nodes|
    requires forall u: nat, v: nat :: Edge(rest, u, v) <==> UnflaggedEdge(nodes, graph, u, v)
    ensures Acyclic(rest)
  {
    var g := Adjacency(nodes);
    AdjacencyClosed(nodes);
    forall u: nat, v: nat | Edge(rest, u, v) ensures Edge(g, u, v) && !Reach(g, v, u) {
      var k: nat :| Refers(nodes, u, k, v) && k < |graph[u].cyclic| && !graph[u].cyclic[k];
      assert NodeFlagsExact(nodes, u, graph[u]);
      EdgeIsReference(nodes, u, v);
    }
    forall u: nat | u < |rest| ensures !OnCycle(rest, u) {
      if OnCycle(rest, u) {
        var v :| Edge(rest, u, v) && Reach(rest, v, u);
        SubgraphReach(rest, g, v, u);
      }
    }
  }

  lemma {:induction false} SubgraphReach(a: Graph, b: Graph, u: nat, v: nat)
    requires |a| == |b| && forall x: nat, y: nat :: Edge(a, x, y) ==> Edge(b, x, y)
    requires Reach(a, u, v)
    ensures Reach(b, u, v)
  {
    var p :| PathFromTo(a, p, u, v);
    assert PathFromTo(b, p, u, v);
  }
}
