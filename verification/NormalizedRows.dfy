/** The normalization as a whole, said of the rows: what it accepts and the graph it returns. */
module NormalizedRows {
  import opened Graphs
  import opened Descents
  import opened MetadataNodes
  import opened MetadataReferences
  import opened MetadataFunctions
  import opened Metadata
  import opened Normalizer
  import opened ClosureContents
  import opened ParameterTypes
  import opened ClosureGraph

  // ---------------------------------------------------------------- the graph that is returned

  /** The graph has an edge for every reference from one type to another, and no other edge. */
  ghost predicate EdgesAreReferences(c: Closure, nodes: seq<Node>) {
    TargetsClosed(nodes) && forall u, v {:trigger Edge(Adjacency(nodes), u, v)} :: 0 <= u < |nodes| && 0 <= v < |nodes| ==>
      (Edge(Adjacency(nodes), u, v) <==> TypeRefers(c, nodes[u].name, nodes[v].name))
  }

  ghost predicate GraphParametersAre(c: Closure, parameters: seq<GraphParameter>) {
    && |parameters| == |c.parameterRows|
    && forall i :: 0 <= i < |parameters| ==>
         && parameters[i].parameter.row == c.parameterRows[i]
         && ReferenceOfParameter(c, c.parameterRows[i], parameters[i].parameter.reference)
  }

  /**
   * The graph of an accepted closure, said of its rows: the nodes are the types with their rows as
   * fields, the edges are the references, every parameter refers to the type its row leads to, the
   * roots are the requested types and then the parameters', and every reference is counted once.
   */
  lemma {:induction false} GraphHoldsRows(c: Closure, requested: seq<string>, limits: Limits, graph: MetadataGraph)
    requires Acceptable(c, requested, limits) && IsGraphOfClosure(graph, c, requested, limits)
    ensures var nodes := Nodes(graph.nodes);
            && NodesOfRows(c, nodes) && EdgesAreReferences(c, nodes)
            && GraphParametersAre(c, graph.parameters)
            && AreRoots(c, nodes, requested, graph.rootTypeNames)
            && graph.edgeCount == |RefRows(c.typeRows)| + |EdgeParameters(c, c.parameterRows)|
  {
    var nodes := ClosureNodes(c, limits);
    ClosureNodesFit(c, limits);
    assert Nodes(graph.nodes) == nodes;
    EdgesAre(c, nodes);
    ParametersSay(c, nodes, c.parameterRows);
    GraphParametersSay(c, nodes, graph, requested);
    EdgesCount(c, limits);
  }

  lemma {:induction false} EdgesAre(c: Closure, nodes: seq<Node>)
    requires NodesFit(c, nodes) && TargetsClosed(nodes)
    ensures EdgesAreReferences(c, nodes)
  {
    forall u, v | 0 <= u < |nodes| && 0 <= v < |nodes|
      ensures Edge(Adjacency(nodes), u, v) <==> TypeRefers(c, nodes[u].name, nodes[v].name)
    {
      EdgeIsRow(c, nodes, u, v);
    }
  }

  lemma {:induction false} GraphParametersSay(c: Closure, nodes: seq<Node>, graph: MetadataGraph, requested: seq<string>)
    requires AllResolved(c.parameterRows, nodes, EntriesOf(c.indirectRows))
    requires AreParameters(c, c.parameterRows, ClosureParameters(c, nodes).values)
    requires AreTypesOf(c, c.parameterRows, ClosureParameters(c, nodes).rootTypes)
    requires |graph.parameters| == |ClosureParameters(c, nodes).values|
    requires forall i :: 0 <= i < |graph.parameters| ==> graph.parameters[i].parameter == ClosureParameters(c, nodes).values[i]
    requires graph.rootTypeNames == ChosenRoots(nodes, requested, ClosureParameters(c, nodes).rootTypes)
    ensures GraphParametersAre(c, graph.parameters) && AreRoots(c, nodes, requested, graph.rootTypeNames)
  {
    ChosenAreRoots(c, nodes, requested, ClosureParameters(c, nodes).rootTypes);
  }

  lemma {:induction false} EdgesCount(c: Closure, limits: Limits)
    requires TypesAcceptable(c.typeRows, limits)
    ensures TotalEdges(ClosureNodes(c, limits)) == |RefRows(c.typeRows)|
  {
    NodesForAreSound(c.typeRows, limits);
    RefinedNodesSound(NodesFor(c.typeRows), c.parameterRows, c.indirectRows);
    RefRowsCount(c.typeRows);
  }

  // ---------------------------------------------------------------- what is accepted

  /** The types stand one after another, are laid out, and are within the limits. */
  ghost predicate TypesWithin(rows: seq<TypeRow>, limits: Limits) {
    !Interrupted(rows) && TypesFit(rows) && |TypeNames(rows)| <= limits.maxNodes && |RefRows(rows)| <= limits.maxEdges
  }

  lemma {:induction false} TypesAcceptableIff(rows: seq<TypeRow>, limits: Limits)
    ensures TypesAcceptable(rows, limits) <==> TypesWithin(rows, limits)
  {
    GroupsPartition(rows);
    if !Interrupted(rows) {
      assert rows[..|rows|] == rows;
      ContiguousGroupsDistinct(rows, |rows|);
      GroupsFit(GroupsOf(rows));
      GroupsAreTypes(GroupsOf(rows));
      RefRowsCount(rows);
    }
  }

  /** Parameters are distinct, each fits its type, every indirect row is used, and the edges are within the limit. */
  ghost predicate ParametersWithin(c: Closure, limits: Limits) {
    && IndirectAcceptable(c.indirectRows) && DistinctParameters(c.parameterRows)
    && (forall q :: 0 <= q < |c.parameterRows| ==> ParameterFits(c, c.parameterRows[q]))
    && |RefRows(c.typeRows)| + |EdgeParameters(c, c.parameterRows)| <= limits.maxEdges
    && forall m :: 0 <= m < |c.indirectRows| ==> Consumed(c.parameterRows, KeyOf(c.indirectRows[m]))
  }

  lemma {:induction false} ParametersAcceptableIff(c: Closure, nodes: seq<Node>, limits: Limits)
    requires NodesFit(c, nodes) && TotalEdges(nodes) == |RefRows(c.typeRows)|
    ensures ParametersAcceptable(c.parameterRows, c.indirectRows, nodes, limits) <==> ParametersWithin(c, limits)
  {
    AllFit(c, nodes);
    if AllResolved(c.parameterRows, nodes, EntriesOf(c.indirectRows)) {
      ParametersSay(c, nodes, c.parameterRows);
      forall m | 0 <= m < |c.indirectRows|
        ensures Uses(c.parameterRows, nodes, EntriesOf(c.indirectRows), KeyOf(c.indirectRows[m])) <==>
                Consumed(c.parameterRows, KeyOf(c.indirectRows[m]))
      {
        UsedIff(c, nodes, m);
      }
    }
  }

  /** Every type can be reached from a root, and no descent from a root is too long. */
  ghost predicate Connected(c: Closure, nodes: seq<Node>, requested: seq<string>, limits: Limits)
    requires TargetsClosed(nodes)
  {
    && (forall v: nat :: v < |nodes| ==> FromSomeRoot(c, nodes, requested, v))
    && (forall p :: Descent(Adjacency(nodes), p) && IsRoot(c, requested, nodes[p[0]].name) ==> |p| <= limits.maxDepth)
  }

  ghost predicate FromSomeRoot(c: Closure, nodes: seq<Node>, requested: seq<string>, v: nat)
    requires TargetsClosed(nodes)
  {
    exists r: nat :: r < |nodes| && IsRoot(c, requested, nodes[r].name) && Reach(Adjacency(nodes), r, v)
  }

  lemma {:induction false} RootPositions(c: Closure, nodes: seq<Node>, requested: seq<string>, roots: seq<string>, v: nat)
    requires NodesFit(c, nodes) && AreRoots(c, nodes, requested, roots) && RootsExist(nodes, roots) && v < |nodes|
    ensures v in Positions(nodes, roots) <==> IsRoot(c, requested, nodes[v].name)
  {
    RootMembers(c, nodes, requested, roots, nodes[v].name);
    IndexIs(nodes, v);
    var positions := Positions(nodes, roots);
    if nodes[v].name in roots {
      var k :| 0 <= k < |roots| && roots[k] == nodes[v].name;
      assert positions[k] == v;
    }
    if v in positions {
      var k :| 0 <= k < |positions| && positions[k] == v;
      assert roots[k] == nodes[v].name;
    }
  }

  lemma {:induction false} ConnectedIff(c: Closure, nodes: seq<Node>, requested: seq<string>, roots: seq<string>, limits: Limits)
    requires NodesFit(c, nodes) && AreRoots(c, nodes, requested, roots) && TargetsClosed(nodes) && RootsExist(nodes, roots)
    ensures GraphAcceptable(nodes, roots, limits) <==> Connected(c, nodes, requested, limits)
  {
    var positions := Positions(nodes, roots);
    PositionsBound(nodes, roots);
    SomeRoot(c, nodes, requested, roots);
    forall v: nat | v < |nodes| ensures v in positions <==> IsRoot(c, requested, nodes[v].name) {
      RootPositions(c, nodes, requested, roots, v);
    }
    ConnectedFrom(c, nodes, requested, positions, limits);
  }

  lemma {:induction false} SomeRoot(c: Closure, nodes: seq<Node>, requested: seq<string>, roots: seq<string>)
    requires AreRoots(c, nodes, requested, roots)
    ensures roots == [] ==> nodes == []
  {
    if roots == [] && requested == [] {
      assert forall name :: name !in roots[|requested|..];
    }
  }

  lemma {:induction false} ConnectedFrom(c: Closure, nodes: seq<Node>, requested: seq<string>, positions: seq<nat>, limits: Limits)
    requires TargetsClosed(nodes) && (positions == [] ==> nodes == []) && forall p :: p in positions ==> p < |nodes|
    requires forall v: nat :: v < |nodes| ==> (v in positions <==> IsRoot(c, requested, nodes[v].name))
    ensures AllFromRoots(Adjacency(nodes), positions) && DescentsWithin(Adjacency(nodes), positions, limits.maxDepth) <==>
            Connected(c, nodes, requested, limits)
  {
    var g := Adjacency(nodes);
    forall v: nat | v < |nodes| ensures FromRoots(g, positions, v) <==> FromSomeRoot(c, nodes, requested, v) {
      if FromRoots(g, positions, v) {
        var r :| r in positions && Reach(g, r, v);
        assert r < |nodes| && IsRoot(c, requested, nodes[r].name);
      }
    }
    forall p ensures DescentFrom(g, positions, p) <==> Descent(g, p) && IsRoot(c, requested, nodes[p[0]].name) {}
  }

  /** What is demanded of the rows themselves. */
  ghost predicate RowsWithin(c: Closure, requested: seq<string>, limits: Limits) {
    && FunctionsAcceptable(c) && TypesWithin(c.typeRows, limits) && ReferencesMet(c) && ParametersWithin(c, limits)
    && forall k :: 0 <= k < |requested| ==> Declared(c, requested[k])
  }

  lemma {:induction false} RootsDeclared(c: Closure, nodes: seq<Node>, names: seq<string>)
    requires NodesFit(c, nodes)
    ensures RootsExist(nodes, names) <==> forall k :: 0 <= k < |names| ==> Declared(c, names[k])
  {
    forall k | 0 <= k < |names| ensures names[k] in IndexByName(nodes) <==> Declared(c, names[k]) {
      NodeIsDeclared(c, nodes, names[k]);
    }
  }

  lemma {:induction false} ReferencesAcceptableIff(c: Closure, nodes: seq<Node>, requested: seq<string>, limits: Limits)
    requires NodesFit(c, nodes) && TotalEdges(nodes) == |RefRows(c.typeRows)|
    ensures ReferencesAcceptable(c, nodes, requested, limits) <==>
            && ReferencesMet(c) && ParametersWithin(c, limits) && (forall k :: 0 <= k < |requested| ==> Declared(c, requested[k]))
            && TargetsClosed(nodes) && Connected(c, nodes, requested, limits)
  {
    TargetsMet(c, nodes);
    ParametersAcceptableIff(c, nodes, limits);
    RootsDeclared(c, nodes, requested);
    if TargetsClosed(nodes) && ParametersAcceptable(c.parameterRows, c.indirectRows, nodes, limits) && RootsExist(nodes, requested) {
      ParametersSay(c, nodes, c.parameterRows);
      var types := ClosureParameters(c, nodes).rootTypes;
      ParametersForAreOk(c.parameterRows, nodes, EntriesOf(c.indirectRows));
      ChosenRootsExist(nodes, requested, types);
      ChosenAreRoots(c, nodes, requested, types);
      ConnectedIff(c, nodes, requested, ChosenRoots(nodes, requested, types), limits);
    }
  }

  /**
   * Which closures are accepted: exactly those whose rows describe one function, types laid out one
   * after another, references that are met and parameters that fit, with every type reachable from a root.
   */
  lemma {:induction false} AcceptableIff(c: Closure, requested: seq<string>, limits: Limits)
    ensures Acceptable(c, requested, limits) <==>
            && RowsWithin(c, requested, limits)
            && TypesAcceptable(c.typeRows, limits) && TargetsClosed(ClosureNodes(c, limits))
            && Connected(c, ClosureNodes(c, limits), requested, limits)
  {
    TypesAcceptableIff(c.typeRows, limits);
    if TypesAcceptable(c.typeRows, limits) && IndirectAcceptable(c.indirectRows) {
      ClosureNodesFit(c, limits);
      EdgesCount(c, limits);
      ReferencesAcceptableIff(c, ClosureNodes(c, limits), requested, limits);
    }
  }
}
