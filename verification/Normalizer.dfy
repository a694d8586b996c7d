/** The whole normalization: cycles, parameter flags, roots, and what an accepted graph guarantees. */
module Normalizer {
  import opened Graphs
  import FinishOrder
  import opened Components
  import opened Condensation
  import opened Descents
  import opened MetadataNodes
  import opened MetadataReferences
  import opened MetadataFunctions
  import opened Metadata

  ghost predicate InEntry(nodes: seq<Node>, cycles: seq<seq<string>>, e: nat, v: nat) {
    e < |cycles| && v < |nodes| && nodes[v].name in cycles[e]
  }

  /** No entry is reached from a later one, and the names of an entry are in the order of the nodes. */
  ghost predicate CyclesOrdered(nodes: seq<Node>, g: Graph, cycles: seq<seq<string>>) {
    && (forall d: nat, e: nat, u: nat, v: nat :: d < e && InEntry(nodes, cycles, d, u) && InEntry(nodes, cycles, e, v) ==> !Reach(g, v, u))
    && (forall e :: 0 <= e < |cycles| ==> NamesAscend(nodes, cycles[e]))
  }

  ghost predicate NamesAscend(nodes: seq<Node>, names: seq<string>) {
    forall i, j :: 0 <= i < j < |names| ==>
      names[i] in IndexByName(nodes) && names[j] in IndexByName(nodes) && IndexByName(nodes)[names[i]] < IndexByName(nodes)[names[j]]
  }

  /** The cycle entries list exactly the nodes on cycles, one entry per component, in order. */
  ghost predicate CyclesExact(nodes: seq<Node>, g: Graph, cycles: seq<seq<string>>) {
    && (forall v: nat :: v < |nodes| ==> (OnCycle(g, v) <==> exists e :: InEntry(nodes, cycles, e, v)))
    && (forall d: nat, e: nat, u: nat, v: nat :: InEntry(nodes, cycles, d, u) && InEntry(nodes, cycles, e, v) ==> (d == e <==> Mutual(g, u, v)))
    && (forall e, name :: 0 <= e < |cycles| && name in cycles[e] ==> name in IndexByName(nodes))
    && (forall e :: 0 <= e < |cycles| ==> cycles[e] != [])
    && CyclesOrdered(nodes, g, cycles)
  }

  function NamesOf(nodes: seq<Node>, members: seq<nat>): (r: seq<string>)
    requires forall v :: v in members ==> v < |nodes|
    ensures |r| == |members| && forall i :: 0 <= i < |members| ==> members[i] < |nodes| && r[i] == nodes[members[i]].name
  {
    assert forall i :: 0 <= i < |members| ==> members[i] in members;
    seq(|members|, i requires 0 <= i < |members| => nodes[members[i]].name)
  }

  lemma {:induction false} NamesMember(nodes: seq<Node>, members: seq<nat>, v: nat)
    requires DistinctNames(nodes) && v < |nodes| && forall u :: u in members ==> u < |nodes|
    ensures nodes[v].name in NamesOf(nodes, members) <==> v in members
  {
    var names := NamesOf(nodes, members);
    if i :| 0 <= i < |members| && members[i] == v {
      assert names[i] == nodes[v].name;
    }
    if nodes[v].name in names {
      var i :| 0 <= i < |names| && names[i] == nodes[v].name;
      assert members[i] == v;
    }
  }

  /** Entry e lists the members of component origin[e]; the cyclic components below bound are all listed. */
  ghost predicate EntriesInv(nodes: seq<Node>, g: Graph, c: ComponentData, cycles: seq<seq<string>>, origin: seq<nat>,
      bound: nat)
  {
    && |g| == |nodes| && ComponentsOk(g, c) && bound <= |c.nodesByComponent|
    && |origin| == |cycles|
    && (forall e :: 0 <= e < |origin| ==> origin[e] < bound && origin[e] in c.cyclicComponents)
    && (forall d, e :: 0 <= d < e < |origin| ==> origin[d] < origin[e])
    && (forall d: nat :: d < bound && d in c.cyclicComponents ==> d in origin)
    && (forall e :: 0 <= e < |cycles| ==> ListsComponent(nodes, c, origin[e], cycles[e]))
  }

  ghost predicate ListsComponent(nodes: seq<Node>, c: ComponentData, d: nat, names: seq<string>) {
    && d < |c.nodesByComponent| && (forall v :: v in c.nodesByComponent[d] ==> v < |nodes|)
    && names == NamesOf(nodes, c.nodesByComponent[d])
  }

  lemma {:induction false} EntryComponent(nodes: seq<Node>, g: Graph, c: ComponentData, cycles: seq<seq<string>>,
      origin: seq<nat>, e: nat, v: nat)
    requires DistinctNames(nodes) && EntriesInv(nodes, g, c, cycles, origin, |c.nodesByComponent|)
    requires e < |cycles| && v < |nodes|
    ensures InEntry(nodes, cycles, e, v) <==> c.componentByNode[v] == origin[e]
  {
    NamesMember(nodes, c.nodesByComponent[origin[e]], v);
    assert v in c.nodesByComponent[origin[e]] <==> c.componentByNode[v] == origin[e];
  }

  lemma {:induction false} PathAscends(g: Graph, c: ComponentData, p: seq<nat>)
    requires ComponentsOk(g, c) && IsPath(g, p)
    ensures c.componentByNode[p[0]] <= c.componentByNode[p[|p| - 1]]
    decreases |p|
  {
    if |p| > 1 {
      assert Edge(g, p[0], p[1]);
      PathAscends(g, c, p[1..]);
    }
  }

  lemma {:induction false} EntriesInOrder(nodes: seq<Node>, g: Graph, c: ComponentData, cycles: seq<seq<string>>, origin: seq<nat>)
    requires DistinctNames(nodes) && EntriesInv(nodes, g, c, cycles, origin, |c.nodesByComponent|)
    ensures CyclesOrdered(nodes, g, cycles)
  {
    forall d: nat, e: nat, u: nat, v: nat | d < e && InEntry(nodes, cycles, d, u) && InEntry(nodes, cycles, e, v) ensures !Reach(g, v, u) {
      EntryComponent(nodes, g, c, cycles, origin, d, u);
      EntryComponent(nodes, g, c, cycles, origin, e, v);
      if Reach(g, v, u) {
        var p :| PathFromTo(g, p, v, u);
        PathAscends(g, c, p);
      }
    }
    forall e | 0 <= e < |cycles| ensures NamesAscend(nodes, cycles[e]) {
      assert ListsComponent(nodes, c, origin[e], cycles[e]);
      MembersAscend(nodes, c.nodesByComponent[origin[e]]);
    }
  }

  lemma {:induction false} MembersAscend(nodes: seq<Node>, members: seq<nat>)
    requires DistinctNames(nodes) && Ascending(members) && FinishOrder.Distinct(members) && forall v :: v in members ==> v < |nodes|
    ensures NamesAscend(nodes, NamesOf(nodes, members))
  {
    assert forall i :: 0 <= i < |members| ==> members[i] in members;
  }

  lemma {:induction false} EntriesAreExact(nodes: seq<Node>, g: Graph, c: ComponentData, cycles: seq<seq<string>>,
      origin: seq<nat>)
    requires DistinctNames(nodes) && EntriesInv(nodes, g, c, cycles, origin, |c.nodesByComponent|)
    ensures CyclesExact(nodes, g, cycles)
  {
    forall v: nat | v < |nodes| ensures OnCycle(g, v) <==> exists e :: InEntry(nodes, cycles, e, v) {
      if OnCycle(g, v) {
        assert c.componentByNode[v] in c.cyclicComponents;
        var e :| 0 <= e < |origin| && origin[e] == c.componentByNode[v];
        EntryComponent(nodes, g, c, cycles, origin, e, v);
        assert InEntry(nodes, cycles, e, v);
      }
      if e: nat :| InEntry(nodes, cycles, e, v) {
        EntryComponent(nodes, g, c, cycles, origin, e, v);
      }
    }
    forall d: nat, e: nat, u: nat, v: nat | InEntry(nodes, cycles, d, u) && InEntry(nodes, cycles, e, v)
      ensures d == e <==> Mutual(g, u, v)
    {
      EntryComponent(nodes, g, c, cycles, origin, d, u);
      EntryComponent(nodes, g, c, cycles, origin, e, v);
    }
    EntriesInOrder(nodes, g, c, cycles, origin);
    forall e, name | 0 <= e < |cycles| && name in cycles[e] ensures name in IndexByName(nodes) {
      var i :| 0 <= i < |cycles[e]| && cycles[e][i] == name;
      assert ListsComponent(nodes, c, origin[e], cycles[e]);
    }
    forall e | 0 <= e < |cycles| ensures cycles[e] != [] {
      assert ListsComponent(nodes, c, origin[e], cycles[e]);
    }
  }

  method FinalCycles(nodes: seq<Node>, g: Graph, c: ComponentData) returns (cycles: seq<seq<string>>)
    requires DistinctNames(nodes) && |g| == |nodes| && ComponentsOk(g, c)
    ensures CyclesExact(nodes, g, cycles)
  {
    cycles := [];
    ghost var origin: seq<nat> := [];
    for component := 0 to |c.nodesByComponent|
      invariant EntriesInv(nodes, g, c, cycles, origin, component)
    {
      if component in c.cyclicComponents {
        assert forall v :: v in c.nodesByComponent[component] ==> v < |nodes|;
        ghost var origin' := origin + [component];
        assert forall d :: d in origin' <==> d in origin || d == component;
        cycles, origin := cycles + [NamesOf(nodes, c.nodesByComponent[component])], origin';
      }
    }
    EntriesAreExact(nodes, g, c, cycles, origin);
  }

  /** No cycle entry is listed exactly when the type graph is acyclic. */
  lemma {:induction false} NoCyclesIffAcyclic(nodes: seq<Node>, g: Graph, cycles: seq<seq<string>>)
    requires |g| == |nodes| && CyclesExact(nodes, g, cycles)
    ensures cycles == [] <==> Acyclic(g)
  {
    if cycles == [] {
      forall v: nat | v < |g| ensures !OnCycle(g, v) {
        assert forall e: nat :: !InEntry(nodes, cycles, e, v);
      }
    } else {
      var name := cycles[0][0];
      assert name in cycles[0];
      var v := IndexByName(nodes)[name];
      assert InEntry(nodes, cycles, 0, v);
      assert OnCycle(g, v);
    }
  }

  /** A parameter is flagged exactly when its type lies on a cycle. */
  ghost predicate ParameterFlagsExact(nodes: seq<Node>, g: Graph, p: GraphParameter) {
    if p.parameter.reference.NodeParameter? then
      p.parameter.reference.target in IndexByName(nodes) &&
      (p.cyclic <==> OnCycle(g, IndexByName(nodes)[p.parameter.reference.target]))
    else !p.cyclic
  }

  method FinalParameters(values: seq<Parameter>, nodes: seq<Node>, g: Graph,
      c: ComponentData) returns (r: seq<GraphParameter>)
    requires |g| == |nodes| && ComponentsOk(g, c)
    requires forall i :: 0 <= i < |values| && values[i].reference.NodeParameter? ==> values[i].reference.target in IndexByName(nodes)
    ensures |r| == |values| && forall i :: 0 <= i < |r| ==> r[i].parameter == values[i] && ParameterFlagsExact(nodes, g, r[i])
  {
    var byName := IndexByName(nodes);
    r := [];
    for i := 0 to |values|
      invariant |r| == i && forall j :: 0 <= j < i ==> r[j].parameter == values[j] && ParameterFlagsExact(nodes, g, r[j])
    {
      var reference := values[i].reference;
      var cyclic := reference.NodeParameter? && c.componentByNode[byName[reference.target]] in c.cyclicComponents;
      r := r + [GraphParameter(values[i], cyclic)];
    }
  }

  /** The positions of named nodes. */
  function Positions(nodes: seq<Node>, names: seq<string>): (r: seq<nat>)
    requires RootsExist(nodes, names)
    ensures |r| == |names| && forall k :: 0 <= k < |names| ==> r[k] == IndexByName(nodes)[names[k]]
  {
    seq(|names|, k requires 0 <= k < |names| => IndexByName(nodes)[names[k]])
  }

  function NodeNames(nodes: seq<Node>): (r: seq<string>)
    ensures |r| == |nodes| && forall i :: 0 <= i < |nodes| ==> r[i] == nodes[i].name
  {
    seq(|nodes|, i requires 0 <= i < |nodes| => nodes[i].name)
  }

  // ---------------------------------------------------------------- what is accepted

  /** The type nodes of acceptable rows. */
  ghost function ClosureNodes(c: Closure, limits: Limits): seq<Node>
    requires TypesAcceptable(c.typeRows, limits)
  {
    RefinedNodes(NodesFor(c.typeRows), c.parameterRows, c.indirectRows)
  }

  /** The requested roots, then the parameters' types, or every node if there are none. */
  function ChosenRoots(nodes: seq<Node>, rootTypeNames: seq<string>, parameterRoots: seq<string>): seq<string> {
    var roots := AddRoots(rootTypeNames, parameterRoots);
    if roots == [] then NodeNames(nodes) else roots
  }

  ghost predicate AllFromRoots(g: Graph, roots: seq<nat>) {
    forall v: nat :: v < |g| ==> FromRoots(g, roots, v)
  }

  ghost predicate DescentsWithin(g: Graph, roots: seq<nat>, maxDepth: nat) {
    forall p :: DescentFrom(g, roots, p) ==> |p| <= maxDepth
  }

  /** Every node is reachable from a root, and no descent from a root is too long. */
  ghost predicate GraphAcceptable(nodes: seq<Node>, roots: seq<string>, limits: Limits)
    requires TargetsClosed(nodes)
  {
    && RootsExist(nodes, roots)
    && AllFromRoots(Adjacency(nodes), Positions(nodes, roots)) && DescentsWithin(Adjacency(nodes), Positions(nodes, roots), limits.maxDepth)
  }

  ghost predicate ReferencesAcceptable(c: Closure, nodes: seq<Node>, rootTypeNames: seq<string>, limits: Limits) {
    && TargetsClosed(nodes) && ParametersAcceptable(c.parameterRows, c.indirectRows, nodes, limits) && RootsExist(nodes, rootTypeNames)
    && GraphAcceptable(nodes, ChosenRoots(nodes, rootTypeNames, ClosureParameters(c, nodes).rootTypes), limits)
  }

  /** The resolved parameters of a closure over its nodes. */
  ghost function ClosureParameters(c: Closure, nodes: seq<Node>): Parameters
    requires AllResolved(c.parameterRows, nodes, EntriesOf(c.indirectRows))
  {
    ParametersFor(c.parameterRows, nodes, EntriesOf(c.indirectRows))
  }

  /** The rows describe one function and a closed type graph within the limits, all of it in use. */
  ghost predicate Acceptable(c: Closure, rootTypeNames: seq<string>, limits: Limits) {
    FunctionsAcceptable(c) && TypesAcceptable(c.typeRows, limits) && ReferencesAcceptable(c, ClosureNodes(c, limits), rootTypeNames, limits)
  }

  /** The graph has these nodes, parameters and roots; its flags, cycles and depth are those of its references. */
  ghost predicate IsGraphOf(graph: MetadataGraph, identity: Identity, nodes: seq<Node>, p: Parameters, roots: seq<string>) {
    && graph.functionIdentity == identity
    && Nodes(graph.nodes) == nodes && TargetsClosed(nodes) && RootsExist(nodes, roots)
    && FlagsExact(nodes, graph.nodes)
    && CyclesExact(nodes, Adjacency(nodes), graph.cycles)
    && graph.rootTypeNames == roots && graph.edgeCount == p.totalEdges
    && LongestDescent(Adjacency(nodes), Positions(nodes, roots), graph.maximumDepth)
    && |graph.parameters| == |p.values|
    && (forall i :: 0 <= i < |p.values| ==>
          graph.parameters[i].parameter == p.values[i] && ParameterFlagsExact(nodes, Adjacency(nodes), graph.parameters[i]))
  }

  /** The graph of an acceptable closure. */
  ghost predicate IsGraphOfClosure(graph: MetadataGraph, c: Closure, rootTypeNames: seq<string>, limits: Limits)
    requires Acceptable(c, rootTypeNames, limits)
  {
    var nodes := ClosureNodes(c, limits);
    var p := ClosureParameters(c, nodes);
    IsGraphOf(graph, IdentityOf(c.functionNames).value, nodes, p, ChosenRoots(nodes, rootTypeNames, p.rootTypes))
  }

  lemma {:induction false} RefinedNodesSound(nodes: seq<Node>, parameterRows: seq<ParameterRow>,
      indirectRows: seq<IndirectRow>)
    ensures DistinctNames(nodes) ==> DistinctNames(RefinedNodes(nodes, parameterRows, indirectRows))
    ensures TotalEdges(RefinedNodes(nodes, parameterRows, indirectRows)) == TotalEdges(nodes)
  {
    SameFieldsSameEdges(nodes, RefinedNodes(nodes, parameterRows, indirectRows));
  }

  lemma {:induction false} SameFieldsSameEdges(a: seq<Node>, b: seq<Node>)
    requires |a| == |b| && forall i :: 0 <= i < |a| ==> a[i].fields == b[i].fields
    ensures TotalEdges(a) == TotalEdges(b)
    decreases |a|
  {
    if a != [] {
      SameFieldsSameEdges(a[..|a| - 1], b[..|b| - 1]);
    }
  }

  lemma {:induction false} ChosenRootsExist(nodes: seq<Node>, rootTypeNames: seq<string>, parameterRoots: seq<string>)
    requires RootsExist(nodes, parameterRoots) && RootsExist(nodes, rootTypeNames)
    ensures RootsExist(nodes, ChosenRoots(nodes, rootTypeNames, parameterRoots))
    ensures forall name :: name in parameterRoots || name in rootTypeNames ==> name in ChosenRoots(nodes, rootTypeNames, parameterRoots)
  {
    var roots := ChosenRoots(nodes, rootTypeNames, parameterRoots);
    forall k | 0 <= k < |roots| ensures roots[k] in IndexByName(nodes) {
      assert roots[k] in roots;
    }
    if AddRoots(rootTypeNames, parameterRoots) == [] {
      assert forall name :: name in parameterRoots || name in rootTypeNames ==> name in AddRoots(rootTypeNames, parameterRoots);
    }
  }

  /**
   * Normalize a closure of type rows: accepted exactly when the rows are acceptable, and then
   * the graph is theirs.
   */
  method Normalize(c: Closure, rootTypeNames: seq<string>, limits: Limits) returns (r: Result<MetadataGraph>)
    ensures r.Ok? <==> Acceptable(c, rootTypeNames, limits)
    ensures r.Ok? ==> IsGraphOfClosure(r.value, c, rootTypeNames, limits)
  {
    var identity := FunctionIdentity(c);
    if identity.Err? {
      return Err(identity.code);
    }
    var built := BuildNodes(c.typeRows, limits);
    if built.Err? {
      TypesFaultRefutes(c.typeRows, limits, built.code);
      return Err(built.code);
    }
    NodesForAreSound(c.typeRows, limits);
    RefinedNodesSound(built.value, c.parameterRows, c.indirectRows);
    var nodes := RefineTableNodeKinds(built.value, c.parameterRows, c.indirectRows);
    r := NormalizeNodes(c, identity.value, nodes, rootTypeNames, limits);
  }

  /** The rest of the normalization, once the nodes are built. */
  method NormalizeNodes(c: Closure, identity: Identity, nodes: seq<Node>, rootTypeNames: seq<string>, limits: Limits)
    returns (r: Result<MetadataGraph>)
    requires DistinctNames(nodes) && TotalEdges(nodes) <= limits.maxEdges
    ensures r.Ok? <==> ReferencesAcceptable(c, nodes, rootTypeNames, limits)
    ensures r.Ok? ==>
              var p := ClosureParameters(c, nodes);
              IsGraphOf(r.value, identity, nodes, p, ChosenRoots(nodes, rootTypeNames, p.rootTypes))
  {
    var targets := ValidateNodeTargets(nodes);
    if targets.Err? {
      return Err(targets.code);
    }
    var parameters := ProvisionalParameters(c.parameterRows, c.indirectRows, nodes, limits);
    if parameters.Err? {
      ParametersFaultRefutes(c.parameterRows, c.indirectRows, nodes, limits, parameters.code);
      return Err(parameters.code);
    }
    ParametersForAreOk(c.parameterRows, nodes, EntriesOf(c.indirectRows));
    var byName := IndexByName(nodes);
    if exists k :: 0 <= k < |rootTypeNames| && rootTypeNames[k] !in byName {
      return Err(ForeignRoot);
    }
    var roots := AddRoots(rootTypeNames, parameters.value.rootTypes);
    if roots == [] {
      roots := NodeNames(nodes);
    }
    ChosenRootsExist(nodes, rootTypeNames, parameters.value.rootTypes);
    r := Assemble(identity, c.parameterRows, nodes, parameters.value, roots, limits);
  }

  method ReachesAll(g: Graph, roots: seq<nat>) returns (all: bool)
    requires Closed(g) && forall r :: r in roots ==> r < |g|
    ensures all <==> AllFromRoots(g, roots)
  {
    var reachable := ReachableNodes(g, roots);
    all := !exists v: nat | v < |g| :: v !in reachable;
  }

  /** The graph analysis over validated nodes, parameters and roots. */
  method Assemble(identity: Identity, parameterRows: seq<ParameterRow>, nodes: seq<Node>, parameters: Parameters,
      roots: seq<string>, limits: Limits)
    returns (r: Result<MetadataGraph>)
    requires DistinctNames(nodes) && TargetsClosed(nodes) && RootsExist(nodes, roots)
    requires ParametersOk(nodes, parameterRows, parameters)
    ensures r.Ok? <==> GraphAcceptable(nodes, roots, limits)
    ensures r.Ok? ==> IsGraphOf(r.value, identity, nodes, parameters, roots)
    ensures r.Err? ==> r.code == DepthLimit || r.code == ForeignTypeNode
  {
    var g := Adjacency(nodes);
    AdjacencyClosed(nodes);
    var rootPositions := Positions(nodes, roots);
    PositionsBound(nodes, roots);
    var components, depth := GraphComponents(g, rootPositions, limits.maxDepth);
    DepthWithin(g, rootPositions, depth, limits.maxDepth);
    if components.Err? {
      return Err(components.code);
    }
    var reached := ReachesAll(g, rootPositions);
    if !reached {
      return Err(ForeignTypeNode);
    }
    r := Finish(identity, parameterRows, nodes, parameters, roots, components.value);
  }

  lemma {:induction false} DepthWithin(g: Graph, roots: seq<nat>, depth: nat, maxDepth: nat)
    requires LongestDescent(g, roots, depth)
    ensures depth <= maxDepth <==> DescentsWithin(g, roots, maxDepth)
  {}

  /** Put the accepted graph together. */
  method Finish(identity: Identity, parameterRows: seq<ParameterRow>, nodes: seq<Node>, parameters: Parameters,
      roots: seq<string>, c: ComponentData)
    returns (r: Result<MetadataGraph>)
    requires DistinctNames(nodes) && TargetsClosed(nodes) && RootsExist(nodes, roots)
    requires ParametersOk(nodes, parameterRows, parameters) && ComponentsOk(Adjacency(nodes), c)
    requires LongestDescent(Adjacency(nodes), Positions(nodes, roots), c.maximumDepth)
    ensures r.Ok? && IsGraphOf(r.value, identity, nodes, parameters, roots)
  {
    var finalNodes := FinalNodes(nodes, c);
    NodesKept(nodes, finalNodes);
    var cycles := FinalCycles(nodes, Adjacency(nodes), c);
    var finalParameters := FinalParameters(parameters.values, nodes, Adjacency(nodes), c);
    return Ok(MetadataGraph(identity, finalNodes, finalParameters, roots, cycles, c.maximumDepth, parameters.totalEdges));
  }

  lemma {:induction false} PositionsBound(nodes: seq<Node>, names: seq<string>)
    requires RootsExist(nodes, names)
    ensures forall p :: p in Positions(nodes, names) ==> p < |nodes|
  {
    var positions := Positions(nodes, names);
    forall p | p in positions ensures p < |nodes| {
      var k :| 0 <= k < |names| && positions[k] == p;
    }
  }

  lemma {:induction false} NodesKept(nodes: seq<Node>, graph: seq<GraphNode>)
    requires FlagsExact(nodes, graph)
    ensures Nodes(graph) == nodes
  {
    forall i | 0 <= i < |nodes| ensures Nodes(graph)[i] == nodes[i] {
      assert NodeFlagsExact(nodes, i, graph[i]);
    }
  }

  // ---------------------------------------------------------------- what accepted graphs guarantee

  /** A node as it may appear in a finished graph: laid out, and anonymous only as a single line. */
  ghost predicate FinalNodeSound(node: Node) {
    && node.fields != [] && LaidOut(node.fields, node.nucLength, node.ucLength) && DistinctFields(node.fields)
    && (forall k :: 0 <= k < |node.fields| && node.fields[k].name == "" ==> |node.fields| == 1)
    && (node.kind == Structure <==> node.fields[0].name != "")
    && (forall k :: 0 <= k < |node.fields| && node.fields[k].reference.NodeReference? ==> node.fields[k].reference.kind != Scalar)
  }

  /** Every parameter is resolved as its row demands, and flagged when its type lies on a cycle. */
  ghost predicate ParametersSound(nodes: seq<Node>, parameterRows: seq<ParameterRow>, graph: MetadataGraph) {
    && TargetsClosed(nodes) && |graph.parameters| == |parameterRows|
    && (forall i :: 0 <= i < |parameterRows| ==>
          && graph.parameters[i].parameter.row == parameterRows[i]
          && ParameterOk(nodes, parameterRows[i], graph.parameters[i].parameter.reference, graph.rootTypeNames)
          && ParameterFlagsExact(nodes, Adjacency(nodes), graph.parameters[i]))
  }

  /**
   * An accepted graph is closed and well laid out, every node is reachable from a root, every
   * indirect row is used by a parameter, and every parameter's type exists with the kind it needs.
   */
  lemma {:induction false} AcceptedGraphIsSound(c: Closure, rootTypeNames: seq<string>, limits: Limits, graph: MetadataGraph)
    requires Acceptable(c, rootTypeNames, limits) && IsGraphOfClosure(graph, c, rootTypeNames, limits)
    ensures
      var nodes := Nodes(graph.nodes);
      && DistinctNames(nodes) && TargetsClosed(nodes) && |nodes| <= limits.maxNodes
      && (forall i :: 0 <= i < |nodes| ==> FinalNodeSound(nodes[i]))
      && RootsExist(nodes, graph.rootTypeNames)
      && AllFromRoots(Adjacency(nodes), Positions(nodes, graph.rootTypeNames))
      && ParametersSound(nodes, c.parameterRows, graph)
      && NamesFit(FunctionNames(c.parameterRows), graph.functionIdentity)
      && graph.maximumDepth <= limits.maxDepth && graph.edgeCount <= limits.maxEdges
      && (forall i :: 0 <= i < |c.indirectRows| ==> Consumed(c.parameterRows, KeyOf(c.indirectRows[i])))
  {
    var nodes := ClosureNodes(c, limits);
    var p := ClosureParameters(c, nodes);
    NodesForAreSound(c.typeRows, limits);
    RefinedNodesSound(NodesFor(c.typeRows), c.parameterRows, c.indirectRows);
    ClosureNodesSound(c, limits);
    ParametersForAreOk(c.parameterRows, nodes, EntriesOf(c.indirectRows));
    ChosenRootsExist(nodes, rootTypeNames, p.rootTypes);
    GraphParametersSound(nodes, c.parameterRows, p, graph);
    DepthWithin(Adjacency(nodes), Positions(nodes, graph.rootTypeNames), graph.maximumDepth, limits.maxDepth);
    forall i | 0 <= i < |c.indirectRows| ensures Consumed(c.parameterRows, KeyOf(c.indirectRows[i])) {
      UsedIsConsumed(c.parameterRows, nodes, EntriesOf(c.indirectRows), KeyOf(c.indirectRows[i]));
    }
  }

  lemma {:induction false} ClosureNodesSound(c: Closure, limits: Limits)
    requires TypesAcceptable(c.typeRows, limits)
    ensures var nodes := ClosureNodes(c, limits);
            |nodes| <= limits.maxNodes && forall i :: 0 <= i < |nodes| ==> FinalNodeSound(nodes[i])
  {
    var built := NodesFor(c.typeRows);
    var nodes := ClosureNodes(c, limits);
    NodesForAreSound(c.typeRows, limits);
    forall i | 0 <= i < |nodes| ensures FinalNodeSound(nodes[i]) {
      assert NodeSound(built[i]) && nodes[i] == RefinedNode(built, c.parameterRows, c.indirectRows, built[i]);
    }
  }

  lemma {:induction false} GraphParametersSound(nodes: seq<Node>, rows: seq<ParameterRow>, p: Parameters,
      graph: MetadataGraph)
    requires ParametersOk(nodes, rows, p) && IsGraphOf(graph, graph.functionIdentity, nodes, p, graph.rootTypeNames)
    requires forall name :: name in p.rootTypes ==> name in graph.rootTypeNames
    ensures ParametersSound(nodes, rows, graph)
  {
    forall i | 0 <= i < |rows|
      ensures ParameterOk(nodes, rows[i], graph.parameters[i].parameter.reference, graph.rootTypeNames)
    {
      ParameterOkMoreRoots(nodes, rows[i], p.values[i].reference, p.rootTypes, graph.rootTypeNames);
    }
  }
}
