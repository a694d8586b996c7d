/** The projection of a metadata graph as the program performs it: validation, a descriptor counter, groups. */
module ModernMetadata {
  import opened Graphs
  import opened Descents
  import opened MetadataNodes
  import opened MetadataReferences
  import opened MetadataFunctions
  import opened Metadata
  import opened Normalizer
  import opened Projection
  import opened ProjectionDepth
  import opened Unfolding

  datatype Projected<+T> = Value(value: T) | Rejected(code: ProjectionCode)

  /** A result and the counter's final value agree with a specified outcome. */
  ghost predicate Agrees<T(!new)>(o: Outcome<T>, r: Projected<T>, counter: nat) {
    match o
    case Done(value, used) => r == Value(value) && counter == used
    case Failed(code) => r == Rejected(code)
  }

  /** One projection run: the graph, its bounds, and the descriptors emitted so far. */
  class ProjectionContext {
    const nodes: seq<Node>
    const bounds: Bounds
    var projectedDescriptors: nat

    constructor (nodes: seq<Node>, bounds: Bounds)
      ensures this.nodes == nodes && this.bounds == bounds && projectedDescriptors == 0
    {
      this.nodes, this.bounds := nodes, bounds;
      projectedDescriptors := 0;
    }

    method ConsumeDescriptor() returns (r: Projected<()>)
      modifies this
      ensures projectedDescriptors == old(projectedDescriptors) + 1
      ensures r == if projectedDescriptors > bounds.maxDescriptors then Rejected(DescriptorsExceeded) else Value(())
    {
      projectedDescriptors := projectedDescriptors + 1;
      r := if projectedDescriptors > bounds.maxDescriptors then Rejected(DescriptorsExceeded) else Value(());
    }

    method ProjectField(f: Field, depth: nat) returns (r: Projected<Descriptor>)
      requires depth <= bounds.maxDepth + 1
      modifies this
      ensures Agrees(ProjectedField(nodes, bounds, old(projectedDescriptors), f, depth), r, projectedDescriptors)
      decreases bounds.maxDepth + 1 - depth, 1, 0
    {
      if depth > bounds.maxDepth {
        return Rejected(DepthExceeded);
      }
      var consumed := ConsumeDescriptor();
      if consumed.Rejected? {
        return Rejected(consumed.code);
      }
      if f.reference.ScalarReference? {
        return if Supported(f.internalType) then Value(Descriptor(f.name, f.internalType, f.nucLength, "", []))
               else Rejected(UnsupportedScalarType);
      }
      var target := f.reference.target;
      if target !in IndexByName(nodes) {
        return Rejected(ForeignType);
      }
      var node := nodes[IndexByName(nodes)[target]];
      if f.reference.kind == Structure {
        var children := ProjectStructureFields(node, depth + 1);
        return if children.Rejected? then Rejected(children.code)
               else Value(Descriptor(f.name, "u", f.nucLength, target, children.value));
      }
      if node.kind != Table {
        return Rejected(KindMismatch);
      }
      var line := ProjectTableLine(node, depth + 1);
      return if line.Rejected? then Rejected(line.code)
             else Value(Descriptor(f.name, "h", f.nucLength, target, line.value.fields));
    }

    method ProjectFields(fields: seq<Field>, depth: nat) returns (r: Projected<seq<Descriptor>>)
      requires depth <= bounds.maxDepth + 1
      modifies this
      ensures Agrees(ProjectedFields(nodes, bounds, old(projectedDescriptors), fields, depth), r, projectedDescriptors)
      decreases bounds.maxDepth + 1 - depth, 2, |fields|
    {
      if fields == [] {
        return Value([]);
      }
      var first := ProjectField(fields[0], depth);
      if first.Rejected? {
        return Rejected(first.code);
      }
      var rest := ProjectFields(fields[1..], depth);
      return if rest.Rejected? then Rejected(rest.code) else Value([first.value] + rest.value);
    }

    method ProjectStructureFields(node: Node, depth: nat) returns (r: Projected<seq<Descriptor>>)
      requires depth <= bounds.maxDepth + 1
      modifies this
      ensures Agrees(ProjectedStructure(nodes, bounds, old(projectedDescriptors), node, depth), r, projectedDescriptors)
      decreases bounds.maxDepth + 1 - depth, 3, 0
    {
      if node.kind != Structure {
        return Rejected(KindMismatch);
      }
      r := ProjectFields(OrderedFields(node.fields), depth);
    }

    method ProjectTableLine(node: Node, depth: nat) returns (r: Projected<Line>)
      requires depth <= bounds.maxDepth + 1
      modifies this
      ensures Agrees(ProjectedTableLine(nodes, bounds, old(projectedDescriptors), node, depth), r, projectedDescriptors)
      decreases bounds.maxDepth + 1 - depth, 4, 0
    {
      if depth > bounds.maxDepth {
        return Rejected(DepthExceeded);
      }
      if node.kind == Structure {
        var fields := ProjectStructureFields(node, depth);
        return if fields.Rejected? then Rejected(fields.code) else Value(Line(node.nucLength, fields.value));
      }
      if |node.fields| != 1 || node.fields[0].name != "" {
        return Rejected(InvalidTableLine);
      }
      var line := node.fields[0];
      if line.reference.NodeReference? && line.reference.kind == Structure {
        if line.reference.target !in IndexByName(nodes) {
          return Rejected(ForeignType);
        }
        var target := nodes[IndexByName(nodes)[line.reference.target]];
        var fields := ProjectStructureFields(target, depth);
        return if fields.Rejected? then Rejected(fields.code) else Value(Line(target.nucLength, fields.value));
      }
      var field := ProjectField(line, depth);
      return if field.Rejected? then Rejected(field.code) else Value(Line(line.nucLength, [field.value]));
    }

    method ProjectSyntheticScalarTableLine(row: ParameterRow, internalType: string) returns (r: Projected<Descriptor>)
      modifies this
      ensures var used := old(projectedDescriptors);
              Agrees(if 1 > bounds.maxDepth then Failed(DepthExceeded)
                     else if used + 1 > bounds.maxDescriptors then Failed(DescriptorsExceeded)
                     else ProjectedScalar("", internalType, row.internalLength, used + 1), r, projectedDescriptors)
    {
      if 1 > bounds.maxDepth {
        return Rejected(DepthExceeded);
      }
      var consumed := ConsumeDescriptor();
      if consumed.Rejected? {
        return Rejected(consumed.code);
      }
      var line := ProjectedScalar("", internalType, row.internalLength, projectedDescriptors);
      return if line.Failed? then Rejected(line.code) else Value(line.value);
    }

    method ProjectParameter(p: Parameter) returns (r: Projected<Descriptor>)
      modifies this
      ensures Agrees(ProjectedParameter(nodes, bounds, old(projectedDescriptors), p), r, projectedDescriptors)
    {
      var consumed := ConsumeDescriptor();
      if consumed.Rejected? {
        return Rejected(consumed.code);
      }
      match p.reference
      case ExceptionParameter =>
        return Rejected(KindMismatch);
      case ScalarParameter(t) =>
        var scalar := ProjectedScalar(p.row.name, t, p.row.internalLength, projectedDescriptors);
        return if scalar.Failed? then Rejected(scalar.code) else Value(scalar.value);
      case ScalarTableParameter(t) =>
        var line := ProjectSyntheticScalarTableLine(p.row, t);
        return if line.Rejected? then Rejected(line.code)
               else Value(Descriptor(p.row.name, "h", line.value.length, p.row.tableName, [line.value]));
      case NodeParameter(kind, _, target) =>
        if target !in IndexByName(nodes) {
          return Rejected(ForeignType);
        }
        var node := nodes[IndexByName(nodes)[target]];
        if kind == Structure {
          var children := ProjectStructureFields(node, 1);
          return if children.Rejected? then Rejected(children.code)
                 else Value(Descriptor(p.row.name, "u", node.nucLength, target, children.value));
        }
        var line := ProjectTableLine(node, 1);
        return if line.Rejected? then Rejected(line.code)
               else Value(Descriptor(p.row.name, "h", line.value.length, target, line.value.fields));
    }
  }

  // ---------------------------------------------------------------- validation

  predicate FieldValid(graph: MetadataGraph, i: nat, k: nat)
    requires i < |graph.nodes| && k < |graph.nodes[i].node.fields| == |graph.nodes[i].cyclic|
  {
    graph.nodes[i].node.fields[k].reference.NodeReference? ==>
      !graph.nodes[i].cyclic[k] && TargetOk(Nodes(graph.nodes), graph.nodes[i].node.fields[k].reference)
  }

  predicate ParameterValid(graph: MetadataGraph, p: GraphParameter) {
    var reference := p.parameter.reference;
    && (reference.ExceptionParameter? <==> p.parameter.row.parameterClass == Exception)
    && (p.parameter.row.parameterClass == Tables ==>
          reference.ScalarTableParameter? || (reference.NodeParameter? && reference.kind == Table))
    && (reference.NodeParameter? ==> !p.cyclic && reference.target in IndexByName(Nodes(graph.nodes)))
  }

  ghost predicate FlagsFit(graph: MetadataGraph) {
    forall i :: 0 <= i < |graph.nodes| ==> |graph.nodes[i].node.fields| == |graph.nodes[i].cyclic|
  }

  /** Every root, field and parameter refers to an existing type of its kind, and nothing is cyclic. */
  ghost predicate ReferencesValid(graph: MetadataGraph)
    requires FlagsFit(graph)
  {
    && graph.cycles == []
    && RootsExist(Nodes(graph.nodes), graph.rootTypeNames)
    && (forall i, k :: 0 <= i < |graph.nodes| && 0 <= k < |graph.nodes[i].cyclic| ==> FieldValid(graph, i, k))
    && (forall i :: 0 <= i < |graph.parameters| ==> ParameterValid(graph, graph.parameters[i]))
  }

  function ParameterFunctions(ps: seq<GraphParameter>): (r: seq<string>)
    ensures |r| == |ps| && forall i :: 0 <= i < |ps| ==> r[i] == ps[i].parameter.row.functionName
  {
    seq(|ps|, i requires 0 <= i < |ps| => ps[i].parameter.row.functionName)
  }

  /** The graph says which function it is for, by its identity or by a parameter. */
  predicate NamesFunction(graph: MetadataGraph) {
    graph.functionIdentity.Some? || graph.parameters != []
  }

  function RfcName(graph: MetadataGraph): string
    requires NamesFunction(graph)
  {
    if graph.functionIdentity.Some? then graph.functionIdentity.value else graph.parameters[0].parameter.row.functionName
  }

  /** What a graph must satisfy to be projected at all. */
  ghost predicate ProjectionGraphValid(graph: MetadataGraph)
    requires FlagsFit(graph)
  {
    && ReferencesValid(graph)
    && NamesFit(ParameterFunctions(graph.parameters), graph.functionIdentity)
    && NamesFunction(graph)
  }

  /** The refusal of a graph whose references are in order. */
  ghost predicate FunctionRefusal(graph: MetadataGraph, code: ProjectionCode) {
    var names := ParameterFunctions(graph.parameters);
    if !OneName(names) then code == ManyFunctions
    else if !NamesFit(names, graph.functionIdentity) then code == OtherFunction
    else code == MissingFunction && !NamesFunction(graph)
  }

  /** The refusals that concern references. */
  predicate ReferenceCode(code: ProjectionCode) {
    code == CyclicGraph || code == ForeignType || code == KindMismatch
  }

  method ValidateReferences(graph: MetadataGraph) returns (r: Projected<()>)
    requires FlagsFit(graph)
    ensures r.Value? <==> ReferencesValid(graph)
    ensures r.Rejected? ==> ReferenceCode(r.code)
    ensures graph.cycles != [] ==> r == Rejected(CyclicGraph)
  {
    if graph.cycles != [] {
      return Rejected(CyclicGraph);
    }
    var names := IndexByName(Nodes(graph.nodes));
    for k := 0 to |graph.rootTypeNames|
      invariant forall m :: 0 <= m < k ==> graph.rootTypeNames[m] in names
    {
      if graph.rootTypeNames[k] !in names {
        return Rejected(ForeignType);
      }
    }
    r := ValidateFields(graph);
    if r.Value? {
      r := ValidateParameters(graph);
    }
  }

  method ValidateFields(graph: MetadataGraph) returns (r: Projected<()>)
    requires FlagsFit(graph)
    ensures r.Value? <==> forall i, k :: 0 <= i < |graph.nodes| && 0 <= k < |graph.nodes[i].cyclic| ==> FieldValid(graph, i, k)
    ensures r.Rejected? ==> ReferenceCode(r.code)
  {
    for i := 0 to |graph.nodes|
      invariant forall j, k :: 0 <= j < i && 0 <= k < |graph.nodes[j].cyclic| ==> FieldValid(graph, j, k)
    {
      for k := 0 to |graph.nodes[i].node.fields|
        invariant forall m :: 0 <= m < k ==> FieldValid(graph, i, m)
      {
        r := ValidateField(graph, i, k);
        if r.Rejected? {
          return;
        }
      }
    }
    return Value(());
  }

  method ValidateParameters(graph: MetadataGraph) returns (r: Projected<()>)
    ensures r.Value? <==> forall i :: 0 <= i < |graph.parameters| ==> ParameterValid(graph, graph.parameters[i])
    ensures r.Rejected? ==> ReferenceCode(r.code)
  {
    for i := 0 to |graph.parameters|
      invariant forall j :: 0 <= j < i ==> ParameterValid(graph, graph.parameters[j])
    {
      r := ValidateParameter(graph, graph.parameters[i]);
      if r.Rejected? {
        return;
      }
    }
    return Value(());
  }

  method ValidateField(graph: MetadataGraph, i: nat, k: nat) returns (r: Projected<()>)
    requires FlagsFit(graph) && i < |graph.nodes| && k < |graph.nodes[i].node.fields|
    ensures r.Value? <==> FieldValid(graph, i, k)
    ensures r.Rejected? ==>
              var reference := graph.nodes[i].node.fields[k].reference;
              r.code == if graph.nodes[i].cyclic[k] then CyclicGraph
                        else if reference.target !in IndexByName(Nodes(graph.nodes)) then ForeignType else KindMismatch
  {
    var reference := graph.nodes[i].node.fields[k].reference;
    if reference.ScalarReference? {
      return Value(());
    }
    if graph.nodes[i].cyclic[k] {
      return Rejected(CyclicGraph);
    }
    var names := IndexByName(Nodes(graph.nodes));
    if reference.target !in names {
      return Rejected(ForeignType);
    }
    return if graph.nodes[names[reference.target]].node.kind != reference.kind then Rejected(KindMismatch) else Value(());
  }

  method ValidateParameter(graph: MetadataGraph, p: GraphParameter) returns (r: Projected<()>)
    ensures r.Value? <==> ParameterValid(graph, p)
    ensures r.Rejected? ==> ReferenceCode(r.code)
  {
    var reference := p.parameter.reference;
    if p.parameter.row.parameterClass == Exception {
      return if reference.ExceptionParameter? then Value(()) else Rejected(KindMismatch);
    }
    if p.parameter.row.parameterClass == Tables &&
       !(reference.ScalarTableParameter? || (reference.NodeParameter? && reference.kind == Table)) {
      return Rejected(KindMismatch);
    }
    if reference.ExceptionParameter? {
      return Rejected(KindMismatch);
    }
    if reference.NodeParameter? {
      if p.cyclic {
        return Rejected(CyclicGraph);
      }
      if reference.target !in IndexByName(Nodes(graph.nodes)) {
        return Rejected(ForeignType);
      }
    }
    return Value(());
  }

  /** The name the projection is published under, or the reason why there is none. */
  method ValidateProjectionGraph(graph: MetadataGraph) returns (r: Projected<string>)
    requires FlagsFit(graph)
    ensures r.Value? <==> ProjectionGraphValid(graph)
    ensures r.Value? ==> r.value == RfcName(graph)
    ensures graph.cycles != [] ==> r == Rejected(CyclicGraph)
    ensures r.Rejected? && ReferencesValid(graph) ==> FunctionRefusal(graph, r.code)
  {
    var references := ValidateReferences(graph);
    if references.Rejected? {
      return Rejected(references.code);
    }
    var names := DistinctNamesIn(ParameterFunctions(graph.parameters));
    if |names| > 1 {
      return Rejected(ManyFunctions);
    }
    if graph.parameters != [] {
      assert ParameterFunctions(graph.parameters)[0] in names;
      OneNameOnly(ParameterFunctions(graph.parameters), names);
    }
    if graph.functionIdentity.Some? {
      if |names| == 1 && graph.functionIdentity.value !in names {
        return Rejected(OtherFunction);
      }
      return Value(graph.functionIdentity.value);
    }
    if |names| == 0 {
      return Rejected(MissingFunction);
    }
    return Value(graph.parameters[0].parameter.row.functionName);
  }

  lemma {:induction false} OneNameOnly(names: seq<string>, distinct: set<string>)
    requires names != [] && OneName(names) && distinct == set i | 0 <= i < |names| :: names[i]
    ensures distinct == {names[0]}
  {
    forall x | x in distinct ensures x == names[0] {
      var i :| 0 <= i < |names| && names[i] == x;
    }
    assert names[0] in distinct;
  }

  /** What Normalize guarantees, as far as the projection relies on it. */
  ghost predicate NormalizedGraph(graph: MetadataGraph, parameterRows: seq<ParameterRow>) {
    var nodes := Nodes(graph.nodes);
    && DistinctNames(nodes) && WellShaped(nodes)
    && FlagsExact(nodes, graph.nodes)
    && CyclesExact(nodes, Adjacency(nodes), graph.cycles)
    && RootsExist(nodes, graph.rootTypeNames)
    && LongestDescent(Adjacency(nodes), Positions(nodes, graph.rootTypeNames), graph.maximumDepth)
    && ParametersSound(nodes, parameterRows, graph)
    && NamesFit(FunctionNames(parameterRows), graph.functionIdentity)
  }

  /** The graph of acceptable rows meets all that the projection relies on. */
  lemma {:induction false} AcceptedGraphIsNormalized(c: Closure, rootTypeNames: seq<string>, limits: Limits, graph: MetadataGraph)
    requires Acceptable(c, rootTypeNames, limits) && IsGraphOfClosure(graph, c, rootTypeNames, limits)
    ensures NormalizedGraph(graph, c.parameterRows)
  {
    AcceptedGraphIsSound(c, rootTypeNames, limits, graph);
    SoundNodesWellShaped(Nodes(graph.nodes));
  }

  lemma {:induction false} NormalizedFlagsFit(graph: MetadataGraph, parameterRows: seq<ParameterRow>)
    requires NormalizedGraph(graph, parameterRows)
    ensures FlagsFit(graph)
  {
    var nodes := Nodes(graph.nodes);
    forall i | 0 <= i < |graph.nodes| ensures |graph.nodes[i].node.fields| == |graph.nodes[i].cyclic| {
      assert NodeFlagsExact(nodes, i, graph.nodes[i]);
    }
  }

  lemma {:induction false} NormalizedReferencesValidIffAcyclic(graph: MetadataGraph, parameterRows: seq<ParameterRow>)
    requires NormalizedGraph(graph, parameterRows) && FlagsFit(graph)
    ensures ReferencesValid(graph) <==> Acyclic(Adjacency(Nodes(graph.nodes)))
    ensures graph.cycles == [] <==> Acyclic(Adjacency(Nodes(graph.nodes)))
  {
    var nodes := Nodes(graph.nodes);
    var g := Adjacency(nodes);
    NoCyclesIffAcyclic(nodes, g, graph.cycles);
    if Acyclic(g) {
      forall i, k | 0 <= i < |graph.nodes| && 0 <= k < |graph.nodes[i].cyclic| ensures FieldValid(graph, i, k) {
        FieldOfAcyclicValid(graph, parameterRows, i, k);
      }
      forall i | 0 <= i < |graph.parameters| ensures ParameterValid(graph, graph.parameters[i]) {
        ParameterOfAcyclicValid(graph, parameterRows, i);
      }
    }
  }

  /** The parameters of a normalized graph have the function names of their rows. */
  lemma {:induction false} NormalizedNamesFit(graph: MetadataGraph, parameterRows: seq<ParameterRow>)
    requires NormalizedGraph(graph, parameterRows)
    ensures NamesFit(ParameterFunctions(graph.parameters), graph.functionIdentity)
  {
    forall i | 0 <= i < |parameterRows| ensures graph.parameters[i].parameter.row.functionName == parameterRows[i].functionName {
      assert graph.parameters[i].parameter.row == parameterRows[i];
    }
    assert ParameterFunctions(graph.parameters) == FunctionNames(parameterRows);
  }

  /**
   * A normalized graph is refused by the projection's validation exactly when it has a cycle or
   * names no function: it has neither an identity nor a parameter.
   */
  lemma {:induction false} NormalizedIsValidIff(graph: MetadataGraph, parameterRows: seq<ParameterRow>)
    requires NormalizedGraph(graph, parameterRows) && FlagsFit(graph)
    ensures ProjectionGraphValid(graph) <==> Acyclic(Adjacency(Nodes(graph.nodes))) && NamesFunction(graph)
  {
    NormalizedReferencesValidIffAcyclic(graph, parameterRows);
    NormalizedNamesFit(graph, parameterRows);
  }

  /** The graph of a closure without parameters, such as type rows alone, needs a declared function to be projected. */
  lemma {:induction false} TypesAloneNameNoFunction(c: Closure, rootTypeNames: seq<string>, limits: Limits, graph: MetadataGraph)
    requires Acceptable(c, rootTypeNames, limits) && IsGraphOfClosure(graph, c, rootTypeNames, limits)
    requires c.parameterRows == []
    ensures NamesFunction(graph) <==> c.functionNames.Some? && c.functionNames.value != []
  {
    AcceptedGraphIsSound(c, rootTypeNames, limits, graph);
  }

  lemma {:induction false} FieldOfAcyclicValid(graph: MetadataGraph, parameterRows: seq<ParameterRow>, i: nat, k: nat)
    requires NormalizedGraph(graph, parameterRows) && Acyclic(Adjacency(Nodes(graph.nodes))) && FlagsFit(graph)
    requires i < |graph.nodes| && k < |graph.nodes[i].cyclic|
    ensures FieldValid(graph, i, k)
  {
    var nodes := Nodes(graph.nodes);
    if nodes[i].fields[k].reference.NodeReference? {
      assert TargetOk(nodes, nodes[i].fields[k].reference);
      var v := IndexByName(nodes)[nodes[i].fields[k].reference.target];
      assert Refers(nodes, i, k, v);
      EdgeIsReference(nodes, i, v);
      assert NodeFlagsExact(nodes, i, graph.nodes[i]);
      if Reach(Adjacency(nodes), v, i) {
        assert OnCycle(Adjacency(nodes), i);
      }
    }
  }

  lemma {:induction false} ParameterOfAcyclicValid(graph: MetadataGraph, parameterRows: seq<ParameterRow>, i: nat)
    requires NormalizedGraph(graph, parameterRows) && Acyclic(Adjacency(Nodes(graph.nodes)))
    requires i < |graph.parameters|
    ensures ParameterValid(graph, graph.parameters[i])
  {
    var p := graph.parameters[i];
    assert ParameterOk(Nodes(graph.nodes), parameterRows[i], p.parameter.reference, graph.rootTypeNames);
    assert ParameterFlagsExact(Nodes(graph.nodes), Adjacency(Nodes(graph.nodes)), p);
  }

  function AtLeastOne(n: nat): nat {
    if n == 0 then 1 else n
  }

  /**
   * A normalized graph without cycles, projected with room for its own depth, never
   * exceeds the depth bound: only the descriptor budget or an elementary value's type
   * or length can make it fail.
   */
  lemma {:induction false} NormalizedWithinDepth(graph: MetadataGraph, parameterRows: seq<ParameterRow>, b: Bounds,
      used: nat, ps: seq<Parameter>)
    requires NormalizedGraph(graph, parameterRows) && Acyclic(Adjacency(Nodes(graph.nodes)))
    requires b.maxDepth >= AtLeastOne(graph.maximumDepth)
    requires forall p :: p in ps ==>
               p.row.parameterClass != Exception && exists i :: 0 <= i < |graph.parameters| && graph.parameters[i].parameter == p
    ensures ContentOnly(ProjectedParameters(Nodes(graph.nodes), b, used, ps))
  {
    var nodes := Nodes(graph.nodes);
    var g := Adjacency(nodes);
    var positions := Positions(nodes, graph.rootTypeNames);
    AdjacencyClosed(nodes);
    AcyclicDepthBoundsPaths(g, positions, graph.maximumDepth);
    assert PathsBounded(g, positions, b.maxDepth);
    forall i | 0 <= i < |ps|
      ensures ParameterOk(nodes, ps[i].row, ps[i].reference, graph.rootTypeNames) && ps[i].row.parameterClass != Exception
    {
      assert ps[i] in ps;
      var j :| 0 <= j < |graph.parameters| && graph.parameters[j].parameter == ps[i];
      assert ParameterOk(nodes, parameterRows[j], graph.parameters[j].parameter.reference, graph.rootTypeNames);
    }
    ParametersWithinDepth(nodes, graph.rootTypeNames, b, used, ps);
  }

  /** The exported parameters in position order; equal positions keep their source order. */
  function InsertParameter(p: Parameter, ps: seq<Parameter>): (r: seq<Parameter>)
    ensures forall x :: x in r <==> x == p || x in ps
  {
    if ps == [] || p.row.position <= ps[0].row.position then [p] + ps else [ps[0]] + InsertParameter(p, ps[1..])
  }

  /** The parameters at one position, in order. */
  function AtPosition(ps: seq<Parameter>, position: nat): seq<Parameter> {
    if ps == [] then [] else (if ps[0].row.position == position then [ps[0]] else []) + AtPosition(ps[1..], position)
  }

  function Exported(ps: seq<GraphParameter>): seq<Parameter> {
    if ps == [] then []
    else (if ps[0].parameter.row.parameterClass == Exception then [] else [ps[0].parameter]) + Exported(ps[1..])
  }

  predicate ParametersInOrder(ps: seq<Parameter>) {
    forall i, j :: 0 <= i < j < |ps| ==> ps[i].row.position <= ps[j].row.position
  }

  lemma {:induction false} InsertKeepsOrder(p: Parameter, ps: seq<Parameter>)
    ensures ParametersInOrder(ps) ==> ParametersInOrder(InsertParameter(p, ps))
  {
    if ps != [] && ps[0].row.position < p.row.position && ParametersInOrder(ps) {
      InsertKeepsOrder(p, ps[1..]);
      FirstIsLowest(ps[0], InsertParameter(p, ps[1..]));
    }
  }

  lemma {:induction false} FirstIsLowest(first: Parameter, rest: seq<Parameter>)
    requires ParametersInOrder(rest) && forall x :: x in rest ==> first.row.position <= x.row.position
    ensures ParametersInOrder([first] + rest)
  {
    forall i, j | 0 <= i < j < |[first] + rest| ensures ([first] + rest)[i].row.position <= ([first] + rest)[j].row.position {
      assert ([first] + rest)[j] == rest[j - 1] && rest[j - 1] in rest;
    }
  }

  lemma {:induction false} FirstAtPosition(p: Parameter, rest: seq<Parameter>, position: nat)
    ensures AtPosition([p] + rest, position) == (if p.row.position == position then [p] else []) + AtPosition(rest, position)
  {
    assert ([p] + rest)[1..] == rest;
  }

  lemma {:induction false} InsertKeepsPositions(p: Parameter, ps: seq<Parameter>, position: nat)
    ensures AtPosition(InsertParameter(p, ps), position) ==
            (if p.row.position == position then [p] else []) + AtPosition(ps, position)
  {
    if ps == [] || p.row.position <= ps[0].row.position {
      FirstAtPosition(p, ps, position);
    } else {
      var rest := InsertParameter(p, ps[1..]);
      InsertKeepsPositions(p, ps[1..], position);
      FirstAtPosition(ps[0], rest, position);
      var first, inserted, others: seq<Parameter> :=
        (if ps[0].row.position == position then [ps[0]] else []), (if p.row.position == position then [p] else []), AtPosition(ps[1..], position);
      assert first == [] || inserted == [];
      assert first + (inserted + others) == inserted + (first + others);
    }
  }

  /** Parameters come in position order, and those at one position in the order they were given. */
  lemma {:induction false} OrderIsStable(ps: seq<GraphParameter>, position: nat)
    ensures ParametersInOrder(OrderedParameters(ps))
    ensures AtPosition(OrderedParameters(ps), position) == AtPosition(Exported(ps), position)
  {
    if ps != [] {
      OrderIsStable(ps[1..], position);
      var p := ps[0].parameter;
      if p.row.parameterClass != Exception {
        InsertKeepsOrder(p, OrderedParameters(ps[1..]));
        InsertKeepsPositions(p, OrderedParameters(ps[1..]), position);
        assert Exported(ps)[1..] == Exported(ps[1..]);
      } else {
        assert Exported(ps) == Exported(ps[1..]);
      }
    }
  }

  function OrderedParameters(ps: seq<GraphParameter>): (r: seq<Parameter>)
    ensures forall p :: p in r ==> p.row.parameterClass != Exception && exists i :: 0 <= i < |ps| && ps[i].parameter == p
  {
    if ps == [] then []
    else
      var rest := OrderedParameters(ps[1..]);
      assert forall i :: 0 <= i < |ps[1..]| ==> ps[1..][i] == ps[i + 1];
      if ps[0].parameter.row.parameterClass == Exception then rest else InsertParameter(ps[0].parameter, rest)
  }

  // ---------------------------------------------------------------- the whole projection

  /** The published tree: the parameters grouped by direction, in position order. */
  datatype ModernTree = ModernTree(
    rfcName: string, imports: seq<Descriptor>, exports: seq<Descriptor>, changing: seq<Descriptor>, tables: seq<Descriptor>)

  function OfClass(ps: seq<Parameter>, c: ParameterClass): seq<Parameter> {
    if ps == [] then []
    else OfClass(ps[..|ps| - 1], c) + if ps[|ps| - 1].row.parameterClass == c then [ps[|ps| - 1]] else []
  }

  /** The descriptors of the parameters of one class. */
  function Picked(ps: seq<Parameter>, ds: seq<Descriptor>, c: ParameterClass): seq<Descriptor>
    requires |ps| == |ds|
  {
    if ps == [] then []
    else
      var n := |ps| - 1;
      Picked(ps[..n], ds[..n], c) + if ps[n].row.parameterClass == c then [ds[n]] else []
  }

  function Grouped(name: string, ps: seq<Parameter>, ds: seq<Descriptor>): ModernTree
    requires |ps| == |ds|
  {
    ModernTree(name, Picked(ps, ds, Import), Picked(ps, ds, Export), Picked(ps, ds, Changing), Picked(ps, ds, Tables))
  }

  /** The parameters of a class at a position, in the order given. */
  function Chosen(ps: seq<GraphParameter>, c: ParameterClass, position: nat): seq<Parameter> {
    if ps == [] then []
    else
      var p := ps[0].parameter;
      (if p.row.parameterClass == c && p.row.position == position then [p] else []) + Chosen(ps[1..], c, position)
  }

  /** The parameters of one class in position order, those of one position in the order given. */
  ghost predicate IsGroup(ps: seq<GraphParameter>, c: ParameterClass, group: seq<Parameter>) {
    ParametersInOrder(group) && forall position :: AtPosition(group, position) == Chosen(ps, c, position)
  }

  ghost predicate DescribesGroup(nodes: seq<Node>, ps: seq<GraphParameter>, c: ParameterClass, ds: seq<Descriptor>) {
    exists group :: IsGroup(ps, c, group) && DescribesParameters(nodes, group, ds)
  }

  /** The tree is published under the name, and each of its groups unfolds the parameters of its class in order. */
  ghost predicate IsTreeOf(nodes: seq<Node>, name: string, ps: seq<GraphParameter>, tree: ModernTree) {
    && tree.rfcName == name
    && DescribesGroup(nodes, ps, Import, tree.imports) && DescribesGroup(nodes, ps, Export, tree.exports)
    && DescribesGroup(nodes, ps, Changing, tree.changing) && DescribesGroup(nodes, ps, Tables, tree.tables)
  }

  lemma {:induction false} AppendedAt(ps: seq<Parameter>, p: Parameter, position: nat)
    ensures AtPosition(ps + [p], position) == AtPosition(ps, position) + if p.row.position == position then [p] else []
  {
    if ps == [] {
      assert ps + [p] == [p] && [p][1..] == [];
    } else {
      AppendedAt(ps[1..], p, position);
      assert (ps + [p])[1..] == ps[1..] + [p];
    }
  }

  lemma {:induction false} ClassAppended(ps: seq<Parameter>, p: Parameter, c: ParameterClass)
    ensures OfClass(ps + [p], c) == OfClass(ps, c) + if p.row.parameterClass == c then [p] else []
  {
    assert (ps + [p])[..|ps|] == ps;
  }

  lemma {:induction false} ClassPrepended(p: Parameter, ps: seq<Parameter>, c: ParameterClass)
    ensures OfClass([p] + ps, c) == (if p.row.parameterClass == c then [p] else []) + OfClass(ps, c)
  {
    if ps == [] {
      assert [p] + ps == [p] && [p][..0] == [];
    } else {
      var n := |ps| - 1;
      ClassPrepended(p, ps[..n], c);
      assert ([p] + ps)[..|ps|] == [p] + ps[..n];
    }
  }

  lemma {:induction false} ClassAt(ps: seq<Parameter>, c: ParameterClass, position: nat)
    ensures AtPosition(OfClass(ps, c), position) == OfClass(AtPosition(ps, position), c)
  {
    if ps != [] {
      var n := |ps| - 1;
      var p := ps[n];
      ClassAt(ps[..n], c, position);
      assert ps == ps[..n] + [p];
      AppendedAt(ps[..n], p, position);
      AppendedAt(OfClass(ps[..n], c), p, position);
      ClassAppended(AtPosition(ps[..n], position), p, c);
      assert OfClass(ps[..n], c) + [] == OfClass(ps[..n], c) && AtPosition(ps[..n], position) + [] == AtPosition(ps[..n], position);
    }
  }

  lemma {:induction false} ExportedChosen(ps: seq<GraphParameter>, c: ParameterClass, position: nat)
    requires c != Exception
    ensures OfClass(AtPosition(Exported(ps), position), c) == Chosen(ps, c, position)
  {
    if ps != [] {
      ExportedChosen(ps[1..], c, position);
      var p := ps[0].parameter;
      var rest := AtPosition(Exported(ps[1..]), position);
      ClassPrepended(p, rest, c);
      if p.row.parameterClass == Exception {
        assert Exported(ps) == Exported(ps[1..]);
      } else {
        assert Exported(ps)[1..] == Exported(ps[1..]);
        assert p.row.position != position ==> AtPosition(Exported(ps), position) == rest;
      }
    }
  }

  lemma {:induction false} ClassInOrder(ps: seq<Parameter>, c: ParameterClass)
    requires ParametersInOrder(ps)
    ensures ParametersInOrder(OfClass(ps, c)) && forall x :: x in OfClass(ps, c) ==> x in ps
  {
    if ps != [] {
      var n := |ps| - 1;
      ClassInOrder(ps[..n], c);
      var group, front := OfClass(ps, c), OfClass(ps[..n], c);
      forall i, j | 0 <= i < j < |group| ensures group[i].row.position <= group[j].row.position {
        assert group[i] == front[i] && front[i] in ps[..n];
      }
    }
  }

  lemma {:induction false} OrderedClassIsGroup(ps: seq<GraphParameter>, c: ParameterClass)
    requires c != Exception
    ensures IsGroup(ps, c, OfClass(OrderedParameters(ps), c))
  {
    OrderIsStable(ps, 0);
    ClassInOrder(OrderedParameters(ps), c);
    forall position ensures AtPosition(OfClass(OrderedParameters(ps), c), position) == Chosen(ps, c, position) {
      ClassAt(OrderedParameters(ps), c, position);
      OrderIsStable(ps, position);
      ExportedChosen(ps, c, position);
    }
  }

  function TreeSize(tree: ModernTree): nat {
    SizeAll(tree.imports) + SizeAll(tree.exports) + SizeAll(tree.changing) + SizeAll(tree.tables)
  }

  lemma {:induction false} DescribesAppended(nodes: seq<Node>, ps: seq<Parameter>, ds: seq<Descriptor>, p: Parameter, d: Descriptor)
    requires |ps| == |ds|
    ensures DescribesParameters(nodes, ps + [p], ds + [d]) <==> DescribesParameters(nodes, ps, ds) && DescribesParameter(nodes, p, d)
    decreases |ds|
  {
    if ds != [] {
      DescribesAppended(nodes, ps[1..], ds[1..], p, d);
      assert (ps + [p])[1..] == ps[1..] + [p] && (ds + [d])[1..] == ds[1..] + [d];
    } else {
      assert (ps + [p])[1..] == [] && (ds + [d])[1..] == [];
    }
  }

  lemma {:induction false} PickedDescribes(nodes: seq<Node>, ps: seq<Parameter>, ds: seq<Descriptor>, c: ParameterClass)
    requires DescribesParameters(nodes, ps, ds)
    ensures |ps| == |ds| && DescribesParameters(nodes, OfClass(ps, c), Picked(ps, ds, c))
    decreases |ps|
  {
    if ps != [] {
      var n := |ps| - 1;
      assert ps == ps[..n] + [ps[n]] && ds == ds[..n] + [ds[n]];
      DescribesAppended(nodes, ps[..n], ds[..n], ps[n], ds[n]);
      PickedDescribes(nodes, ps[..n], ds[..n], c);
      var some, picked := OfClass(ps[..n], c), Picked(ps[..n], ds[..n], c);
      SameLength(nodes, some, picked);
      if ps[n].row.parameterClass == c {
        DescribesAppended(nodes, some, picked, ps[n], ds[n]);
      } else {
        assert some + [] == some && picked + [] == picked;
      }
    }
  }

  lemma {:induction false} SameLength(nodes: seq<Node>, ps: seq<Parameter>, ds: seq<Descriptor>)
    requires DescribesParameters(nodes, ps, ds)
    ensures |ps| == |ds|
  {}

  lemma {:induction false} SizeAppended(ds: seq<Descriptor>, d: Descriptor)
    ensures SizeAll(ds + [d]) == SizeAll(ds) + Size(d)
  {
    if ds == [] {
      assert ds + [d] == [d] && [d][1..] == [];
    } else {
      SizeAppended(ds[1..], d);
      assert (ds + [d])[1..] == ds[1..] + [d];
    }
  }

  /** Grouping loses no descriptor: only exceptions belong to no group. */
  lemma {:induction false} GroupingKeepsSize(name: string, ps: seq<Parameter>, ds: seq<Descriptor>)
    requires |ps| == |ds| && forall p :: p in ps ==> p.row.parameterClass != Exception
    ensures TreeSize(Grouped(name, ps, ds)) == SizeAll(ds)
    decreases |ps|
  {
    if ps != [] {
      var n := |ps| - 1;
      GroupingKeepsSize(name, ps[..n], ds[..n]);
      assert ds == ds[..n] + [ds[n]];
      SizeAppended(ds[..n], ds[n]);
      assert ps[n] in ps;
      OneMoreGrouped(name, ps, ds);
    }
  }

  lemma {:induction false} OneMoreGrouped(name: string, ps: seq<Parameter>, ds: seq<Descriptor>)
    requires |ps| == |ds| && ps != [] && ps[|ps| - 1].row.parameterClass != Exception
    ensures
      var n := |ps| - 1;
      TreeSize(Grouped(name, ps, ds)) == TreeSize(Grouped(name, ps[..n], ds[..n])) + Size(ds[n])
  {
    PickedSize(ps, ds, Import);
    PickedSize(ps, ds, Export);
    PickedSize(ps, ds, Changing);
    PickedSize(ps, ds, Tables);
  }

  lemma {:induction false} PickedSize(ps: seq<Parameter>, ds: seq<Descriptor>, c: ParameterClass)
    requires |ps| == |ds| && ps != []
    ensures
      var n := |ps| - 1;
      SizeAll(Picked(ps, ds, c)) == SizeAll(Picked(ps[..n], ds[..n], c)) + if ps[n].row.parameterClass == c then Size(ds[n]) else 0
  {
    var n := |ps| - 1;
    if ps[n].row.parameterClass == c {
      SizeAppended(Picked(ps[..n], ds[..n], c), ds[n]);
    } else {
      assert Picked(ps[..n], ds[..n], c) + [] == Picked(ps[..n], ds[..n], c);
    }
  }

  lemma {:induction false} TreeOfUnfolding(nodes: seq<Node>, name: string, ps: seq<GraphParameter>, ds: seq<Descriptor>)
    requires DescribesParameters(nodes, OrderedParameters(ps), ds)
    ensures |OrderedParameters(ps)| == |ds| && IsTreeOf(nodes, name, ps, Grouped(name, OrderedParameters(ps), ds))
  {
    PickedIsGroup(nodes, ps, ds, Import);
    PickedIsGroup(nodes, ps, ds, Export);
    PickedIsGroup(nodes, ps, ds, Changing);
    PickedIsGroup(nodes, ps, ds, Tables);
  }

  lemma {:induction false} PickedIsGroup(nodes: seq<Node>, ps: seq<GraphParameter>, ds: seq<Descriptor>, c: ParameterClass)
    requires DescribesParameters(nodes, OrderedParameters(ps), ds) && c != Exception
    ensures |OrderedParameters(ps)| == |ds| && DescribesGroup(nodes, ps, c, Picked(OrderedParameters(ps), ds, c))
  {
    PickedDescribes(nodes, OrderedParameters(ps), ds, c);
    OrderedClassIsGroup(ps, c);
  }

  /** The outcome of the parameters in order, grouped and named. */
  ghost predicate Yields(o: Outcome<seq<Descriptor>>, name: string, ordered: seq<Parameter>, r: Projected<ModernTree>) {
    match o
    case Done(value, _) => |value| == |ordered| && r == Value(Grouped(name, ordered, value))
    case Failed(code) => r == Rejected(code)
  }

  /**
   * Project a graph that the normalizer made. A cyclic graph is refused, and so is one that names
   * no function. Otherwise the result is that of the parameters in order; what is returned is the
   * unfolding of the graph, named and grouped, of exactly the counted size and within the budget;
   * and with room for the graph's own depth the depth bound is never the reason for a rejection.
   */
  method ToModernMetadata(graph: MetadataGraph, ghost parameterRows: seq<ParameterRow>, b: Bounds) returns (r: Projected<ModernTree>)
    requires NormalizedGraph(graph, parameterRows)
    ensures !Acyclic(Adjacency(Nodes(graph.nodes))) ==> r == Rejected(CyclicGraph)
    ensures Acyclic(Adjacency(Nodes(graph.nodes))) && !NamesFunction(graph) ==> r == Rejected(MissingFunction)
    ensures Acyclic(Adjacency(Nodes(graph.nodes))) && NamesFunction(graph) ==>
              var ordered := OrderedParameters(graph.parameters);
              Yields(ProjectedParameters(Nodes(graph.nodes), b, 0, ordered), RfcName(graph), ordered, r)
    ensures r.Value? ==>
              && NamesFunction(graph) && TreeSize(r.value) <= b.maxDescriptors
              && IsTreeOf(Nodes(graph.nodes), RfcName(graph), graph.parameters, r.value)
    ensures Acyclic(Adjacency(Nodes(graph.nodes))) && NamesFunction(graph) && b.maxDepth >= AtLeastOne(graph.maximumDepth) && r.Rejected? ==>
              ContentFailure(r.code)
  {
    NormalizedFlagsFit(graph, parameterRows);
    NormalizedIsValidIff(graph, parameterRows);
    NormalizedReferencesValidIffAcyclic(graph, parameterRows);
    NormalizedNamesFit(graph, parameterRows);
    var rfcName := ValidateProjectionGraph(graph);
    if rfcName.Rejected? {
      return Rejected(rfcName.code);
    }
    var ordered := OrderedParameters(graph.parameters);
    r := ProjectAll(Nodes(graph.nodes), b, rfcName.value, graph.parameters);
    if b.maxDepth >= AtLeastOne(graph.maximumDepth) {
      NormalizedWithinDepth(graph, parameterRows, b, 0, ordered);
    }
  }

  /** A completed projection, grouped and named, is the tree of the parameters and within the budget. */
  lemma {:induction false} CompletedTree(nodes: seq<Node>, b: Bounds, name: string, ps: seq<GraphParameter>)
    requires ProjectedParameters(nodes, b, 0, OrderedParameters(ps)).Done?
    ensures
      var ordered := OrderedParameters(ps);
      var ds := ProjectedParameters(nodes, b, 0, ordered).value;
      && |ds| == |ordered| && IsTreeOf(nodes, name, ps, Grouped(name, ordered, ds))
      && TreeSize(Grouped(name, ordered, ds)) <= b.maxDescriptors
  {
    var ordered := OrderedParameters(ps);
    var ds := ProjectedParameters(nodes, b, 0, ordered).value;
    ProjectionUnfolds(nodes, b, 0, ordered);
    TreeOfUnfolding(nodes, name, ps, ds);
    ProjectionSize(nodes, b, b.maxDescriptors, 0, ordered);
    GroupingKeepsSize(name, ordered, ds);
  }

  /** The tree with one more parameter, in the group of its class. */
  function Pushed(tree: ModernTree, c: ParameterClass, d: Descriptor): ModernTree {
    match c
    case Import => tree.(imports := tree.imports + [d])
    case Export => tree.(exports := tree.exports + [d])
    case Changing => tree.(changing := tree.changing + [d])
    case Tables => tree.(tables := tree.tables + [d])
    case Exception => tree
  }

  lemma {:induction false} PushedIsGrouped(name: string, ps: seq<Parameter>, ds: seq<Descriptor>, d: Descriptor, index: nat)
    requires index < |ps| && |ds| == index
    ensures Grouped(name, ps[..index + 1], ds + [d]) == Pushed(Grouped(name, ps[..index], ds), ps[index].row.parameterClass, d)
  {
    assert ps[..index + 1][..index] == ps[..index] && (ds + [d])[..index] == ds;
  }

  /** Project the parameters one after another with a fresh counter, each into the group of its class. */
  method ProjectAll(nodes: seq<Node>, b: Bounds, name: string, ps: seq<GraphParameter>) returns (r: Projected<ModernTree>)
    ensures Yields(ProjectedParameters(nodes, b, 0, OrderedParameters(ps)), name, OrderedParameters(ps), r)
    ensures r.Value? ==> IsTreeOf(nodes, name, ps, r.value) && TreeSize(r.value) <= b.maxDescriptors
  {
    var ordered := OrderedParameters(ps);
    var context := new ProjectionContext(nodes, b);
    ghost var whole := ProjectedParameters(nodes, b, 0, ordered);
    ghost var converted: seq<Descriptor> := [];
    var tree := ModernTree(name, [], [], [], []);
    assert ordered[0..] == ordered;
    assert whole.Done? ==> [] + whole.value == whole.value;
    for index := 0 to |ordered|
      invariant context.nodes == nodes && context.bounds == b
      invariant whole == Prefixed(converted, ProjectedParameters(nodes, b, context.projectedDescriptors, ordered[index..]))
      invariant |converted| == index && tree == Grouped(name, ordered[..index], converted)
    {
      ProjectedOneMore(nodes, b, context.projectedDescriptors, ordered, index, converted);
      var d := context.ProjectParameter(ordered[index]);
      if d.Rejected? {
        return Rejected(d.code);
      }
      PushedIsGrouped(name, ordered, converted, d.value, index);
      tree := Pushed(tree, ordered[index].row.parameterClass, d.value);
      converted := converted + [d.value];
    }
    assert ordered[|ordered|..] == [] && converted + [] == converted && ordered[..|ordered|] == ordered;
    CompletedTree(nodes, b, name, ps);
    return Value(tree);
  }

  /** An outcome with some values put in front. */
  function Prefixed(front: seq<Descriptor>, o: Outcome<seq<Descriptor>>): Outcome<seq<Descriptor>> {
    if o.Failed? then o else Done(front + o.value, o.used)
  }

  lemma {:induction false} ProjectedOneMore(nodes: seq<Node>, b: Bounds, used: nat, ordered: seq<Parameter>,
      index: nat, converted: seq<Descriptor>)
    requires index < |ordered|
    ensures Prefixed(converted, ProjectedParameters(nodes, b, used, ordered[index..])) ==
            match ProjectedParameter(nodes, b, used, ordered[index])
            case Failed(code) => Failed(code)
            case Done(d, u) => Prefixed(converted + [d], ProjectedParameters(nodes, b, u, ordered[index + 1..]))
  {
    var rest := ordered[index..];
    assert rest[0] == ordered[index] && rest[1..] == ordered[index + 1..];
    match ProjectedParameter(nodes, b, used, rest[0])
    case Failed(_) =>
    case Done(d, u) =>
      match ProjectedParameters(nodes, b, u, rest[1..])
      case Failed(_) =>
      case Done(more, _) => assert converted + ([d] + more) == (converted + [d]) + more;
  }
}
