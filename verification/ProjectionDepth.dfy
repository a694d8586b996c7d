/** The depth of an unfolded type graph, and the projection as the program performs it. */
module ProjectionDepth {
  import opened Graphs
  import opened Descents
  import opened MetadataNodes
  import opened MetadataReferences
  import opened Metadata
  import opened Normalizer
  import opened Projection

  /** Closed nodes that refer to structures and tables only, and whose other kinds consist of one anonymous line. */
  ghost predicate WellShaped(nodes: seq<Node>) {
    TargetsClosed(nodes) && forall i {:trigger ShapedNode(nodes[i])} :: 0 <= i < |nodes| ==> ShapedNode(nodes[i])
  }

  ghost predicate ShapedNode(node: Node) {
    && (node.kind != Structure ==> |node.fields| == 1 && node.fields[0].name == "")
    && (forall f :: f in node.fields && f.reference.NodeReference? ==> f.reference.kind != Scalar)
  }

  lemma {:induction false} SoundNodesWellShaped(nodes: seq<Node>)
    requires TargetsClosed(nodes) && forall i :: 0 <= i < |nodes| ==> FinalNodeSound(nodes[i])
    ensures WellShaped(nodes)
  {
    forall i | 0 <= i < |nodes| ensures ShapedNode(nodes[i]) {
      assert FinalNodeSound(nodes[i]);
    }
  }

  /** No path from a root has more than m nodes. */
  ghost predicate PathsBounded(g: Graph, roots: seq<nat>, m: nat) {
    forall p :: IsPath(g, p) && p[0] in roots ==> |p| <= m
  }

  /** In an acyclic graph no step of a path can be undone, so the depth bounds paths of nodes. */
  lemma {:induction false} AcyclicDepthBoundsPaths(g: Graph, roots: seq<nat>, depth: nat)
    requires Closed(g) && Acyclic(g) && LongestDescent(g, roots, depth)
    ensures PathsBounded(g, roots, depth)
  {
    forall p | IsPath(g, p) && p[0] in roots ensures |p| <= depth {
      forall i, j | 0 <= i < j < |p| && j == i + 1 ensures Reach(g, p[i], p[j]) && !Reach(g, p[j], p[i]) {
        assert Edge(g, p[i], p[j]);
        ReachEdge(g, p[i], p[j]);
        assert !OnCycle(g, p[i]);
      }
      assert DescentFrom(g, roots, p);
    }
  }

  /** Failures that do not come from the shape or the depth of the graph. */
  predicate ContentFailure(code: ProjectionCode) {
    code in {DescriptorsExceeded, UnsupportedScalarType, InvalidNucLength}
  }

  ghost predicate ContentOnly<T(!new)>(o: Outcome<T>) {
    o.Failed? ==> ContentFailure(o.code)
  }

  /** A path from a root to node u that is at least as long as the depth reached. */
  ghost predicate DepthPath(nodes: seq<Node>, roots: seq<nat>, p: seq<nat>, u: nat, depth: nat)
    requires TargetsClosed(nodes)
  {
    IsPath(Adjacency(nodes), p) && p[0] in roots && p[|p| - 1] == u && depth <= |p|
  }

  /** The graph is well shaped and no path from a root is longer than the depth bound. */
  ghost predicate Shallow(nodes: seq<Node>, roots: seq<nat>, b: Bounds) {
    WellShaped(nodes) && PathsBounded(Adjacency(nodes), roots, b.maxDepth)
  }

  lemma {:induction false} ReferenceMet(nodes: seq<Node>, u: nat, f: Field) returns (v: nat)
    requires WellShaped(nodes) && u < |nodes| && f in nodes[u].fields && f.reference.NodeReference?
    ensures f.reference.target in IndexByName(nodes) && v == IndexByName(nodes)[f.reference.target]
    ensures v < |nodes| && nodes[v].kind == f.reference.kind != Scalar && Edge(Adjacency(nodes), u, v)
  {
    assert ShapedNode(nodes[u]);
    var k :| 0 <= k < |nodes[u].fields| && nodes[u].fields[k] == f;
    assert TargetOk(nodes, nodes[u].fields[k].reference);
    v := IndexByName(nodes)[f.reference.target];
    assert Refers(nodes, u, k, v);
    EdgeIsReference(nodes, u, v);
  }

  lemma {:induction false} FollowReference(nodes: seq<Node>, roots: seq<nat>, b: Bounds, p: seq<nat>, u: nat,
      depth: nat, f: Field) returns (v: nat)
    requires Shallow(nodes, roots, b) && DepthPath(nodes, roots, p, u, depth)
    requires f in nodes[u].fields && f.reference.NodeReference?
    ensures f.reference.target in IndexByName(nodes) && v == IndexByName(nodes)[f.reference.target]
    ensures nodes[v].kind == f.reference.kind != Scalar
    ensures DepthPath(nodes, roots, p + [v], v, depth + 1) && depth + 1 <= b.maxDepth
  {
    v := ReferenceMet(nodes, u, f);
    ExtendPath(Adjacency(nodes), p, v);
  }

  /** What a field refers to is projected within the depth bound. */
  lemma {:induction false} ReferenceWithinDepth(nodes: seq<Node>, roots: seq<nat>, b: Bounds, used: nat, p: seq<nat>,
      u: nat, f: Field, depth: nat)
    requires Shallow(nodes, roots, b) && DepthPath(nodes, roots, p, u, depth) && depth <= b.maxDepth
    requires f in nodes[u].fields && f.reference.NodeReference?
    ensures ReferenceContent(nodes, b, used, f, depth)
    decreases b.maxDepth + 1 - depth, 0, 0
  {
    var v := FollowReference(nodes, roots, b, p, u, depth, f);
    if f.reference.kind == Structure {
      StructureWithinDepth(nodes, roots, b, used + 1, p + [v], v, depth + 1);
    } else {
      TableLineWithinDepth(nodes, roots, b, used + 1, p + [v], v, depth + 1);
    }
  }

  ghost predicate ReferenceContent(nodes: seq<Node>, b: Bounds, used: nat, f: Field, depth: nat)
    requires depth <= b.maxDepth && f.reference.NodeReference?
  {
    && f.reference.target in IndexByName(nodes)
    && var node := nodes[IndexByName(nodes)[f.reference.target]];
      && node.kind == f.reference.kind != Scalar
      && (node.kind == Structure ==> ContentOnly(ProjectedStructure(nodes, b, used + 1, node, depth + 1)))
      && (node.kind == Table ==> ContentOnly(ProjectedTableLine(nodes, b, used + 1, node, depth + 1)))
  }

  lemma {:induction false} FieldWithinDepth(nodes: seq<Node>, roots: seq<nat>, b: Bounds, used: nat, p: seq<nat>,
      u: nat, f: Field, depth: nat)
    requires Shallow(nodes, roots, b) && DepthPath(nodes, roots, p, u, depth) && f in nodes[u].fields
    ensures depth <= b.maxDepth && ContentOnly(ProjectedField(nodes, b, used, f, depth))
    decreases b.maxDepth + 1 - depth, 1, 0
  {
    assert |p| <= b.maxDepth;
    if f.reference.NodeReference? {
      ReferenceWithinDepth(nodes, roots, b, used, p, u, f, depth);
    }
    FieldContent(nodes, b, used, f, depth);
  }

  /** A field fails on content only if what it refers to does. */
  lemma {:induction false} FieldContent(nodes: seq<Node>, b: Bounds, used: nat, f: Field, depth: nat)
    requires depth <= b.maxDepth
    requires f.reference.NodeReference? ==> ReferenceContent(nodes, b, used, f, depth)
    ensures ContentOnly(ProjectedField(nodes, b, used, f, depth))
  {}

  lemma {:induction false} FieldsWithinDepth(nodes: seq<Node>, roots: seq<nat>, b: Bounds, used: nat, p: seq<nat>,
      u: nat, fields: seq<Field>, depth: nat)
    requires Shallow(nodes, roots, b) && DepthPath(nodes, roots, p, u, depth) && forall f :: f in fields ==> f in nodes[u].fields
    ensures depth <= b.maxDepth && ContentOnly(ProjectedFields(nodes, b, used, fields, depth))
    decreases b.maxDepth + 1 - depth, 2, |fields|
  {
    assert |p| <= b.maxDepth;
    if fields != [] {
      FieldWithinDepth(nodes, roots, b, used, p, u, fields[0], depth);
      var first := ProjectedField(nodes, b, used, fields[0], depth);
      if first.Done? {
        FieldsWithinDepth(nodes, roots, b, first.used, p, u, fields[1..], depth);
      }
    }
  }

  lemma {:induction false} StructureWithinDepth(nodes: seq<Node>, roots: seq<nat>, b: Bounds, used: nat, p: seq<nat>,
      u: nat, depth: nat)
    requires Shallow(nodes, roots, b) && DepthPath(nodes, roots, p, u, depth) && nodes[u].kind == Structure
    ensures depth <= b.maxDepth && ContentOnly(ProjectedStructure(nodes, b, used, nodes[u], depth))
    decreases b.maxDepth + 1 - depth, 3, 0
  {
    FieldsWithinDepth(nodes, roots, b, used, p, u, OrderedFields(nodes[u].fields), depth);
  }

  lemma {:induction false} TableLineWithinDepth(nodes: seq<Node>, roots: seq<nat>, b: Bounds, used: nat, p: seq<nat>,
      u: nat, depth: nat)
    requires Shallow(nodes, roots, b) && DepthPath(nodes, roots, p, u, depth)
    ensures depth <= b.maxDepth && ContentOnly(ProjectedTableLine(nodes, b, used, nodes[u], depth))
    decreases b.maxDepth + 1 - depth, 4, 0
  {
    assert |p| <= b.maxDepth;
    if nodes[u].kind == Structure {
      StructureWithinDepth(nodes, roots, b, used, p, u, depth);
    } else {
      assert ShapedNode(nodes[u]);
      var line := nodes[u].fields[0];
      assert line in nodes[u].fields;
      if line.reference.NodeReference? && line.reference.kind == Structure {
        var v := FollowReference(nodes, roots, b, p, u, depth, line);
        StructureWithinDepth(nodes, roots, b, used, p + [v], v, depth);
      } else {
        FieldWithinDepth(nodes, roots, b, used, p, u, line, depth);
      }
    }
  }

  lemma {:induction false} ParameterWithinDepth(nodes: seq<Node>, roots: seq<string>, b: Bounds, used: nat, p: Parameter)
    requires WellShaped(nodes) && RootsExist(nodes, roots) && b.maxDepth >= 1
    requires PathsBounded(Adjacency(nodes), Positions(nodes, roots), b.maxDepth)
    requires ParameterOk(nodes, p.row, p.reference, roots) && p.row.parameterClass != Exception
    ensures ContentOnly(ProjectedParameter(nodes, b, used, p))
  {
    if p.reference.NodeParameter? {
      var v := IndexByName(nodes)[p.reference.target];
      var positions := Positions(nodes, roots);
      var k :| 0 <= k < |roots| && roots[k] == p.reference.target;
      assert positions[k] == v;
      assert IsPath(Adjacency(nodes), [v]);
      assert DepthPath(nodes, positions, [v], v, 1);
      if p.reference.kind == Structure {
        StructureWithinDepth(nodes, positions, b, used + 1, [v], v, 1);
      } else {
        TableLineWithinDepth(nodes, positions, b, used + 1, [v], v, 1);
      }
    }
    ParameterContent(nodes, b, used, p);
  }

  lemma {:induction false} ParameterContent(nodes: seq<Node>, b: Bounds, used: nat, p: Parameter)
    requires b.maxDepth >= 1 && !p.reference.ExceptionParameter?
    requires p.reference.NodeParameter? ==>
               && p.reference.target in IndexByName(nodes)
               && var node := nodes[IndexByName(nodes)[p.reference.target]];
                 && (p.reference.kind == Structure ==> ContentOnly(ProjectedStructure(nodes, b, used + 1, node, 1)))
                 && (p.reference.kind != Structure ==> ContentOnly(ProjectedTableLine(nodes, b, used + 1, node, 1)))
    ensures ContentOnly(ProjectedParameter(nodes, b, used, p))
  {}

  lemma {:induction false} ParametersWithinDepth(nodes: seq<Node>, roots: seq<string>, b: Bounds, used: nat,
      ps: seq<Parameter>)
    requires WellShaped(nodes) && RootsExist(nodes, roots) && b.maxDepth >= 1
    requires PathsBounded(Adjacency(nodes), Positions(nodes, roots), b.maxDepth)
    requires forall i :: 0 <= i < |ps| ==> ParameterOk(nodes, ps[i].row, ps[i].reference, roots) && ps[i].row.parameterClass != Exception
    ensures ContentOnly(ProjectedParameters(nodes, b, used, ps))
    decreases |ps|
  {
    if ps != [] {
      ParameterWithinDepth(nodes, roots, b, used, ps[0]);
      var first := ProjectedParameter(nodes, b, used, ps[0]);
      if first.Done? {
        ParametersWithinDepth(nodes, roots, b, first.used, ps[1..]);
      }
    }
  }
}
