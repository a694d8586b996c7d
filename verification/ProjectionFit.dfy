/**
 * Exactly when a projection succeeds: the graph has an unfolding from the parameters, no deeper
 * than the depth bound and no larger than the budget, and then the projection is that unfolding.
 */
module ProjectionFit {
  import opened MetadataNodes
  import opened MetadataReferences
  import opened Projection
  import opened Unfolding

  /** The descriptor and all below it are within the depth; a table takes up one level more for its line. */
  predicate Shallow(d: Descriptor, depth: nat, maxDepth: nat) {
    depth <= maxDepth && (d.abapType == "h" ==> depth < maxDepth) && forall i :: 0 <= i < |d.children| ==> Shallow(d.children[i], depth + 1, maxDepth)
  }

  predicate AllShallow(ds: seq<Descriptor>, depth: nat, maxDepth: nat) {
    forall i :: 0 <= i < |ds| ==> Shallow(ds[i], depth, maxDepth)
  }

  // ---------------------------------------------------------------- what unfolds and fits is projected

  lemma {:induction false} FieldFits(nodes: seq<Node>, b: Bounds, used: nat, f: Field, depth: nat, d: Descriptor)
    requires DescribesField(nodes, f, d) && Shallow(d, depth, b.maxDepth) && used + Size(d) <= b.maxDescriptors
    ensures ProjectedField(nodes, b, used, f, depth) == Done(d, used + Size(d))
    decreases d
  {
    if f.reference.NodeReference? {
      var node := NodeNamed(nodes, f.reference.target);
      if f.reference.kind == Structure {
        StructureFits(nodes, b, used + 1, node, depth + 1, d.children);
      } else {
        LineFits(nodes, b, used + 1, node, depth + 1, d.children);
      }
    } else {
      SupportedHasDescriptor(f.internalType);
    }
  }

  lemma {:induction false} FieldsFit(nodes: seq<Node>, b: Bounds, used: nat, fields: seq<Field>, depth: nat, ds: seq<Descriptor>)
    requires DescribesFields(nodes, fields, ds) && AllShallow(ds, depth, b.maxDepth) && depth <= b.maxDepth + 1
    requires used + SizeAll(ds) <= b.maxDescriptors || ds == []
    ensures ProjectedFields(nodes, b, used, fields, depth) == Done(ds, used + SizeAll(ds))
    decreases ds, 0
  {
    if ds != [] {
      FieldFits(nodes, b, used, fields[0], depth, ds[0]);
      FieldsFit(nodes, b, used + Size(ds[0]), fields[1..], depth, ds[1..]);
      assert ds == [ds[0]] + ds[1..];
    }
  }

  lemma {:induction false} StructureFits(nodes: seq<Node>, b: Bounds, used: nat, node: Node, depth: nat, ds: seq<Descriptor>)
    requires DescribesStructure(nodes, node, ds) && AllShallow(ds, depth, b.maxDepth) && depth <= b.maxDepth + 1
    requires used + SizeAll(ds) <= b.maxDescriptors || ds == []
    ensures ProjectedStructure(nodes, b, used, node, depth) == Done(ds, used + SizeAll(ds))
    decreases ds, 1
  {
    var ordered :| IsOrdering(node.fields, ordered) && DescribesFields(nodes, ordered, ds);
    FieldsAreOrdered(node.fields);
    OrderingIsUnique(ordered, OrderedFields(node.fields));
    FieldsFit(nodes, b, used, ordered, depth, ds);
  }

  lemma {:induction false} LineFits(nodes: seq<Node>, b: Bounds, used: nat, node: Node, depth: nat, ds: seq<Descriptor>)
    requires DescribesLine(nodes, node, ds) && AllShallow(ds, depth, b.maxDepth) && depth <= b.maxDepth
    requires used + SizeAll(ds) <= b.maxDescriptors || ds == []
    ensures ProjectedTableLine(nodes, b, used, node, depth) == Done(Line(LineLength(nodes, node), ds), used + SizeAll(ds))
    decreases ds, 2
  {
    if node.kind == Structure {
      StructureFits(nodes, b, used, node, depth, ds);
    } else {
      var line := node.fields[0];
      if line.reference.NodeReference? && line.reference.kind == Structure {
        StructureFits(nodes, b, used, NodeNamed(nodes, line.reference.target), depth, ds);
      } else {
        assert ds == [ds[0]] && SizeAll(ds) == Size(ds[0]);
        FieldFits(nodes, b, used, line, depth, ds[0]);
      }
    }
  }

  lemma {:induction false} ScalarFits(name: string, internalType: string, internalLength: nat, used: nat, d: Descriptor)
    requires DescribesScalar(name, internalType, internalLength, d)
    ensures ProjectedScalar(name, internalType, internalLength, used) == Done(d, used)
  {
    SupportedHasDescriptor(internalType);
    HalvedLength(internalType, internalLength, d.length);
  }

  lemma {:induction false} HalvedLength(internalType: string, internalLength: nat, length: nat)
    requires (if internalType in ["C", "N", "D", "T"] then 2 * length else length) == internalLength
    ensures ScalarNucLength(internalType, internalLength) == Done(length, 0)
  {}

  lemma {:induction false} ParameterFits(nodes: seq<Node>, b: Bounds, used: nat, p: Parameter, d: Descriptor)
    requires DescribesParameter(nodes, p, d) && Shallow(d, 0, b.maxDepth) && used + Size(d) <= b.maxDescriptors
    ensures ProjectedParameter(nodes, b, used, p) == Done(d, used + Size(d))
  {
    match p.reference
    case ScalarParameter(t) => ScalarFits(p.row.name, t, p.row.internalLength, used + 1, d);
    case ScalarTableParameter(t) =>
      var line := d.children[0];
      assert line.children == [] && Size(line) == 1;
      assert d.children == [line];
      assert d.children[1..] == [] && SizeAll(d.children) == Size(line) + SizeAll(d.children[1..]);
      assert Shallow(line, 1, b.maxDepth);
      ScalarFits("", t, p.row.internalLength, used + 2, d.children[0]);
    case NodeParameter(kind, _, target) =>
      if kind == Structure {
        StructureFits(nodes, b, used + 1, NodeNamed(nodes, target), 1, d.children);
      } else {
        LineFits(nodes, b, used + 1, NodeNamed(nodes, target), 1, d.children);
      }
  }

  lemma {:induction false} ParametersFit(nodes: seq<Node>, b: Bounds, used: nat, ps: seq<Parameter>, ds: seq<Descriptor>)
    requires DescribesParameters(nodes, ps, ds) && AllShallow(ds, 0, b.maxDepth) && used + SizeAll(ds) <= b.maxDescriptors
    ensures ProjectedParameters(nodes, b, used, ps) == Done(ds, used + SizeAll(ds))
    decreases |ds|
  {
    if ds != [] {
      assert SizeAll(ds) == Size(ds[0]) + SizeAll(ds[1..]) && [ds[0]] + ds[1..] == ds;
      assert AllShallow(ds[1..], 0, b.maxDepth);
      ParameterFits(nodes, b, used, ps[0], ds[0]);
      ParametersFit(nodes, b, used + Size(ds[0]), ps[1..], ds[1..]);
    }
  }

  // ---------------------------------------------------------------- what is projected fits

  lemma {:induction false} FieldIsShallow(nodes: seq<Node>, b: Bounds, used: nat, f: Field, depth: nat)
    requires depth <= b.maxDepth + 1 && ProjectedField(nodes, b, used, f, depth).Done?
    ensures Shallow(ProjectedField(nodes, b, used, f, depth).value, depth, b.maxDepth)
    decreases b.maxDepth + 1 - depth, 1, 0
  {
    if f.reference.NodeReference? {
      var node := NodeNamed(nodes, f.reference.target);
      if f.reference.kind == Structure {
        FieldsAreShallow(nodes, b, used + 1, OrderedFields(node.fields), depth + 1);
      } else {
        LineIsShallow(nodes, b, used + 1, node, depth + 1);
      }
    }
  }

  lemma {:induction false} FieldsAreShallow(nodes: seq<Node>, b: Bounds, used: nat, fields: seq<Field>, depth: nat)
    requires depth <= b.maxDepth + 1 && ProjectedFields(nodes, b, used, fields, depth).Done?
    ensures AllShallow(ProjectedFields(nodes, b, used, fields, depth).value, depth, b.maxDepth)
    decreases b.maxDepth + 1 - depth, 2, |fields|
  {
    if fields != [] {
      FieldIsShallow(nodes, b, used, fields[0], depth);
      FieldsAreShallow(nodes, b, ProjectedField(nodes, b, used, fields[0], depth).used, fields[1..], depth);
    }
  }

  lemma {:induction false} LineIsShallow(nodes: seq<Node>, b: Bounds, used: nat, node: Node, depth: nat)
    requires depth <= b.maxDepth + 1 && ProjectedTableLine(nodes, b, used, node, depth).Done?
    ensures depth <= b.maxDepth && AllShallow(ProjectedTableLine(nodes, b, used, node, depth).value.fields, depth, b.maxDepth)
    decreases b.maxDepth + 1 - depth, 4, 0
  {
    if node.kind == Structure {
      FieldsAreShallow(nodes, b, used, OrderedFields(node.fields), depth);
    } else {
      var line := node.fields[0];
      if line.reference.NodeReference? && line.reference.kind == Structure {
        FieldsAreShallow(nodes, b, used, OrderedFields(NodeNamed(nodes, line.reference.target).fields), depth);
      } else {
        FieldIsShallow(nodes, b, used, line, depth);
      }
    }
  }

  lemma {:induction false} ParameterIsShallow(nodes: seq<Node>, b: Bounds, used: nat, p: Parameter)
    requires ProjectedParameter(nodes, b, used, p).Done?
    ensures Shallow(ProjectedParameter(nodes, b, used, p).value, 0, b.maxDepth)
  {
    if p.reference.NodeParameter? {
      var node := NodeNamed(nodes, p.reference.target);
      if p.reference.kind == Structure {
        FieldsAreShallow(nodes, b, used + 1, OrderedFields(node.fields), 1);
      } else {
        LineIsShallow(nodes, b, used + 1, node, 1);
      }
    }
  }

  lemma {:induction false} ParametersAreShallow(nodes: seq<Node>, b: Bounds, used: nat, ps: seq<Parameter>)
    requires ProjectedParameters(nodes, b, used, ps).Done?
    ensures AllShallow(ProjectedParameters(nodes, b, used, ps).value, 0, b.maxDepth)
    decreases |ps|
  {
    if ps != [] {
      ParameterIsShallow(nodes, b, used, ps[0]);
      ParametersAreShallow(nodes, b, ProjectedParameter(nodes, b, used, ps[0]).used, ps[1..]);
    }
  }

  /** A projection succeeds exactly if there is an unfolding that fits, and it is that unfolding. */
  lemma {:induction false} ProjectsIff(nodes: seq<Node>, b: Bounds, ps: seq<Parameter>, ds: seq<Descriptor>)
    ensures (exists used :: ProjectedParameters(nodes, b, 0, ps) == Done(ds, used)) <==>
            DescribesParameters(nodes, ps, ds) && AllShallow(ds, 0, b.maxDepth) && SizeAll(ds) <= b.maxDescriptors
  {
    if DescribesParameters(nodes, ps, ds) && AllShallow(ds, 0, b.maxDepth) && SizeAll(ds) <= b.maxDescriptors {
      ParametersFit(nodes, b, 0, ps, ds);
    }
    if used :| ProjectedParameters(nodes, b, 0, ps) == Done(ds, used) {
      ProjectionUnfolds(nodes, b, 0, ps);
      ParametersAreShallow(nodes, b, 0, ps);
      ProjectionSize(nodes, b, b.maxDescriptors, 0, ps);
    }
  }
}
