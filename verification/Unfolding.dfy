/**
 * What a descriptor tree says about a type graph, without depth, budget or counter: each
 * descriptor stands for one reference, and its children for the fields of the type referred to.
 */
module Unfolding {
  import opened MetadataNodes
  import opened MetadataReferences
  import opened Projection

  function NodeNamed(nodes: seq<Node>, name: string): Node
    requires name in IndexByName(nodes)
  {
    nodes[IndexByName(nodes)[name]]
  }

  /** The letters of the types that a descriptor can have by themselves. */
  predicate HasDescriptor(internalType: string) {
    |internalType| == 1 && internalType[0] in "CNDTXPFIbs8aepgnwd7xticyu"
  }

  lemma {:induction false} SupportedHasDescriptor(internalType: string)
    ensures Supported(internalType) <==> HasDescriptor(internalType)
  {
    if |internalType| == 1 {
      assert internalType == [internalType[0]];
    }
  }

  ghost predicate DescribesField(nodes: seq<Node>, f: Field, d: Descriptor)
    decreases d
  {
    && d.name == f.name && d.length == f.nucLength
    && match f.reference
       case ScalarReference(_) => d.abapType == f.internalType && HasDescriptor(f.internalType) && d.associatedType == "" && d.children == []
       case NodeReference(kind, _, target) =>
         && target in IndexByName(nodes) && d.associatedType == target
         && d.abapType == (if kind == Structure then "u" else "h")
         && if kind == Structure then DescribesStructure(nodes, NodeNamed(nodes, target), d.children)
            else NodeNamed(nodes, target).kind == Table && DescribesLine(nodes, NodeNamed(nodes, target), d.children)
  }

  ghost predicate DescribesFields(nodes: seq<Node>, fields: seq<Field>, ds: seq<Descriptor>)
    decreases ds, 0
  {
    |fields| == |ds| && (ds == [] || (DescribesField(nodes, fields[0], ds[0]) && DescribesFields(nodes, fields[1..], ds[1..])))
  }

  /** The children of a structure stand for its fields in position order, those of one position as they come. */
  ghost predicate DescribesStructure(nodes: seq<Node>, node: Node, ds: seq<Descriptor>)
    decreases ds, 1
  {
    node.kind == Structure && exists ordered :: IsOrdering(node.fields, ordered) && DescribesFields(nodes, ordered, ds)
  }

  /** The children of a table: the fields of its line, or one for an elementary or nested line. */
  ghost predicate DescribesLine(nodes: seq<Node>, node: Node, ds: seq<Descriptor>)
    decreases ds, 2
  {
    if node.kind == Structure then DescribesStructure(nodes, node, ds)
    else
      && |node.fields| == 1 && node.fields[0].name == ""
      && var line := node.fields[0];
        if line.reference.NodeReference? && line.reference.kind == Structure then
          line.reference.target in IndexByName(nodes) && DescribesStructure(nodes, NodeNamed(nodes, line.reference.target), ds)
        else |ds| == 1 && DescribesField(nodes, line, ds[0])
  }

  /** The length given for a table parameter: that of the structure its lines are, or of its single field. */
  function LineLength(nodes: seq<Node>, node: Node): nat {
    if node.kind == Structure then node.nucLength
    else if |node.fields| != 1 then 0
    else
      var line := node.fields[0];
      if line.reference.NodeReference? && line.reference.kind == Structure && line.reference.target in IndexByName(nodes) then
        NodeNamed(nodes, line.reference.target).nucLength
      else line.nucLength
  }

  ghost predicate DescribesScalar(name: string, internalType: string, internalLength: nat, d: Descriptor) {
    && d.name == name && d.abapType == internalType && HasDescriptor(internalType) && d.associatedType == "" && d.children == []
    && (if internalType in ["C", "N", "D", "T"] then 2 * d.length else d.length) == internalLength
  }

  ghost predicate DescribesParameter(nodes: seq<Node>, p: Parameter, d: Descriptor) {
    match p.reference
    case ExceptionParameter => false
    case ScalarParameter(t) => DescribesScalar(p.row.name, t, p.row.internalLength, d)
    case ScalarTableParameter(t) =>
      && d.name == p.row.name && d.abapType == "h" && d.associatedType == p.row.tableName
      && |d.children| == 1 && DescribesScalar("", t, p.row.internalLength, d.children[0]) && d.length == d.children[0].length
    case NodeParameter(kind, _, target) =>
      && target in IndexByName(nodes) && d.name == p.row.name && d.associatedType == target
      && var node := NodeNamed(nodes, target);
        if kind == Structure then d.abapType == "u" && d.length == node.nucLength && DescribesStructure(nodes, node, d.children)
        else d.abapType == "h" && d.length == LineLength(nodes, node) && DescribesLine(nodes, node, d.children)
  }

  ghost predicate DescribesParameters(nodes: seq<Node>, ps: seq<Parameter>, ds: seq<Descriptor>)
    decreases |ds|
  {
    |ps| == |ds| && (ds == [] || (DescribesParameter(nodes, ps[0], ds[0]) && DescribesParameters(nodes, ps[1..], ds[1..])))
  }

  // ---------------------------------------------------------------- the projection unfolds the graph

  lemma {:induction false} FieldUnfolds(nodes: seq<Node>, b: Bounds, used: nat, f: Field, depth: nat)
    requires depth <= b.maxDepth + 1 && ProjectedField(nodes, b, used, f, depth).Done?
    ensures DescribesField(nodes, f, ProjectedField(nodes, b, used, f, depth).value)
    decreases b.maxDepth + 1 - depth, 1, 0
  {
    if f.reference.NodeReference? {
      var node := NodeNamed(nodes, f.reference.target);
      if f.reference.kind == Structure {
        StructureUnfolds(nodes, b, used + 1, node, depth + 1);
      } else {
        LineUnfolds(nodes, b, used + 1, node, depth + 1);
      }
    }
  }

  lemma {:induction false} FieldsUnfold(nodes: seq<Node>, b: Bounds, used: nat, fields: seq<Field>, depth: nat)
    requires depth <= b.maxDepth + 1 && ProjectedFields(nodes, b, used, fields, depth).Done?
    ensures DescribesFields(nodes, fields, ProjectedFields(nodes, b, used, fields, depth).value)
    decreases b.maxDepth + 1 - depth, 2, |fields|
  {
    if fields != [] {
      FieldUnfolds(nodes, b, used, fields[0], depth);
      var first := ProjectedField(nodes, b, used, fields[0], depth);
      FieldsUnfold(nodes, b, first.used, fields[1..], depth);
      var rest := ProjectedFields(nodes, b, first.used, fields[1..], depth).value;
      assert ([first.value] + rest)[1..] == rest;
    }
  }

  lemma {:induction false} StructureUnfolds(nodes: seq<Node>, b: Bounds, used: nat, node: Node, depth: nat)
    requires depth <= b.maxDepth + 1 && ProjectedStructure(nodes, b, used, node, depth).Done?
    ensures DescribesStructure(nodes, node, ProjectedStructure(nodes, b, used, node, depth).value)
    decreases b.maxDepth + 1 - depth, 3, 0
  {
    FieldsAreOrdered(node.fields);
    FieldsUnfold(nodes, b, used, OrderedFields(node.fields), depth);
  }

  lemma {:induction false} LineUnfolds(nodes: seq<Node>, b: Bounds, used: nat, node: Node, depth: nat)
    requires depth <= b.maxDepth + 1 && ProjectedTableLine(nodes, b, used, node, depth).Done?
    ensures var line := ProjectedTableLine(nodes, b, used, node, depth).value;
            DescribesLine(nodes, node, line.fields) && line.length == LineLength(nodes, node)
    decreases b.maxDepth + 1 - depth, 4, 0
  {
    if node.kind == Structure {
      StructureUnfolds(nodes, b, used, node, depth);
    } else {
      var line := node.fields[0];
      if line.reference.NodeReference? && line.reference.kind == Structure {
        StructureUnfolds(nodes, b, used, NodeNamed(nodes, line.reference.target), depth);
      } else {
        FieldUnfolds(nodes, b, used, line, depth);
      }
    }
  }

  lemma {:induction false} ParameterUnfolds(nodes: seq<Node>, b: Bounds, used: nat, p: Parameter)
    requires ProjectedParameter(nodes, b, used, p).Done?
    ensures DescribesParameter(nodes, p, ProjectedParameter(nodes, b, used, p).value)
  {
    if p.reference.NodeParameter? {
      var node := NodeNamed(nodes, p.reference.target);
      if p.reference.kind == Structure {
        StructureUnfolds(nodes, b, used + 1, node, 1);
      } else {
        LineUnfolds(nodes, b, used + 1, node, 1);
      }
    }
  }

  /** Whatever the bounds, a projection that succeeds is the unfolding of the graph. */
  lemma {:induction false} ProjectionUnfolds(nodes: seq<Node>, b: Bounds, used: nat, ps: seq<Parameter>)
    requires ProjectedParameters(nodes, b, used, ps).Done?
    ensures DescribesParameters(nodes, ps, ProjectedParameters(nodes, b, used, ps).value)
    decreases |ps|
  {
    if ps != [] {
      ParameterUnfolds(nodes, b, used, ps[0]);
      var first := ProjectedParameter(nodes, b, used, ps[0]);
      ProjectionUnfolds(nodes, b, first.used, ps[1..]);
      var rest := ProjectedParameters(nodes, b, first.used, ps[1..]).value;
      assert ([first.value] + rest)[1..] == rest;
    }
  }

  // ---------------------------------------------------------------- there is only one unfolding

  lemma {:induction false} FieldUnfoldingUnique(nodes: seq<Node>, f: Field, a: Descriptor, b: Descriptor)
    requires DescribesField(nodes, f, a) && DescribesField(nodes, f, b)
    ensures a == b
    decreases a
  {
    if f.reference.NodeReference? {
      var node := NodeNamed(nodes, f.reference.target);
      if f.reference.kind == Structure {
        StructureUnfoldingUnique(nodes, node, a.children, b.children);
      } else {
        LineUnfoldingUnique(nodes, node, a.children, b.children);
      }
    }
  }

  lemma {:induction false} FieldsUnfoldingUnique(nodes: seq<Node>, fields: seq<Field>, a: seq<Descriptor>,
      b: seq<Descriptor>)
    requires DescribesFields(nodes, fields, a) && DescribesFields(nodes, fields, b)
    ensures a == b
    decreases a, 0
  {
    if fields != [] {
      FieldUnfoldingUnique(nodes, fields[0], a[0], b[0]);
      FieldsUnfoldingUnique(nodes, fields[1..], a[1..], b[1..]);
      assert a == [a[0]] + a[1..] && b == [b[0]] + b[1..];
    }
  }

  lemma {:induction false} StructureUnfoldingUnique(nodes: seq<Node>, node: Node, a: seq<Descriptor>, b: seq<Descriptor>)
    requires DescribesStructure(nodes, node, a) && DescribesStructure(nodes, node, b)
    ensures a == b
    decreases a, 1
  {
    var first :| IsOrdering(node.fields, first) && DescribesFields(nodes, first, a);
    var second :| IsOrdering(node.fields, second) && DescribesFields(nodes, second, b);
    OrderingIsUnique(first, second);
    FieldsUnfoldingUnique(nodes, first, a, b);
  }

  lemma {:induction false} LineUnfoldingUnique(nodes: seq<Node>, node: Node, a: seq<Descriptor>, b: seq<Descriptor>)
    requires DescribesLine(nodes, node, a) && DescribesLine(nodes, node, b)
    ensures a == b
    decreases a, 2
  {
    if node.kind == Structure {
      StructureUnfoldingUnique(nodes, node, a, b);
    } else {
      var line := node.fields[0];
      if line.reference.NodeReference? && line.reference.kind == Structure {
        StructureUnfoldingUnique(nodes, NodeNamed(nodes, line.reference.target), a, b);
      } else {
        FieldUnfoldingUnique(nodes, line, a[0], b[0]);
      }
    }
  }

  lemma {:induction false} ParameterUnfoldingUnique(nodes: seq<Node>, p: Parameter, a: Descriptor, b: Descriptor)
    requires DescribesParameter(nodes, p, a) && DescribesParameter(nodes, p, b)
    ensures a == b
  {
    if p.reference.NodeParameter? {
      var node := NodeNamed(nodes, p.reference.target);
      if p.reference.kind == Structure {
        StructureUnfoldingUnique(nodes, node, a.children, b.children);
      } else {
        LineUnfoldingUnique(nodes, node, a.children, b.children);
      }
    }
  }

  /** A graph has at most one unfolding, so no bound can change what a projection returns. */
  lemma {:induction false} UnfoldingIsUnique(nodes: seq<Node>, ps: seq<Parameter>, a: seq<Descriptor>, b: seq<Descriptor>)
    requires DescribesParameters(nodes, ps, a) && DescribesParameters(nodes, ps, b)
    ensures a == b
    decreases |ps|
  {
    if ps != [] {
      ParameterUnfoldingUnique(nodes, ps[0], a[0], b[0]);
      UnfoldingIsUnique(nodes, ps[1..], a[1..], b[1..]);
      assert a == [a[0]] + a[1..] && b == [b[0]] + b[1..];
    }
  }
}
