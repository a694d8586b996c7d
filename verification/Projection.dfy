/** Unfolding a type graph into a descriptor tree under a depth and a descriptor budget. */
module Projection {
  import opened Graphs
  import opened MetadataNodes
  import opened MetadataReferences
  import opened Metadata

  datatype ProjectionCode =
    | DepthExceeded | DescriptorsExceeded | KindMismatch | ForeignType | InvalidTableLine
    | UnsupportedScalarType | InvalidNucLength | CyclicGraph
    | ManyFunctions | OtherFunction | MissingFunction

  datatype Bounds = Bounds(maxDescriptors: nat, maxDepth: nat)

  datatype Descriptor = Descriptor(name: string, abapType: string, length: nat, associatedType: string, children: seq<Descriptor>)

  /** A result together with the number of descriptors used so far. */
  datatype Outcome<+T> = Done(value: T, used: nat) | Failed(code: ProjectionCode)

  datatype Line = Line(length: nat, fields: seq<Descriptor>)

  predicate Supported(internalType: string) {
    internalType in ["C", "N", "D", "T", "X", "P", "F", "I", "b", "s", "8", "a", "e", "p", "g",
                     "n", "w", "d", "7", "x", "t", "i", "c", "y", "u"]
  }

  /** Insert a field before the first one with a later position; equal positions keep their order. */
  function InsertByPosition(f: Field, fields: seq<Field>): (r: seq<Field>)
    ensures forall x :: x in r <==> x == f || x in fields
  {
    if fields == [] || f.position <= fields[0].position then [f] + fields
    else [fields[0]] + InsertByPosition(f, fields[1..])
  }

  function OrderedFields(fields: seq<Field>): (r: seq<Field>)
    ensures forall x :: x in r <==> x in fields
  {
    if fields == [] then [] else InsertByPosition(fields[0], OrderedFields(fields[1..]))
  }

  predicate InPositionOrder(fields: seq<Field>) {
    forall i, j :: 0 <= i < j < |fields| ==> fields[i].position <= fields[j].position
  }

  /** The fields at one position, in the order given. */
  function FieldsAt(fields: seq<Field>, position: nat): seq<Field> {
    if fields == [] then [] else (if fields[0].position == position then [fields[0]] else []) + FieldsAt(fields[1..], position)
  }

  /** The same fields in ascending position, those of one position as they were. */
  ghost predicate IsOrdering(fields: seq<Field>, ordered: seq<Field>) {
    && InPositionOrder(ordered) && multiset(ordered) == multiset(fields)
    && forall position :: FieldsAt(ordered, position) == FieldsAt(fields, position)
  }

  lemma {:induction false} InsertedAt(f: Field, fields: seq<Field>, position: nat)
    ensures FieldsAt(InsertByPosition(f, fields), position) == (if f.position == position then [f] else []) + FieldsAt(fields, position)
  {
    var r := InsertByPosition(f, fields);
    if fields == [] || f.position <= fields[0].position {
      assert r[1..] == fields;
    } else {
      var rest := InsertByPosition(f, fields[1..]);
      InsertedAt(f, fields[1..], position);
      assert r[1..] == rest;
      var first, inserted: seq<Field> := (if fields[0].position == position then [fields[0]] else []), (if f.position == position then [f] else []);
      assert first == [] || inserted == [];
      assert first + (inserted + FieldsAt(fields[1..], position)) == inserted + (first + FieldsAt(fields[1..], position));
    }
  }

  lemma {:induction false} InsertedSame(f: Field, fields: seq<Field>)
    ensures multiset(InsertByPosition(f, fields)) == multiset{f} + multiset(fields)
  {
    if fields != [] && f.position > fields[0].position {
      InsertedSame(f, fields[1..]);
      assert fields == [fields[0]] + fields[1..];
    }
  }

  lemma {:induction false} InsertedInOrder(f: Field, fields: seq<Field>)
    requires InPositionOrder(fields)
    ensures InPositionOrder(InsertByPosition(f, fields))
  {
    if fields != [] && f.position > fields[0].position {
      InsertedInOrder(f, fields[1..]);
      FirstIsLowest(fields[0], InsertByPosition(f, fields[1..]));
    }
  }

  lemma {:induction false} FirstIsLowest(first: Field, rest: seq<Field>)
    requires InPositionOrder(rest) && forall x :: x in rest ==> first.position <= x.position
    ensures InPositionOrder([first] + rest)
  {
    forall i, j | 0 <= i < j < |[first] + rest| ensures ([first] + rest)[i].position <= ([first] + rest)[j].position {
      assert ([first] + rest)[j] == rest[j - 1] && rest[j - 1] in rest;
    }
  }

  /** Fields are ordered by position, and no field is lost, repeated or moved among its equals. */
  lemma {:induction false} FieldsAreOrdered(fields: seq<Field>)
    ensures IsOrdering(fields, OrderedFields(fields))
  {
    if fields != [] {
      FieldsAreOrdered(fields[1..]);
      InsertedInOrder(fields[0], OrderedFields(fields[1..]));
      InsertedSame(fields[0], OrderedFields(fields[1..]));
      assert fields == [fields[0]] + fields[1..];
      forall position ensures FieldsAt(OrderedFields(fields), position) == FieldsAt(fields, position) {
        InsertedAt(fields[0], OrderedFields(fields[1..]), position);
      }
    }
  }

  lemma {:induction false} FirstOfItsPosition(fields: seq<Field>, position: nat)
    requires FieldsAt(fields, position) != []
    ensures exists x :: x in fields && x.position == position
  {
    if fields[0].position != position {
      FirstOfItsPosition(fields[1..], position);
    }
  }

  /** There is only one such ordering. */
  lemma {:induction false} OrderingIsUnique(a: seq<Field>, b: seq<Field>)
    requires InPositionOrder(a) && InPositionOrder(b) && forall position :: FieldsAt(a, position) == FieldsAt(b, position)
    ensures a == b
  {
    if a != [] {
      assert FieldsAt(a, a[0].position)[0] == a[0];
      FirstOfItsPosition(b, a[0].position);
      assert FieldsAt(b, b[0].position)[0] == b[0];
      FirstOfItsPosition(a, b[0].position);
      assert a[0].position == b[0].position;
      forall position ensures FieldsAt(a[1..], position) == FieldsAt(b[1..], position) {
        var first: seq<Field> := if a[0].position == position then [a[0]] else [];
        assert FieldsAt(a, position) == first + FieldsAt(a[1..], position);
        assert FieldsAt(b, position) == first + FieldsAt(b[1..], position);
        assert (first + FieldsAt(a[1..], position))[|first|..] == FieldsAt(a[1..], position);
        assert (first + FieldsAt(b[1..], position))[|first|..] == FieldsAt(b[1..], position);
      }
      OrderingIsUnique(a[1..], b[1..]);
      assert a == [a[0]] + a[1..] && b == [b[0]] + b[1..];
    } else {
      assert b != [] ==> FieldsAt(b, b[0].position) != [];
    }
  }

  function ProjectedField(nodes: seq<Node>, b: Bounds, used: nat, f: Field, depth: nat): Outcome<Descriptor>
    requires depth <= b.maxDepth + 1
    decreases b.maxDepth + 1 - depth, 1, 0
  {
    if depth > b.maxDepth then Failed(DepthExceeded)
    else if used + 1 > b.maxDescriptors then Failed(DescriptorsExceeded)
    else match f.reference
      case ScalarReference(_) =>
        if Supported(f.internalType) then Done(Descriptor(f.name, f.internalType, f.nucLength, "", []), used + 1)
        else Failed(UnsupportedScalarType)
      case NodeReference(kind, _, target) =>
        if target !in IndexByName(nodes) then Failed(ForeignType)
        else
          var node := nodes[IndexByName(nodes)[target]];
          if kind == Structure then
            match ProjectedStructure(nodes, b, used + 1, node, depth + 1)
            case Failed(code) => Failed(code)
            case Done(children, u) => Done(Descriptor(f.name, "u", f.nucLength, target, children), u)
          else if node.kind != Table then Failed(KindMismatch)
          else
            match ProjectedTableLine(nodes, b, used + 1, node, depth + 1)
            case Failed(code) => Failed(code)
            case Done(line, u) => Done(Descriptor(f.name, "h", f.nucLength, target, line.fields), u)
  }

  function ProjectedFields(nodes: seq<Node>, b: Bounds, used: nat, fields: seq<Field>, depth: nat): Outcome<seq<Descriptor>>
    requires depth <= b.maxDepth + 1
    decreases b.maxDepth + 1 - depth, 2, |fields|
  {
    if fields == [] then Done([], used)
    else
      match ProjectedField(nodes, b, used, fields[0], depth)
      case Failed(code) => Failed(code)
      case Done(first, u) =>
        match ProjectedFields(nodes, b, u, fields[1..], depth)
        case Failed(code) => Failed(code)
        case Done(rest, v) => Done([first] + rest, v)
  }

  function ProjectedStructure(nodes: seq<Node>, b: Bounds, used: nat, node: Node, depth: nat): Outcome<seq<Descriptor>>
    requires depth <= b.maxDepth + 1
    decreases b.maxDepth + 1 - depth, 3, 0
  {
    if node.kind != Structure then Failed(KindMismatch)
    else ProjectedFields(nodes, b, used, OrderedFields(node.fields), depth)
  }

  function ProjectedTableLine(nodes: seq<Node>, b: Bounds, used: nat, node: Node, depth: nat): Outcome<Line>
    requires depth <= b.maxDepth + 1
    decreases b.maxDepth + 1 - depth, 4, 0
  {
    if depth > b.maxDepth then Failed(DepthExceeded)
    else if node.kind == Structure then
      match ProjectedStructure(nodes, b, used, node, depth)
      case Failed(code) => Failed(code)
      case Done(fields, u) => Done(Line(node.nucLength, fields), u)
    else if |node.fields| != 1 || node.fields[0].name != "" then Failed(InvalidTableLine)
    else
      var line := node.fields[0];
      if line.reference.NodeReference? && line.reference.kind == Structure then
        if line.reference.target !in IndexByName(nodes) then Failed(ForeignType)
        else
          var target := nodes[IndexByName(nodes)[line.reference.target]];
          match ProjectedStructure(nodes, b, used, target, depth)
          case Failed(code) => Failed(code)
          case Done(fields, u) => Done(Line(target.nucLength, fields), u)
      else
        match ProjectedField(nodes, b, used, line, depth)
        case Failed(code) => Failed(code)
        case Done(field, u) => Done(Line(line.nucLength, [field]), u)
  }

  function ScalarNucLength(internalType: string, internalLength: nat): Outcome<nat> {
    if internalType !in ["C", "N", "D", "T"] then Done(internalLength, 0)
    else if internalLength % 2 != 0 then Failed(InvalidNucLength)
    else Done(internalLength / 2, 0)
  }

  function ProjectedScalar(name: string, internalType: string, internalLength: nat, used: nat): Outcome<Descriptor> {
    match ScalarNucLength(internalType, internalLength)
    case Failed(code) => Failed(code)
    case Done(length, _) =>
      if Supported(internalType) then Done(Descriptor(name, internalType, length, "", []), used) else Failed(UnsupportedScalarType)
  }

  function ProjectedParameter(nodes: seq<Node>, b: Bounds, used: nat, p: Parameter): Outcome<Descriptor> {
    if used + 1 > b.maxDescriptors then Failed(DescriptorsExceeded)
    else match p.reference
      case ExceptionParameter => Failed(KindMismatch)
      case ScalarParameter(t) => ProjectedScalar(p.row.name, t, p.row.internalLength, used + 1)
      case ScalarTableParameter(t) =>
        if 1 > b.maxDepth then Failed(DepthExceeded)
        else if used + 2 > b.maxDescriptors then Failed(DescriptorsExceeded)
        else
          (match ProjectedScalar("", t, p.row.internalLength, used + 2)
           case Failed(code) => Failed(code)
           case Done(line, u) => Done(Descriptor(p.row.name, "h", line.length, p.row.tableName, [line]), u))
      case NodeParameter(kind, _, target) =>
        if target !in IndexByName(nodes) then Failed(ForeignType)
        else
          var node := nodes[IndexByName(nodes)[target]];
          if kind == Structure then
            match ProjectedStructure(nodes, b, used + 1, node, 1)
            case Failed(code) => Failed(code)
            case Done(children, u) => Done(Descriptor(p.row.name, "u", node.nucLength, target, children), u)
          else
            match ProjectedTableLine(nodes, b, used + 1, node, 1)
            case Failed(code) => Failed(code)
            case Done(line, u) => Done(Descriptor(p.row.name, "h", line.length, target, line.fields), u)
  }

  function ProjectedParameters(nodes: seq<Node>, b: Bounds, used: nat, ps: seq<Parameter>): Outcome<seq<Descriptor>>
    decreases |ps|
  {
    if ps == [] then Done([], used)
    else
      match ProjectedParameter(nodes, b, used, ps[0])
      case Failed(code) => Failed(code)
      case Done(first, u) =>
        match ProjectedParameters(nodes, b, u, ps[1..])
        case Failed(code) => Failed(code)
        case Done(rest, v) => Done([first] + rest, v)
  }

  /** The number of descriptors in a tree, and in a list of trees. */
  function Size(d: Descriptor): nat {
    1 + SizeAll(d.children)
  }

  function SizeAll(ds: seq<Descriptor>): nat {
    if ds == [] then 0 else Size(ds[0]) + SizeAll(ds[1..])
  }

  // ----- the counter is the size of the emitted tree, and the budget is decided on it

  /** One bound with a different descriptor budget. */
  function WithBudget(b: Bounds, budget: nat): Bounds {
    b.(maxDescriptors := budget)
  }

  /**
   * What a projection that succeeds under one budget does under any other: it yields the
   * same value if its size fits, and otherwise exceeds the budget.
   */
  ghost predicate DecidedBySize<T(!new)>(outcome: Outcome<T>, other: Outcome<T>, used: nat, size: nat, b: Bounds,
      budget: nat)
  {
    && outcome.Done? && outcome.used == used + size
    && (size > 0 ==> outcome.used <= b.maxDescriptors)
    && other == (if used + size <= budget || size == 0 then outcome else Failed(DescriptorsExceeded))
  }

  lemma {:induction false} FieldSize(nodes: seq<Node>, b: Bounds, budget: nat, used: nat, f: Field, depth: nat)
    requires depth <= b.maxDepth + 1
    requires ProjectedField(nodes, b, used, f, depth).Done?
    ensures var o := ProjectedField(nodes, b, used, f, depth);
            DecidedBySize(o, ProjectedField(nodes, WithBudget(b, budget), used, f, depth), used, Size(o.value), b, budget)
    decreases b.maxDepth + 1 - depth, 1, 0
  {
    if f.reference.NodeReference? {
      var node := nodes[IndexByName(nodes)[f.reference.target]];
      if f.reference.kind == Structure {
        StructureSize(nodes, b, budget, used + 1, node, depth + 1);
      } else {
        TableLineSize(nodes, b, budget, used + 1, node, depth + 1);
      }
    }
  }

  lemma {:induction false} FieldsSize(nodes: seq<Node>, b: Bounds, budget: nat, used: nat, fields: seq<Field>, depth: nat)
    requires depth <= b.maxDepth + 1
    requires ProjectedFields(nodes, b, used, fields, depth).Done?
    ensures var o := ProjectedFields(nodes, b, used, fields, depth);
            DecidedBySize(o, ProjectedFields(nodes, WithBudget(b, budget), used, fields, depth), used, SizeAll(o.value), b, budget)
    decreases b.maxDepth + 1 - depth, 2, |fields|
  {
    if fields != [] {
      FieldSize(nodes, b, budget, used, fields[0], depth);
      var first := ProjectedField(nodes, b, used, fields[0], depth);
      FieldsSize(nodes, b, budget, first.used, fields[1..], depth);
      var rest := ProjectedFields(nodes, b, first.used, fields[1..], depth);
      assert ([first.value] + rest.value)[1..] == rest.value;
    }
  }

  lemma {:induction false} StructureSize(nodes: seq<Node>, b: Bounds, budget: nat, used: nat, node: Node, depth: nat)
    requires depth <= b.maxDepth + 1
    requires ProjectedStructure(nodes, b, used, node, depth).Done?
    ensures var o := ProjectedStructure(nodes, b, used, node, depth);
            DecidedBySize(o, ProjectedStructure(nodes, WithBudget(b, budget), used, node, depth), used, SizeAll(o.value), b, budget)
    decreases b.maxDepth + 1 - depth, 3, 0
  {
    FieldsSize(nodes, b, budget, used, OrderedFields(node.fields), depth);
  }

  lemma {:induction false} TableLineSize(nodes: seq<Node>, b: Bounds, budget: nat, used: nat, node: Node, depth: nat)
    requires depth <= b.maxDepth + 1
    requires ProjectedTableLine(nodes, b, used, node, depth).Done?
    ensures var o := ProjectedTableLine(nodes, b, used, node, depth);
            DecidedBySize(o, ProjectedTableLine(nodes, WithBudget(b, budget), used, node, depth), used, SizeAll(o.value.fields), b, budget)
    decreases b.maxDepth + 1 - depth, 4, 0
  {
    if node.kind == Structure {
      StructureSize(nodes, b, budget, used, node, depth);
    } else {
      var line := node.fields[0];
      if line.reference.NodeReference? && line.reference.kind == Structure {
        StructureSize(nodes, b, budget, used, nodes[IndexByName(nodes)[line.reference.target]], depth);
      } else {
        FieldSize(nodes, b, budget, used, line, depth);
        var field := ProjectedField(nodes, b, used, line, depth).value;
        assert SizeAll([field]) == Size(field) + SizeAll([field][1..]);
      }
    }
  }

  lemma {:induction false} ParameterSize(nodes: seq<Node>, b: Bounds, budget: nat, used: nat, p: Parameter)
    requires ProjectedParameter(nodes, b, used, p).Done?
    ensures var o := ProjectedParameter(nodes, b, used, p);
            DecidedBySize(o, ProjectedParameter(nodes, WithBudget(b, budget), used, p), used, Size(o.value), b, budget)
  {
    if p.reference.NodeParameter? {
      var node := nodes[IndexByName(nodes)[p.reference.target]];
      if p.reference.kind == Structure {
        StructureSize(nodes, b, budget, used + 1, node, 1);
      } else {
        TableLineSize(nodes, b, budget, used + 1, node, 1);
      }
    } else if p.reference.ScalarTableParameter? {
      var line := ProjectedScalar("", p.reference.internalType, p.row.internalLength, used + 2).value;
      assert SizeAll([line]) == Size(line) + SizeAll([line][1..]);
    }
  }

  /** The budget is decided on the size of the whole unfolded tree. */
  lemma {:induction false} ProjectionSize(nodes: seq<Node>, b: Bounds, budget: nat, used: nat, ps: seq<Parameter>)
    requires ProjectedParameters(nodes, b, used, ps).Done?
    ensures var o := ProjectedParameters(nodes, b, used, ps);
            DecidedBySize(o, ProjectedParameters(nodes, WithBudget(b, budget), used, ps), used, SizeAll(o.value), b, budget)
    decreases |ps|
  {
    if ps != [] {
      ParameterSize(nodes, b, budget, used, ps[0]);
      var first := ProjectedParameter(nodes, b, used, ps[0]);
      ProjectionSize(nodes, b, budget, first.used, ps[1..]);
      var rest := ProjectedParameters(nodes, b, first.used, ps[1..]);
      assert ([first.value] + rest.value)[1..] == rest.value;
    }
  }
}
