/** What the parameters of a closure refer to, said of the rows: the types they have and when they have one. */
module ParameterTypes {
  import opened MetadataNodes
  import opened MetadataReferences
  import opened MetadataFunctions
  import opened Normalizer
  import opened ClosureContents

  // ---------------------------------------------------------------- in terms of the rows

  ghost predicate Declared(c: Closure, name: string) {
    exists k :: 0 <= k < |c.typeRows| && c.typeRows[k].typeName == name
  }

  ghost predicate StructureType(c: Closure, name: string) {
    exists k :: 0 <= k < |c.typeRows| && c.typeRows[k].typeName == name && c.typeRows[k].fieldName != ""
  }

  /** A lone anonymous row that refers to nothing. */
  ghost predicate ElementaryType(c: Closure, name: string) {
    exists k :: 0 <= k < |c.typeRows| && c.typeRows[k].typeName == name && c.typeRows[k].fieldName == "" && !IsRef(c.typeRows[k].internalType)
  }

  /** A lone anonymous row that refers to a type, or that something refers to as a table. */
  ghost predicate TableType(c: Closure, name: string) {
    Declared(c, name) && !StructureType(c, name) && (!ElementaryType(c, name) || WantedAsTable(c, name))
  }

  predicate FieldRow(c: Closure, row: ParameterRow, k: nat) {
    k < |c.typeRows| && c.typeRows[k].typeName == row.tableName && c.typeRows[k].fieldName == row.fieldPath
  }

  /** The type of a structure or table parameter: given indirectly, by a field, or by its name. */
  ghost predicate Leads(c: Closure, row: ParameterRow, target: string) {
    if '-' in row.fieldPath then Indirect(c, row, target)
    else if row.fieldPath == "" then target == row.tableName
    else exists k: nat :: FieldRow(c, row, k) && IsRef(c.typeRows[k].internalType) && c.typeRows[k].associatedType == target
  }

  /** A structure or table parameter has a type of the kind it needs. */
  ghost predicate ContainerFits(c: Closure, row: ParameterRow) {
    && row.tableName != ""
    && exists target :: Leads(c, row, target) && Declared(c, target) && KindFits(c, row, target)
  }

  ghost predicate KindFits(c: Closure, row: ParameterRow, target: string) {
    && (row.parameterClass != Tables && row.internalType != "h" ==> StructureType(c, target))
    && (row.internalType == "h" ==> TableType(c, target))
  }

  /** An elementary parameter's type is elementary, if it has one. */
  ghost predicate ElementFits(c: Closure, row: ParameterRow) {
    if '-' in row.fieldPath then row.tableName != "" && exists target :: Indirect(c, row, target) && ElementaryType(c, target)
    else if row.fieldPath != "" then row.tableName != "" && exists k: nat :: FieldRow(c, row, k) && !IsRef(c.typeRows[k].internalType)
    else row.tableName != "" && Declared(c, row.tableName) ==> ElementaryType(c, row.tableName)
  }

  ghost predicate ParameterFits(c: Closure, row: ParameterRow) {
    row.parameterClass == Exception || if IsRef(row.internalType) then ContainerFits(c, row) else ElementFits(c, row)
  }

  /** The type that a parameter makes a root of the graph. */
  ghost predicate RootOf(c: Closure, row: ParameterRow, name: string) {
    && row.parameterClass != Exception
    && if IsRef(row.internalType) then Leads(c, row, name)
      else if '-' in row.fieldPath then Indirect(c, row, name)
      else name == row.tableName && (row.fieldPath == "" ==> name != "" && Declared(c, name))
  }

  ghost predicate CountsAsEdge(c: Closure, row: ParameterRow) {
    row.parameterClass != Exception && (row.parameterClass == Tables || exists name :: RootOf(c, row, name))
  }

  /** What the parameter refers to in the graph. */
  ghost predicate ReferenceOfParameter(c: Closure, row: ParameterRow, reference: ParameterReference) {
    if row.parameterClass == Exception then reference == ExceptionParameter
    else if IsRef(row.internalType) then
      && reference.NodeParameter? && reference.internalType == row.internalType && Leads(c, row, reference.target)
      && reference.kind == if row.parameterClass == Tables || row.internalType == "h" then Table else Structure
    else if row.parameterClass == Tables then reference == ScalarTableParameter(row.internalType)
    else reference == ScalarParameter(row.internalType)
  }

  ghost predicate Contributes(c: Closure, row: ParameterRow, r: Resolution) {
    && ReferenceOfParameter(c, row, r.reference)
    && |r.roots| <= 1 && (forall name :: name in r.roots <==> RootOf(c, row, name))
    && (r.edges == if CountsAsEdge(c, row) then 1 else 0)
    && r.consumed == if row.parameterClass != Exception && '-' in row.fieldPath then {(row.tableName, row.fieldPath)} else {}
  }

  // ---------------------------------------------------------------- in terms of the nodes

  /** The nodes are those of the rows. */
  ghost predicate NodesFit(c: Closure, nodes: seq<Node>) {
    && NodesOfRows(c, nodes) && IndirectAcceptable(c.indirectRows)
    && forall i {:trigger FinalNodeSound(nodes[i])} :: 0 <= i < |nodes| ==> FinalNodeSound(nodes[i])
  }

  lemma {:induction false} ClosureNodesFit(c: Closure, limits: Limits)
    requires TypesAcceptable(c.typeRows, limits) && IndirectAcceptable(c.indirectRows)
    ensures NodesFit(c, ClosureNodes(c, limits))
  {
    NodesAreRows(c, limits);
    ClosureNodesSound(c, limits);
  }

  /** A row's field lies in the node of its type. */
  lemma {:induction false} RowInNode(c: Closure, nodes: seq<Node>, k: nat) returns (v: nat, m: nat)
    requires NodesFit(c, nodes) && k < |c.typeRows|
    ensures c.typeRows[k].typeName in IndexByName(nodes) && v == IndexByName(nodes)[c.typeRows[k].typeName]
    ensures m < |nodes[v].fields| && FieldOfRow(nodes[v].fields[m], m + 1, c.typeRows[k])
  {
    v, m := RowIsField(nodes, c.typeRows, k);
    assert nodes[v].name == c.typeRows[k].typeName;
    assert nodes[v].name in IndexByName(nodes) && IndexByName(nodes)[nodes[v].name] == v;
  }

  /** A field of a node is a row of its type. */
  lemma {:induction false} FieldInRows(c: Closure, nodes: seq<Node>, v: nat, m: nat) returns (k: nat)
    requires NodesFit(c, nodes) && v < |nodes| && m < |nodes[v].fields|
    ensures k < |c.typeRows| && c.typeRows[k].typeName == nodes[v].name && FieldOfRow(nodes[v].fields[m], m + 1, c.typeRows[k])
    ensures m == 0 ==> k == Start(nodes, v)
  {
    assert FieldHeld(nodes, c.typeRows, v, m);
    k := Start(nodes, v) + m;
  }

  lemma {:induction false} NodeIsDeclared(c: Closure, nodes: seq<Node>, name: string)
    requires NodesFit(c, nodes)
    ensures name in IndexByName(nodes) <==> Declared(c, name)
  {
    if name in IndexByName(nodes) {
      assert FinalNodeSound(nodes[IndexByName(nodes)[name]]);
      var k := FieldInRows(c, nodes, IndexByName(nodes)[name], 0);
    }
    if Declared(c, name) {
      var k :| 0 <= k < |c.typeRows| && c.typeRows[k].typeName == name;
      var v, m := RowInNode(c, nodes, k);
    }
  }

  /** A node has the kind of its first row; its other rows are named exactly as the first is. */
  lemma {:induction false} RowLikeFirst(c: Closure, nodes: seq<Node>, name: string, k: nat)
    requires NodesFit(c, nodes) && k < |c.typeRows| && c.typeRows[k].typeName == name
    ensures name in IndexByName(nodes)
    ensures var first := Start(nodes, IndexByName(nodes)[name]);
            first < |c.typeRows| && (c.typeRows[k].fieldName == "" <==> c.typeRows[first].fieldName == "") &&
            (c.typeRows[k].fieldName == "" ==> k == first)
  {
    var v, m := RowInNode(c, nodes, k);
    var first := FieldInRows(c, nodes, v, 0);
    var i, n := RowIsField(nodes, c.typeRows, k);
    assert nodes[i].name == nodes[v].name;
    assert FinalNodeSound(nodes[v]);
  }

  lemma {:induction false} FirstRow(c: Closure, nodes: seq<Node>, name: string) returns (first: nat)
    requires NodesFit(c, nodes) && name in IndexByName(nodes)
    ensures first < |c.typeRows| && first == Start(nodes, IndexByName(nodes)[name]) && c.typeRows[first].typeName == name
    ensures var node := nodes[IndexByName(nodes)[name]];
            NodeOfRow(c, node, c.typeRows[first]) && node.fields != [] && FieldOfRow(node.fields[0], 1, c.typeRows[first]) &&
            (node.fields[0].name == "" ==> |node.fields| == 1)
  {
    assert FinalNodeSound(nodes[IndexByName(nodes)[name]]) && NodeHeld(c, nodes, IndexByName(nodes)[name]);
    first := FieldInRows(c, nodes, IndexByName(nodes)[name], 0);
  }

  lemma {:induction false} KindsOfFirst(c: Closure, nodes: seq<Node>, name: string, first: nat)
    requires NodesFit(c, nodes) && name in IndexByName(nodes)
    requires first == Start(nodes, IndexByName(nodes)[name]) && first < |c.typeRows| && c.typeRows[first].typeName == name
    ensures StructureType(c, name) <==> c.typeRows[first].fieldName != ""
    ensures ElementaryType(c, name) <==> c.typeRows[first].fieldName == "" && !IsRef(c.typeRows[first].internalType)
  {
    forall k | 0 <= k < |c.typeRows| && c.typeRows[k].typeName == name
      ensures c.typeRows[k].fieldName == "" <==> c.typeRows[first].fieldName == ""
      ensures c.typeRows[k].fieldName == "" ==> k == first
    {
      RowLikeFirst(c, nodes, name, k);
    }
  }

  lemma {:induction false} NodeKinds(c: Closure, nodes: seq<Node>, name: string)
    requires NodesFit(c, nodes) && name in IndexByName(nodes)
    ensures var node := nodes[IndexByName(nodes)[name]];
            && (node.kind == Structure <==> StructureType(c, name))
            && (node.kind == Table <==> TableType(c, name))
            && (Elementary(node) <==> ElementaryType(c, name))
  {
    var first := FirstRow(c, nodes, name);
    KindsOfFirst(c, nodes, name, first);
    assert Declared(c, name);
  }

  // ---------------------------------------------------------------- fields and indirect rows

  lemma {:induction false} FieldNamed(fields: seq<Field>, m: nat)
    requires DistinctFields(fields) && m < |fields|
    ensures fields[m].name in FieldsByName(fields) && FieldsByName(fields)[fields[m].name] == fields[m]
    decreases |fields|
  {
    if m < |fields| - 1 {
      FieldNamed(fields[..|fields| - 1], m);
    }
  }

  lemma {:induction false} EntryIs(indirect: seq<IndirectRow>, m: nat)
    requires IndirectAcceptable(indirect) && m < |indirect|
    ensures KeyOf(indirect[m]) in EntriesOf(indirect) && EntriesOf(indirect)[KeyOf(indirect[m])] == indirect[m]
    decreases |indirect|
  {
    if m < |indirect| - 1 {
      EntryIs(indirect[..|indirect| - 1], m);
    }
  }

  /** The entry of a parameter's key is its indirect row. */
  lemma {:induction false} EntryIsIndirect(c: Closure, row: ParameterRow, target: string)
    requires IndirectAcceptable(c.indirectRows)
    ensures var key, entries := (row.tableName, row.fieldPath), EntriesOf(c.indirectRows);
            key in entries && entries[key].targetType == target <==> Indirect(c, row, target)
  {
    var key := (row.tableName, row.fieldPath);
    if Indirect(c, row, target) {
      var m :| 0 <= m < |c.indirectRows| && c.indirectRows[m] == IndirectRow(row.tableName, row.fieldPath, target);
      EntryIs(c.indirectRows, m);
    }
    EntryKeys(c.indirectRows, key);
    if key in EntriesOf(c.indirectRows) {
      var m :| 0 <= m < |c.indirectRows| && KeyOf(c.indirectRows[m]) == key;
      EntryIs(c.indirectRows, m);
      assert c.indirectRows[m] == IndirectRow(row.tableName, row.fieldPath, c.indirectRows[m].targetType);
    }
  }

  lemma {:induction false} PlainPath(path: string)
    requires '-' !in path
    ensures SplitDash(path) == [path]
  {
    if path != "" {
      PlainPath(path[1..]);
      assert [path[0]] + path[1..] == path;
    }
  }

  /** A field named directly is the row of that name in the type of that name. */
  lemma {:induction false} DirectField(c: Closure, nodes: seq<Node>, row: ParameterRow)
    requires NodesFit(c, nodes) && NamesField(row) && row.tableName != ""
    ensures FieldReference(row, nodes).Ok? <==> exists k: nat :: FieldRow(c, row, k)
    ensures forall k: nat :: FieldRow(c, row, k) ==> FieldReference(row, nodes).Ok? && ReferenceOfRow(FieldReference(row, nodes).value, c.typeRows[k])
  {
    PlainPath(row.fieldPath);
    forall k: nat | FieldRow(c, row, k) ensures FieldReference(row, nodes).Ok? && ReferenceOfRow(FieldReference(row, nodes).value, c.typeRows[k]) {
      var v, m := RowInNode(c, nodes, k);
      assert FinalNodeSound(nodes[v]);
      FieldNamed(nodes[v].fields, m);
    }
    if FieldReference(row, nodes).Ok? {
      var v := IndexByName(nodes)[row.tableName];
      assert row.fieldPath in FieldsByName(nodes[v].fields);
      var m :| 0 <= m < |nodes[v].fields| && nodes[v].fields[m] == FieldsByName(nodes[v].fields)[row.fieldPath];
      FieldNamed(nodes[v].fields, m) by { assert FinalNodeSound(nodes[v]); }
      var k := FieldInRows(c, nodes, v, m);
      FieldNameIs(nodes[v].fields, row.fieldPath);
      assert FieldRow(c, row, k);
    }
  }

  lemma {:induction false} FieldNameIs(fields: seq<Field>, name: string)
    requires name in FieldsByName(fields)
    ensures FieldsByName(fields)[name].name == name
  {
    if fields[|fields| - 1].name != name {
      FieldNameIs(fields[..|fields| - 1], name);
    }
  }

  // ---------------------------------------------------------------- one parameter

  lemma {:induction false} ContainerTargetIs(c: Closure, nodes: seq<Node>, row: ParameterRow, target: string)
    requires NodesFit(c, nodes) && row.tableName != ""
    ensures ContainerTarget(row, nodes, EntriesOf(c.indirectRows)) == Ok(target) <==> Leads(c, row, target)
  {
    EntryIsIndirect(c, row, target);
    if NamesField(row) {
      DirectField(c, nodes, row);
    }
  }

  lemma {:induction false} TargetFits(c: Closure, nodes: seq<Node>, row: ParameterRow, target: string)
    requires NodesFit(c, nodes) && row.parameterClass != Exception && IsRef(row.internalType)
    ensures target in IndexByName(nodes) <==> Declared(c, target)
    ensures target in IndexByName(nodes) ==>
              var kind := nodes[IndexByName(nodes)[target]].kind;
              !((StructureRow(row) && kind != Structure) || (row.internalType == "h" && kind != Table)) <==> KindFits(c, row, target)
  {
    NodeIsDeclared(c, nodes, target);
    if target in IndexByName(nodes) {
      NodeKinds(c, nodes, target);
    }
  }

  lemma {:induction false} ContainerSays(c: Closure, nodes: seq<Node>, row: ParameterRow)
    requires NodesFit(c, nodes) && row.parameterClass != Exception && IsRef(row.internalType)
    ensures var r := Containing(row, nodes, EntriesOf(c.indirectRows));
            (r.Ok? <==> ContainerFits(c, row)) && (r.Ok? ==> Contributes(c, row, r.value))
  {
    var given := ContainerTarget(row, nodes, EntriesOf(c.indirectRows));
    if row.tableName != "" {
      forall target ensures given == Ok(target) <==> Leads(c, row, target) {
        ContainerTargetIs(c, nodes, row, target);
      }
      if given.Ok? {
        TargetFits(c, nodes, row, given.value);
        LeadsToOne(c, nodes, row, given.value);
      }
    }
  }

  lemma {:induction false} LeadsToOne(c: Closure, nodes: seq<Node>, row: ParameterRow, target: string)
    requires row.parameterClass != Exception && IsRef(row.internalType)
    requires forall name :: Leads(c, row, name) <==> name == target
    ensures var kind := if TableRow(row) then Table else Structure;
            Contributes(c, row, Resolution(NodeParameter(kind, row.internalType, target), [target],
                                           if Dashed(row.fieldPath) then {(row.tableName, row.fieldPath)} else {}, 1))
  {
    assert RootOf(c, row, target);
  }

  lemma {:induction false} MappedIs(c: Closure, nodes: seq<Node>, row: ParameterRow, target: string)
    requires NodesFit(c, nodes) && row.tableName != "" && Dashed(row.fieldPath)
    ensures MappedTarget(row, nodes, EntriesOf(c.indirectRows)) == Ok(target) <==> Indirect(c, row, target) && Declared(c, target)
  {
    EntryIsIndirect(c, row, target);
    NodeIsDeclared(c, nodes, target);
  }

  lemma {:induction false} ElementKind(c: Closure, nodes: seq<Node>, name: string)
    requires NodesFit(c, nodes)
    ensures name in IndexByName(nodes) <==> Declared(c, name)
    ensures Declared(c, name) ==> (Elementary(nodes[IndexByName(nodes)[name]]) <==> ElementaryType(c, name))
  {
    NodeIsDeclared(c, nodes, name);
    if Declared(c, name) {
      NodeKinds(c, nodes, name);
    }
  }

  lemma {:induction false} DashedElementSays(c: Closure, nodes: seq<Node>, row: ParameterRow)
    requires NodesFit(c, nodes) && row.parameterClass != Exception && !IsRef(row.internalType) && Dashed(row.fieldPath)
    ensures var r := Elementwise(row, nodes, EntriesOf(c.indirectRows));
            (r.Ok? <==> ElementFits(c, row)) && (r.Ok? ==> Contributes(c, row, r.value))
  {
    var given := MappedTarget(row, nodes, EntriesOf(c.indirectRows));
    if row.tableName != "" {
      forall target ensures given == Ok(target) <==> Indirect(c, row, target) && Declared(c, target) {
        MappedIs(c, nodes, row, target);
      }
      forall target | Indirect(c, row, target) ensures ElementaryType(c, target) ==> Declared(c, target) {}
      if given.Ok? {
        ElementKind(c, nodes, given.value);
        forall target | Indirect(c, row, target) ensures target == given.value {
          EntryIsIndirect(c, row, target);
          EntryIsIndirect(c, row, given.value);
        }
        assert RootOf(c, row, given.value);
      }
    }
  }

  lemma {:induction false} DirectElementSays(c: Closure, nodes: seq<Node>, row: ParameterRow)
    requires NodesFit(c, nodes) && row.parameterClass != Exception && !IsRef(row.internalType) && NamesField(row)
    ensures var r := Elementwise(row, nodes, EntriesOf(c.indirectRows));
            (r.Ok? <==> ElementFits(c, row)) && (r.Ok? ==> Contributes(c, row, r.value))
  {
    if row.tableName != "" {
      DirectField(c, nodes, row);
    }
    assert RootOf(c, row, row.tableName);
  }

  lemma {:induction false} NamedElementSays(c: Closure, nodes: seq<Node>, row: ParameterRow)
    requires row.parameterClass != Exception && !IsRef(row.internalType) && row.fieldPath == ""
    requires row.tableName in IndexByName(nodes) <==> Declared(c, row.tableName)
    requires Declared(c, row.tableName) ==> (Elementary(nodes[IndexByName(nodes)[row.tableName]]) <==> ElementaryType(c, row.tableName))
    ensures var r := Elementwise(row, nodes, EntriesOf(c.indirectRows));
            (r.Ok? <==> ElementFits(c, row)) && (r.Ok? ==> Contributes(c, row, r.value))
  {
    if row.tableName != "" && Declared(c, row.tableName) {
      assert RootOf(c, row, row.tableName);
    } else {
      assert forall name :: !RootOf(c, row, name);
    }
  }

  /** A parameter is resolved exactly when it fits, and contributes what its row says. */
  lemma {:induction false} ResolvedSays(c: Closure, nodes: seq<Node>, row: ParameterRow)
    requires NodesFit(c, nodes)
    ensures var r := Resolved(row, nodes, EntriesOf(c.indirectRows));
            (r.Ok? <==> ParameterFits(c, row)) && (r.Ok? ==> Contributes(c, row, r.value))
  {
    if row.parameterClass != Exception {
      if IsRef(row.internalType) {
        ContainerSays(c, nodes, row);
      } else if Dashed(row.fieldPath) {
        DashedElementSays(c, nodes, row);
      } else if row.fieldPath != "" {
        DirectElementSays(c, nodes, row);
      } else {
        ElementKind(c, nodes, row.tableName);
        NamedElementSays(c, nodes, row);
      }
    }
  }
}
