/**
 * What a normalized graph holds, said of the rows it was made from: which row each field is, what
 * each reference leads to, and which type each parameter has.
 */
module ClosureContents {
  import opened MetadataNodes
  import opened MetadataReferences
  import opened MetadataFunctions
  import opened Metadata
  import opened Normalizer

  /** The internal types that refer to another type. */
  predicate IsRef(internalType: string) {
    internalType == "u" || internalType == "v" || internalType == "h"
  }

  // ---------------------------------------------------------------- nodes

  /** The number of fields of the nodes before. */
  function Start(nodes: seq<Node>, i: nat): nat
    requires i <= |nodes|
  {
    if i == 0 then 0 else Start(nodes, i - 1) + |nodes[i - 1].fields|
  }

  /** A reference to a table exactly for "h", to a structure exactly for "u" and "v". */
  predicate ReferenceOfRow(reference: Reference, row: TypeRow) {
    if row.internalType == "h" then reference == NodeReference(Table, "h", row.associatedType)
    else if row.internalType == "u" || row.internalType == "v" then
      reference == NodeReference(Structure, row.internalType, row.associatedType)
    else reference == ScalarReference(row.internalType)
  }

  predicate FieldOfRow(f: Field, position: nat, row: TypeRow) {
    && f.name == row.fieldName && f.position == position && f.internalType == row.internalType && f.associatedType == row.associatedType
    && f.nucOffset == row.nucOffset && f.ucOffset == row.ucOffset && f.nucLength == row.nucLength && f.ucLength == row.ucLength
    && ReferenceOfRow(f.reference, row)
  }

  predicate FieldHeld(nodes: seq<Node>, rows: seq<TypeRow>, i: nat, m: nat) {
    && i < |nodes| && m < |nodes[i].fields| && Start(nodes, i) + m < |rows|
    && rows[Start(nodes, i) + m].typeName == nodes[i].name && FieldOfRow(nodes[i].fields[m], m + 1, rows[Start(nodes, i) + m])
  }

  /** The fields of the nodes, one after another, are the rows, one after another. */
  ghost predicate HoldsRows(nodes: seq<Node>, rows: seq<TypeRow>) {
    && Start(nodes, |nodes|) == |rows|
    && (forall i :: 0 <= i < |nodes| ==> nodes[i].fields != [])
    && forall i, m {:trigger FieldHeld(nodes, rows, i, m)} :: 0 <= i < |nodes| && 0 <= m < |nodes[i].fields| ==> FieldHeld(nodes, rows, i, m)
  }

  /** Something refers to the type as a table: a field or a parameter of type "h". */
  ghost predicate WantedAsTable(c: Closure, name: string) {
    || (exists k :: 0 <= k < |c.typeRows| && c.typeRows[k].internalType == "h" && c.typeRows[k].associatedType == name)
    || (exists p :: 0 <= p < |c.parameterRows| && ParameterWantsTable(c, c.parameterRows[p], name))
  }

  ghost predicate ParameterWantsTable(c: Closure, row: ParameterRow, name: string) {
    row.internalType == "h" && if '-' in row.fieldPath then Indirect(c, row, name) else row.fieldPath == "" && row.tableName == name != ""
  }

  /** An indirect row of the parameter's type and path names the target. */
  ghost predicate Indirect(c: Closure, row: ParameterRow, target: string) {
    exists m :: 0 <= m < |c.indirectRows| && c.indirectRows[m] == IndirectRow(row.tableName, row.fieldPath, target)
  }

  /** The total is the first row's, except for a lone scalar that gives none: then it is its own extent. */
  predicate TotalOfRow(total: nat, row: TypeRow, given: nat, offset: nat, length: nat) {
    total == if row.fieldName == "" && !IsRef(row.internalType) && given == 0 then offset + length else given
  }

  /** A type has its first row's kind, totals and timestamp. */
  ghost predicate NodeHeld(c: Closure, nodes: seq<Node>, i: nat) {
    i < |nodes| && Start(nodes, i) < |c.typeRows| && NodeOfRow(c, nodes[i], c.typeRows[Start(nodes, i)])
  }

  ghost predicate NodeOfRow(c: Closure, node: Node, row: TypeRow) {
    && node.name == row.typeName && node.timestamp == row.timestamp
    && TotalOfRow(node.nucLength, row, row.nucTotalLength, row.nucOffset, row.nucLength)
    && TotalOfRow(node.ucLength, row, row.ucTotalLength, row.ucOffset, row.ucLength)
    && node.kind ==
      if row.fieldName != "" then Structure
      else if IsRef(row.internalType) || WantedAsTable(c, row.typeName) then Table
      else Scalar
  }

  /** The nodes are the types of the rows, in order. */
  ghost predicate NodesOfRows(c: Closure, nodes: seq<Node>) {
    && HoldsRows(nodes, c.typeRows) && DistinctNames(nodes)
    && forall i {:trigger NodeHeld(c, nodes, i)} :: 0 <= i < |nodes| ==> NodeHeld(c, nodes, i)
  }

  // ---------------------------------------------------------------- groups and rows

  lemma {:induction false} FlattenAt(groups: seq<Group>, i: nat, m: nat)
    requires i < |groups| && m < |groups[i].rows|
    ensures |Flatten(groups[..i])| + m < |Flatten(groups)| && Flatten(groups)[|Flatten(groups[..i])| + m] == groups[i].rows[m]
    decreases |groups|
  {
    var n := |groups| - 1;
    if i < n {
      FlattenAt(groups[..n], i, m);
      assert groups[..n][..i] == groups[..i];
    }
  }

  lemma {:induction false} StartIsOffset(groups: seq<Group>, nodes: seq<Node>, i: nat)
    requires i <= |nodes| == |groups| && forall j :: 0 <= j < |nodes| ==> |nodes[j].fields| == |groups[j].rows|
    ensures Start(nodes, i) == |Flatten(groups[..i])|
  {
    if i > 0 {
      StartIsOffset(groups, nodes, i - 1);
      assert groups[..i][..i - 1] == groups[..i - 1];
    }
  }

  lemma {:induction false} ClassifiedReference(row: TypeRow)
    requires Classified(row)
    ensures ReferenceOfRow(ClassifyReference(row.internalType, row.associatedType).value, row)
    ensures IsRef(row.internalType) ==> row.associatedType != ""
  {}

  lemma {:induction false} GroupFieldHeld(groups: seq<Group>, nodes: seq<Node>, rows: seq<TypeRow>, i: nat, m: nat)
    requires NodesOf(groups, nodes) && Flatten(groups) == rows && GroupsNamed(groups) && i < |nodes| && m < |nodes[i].fields|
    ensures FieldHeld(nodes, rows, i, m)
  {
    NodeFieldsAre(groups, nodes);
    StartIsOffset(groups, nodes, i);
    FlattenAt(groups, i, m);
    var group := groups[i];
    AllClassified(group.rows, NucTotal(group.rows).value, UcTotal(group.rows).value);
    ClassifiedReference(group.rows[m]);
  }

  lemma {:induction false} NodeFieldsAre(groups: seq<Group>, nodes: seq<Node>)
    requires NodesOf(groups, nodes)
    ensures forall j :: 0 <= j < |nodes| ==> |nodes[j].fields| == |groups[j].rows| && nodes[j].fields != []
  {
    forall j | 0 <= j < |nodes| ensures |nodes[j].fields| == |groups[j].rows| && nodes[j].fields != [] {
      NodeForIsSound(groups[j]);
    }
  }

  lemma {:induction false} BuiltHoldRows(groups: seq<Group>, nodes: seq<Node>, rows: seq<TypeRow>)
    requires NodesOf(groups, nodes) && Flatten(groups) == rows && GroupsNamed(groups)
    ensures HoldsRows(nodes, rows)
  {
    NodeFieldsAre(groups, nodes);
    StartIsOffset(groups, nodes, |nodes|);
    assert groups[..|nodes|] == groups;
    forall i, m | 0 <= i < |nodes| && 0 <= m < |nodes[i].fields| ensures FieldHeld(nodes, rows, i, m) {
      GroupFieldHeld(groups, nodes, rows, i, m);
    }
  }

  /** Every row is some field. */
  lemma {:induction false} RowIsField(nodes: seq<Node>, rows: seq<TypeRow>, k: nat) returns (i: nat, m: nat)
    requires HoldsRows(nodes, rows) && k < |rows|
    ensures FieldHeld(nodes, rows, i, m) && Start(nodes, i) + m == k
  {
    i := 0;
    while i + 1 < |nodes| && Start(nodes, i + 1) <= k
      invariant i < |nodes| && Start(nodes, i) <= k
    {
      i := i + 1;
    }
    m := k - Start(nodes, i);
    assert i + 1 == |nodes| || k < Start(nodes, i + 1);
    assert FieldHeld(nodes, rows, i, m);
  }

  // ---------------------------------------------------------------- kinds

  lemma {:induction false} IndirectIsUnique(c: Closure, row: ParameterRow, target: string)
    requires IndirectAcceptable(c.indirectRows)
    ensures UniqueTarget(c.indirectRows, (row.tableName, row.fieldPath), target) <==> Indirect(c, row, target)
  {
    if Indirect(c, row, target) {
      var m :| 0 <= m < |c.indirectRows| && c.indirectRows[m] == IndirectRow(row.tableName, row.fieldPath, target);
      forall j | 0 <= j < |c.indirectRows| && j != m ensures KeyOf(c.indirectRows[j]) != (row.tableName, row.fieldPath) {
        assert KeyOf(c.indirectRows[if j < m then j else m]) != KeyOf(c.indirectRows[if j < m then m else j]);
      }
      assert KeyOf(c.indirectRows[m]) == (row.tableName, row.fieldPath);
    }
    if UniqueTarget(c.indirectRows, (row.tableName, row.fieldPath), target) {
      var i :| 0 <= i < |c.indirectRows| && KeyOf(c.indirectRows[i]) == (row.tableName, row.fieldPath) && c.indirectRows[i].targetType == target;
      assert c.indirectRows[i] == IndirectRow(row.tableName, row.fieldPath, target);
    }
  }

  lemma {:induction false} RequiredIsWanted(c: Closure, nodes: seq<Node>, name: string)
    requires HoldsRows(nodes, c.typeRows) && IndirectAcceptable(c.indirectRows)
    ensures RequiredTable(nodes, c.parameterRows, c.indirectRows, name) <==> WantedAsTable(c, name)
  {
    FieldsWantTable(nodes, c.typeRows, name);
    forall p | 0 <= p < |c.parameterRows|
      ensures TableParameter(c.parameterRows[p], c.indirectRows, name) <==> ParameterWantsTable(c, c.parameterRows[p], name)
    {
      IndirectIsUnique(c, c.parameterRows[p], name);
    }
  }

  lemma {:induction false} FieldWantsTable(nodes: seq<Node>, rows: seq<TypeRow>, i: nat, m: nat, name: string)
    requires FieldHeld(nodes, rows, i, m)
    ensures TableField(nodes[i].fields[m], name) <==>
            rows[Start(nodes, i) + m].internalType == "h" && rows[Start(nodes, i) + m].associatedType == name
  {}

  lemma {:induction false} FieldsWantTable(nodes: seq<Node>, rows: seq<TypeRow>, name: string)
    requires HoldsRows(nodes, rows)
    ensures (exists i, k :: 0 <= i < |nodes| && 0 <= k < |nodes[i].fields| && TableField(nodes[i].fields[k], name)) <==>
            (exists k :: 0 <= k < |rows| && rows[k].internalType == "h" && rows[k].associatedType == name)
  {
    if i, m :| 0 <= i < |nodes| && 0 <= m < |nodes[i].fields| && TableField(nodes[i].fields[m], name) {
      assert FieldHeld(nodes, rows, i, m);
      FieldWantsTable(nodes, rows, i, m, name);
      assert 0 <= Start(nodes, i) + m < |rows|;
    }
    if k :| 0 <= k < |rows| && rows[k].internalType == "h" && rows[k].associatedType == name {
      RowWantsTable(nodes, rows, k, name);
    }
  }

  lemma {:induction false} RowWantsTable(nodes: seq<Node>, rows: seq<TypeRow>, k: nat, name: string)
    requires HoldsRows(nodes, rows) && k < |rows| && rows[k].internalType == "h" && rows[k].associatedType == name
    ensures exists i, m :: 0 <= i < |nodes| && 0 <= m < |nodes[i].fields| && TableField(nodes[i].fields[m], name)
  {
    var i, m := RowIsField(nodes, rows, k);
    FieldWantsTable(nodes, rows, i, m, name);
  }

  lemma {:induction false} SameFieldsHoldRows(a: seq<Node>, b: seq<Node>, rows: seq<TypeRow>)
    requires HoldsRows(a, rows) && |a| == |b| && forall i :: 0 <= i < |a| ==> a[i].name == b[i].name && a[i].fields == b[i].fields
    ensures HoldsRows(b, rows) && forall i :: 0 <= i <= |a| ==> Start(a, i) == Start(b, i)
  {
    forall i | 0 <= i <= |a| ensures Start(a, i) == Start(b, i) {
      SameStart(a, b, i);
    }
    forall i, m | 0 <= i < |b| && 0 <= m < |b[i].fields| ensures FieldHeld(b, rows, i, m) {
      assert FieldHeld(a, rows, i, m);
    }
  }

  lemma {:induction false} SameStart(a: seq<Node>, b: seq<Node>, i: nat)
    requires i <= |a| == |b| && forall j :: 0 <= j < |a| ==> a[j].fields == b[j].fields
    ensures Start(a, i) == Start(b, i)
  {
    if i > 0 {
      SameStart(a, b, i - 1);
    }
  }

  /** The node of a group, with its kind as yet unrefined, is that of the group's first row. */
  lemma {:induction false} NodeForFirstRow(group: Group)
    requires NodeAcceptable(group)
    ensures var node, row := NodeFor(group), group.rows[0];
            && node.timestamp == row.timestamp
            && TotalOfRow(node.nucLength, row, row.nucTotalLength, row.nucOffset, row.nucLength)
            && TotalOfRow(node.ucLength, row, row.ucTotalLength, row.ucOffset, row.ucLength)
            && node.kind == if row.fieldName != "" then Structure else if IsRef(row.internalType) then Table else Scalar
  {
    AllClassified(group.rows, NucTotal(group.rows).value, UcTotal(group.rows).value);
    ClassifiedReference(group.rows[0]);
  }

  lemma {:induction false} RefinedNodeOfRow(c: Closure, built: seq<Node>, group: Group)
    requires HoldsRows(built, c.typeRows) && IndirectAcceptable(c.indirectRows)
    requires NodeAcceptable(group) && group.rows[0].typeName == group.name
    ensures NodeOfRow(c, RefinedNode(built, c.parameterRows, c.indirectRows, NodeFor(group)), group.rows[0])
  {
    NodeForFirstRow(group);
    RequiredIsWanted(c, built, group.name);
  }

  lemma {:induction false} GroupFirstRow(groups: seq<Group>, nodes: seq<Node>, rows: seq<TypeRow>, i: nat)
    requires NodesOf(groups, nodes) && Flatten(groups) == rows && GroupsNamed(groups) && i < |nodes|
    ensures Start(nodes, i) < |rows| && rows[Start(nodes, i)] == groups[i].rows[0] && groups[i].rows[0].typeName == groups[i].name
  {
    NodeFieldsAre(groups, nodes);
    StartIsOffset(groups, nodes, i);
    FlattenAt(groups, i, 0);
  }

  /** The nodes that are built, with their kinds refined, are the types of the rows. */
  lemma {:induction false} NodesAreRows(c: Closure, limits: Limits)
    requires TypesAcceptable(c.typeRows, limits) && IndirectAcceptable(c.indirectRows)
    ensures NodesOfRows(c, ClosureNodes(c, limits))
  {
    NodesForAreSound(c.typeRows, limits);
    GroupsPartition(c.typeRows);
    RefinedNodesSound(NodesFor(c.typeRows), c.parameterRows, c.indirectRows);
    NodesOfGroups(c, GroupsOf(c.typeRows), NodesFor(c.typeRows), ClosureNodes(c, limits));
  }

  lemma {:induction false} NodesOfGroups(c: Closure, groups: seq<Group>, built: seq<Node>, nodes: seq<Node>)
    requires NodesOf(groups, built) && Flatten(groups) == c.typeRows && GroupsNamed(groups) && IndirectAcceptable(c.indirectRows)
    requires nodes == RefinedNodes(built, c.parameterRows, c.indirectRows) && DistinctNames(nodes)
    ensures NodesOfRows(c, nodes)
  {
    BuiltHoldRows(groups, built, c.typeRows);
    SameFieldsHoldRows(built, nodes, c.typeRows);
    forall i | 0 <= i < |nodes| ensures NodeHeld(c, nodes, i) {
      NodeIsRow(c, groups, built, i);
    }
  }

  lemma {:induction false} NodeIsRow(c: Closure, groups: seq<Group>, built: seq<Node>, i: nat)
    requires NodesOf(groups, built) && Flatten(groups) == c.typeRows && GroupsNamed(groups) && i < |built|
    requires HoldsRows(built, c.typeRows) && IndirectAcceptable(c.indirectRows)
    ensures Start(built, i) < |c.typeRows|
    ensures NodeOfRow(c, RefinedNode(built, c.parameterRows, c.indirectRows, built[i]), c.typeRows[Start(built, i)])
  {
    GroupFirstRow(groups, built, c.typeRows, i);
    RefinedNodeOfRow(c, built, groups[i]);
  }
}
