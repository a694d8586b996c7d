/** Type rows and the nodes built from them: grouping, field geometry and node kinds. */
module MetadataNodes {

  datatype Result<T> = Ok(value: T) | Err(code: Code)

  datatype Code =
    | NoncontiguousType | NodeLimit | EdgeLimit | DepthLimit
    | InvalidTableShape | InconsistentTotalLength | InconsistentTimestamp | DuplicateField | InvalidGeometry
    | MissingAssociatedType | ForeignTypeReference | ReferenceKindMismatch
    | InvalidIndirectPath | DuplicateIndirectType | MissingIndirectType | ForeignIndirectType
    | InvalidFieldPath | ForeignFieldReference | DuplicateParameter
    | ForeignRoot | ForeignTypeNode
    | SeveralIdentities | SeveralFunctions | MissingIdentity | ForeignFunction

  datatype Limits = Limits(maxNodes: nat, maxEdges: nat, maxDepth: nat)

  /** The largest integer a JavaScript number represents safely. */
  const MAX_SAFE := 0x1F_FFFF_FFFF_FFFF

  datatype TypeRow = TypeRow(
    typeName: string, fieldName: string, associatedType: string, internalType: string,
    nucTotalLength: nat, ucTotalLength: nat,
    nucOffset: nat, ucOffset: nat, nucLength: nat, ucLength: nat, timestamp: string)

  datatype Kind = Structure | Table | Scalar

  datatype Reference =
    | ScalarReference(internalType: string)
    | NodeReference(kind: Kind, internalType: string, target: string)

  datatype Field = Field(
    name: string, position: nat, internalType: string, associatedType: string,
    nucOffset: nat, ucOffset: nat, nucLength: nat, ucLength: nat, reference: Reference)

  datatype Node = Node(name: string, kind: Kind, nucLength: nat, ucLength: nat, timestamp: string, fields: seq<Field>)

  datatype Group = Group(name: string, rows: seq<TypeRow>)

  function ClassifyReference(internalType: string, associatedType: string): Result<Reference> {
    if internalType in ["u", "v", "h"] then
      if associatedType == "" then Err(MissingAssociatedType)
      else Ok(NodeReference(if internalType == "h" then Table else Structure, internalType, associatedType))
    else Ok(ScalarReference(internalType))
  }

  function SafeEnd(offset: nat, length: nat): Result<nat> {
    if offset + length > MAX_SAFE then Err(InvalidGeometry) else Ok(offset + length)
  }

  function Flatten(groups: seq<Group>): seq<TypeRow> {
    if groups == [] then [] else Flatten(groups[..|groups| - 1]) + groups[|groups| - 1].rows
  }

  /** Some type's rows are interrupted by a row of another type. */
  ghost predicate Interrupted(rows: seq<TypeRow>) {
    exists i, j, k :: 0 <= i < j < k < |rows| && rows[i].typeName == rows[k].typeName != rows[j].typeName
  }

  /** The last group with one more row. */
  function ExtendLast(groups: seq<Group>, row: TypeRow): seq<Group>
    requires groups != []
  {
    groups[|groups| - 1 := Group(groups[|groups| - 1].name, groups[|groups| - 1].rows + [row])]
  }

  predicate OpensGroup(groups: seq<Group>, row: TypeRow) {
    groups == [] || groups[|groups| - 1].name != row.typeName
  }

  function WithRow(groups: seq<Group>, row: TypeRow): seq<Group> {
    if OpensGroup(groups, row) then groups + [Group(row.typeName, [row])] else ExtendLast(groups, row)
  }

  /** The maximal runs of rows of one type. */
  function GroupsOf(rows: seq<TypeRow>): seq<Group> {
    if rows == [] then [] else WithRow(GroupsOf(rows[..|rows| - 1]), rows[|rows| - 1])
  }

  /** Every group has rows, all of its own type. */
  ghost predicate GroupsNamed(groups: seq<Group>) {
    && (forall i :: 0 <= i < |groups| ==> groups[i].rows != [])
    && (forall i, k :: 0 <= i < |groups| && 0 <= k < |groups[i].rows| ==> groups[i].rows[k].typeName == groups[i].name)
  }

  ghost predicate DistinctGroups(groups: seq<Group>) {
    forall i, j :: 0 <= i < j < |groups| ==> groups[i].name != groups[j].name
  }

  lemma {:induction false} FlattenLast(groups: seq<Group>, group: Group)
    ensures Flatten(groups + [group]) == Flatten(groups) + group.rows
  {
    assert (groups + [group])[..|groups|] == groups;
  }

  lemma {:induction false} FlattenExtended(groups: seq<Group>, row: TypeRow)
    requires groups != []
    ensures Flatten(ExtendLast(groups, row)) == Flatten(groups) + [row]
  {
    var n := |groups| - 1;
    assert ExtendLast(groups, row)[..n] == groups[..n];
  }

  /** The groups are exactly the rows, in order. */
  lemma {:induction false} GroupsPartition(rows: seq<TypeRow>)
    ensures Flatten(GroupsOf(rows)) == rows && GroupsNamed(GroupsOf(rows))
  {
    if rows != [] {
      var n := |rows| - 1;
      GroupsPartition(rows[..n]);
      FlattenWithRow(GroupsOf(rows[..n]), rows[n]);
      NamedWithRow(GroupsOf(rows[..n]), rows[n]);
      FrontAndLast(rows);
    }
  }

  lemma {:induction false} FrontAndLast(rows: seq<TypeRow>)
    requires rows != []
    ensures rows == rows[..|rows| - 1] + [rows[|rows| - 1]]
  {}

  lemma {:induction false} FlattenWithRow(groups: seq<Group>, row: TypeRow)
    ensures Flatten(WithRow(groups, row)) == Flatten(groups) + [row]
  {
    if OpensGroup(groups, row) {
      FlattenLast(groups, Group(row.typeName, [row]));
    } else {
      FlattenExtended(groups, row);
    }
  }

  lemma {:induction false} NamedWithRow(groups: seq<Group>, row: TypeRow)
    requires GroupsNamed(groups)
    ensures GroupsNamed(WithRow(groups, row))
  {
    if !OpensGroup(groups, row) {
      var n := |groups| - 1;
      assert WithRow(groups, row)[n].rows == groups[n].rows + [row];
    }
  }

  /** Some row of a group's type occurs among the rows. */
  lemma {:induction false} GroupOccurs(groups: seq<Group>, g: nat) returns (k: nat)
    requires GroupsNamed(groups) && g < |groups|
    ensures k < |Flatten(groups)| && Flatten(groups)[k].typeName == groups[g].name
    ensures g == |groups| - 1 ==> k == |Flatten(groups[..g])|
    ensures g < |groups| - 1 ==> k < |Flatten(groups[..|groups| - 1])|
    decreases |groups|
  {
    var n := |groups| - 1;
    var front := Flatten(groups[..n]);
    if g == n {
      k := |front|;
      assert Flatten(groups)[k] == groups[n].rows[0];
    } else {
      k := GroupOccurs(groups[..n], g);
      assert Flatten(groups)[k] == front[k];
    }
  }

  /** The type of every row has a group; the last row's type has the last group. */
  lemma {:induction false} RowHasGroup(rows: seq<TypeRow>, k: nat)
    requires k < |rows|
    ensures exists g :: 0 <= g < |GroupsOf(rows)| && GroupsOf(rows)[g].name == rows[k].typeName
    ensures GroupsOf(rows)[|GroupsOf(rows)| - 1].name == rows[|rows| - 1].typeName
    decreases |rows|
  {
    var n := |rows| - 1;
    var groups, front := GroupsOf(rows), GroupsOf(rows[..n]);
    if k == n {
      assert groups[|groups| - 1].name == rows[n].typeName;
    } else {
      RowHasGroup(rows[..n], k);
      var g :| 0 <= g < |front| && front[g].name == rows[k].typeName;
      assert groups[g].name == front[g].name;
    }
  }

  /** A type that recurs after another has begun interrupts the rows. */
  lemma {:induction false} RecursAfterAnother(rows: seq<TypeRow>, index: nat, g: nat)
    requires index < |rows| && OpensGroup(GroupsOf(rows[..index]), rows[index])
    requires g < |GroupsOf(rows[..index])| && GroupsOf(rows[..index])[g].name == rows[index].typeName
    ensures Interrupted(rows)
  {
    var groups := GroupsOf(rows[..index]);
    GroupsPartition(rows[..index]);
    var i := GroupOccurs(groups, g);
    var j := GroupOccurs(groups, |groups| - 1);
    assert rows[..index][i] == rows[i] && rows[..index][j] == rows[j];
    assert rows[i].typeName == rows[index].typeName != rows[j].typeName;
  }

  /** A row that continues the last group, or is the first of its type, interrupts nothing. */
  lemma {:induction false} StaysContiguous(rows: seq<TypeRow>, index: nat)
    requires index < |rows| && !Interrupted(rows[..index])
    requires var groups := GroupsOf(rows[..index]);
             OpensGroup(groups, rows[index]) ==> forall g :: 0 <= g < |groups| ==> groups[g].name != rows[index].typeName
    ensures !Interrupted(rows[..index + 1])
  {
    var whole := rows[..index + 1];
    if Interrupted(whole) {
      var i, j, k :| 0 <= i < j < k < |whole| && whole[i].typeName == whole[k].typeName != whole[j].typeName;
      InterruptedBefore(rows, index, i, j, k);
    }
  }

  lemma {:induction false} InterruptedBefore(rows: seq<TypeRow>, index: nat, i: nat, j: nat, k: nat)
    requires i < j < k <= index < |rows| && rows[i].typeName == rows[k].typeName != rows[j].typeName
    requires var groups := GroupsOf(rows[..index]);
             OpensGroup(groups, rows[index]) ==> forall g :: 0 <= g < |groups| ==> groups[g].name != rows[index].typeName
    ensures Interrupted(rows[..index])
  {
    var front := rows[..index];
    var last := if k < index then k else index - 1;
    if k == index {
      RowHasGroup(front, i);
    }
    assert front[i].typeName == front[last].typeName != front[j].typeName;
  }

  /** The types that are complete: those of all groups but the last. */
  function ClosedNames(groups: seq<Group>): set<string> {
    set i | 0 <= i < |groups| - 1 :: groups[i].name
  }

  lemma {:induction false} ClosedAfterOpening(groups: seq<Group>, group: Group)
    ensures ClosedNames(groups + [group]) == if groups == [] then {} else ClosedNames(groups) + {groups[|groups| - 1].name}
  {
    forall name | name in ClosedNames(groups) ensures name in ClosedNames(groups + [group]) {
      var i :| 0 <= i < |groups| - 1 && groups[i].name == name;
      assert (groups + [group])[i].name == name;
    }
    if groups != [] {
      assert (groups + [group])[|groups| - 1] == groups[|groups| - 1];
    }
  }

  lemma {:induction false} ClosedAfterExtending(groups: seq<Group>, row: TypeRow)
    requires groups != []
    ensures ClosedNames(ExtendLast(groups, row)) == ClosedNames(groups)
    ensures DistinctGroups(groups) ==> DistinctGroups(ExtendLast(groups, row))
  {
    var extended := ExtendLast(groups, row);
    assert forall i :: 0 <= i < |groups| ==> extended[i].name == groups[i].name;
  }

  /**
   * Rows are grouped by type name. The groups are the maximal runs of one type; rows are
   * refused exactly when a type recurs after another type has begun.
   */
  method GroupRows(rows: seq<TypeRow>) returns (r: Result<seq<Group>>)
    ensures r.Ok? <==> !Interrupted(rows)
    ensures r.Ok? ==> r.value == GroupsOf(rows) && DistinctGroups(r.value)
    ensures r.Err? ==> r.code == NoncontiguousType
  {
    var grouped: seq<Group> := [];
    var closed: set<string> := {};
    for index := 0 to |rows|
      invariant grouped == GroupsOf(rows[..index]) && DistinctGroups(grouped) && !Interrupted(rows[..index])
      invariant closed == ClosedNames(grouped)
    {
      var row := rows[index];
      assert rows[..index + 1][..index] == rows[..index];
      var n := |grouped| - 1;
      if n < 0 || grouped[n].name != row.typeName {
        if n >= 0 {
          closed := closed + {grouped[n].name};
        }
        if row.typeName in closed {
          ghost var g :| 0 <= g < |grouped| && grouped[g].name == row.typeName;
          RecursAfterAnother(rows, index, g);
          return Err(NoncontiguousType);
        }
        StaysContiguous(rows, index);
        ClosedAfterOpening(grouped, Group(row.typeName, [row]));
        grouped := grouped + [Group(row.typeName, [row])];
      } else {
        StaysContiguous(rows, index);
        ClosedAfterExtending(grouped, row);
        grouped := ExtendLast(grouped, row);
      }
    }
    assert rows[..|rows|] == rows;
    return Ok(grouped);
  }

  // ---------------------------------------------------------------- fields

  function NucEnd(f: Field): nat {
    f.nucOffset + f.nucLength
  }

  function UcEnd(f: Field): nat {
    f.ucOffset + f.ucLength
  }

  /** Fields are ordered and disjoint, and lie within the node, in both layouts. */
  ghost predicate LaidOut(fields: seq<Field>, nucLength: nat, ucLength: nat) {
    && (forall i :: 0 <= i < |fields| ==> NucEnd(fields[i]) <= nucLength && UcEnd(fields[i]) <= ucLength)
    && (forall i, j :: 0 <= i < j < |fields| ==>
          NucEnd(fields[i]) <= fields[j].nucOffset && UcEnd(fields[i]) <= fields[j].ucOffset)
  }

  ghost predicate DistinctFields(fields: seq<Field>) {
    forall i, j :: 0 <= i < j < |fields| ==> fields[i].name != fields[j].name
  }

  predicate Classified(row: TypeRow) {
    ClassifyReference(row.internalType, row.associatedType).Ok?
  }

  /** The row repeats the total lengths of the type's first row. */
  predicate SameTotals(rows: seq<TypeRow>, k: nat)
    requires k < |rows|
  {
    rows[k].nucTotalLength == rows[0].nucTotalLength && rows[k].ucTotalLength == rows[0].ucTotalLength
  }

  function NucEndOf(row: TypeRow): nat {
    row.nucOffset + row.nucLength
  }

  function UcEndOf(row: TypeRow): nat {
    row.ucOffset + row.ucLength
  }

  /** The field begins where the one before has ended and ends within the type, in both layouts. */
  predicate Placed(rows: seq<TypeRow>, k: nat, nucTotal: nat, ucTotal: nat)
    requires k < |rows|
  {
    && NucEndOf(rows[k]) <= MAX_SAFE && UcEndOf(rows[k]) <= MAX_SAFE
    && NucEndOf(rows[k]) <= nucTotal && UcEndOf(rows[k]) <= ucTotal
    && (k > 0 ==> NucEndOf(rows[k - 1]) <= rows[k].nucOffset && UcEndOf(rows[k - 1]) <= rows[k].ucOffset)
  }

  predicate RowAcceptable(rows: seq<TypeRow>, k: nat, nucTotal: nat, ucTotal: nat)
    requires k < |rows|
  {
    SameTotals(rows, k) && rows[k].timestamp == rows[0].timestamp && Placed(rows, k, nucTotal, ucTotal) && Classified(rows[k])
  }

  ghost predicate DistinctRows(rows: seq<TypeRow>) {
    forall i, j :: 0 <= i < j < |rows| ==> rows[i].fieldName != rows[j].fieldName
  }

  ghost predicate FieldsAcceptable(rows: seq<TypeRow>, nucTotal: nat, ucTotal: nat) {
    DistinctRows(rows) && forall k :: 0 <= k < |rows| ==> RowAcceptable(rows, k, nucTotal, ucTotal)
  }

  /** A fault of the kind an error code names. */
  ghost predicate FieldsFault(rows: seq<TypeRow>, nucTotal: nat, ucTotal: nat, code: Code) {
    match code
    case InconsistentTotalLength => exists k :: 0 <= k < |rows| && !SameTotals(rows, k)
    case InconsistentTimestamp => exists k :: 0 <= k < |rows| && rows[k].timestamp != rows[0].timestamp
    case DuplicateField => !DistinctRows(rows)
    case InvalidGeometry => exists k :: 0 <= k < |rows| && !Placed(rows, k, nucTotal, ucTotal)
    case MissingAssociatedType => exists k :: 0 <= k < |rows| && !Classified(rows[k])
    case _ => false
  }

  lemma {:induction false} FieldsFaultRefutes(rows: seq<TypeRow>, nucTotal: nat, ucTotal: nat, code: Code)
    requires FieldsFault(rows, nucTotal, ucTotal, code)
    ensures !FieldsAcceptable(rows, nucTotal, ucTotal)
  {
    match code
    case InconsistentTotalLength =>
      var k :| 0 <= k < |rows| && !SameTotals(rows, k);
      assert !RowAcceptable(rows, k, nucTotal, ucTotal);
    case InconsistentTimestamp =>
      var k :| 0 <= k < |rows| && rows[k].timestamp != rows[0].timestamp;
      assert !RowAcceptable(rows, k, nucTotal, ucTotal);
    case InvalidGeometry =>
      var k :| 0 <= k < |rows| && !Placed(rows, k, nucTotal, ucTotal);
      assert !RowAcceptable(rows, k, nucTotal, ucTotal);
    case MissingAssociatedType =>
      var k :| 0 <= k < |rows| && !Classified(rows[k]);
      assert !RowAcceptable(rows, k, nucTotal, ucTotal);
    case DuplicateField =>
  }

  lemma {:induction false} AllClassified(rows: seq<TypeRow>, nucTotal: nat, ucTotal: nat)
    requires FieldsAcceptable(rows, nucTotal, ucTotal)
    ensures forall k :: 0 <= k < |rows| ==> Classified(rows[k])
  {
    forall k | 0 <= k < |rows| ensures Classified(rows[k]) {
      assert RowAcceptable(rows, k, nucTotal, ucTotal);
    }
  }

  /** The field a row describes. */
  function FieldFor(row: TypeRow, position: nat): Field
    requires Classified(row)
  {
    Field(row.fieldName, position, row.internalType, row.associatedType, row.nucOffset, row.ucOffset, row.nucLength, row.ucLength,
          ClassifyReference(row.internalType, row.associatedType).value)
  }

  function FieldsFor(rows: seq<TypeRow>): (r: seq<Field>)
    requires forall k :: 0 <= k < |rows| ==> Classified(rows[k])
    ensures |r| == |rows| && forall k :: 0 <= k < |rows| ==> r[k] == FieldFor(rows[k], k + 1)
  {
    seq(|rows|, k requires 0 <= k < |rows| => FieldFor(rows[k], k + 1))
  }

  lemma {:induction false} EndsBefore(rows: seq<TypeRow>, nucTotal: nat, ucTotal: nat, i: nat, j: nat)
    requires i < j < |rows| && forall k :: 0 <= k < |rows| ==> Placed(rows, k, nucTotal, ucTotal)
    ensures NucEndOf(rows[i]) <= rows[j].nucOffset && UcEndOf(rows[i]) <= rows[j].ucOffset
    decreases j
  {
    assert Placed(rows, j, nucTotal, ucTotal);
    if i < j - 1 {
      EndsBefore(rows, nucTotal, ucTotal, i, j - 1);
    }
  }

  /** Rows that are acceptable one after another describe fields that are ordered, disjoint and in bounds. */
  lemma {:induction false} AcceptableFieldsLaidOut(rows: seq<TypeRow>, nucTotal: nat, ucTotal: nat)
    requires FieldsAcceptable(rows, nucTotal, ucTotal)
    ensures forall k :: 0 <= k < |rows| ==> Classified(rows[k])
    ensures LaidOut(FieldsFor(rows), nucTotal, ucTotal) && DistinctFields(FieldsFor(rows))
  {
    forall k | 0 <= k < |rows| ensures Classified(rows[k]) && Placed(rows, k, nucTotal, ucTotal) {
      assert RowAcceptable(rows, k, nucTotal, ucTotal);
    }
    var fields := FieldsFor(rows);
    forall i, j | 0 <= i < j < |fields|
      ensures NucEnd(fields[i]) <= fields[j].nucOffset && UcEnd(fields[i]) <= fields[j].ucOffset && fields[i].name != fields[j].name
    {
      EndsBefore(rows, nucTotal, ucTotal, i, j);
    }
  }

  /** The fields of one type, accepted exactly when its rows are acceptable. */
  method BuildFields(rows: seq<TypeRow>, nucTotal: nat, ucTotal: nat) returns (r: Result<seq<Field>>)
    requires rows != []
    ensures r.Ok? ==> FieldsAcceptable(rows, nucTotal, ucTotal) && |r.value| == |rows|
    ensures r.Ok? ==> forall k :: 0 <= k < |rows| ==> Classified(rows[k]) && r.value[k] == FieldFor(rows[k], k + 1)
    ensures r.Err? ==> FieldsFault(rows, nucTotal, ucTotal, r.code)
  {
    var first := rows[0];
    var names: set<string> := {};
    var fields: seq<Field> := [];
    var previousNucEnd, previousUcEnd := 0, 0;
    for k := 0 to |rows|
      invariant FieldsTo(rows, k, nucTotal, ucTotal, fields, names, previousNucEnd, previousUcEnd)
    {
      var row := rows[k];
      if row.nucTotalLength != first.nucTotalLength || row.ucTotalLength != first.ucTotalLength {
        assert !SameTotals(rows, k);
        return Err(InconsistentTotalLength);
      }
      if row.timestamp != first.timestamp {
        return Err(InconsistentTimestamp);
      }
      if row.fieldName in names {
        return Err(DuplicateField);
      }
      var nucEnd, ucEnd := SafeEnd(row.nucOffset, row.nucLength), SafeEnd(row.ucOffset, row.ucLength);
      if nucEnd.Err? || ucEnd.Err? {
        assert !Placed(rows, k, nucTotal, ucTotal);
        return Err(InvalidGeometry);
      }
      if row.nucOffset < previousNucEnd || row.ucOffset < previousUcEnd || nucEnd.value > nucTotal || ucEnd.value > ucTotal {
        assert !Placed(rows, k, nucTotal, ucTotal);
        return Err(InvalidGeometry);
      }
      var reference := ClassifyReference(row.internalType, row.associatedType);
      if reference.Err? {
        assert !Classified(rows[k]);
        return Err(reference.code);
      }
      FieldsToNext(rows, k, nucTotal, ucTotal, fields, names, previousNucEnd, previousUcEnd);
      fields := fields + [Field(row.fieldName, k + 1, row.internalType, row.associatedType,
                                row.nucOffset, row.ucOffset, row.nucLength, row.ucLength, reference.value)];
      names := names + {row.fieldName};
      previousNucEnd, previousUcEnd := nucEnd.value, ucEnd.value;
    }
    return Ok(fields);
  }

  /** The first k rows are accepted, and their fields, names and ends recorded. */
  ghost predicate FieldsTo(rows: seq<TypeRow>, k: nat, nucTotal: nat, ucTotal: nat, fields: seq<Field>,
      names: set<string>, nucEnd: nat, ucEnd: nat)
  {
    && k <= |rows| && |fields| == k
    && (forall i :: 0 <= i < k ==> RowAcceptable(rows, i, nucTotal, ucTotal) && Classified(rows[i]) && fields[i] == FieldFor(rows[i], i + 1))
    && names == (set i | 0 <= i < k :: rows[i].fieldName)
    && (forall i, j :: 0 <= i < j < k ==> rows[i].fieldName != rows[j].fieldName)
    && nucEnd == (if k == 0 then 0 else NucEndOf(rows[k - 1])) && ucEnd == (if k == 0 then 0 else UcEndOf(rows[k - 1]))
  }

  lemma {:induction false} FieldsToNext(rows: seq<TypeRow>, k: nat, nucTotal: nat, ucTotal: nat, fields: seq<Field>,
      names: set<string>, nucEnd: nat, ucEnd: nat)
    requires FieldsTo(rows, k, nucTotal, ucTotal, fields, names, nucEnd, ucEnd)
    requires k < |rows| && RowAcceptable(rows, k, nucTotal, ucTotal) && rows[k].fieldName !in names
    ensures FieldsTo(rows, k + 1, nucTotal, ucTotal, fields + [FieldFor(rows[k], k + 1)], names + {rows[k].fieldName},
                     NucEndOf(rows[k]), UcEndOf(rows[k]))
  {}

  // ---------------------------------------------------------------- nodes

  /** A scalar's total length is taken from its own extent when the row gives it as zero. */
  function EffectiveTotal(anonymousScalar: bool, total: nat, offset: nat, length: nat): Result<nat> {
    if anonymousScalar && total == 0 then SafeEnd(offset, length) else Ok(total)
  }

  predicate Anonymous(rows: seq<TypeRow>) {
    exists k :: 0 <= k < |rows| && rows[k].fieldName == ""
  }

  predicate AnonymousScalar(rows: seq<TypeRow>) {
    && rows != [] && Anonymous(rows)
    && var reference := ClassifyReference(rows[0].internalType, rows[0].associatedType);
      reference.Ok? && reference.value.ScalarReference?
  }

  function NucTotal(rows: seq<TypeRow>): Result<nat>
    requires rows != []
  {
    EffectiveTotal(AnonymousScalar(rows), rows[0].nucTotalLength, rows[0].nucOffset, rows[0].nucLength)
  }

  function UcTotal(rows: seq<TypeRow>): Result<nat>
    requires rows != []
  {
    EffectiveTotal(AnonymousScalar(rows), rows[0].ucTotalLength, rows[0].ucOffset, rows[0].ucLength)
  }

  ghost predicate NodeAcceptable(group: Group) {
    && group.rows != [] && (Anonymous(group.rows) ==> |group.rows| == 1)
    && NucTotal(group.rows).Ok? && UcTotal(group.rows).Ok?
    && FieldsAcceptable(group.rows, NucTotal(group.rows).value, UcTotal(group.rows).value)
  }

  ghost predicate NodeFault(group: Group, code: Code)
    requires group.rows != []
  {
    var rows := group.rows;
    || (code == InvalidTableShape && Anonymous(rows) && |rows| != 1)
    || (code == InvalidGeometry && (NucTotal(rows).Err? || UcTotal(rows).Err?))
    || (code == MissingAssociatedType && !Classified(rows[0]))
    || (NucTotal(rows).Ok? && UcTotal(rows).Ok? && FieldsFault(rows, NucTotal(rows).value, UcTotal(rows).value, code))
  }

  lemma {:induction false} NodeFaultRefutes(group: Group, code: Code)
    requires group.rows != [] && NodeFault(group, code)
    ensures !NodeAcceptable(group)
  {
    var rows := group.rows;
    if NodeAcceptable(group) {
      var nuc, uc := NucTotal(rows).value, UcTotal(rows).value;
      assert RowAcceptable(rows, 0, nuc, uc);
      if FieldsFault(rows, nuc, uc, code) {
        FieldsFaultRefutes(rows, nuc, uc, code);
      }
      assert false;
    }
  }

  /** The node a group of rows describes. */
  ghost function NodeFor(group: Group): Node
    requires NodeAcceptable(group)
  {
    var rows := group.rows;
    AllClassified(rows, NucTotal(rows).value, UcTotal(rows).value);
    var kind := if !Anonymous(rows) then Structure else if AnonymousScalar(rows) then Scalar else Table;
    Node(group.name, kind, NucTotal(rows).value, UcTotal(rows).value, rows[0].timestamp, FieldsFor(rows))
  }

  /** What every node that is built satisfies. */
  ghost predicate NodeSound(node: Node) {
    && node.fields != [] && LaidOut(node.fields, node.nucLength, node.ucLength) && DistinctFields(node.fields)
    && (forall k :: 0 <= k < |node.fields| && node.fields[k].name == "" ==> |node.fields| == 1)
    && (node.kind == Structure <==> node.fields[0].name != "")
    && (node.kind == Scalar <==> node.fields[0].name == "" && node.fields[0].reference.ScalarReference?)
    && (forall k :: 0 <= k < |node.fields| && node.fields[k].reference.NodeReference? ==> node.fields[k].reference.kind != Scalar)
  }

  lemma {:induction false} NodeForIsSound(group: Group)
    requires NodeAcceptable(group)
    ensures NodeSound(NodeFor(group)) && NodeFor(group).name == group.name && |NodeFor(group).fields| == |group.rows|
  {
    var rows := group.rows;
    AcceptableFieldsLaidOut(rows, NucTotal(rows).value, UcTotal(rows).value);
    assert RowAcceptable(rows, 0, NucTotal(rows).value, UcTotal(rows).value);
    if !Anonymous(rows) {
      assert rows[0].fieldName != "";
    }
  }

  /** Build one node, or report the first thing wrong with its rows. */
  method BuildNode(group: Group) returns (r: Result<Node>)
    requires group.rows != []
    ensures r.Ok? ==> NodeAcceptable(group) && r.value == NodeFor(group)
    ensures r.Err? ==> NodeFault(group, r.code)
  {
    var first := group.rows[0];
    var anonymous := exists k :: 0 <= k < |group.rows| && group.rows[k].fieldName == "";
    if anonymous && |group.rows| != 1 {
      return Err(InvalidTableShape);
    }
    var firstReference := ClassifyReference(first.internalType, first.associatedType);
    if anonymous && firstReference.Err? {
      return Err(firstReference.code);
    }
    var anonymousScalar := anonymous && firstReference.value.ScalarReference?;
    var nucTotal := EffectiveTotal(anonymousScalar, first.nucTotalLength, first.nucOffset, first.nucLength);
    var ucTotal := EffectiveTotal(anonymousScalar, first.ucTotalLength, first.ucOffset, first.ucLength);
    assert nucTotal == NucTotal(group.rows) && ucTotal == UcTotal(group.rows);
    if nucTotal.Err? || ucTotal.Err? {
      return Err(InvalidGeometry);
    }
    var fields := BuildFields(group.rows, nucTotal.value, ucTotal.value);
    if fields.Err? {
      return Err(fields.code);
    }
    assert Classified(group.rows[0]) && fields.value[0] == FieldFor(group.rows[0], 1);
    var kind := if !anonymous then Structure else if fields.value[0].reference.ScalarReference? then Scalar else Table;
    assert fields.value == FieldsFor(group.rows);
    return Ok(Node(group.name, kind, nucTotal.value, ucTotal.value, first.timestamp, fields.value));
  }

  ghost predicate DistinctNames(nodes: seq<Node>) {
    forall i, j :: 0 <= i < j < |nodes| ==> nodes[i].name != nodes[j].name
  }

  function EdgeCount(fields: seq<Field>): nat {
    if fields == [] then 0
    else EdgeCount(fields[..|fields| - 1]) + (if fields[|fields| - 1].reference.NodeReference? then 1 else 0)
  }

  function TotalEdges(nodes: seq<Node>): nat {
    if nodes == [] then 0 else TotalEdges(nodes[..|nodes| - 1]) + EdgeCount(nodes[|nodes| - 1].fields)
  }

  /** The rows that refer to another type. */
  function EdgeRows(rows: seq<TypeRow>): nat {
    if rows == [] then 0
    else EdgeRows(rows[..|rows| - 1]) + (if rows[|rows| - 1].internalType in ["u", "v", "h"] then 1 else 0)
  }

  lemma {:induction false} EdgeRowsJoin(a: seq<TypeRow>, b: seq<TypeRow>)
    ensures EdgeRows(a + b) == EdgeRows(a) + EdgeRows(b)
    decreases |b|
  {
    if b == [] {
      assert a + b == a;
    } else {
      EdgeRowsJoin(a, b[..|b| - 1]);
      assert (a + b)[..|a + b| - 1] == a + b[..|b| - 1];
    }
  }

  lemma {:induction false} FieldEdges(rows: seq<TypeRow>)
    requires forall k :: 0 <= k < |rows| ==> Classified(rows[k])
    ensures EdgeCount(FieldsFor(rows)) == EdgeRows(rows)
    decreases |rows|
  {
    if rows != [] {
      FieldEdges(rows[..|rows| - 1]);
      assert FieldsFor(rows)[..|rows| - 1] == FieldsFor(rows[..|rows| - 1]);
    }
  }

  /** The nodes are those of the groups, one each, in order. */
  ghost predicate NodesOf(groups: seq<Group>, nodes: seq<Node>) {
    |nodes| == |groups| && forall i :: 0 <= i < |nodes| ==> NodeAcceptable(groups[i]) && nodes[i] == NodeFor(groups[i])
  }

  lemma {:induction false} NodeEdges(groups: seq<Group>, nodes: seq<Node>)
    requires NodesOf(groups, nodes)
    ensures TotalEdges(nodes) == EdgeRows(Flatten(groups))
    decreases |groups|
  {
    if groups != [] {
      var n := |groups| - 1;
      var rows := groups[n].rows;
      NodeEdges(groups[..n], nodes[..n]);
      AcceptableFieldsLaidOut(rows, NucTotal(rows).value, UcTotal(rows).value);
      FieldEdges(rows);
      EdgeRowsJoin(Flatten(groups[..n]), rows);
    }
  }

  lemma {:induction false} PrefixEdges(groups: seq<Group>, n: nat)
    requires n <= |groups|
    ensures EdgeRows(Flatten(groups[..n])) <= EdgeRows(Flatten(groups))
    decreases |groups|
  {
    if n == |groups| {
      assert groups[..n] == groups;
    } else {
      var front := groups[..|groups| - 1];
      PrefixEdges(front, n);
      assert front[..n] == groups[..n];
      EdgeRowsJoin(Flatten(front), groups[|groups| - 1].rows);
    }
  }

  /** The rows describe types, one after another, within the limits. */
  ghost predicate TypesAcceptable(rows: seq<TypeRow>, limits: Limits) {
    && !Interrupted(rows) && |GroupsOf(rows)| <= limits.maxNodes && EdgeRows(rows) <= limits.maxEdges
    && forall i :: 0 <= i < |GroupsOf(rows)| ==> NodeAcceptable(GroupsOf(rows)[i])
  }

  ghost predicate TypesFault(rows: seq<TypeRow>, limits: Limits, code: Code) {
    match code
    case NoncontiguousType => Interrupted(rows)
    case NodeLimit => |GroupsOf(rows)| > limits.maxNodes
    case EdgeLimit => EdgeRows(rows) > limits.maxEdges
    case _ => exists i :: 0 <= i < |GroupsOf(rows)| && GroupsOf(rows)[i].rows != [] && NodeFault(GroupsOf(rows)[i], code)
  }

  lemma {:induction false} TypesFaultRefutes(rows: seq<TypeRow>, limits: Limits, code: Code)
    requires TypesFault(rows, limits, code)
    ensures !TypesAcceptable(rows, limits)
  {
    if !code.NoncontiguousType? && !code.NodeLimit? && !code.EdgeLimit? {
      var i :| 0 <= i < |GroupsOf(rows)| && GroupsOf(rows)[i].rows != [] && NodeFault(GroupsOf(rows)[i], code);
      NodeFaultRefutes(GroupsOf(rows)[i], code);
    }
  }

  /** The nodes of acceptable rows. */
  ghost function NodesFor(rows: seq<TypeRow>): (nodes: seq<Node>)
    requires forall i :: 0 <= i < |GroupsOf(rows)| ==> NodeAcceptable(GroupsOf(rows)[i])
    ensures NodesOf(GroupsOf(rows), nodes)
  {
    seq(|GroupsOf(rows)|, i requires 0 <= i < |GroupsOf(rows)| => NodeFor(GroupsOf(rows)[i]))
  }

  /** What the nodes of acceptable rows satisfy. */
  lemma {:induction false} NodesForAreSound(rows: seq<TypeRow>, limits: Limits)
    requires TypesAcceptable(rows, limits)
    ensures var nodes := NodesFor(rows);
            && DistinctNames(nodes) && TotalEdges(nodes) == EdgeRows(rows)
            && forall i :: 0 <= i < |nodes| ==> NodeSound(nodes[i])
  {
    var groups, nodes := GroupsOf(rows), NodesFor(rows);
    GroupsPartition(rows);
    NodeEdges(groups, nodes);
    ContiguousGroupsDistinct(rows, |rows|);
    assert rows[..|rows|] == rows;
    forall i | 0 <= i < |nodes| ensures NodeSound(nodes[i]) && nodes[i].name == groups[i].name {
      NodeForIsSound(groups[i]);
    }
  }

  lemma {:induction false} ContiguousGroupsDistinct(rows: seq<TypeRow>, index: nat)
    requires index <= |rows| && !Interrupted(rows)
    ensures DistinctGroups(GroupsOf(rows[..index]))
    decreases index
  {
    if index > 0 {
      var front, row := GroupsOf(rows[..index - 1]), rows[index - 1];
      ContiguousGroupsDistinct(rows, index - 1);
      assert rows[..index][..index - 1] == rows[..index - 1];
      if OpensGroup(front, row) {
        forall g | 0 <= g < |front| ensures front[g].name != row.typeName {
          if front[g].name == row.typeName {
            RecursAfterAnother(rows, index - 1, g);
          }
        }
      }
    }
  }

  /** Node faults have codes of their own. */
  lemma {:induction false} NodeFaultIsTypesFault(rows: seq<TypeRow>, limits: Limits, i: nat, code: Code)
    requires i < |GroupsOf(rows)| && GroupsOf(rows)[i].rows != [] && NodeFault(GroupsOf(rows)[i], code)
    ensures TypesFault(rows, limits, code)
  {}

  /** The nodes of the groups before the index, and the references their fields hold. */
  ghost predicate BuiltTo(groups: seq<Group>, index: nat, nodes: seq<Node>, edges: nat) {
    index <= |groups| && NodesOf(groups[..index], nodes) && edges == TotalEdges(nodes)
  }

  lemma {:induction false} BuiltNext(groups: seq<Group>, index: nat, nodes: seq<Node>, edges: nat, node: Node)
    requires BuiltTo(groups, index, nodes, edges) && index < |groups| && NodeAcceptable(groups[index]) && node == NodeFor(groups[index])
    ensures BuiltTo(groups, index + 1, nodes + [node], edges + EdgeCount(node.fields))
    ensures edges + EdgeCount(node.fields) <= EdgeRows(Flatten(groups))
  {
    assert (nodes + [node])[..|nodes|] == nodes;
    NodeEdges(groups[..index + 1], nodes + [node]);
    PrefixEdges(groups, index + 1);
  }

  lemma {:induction false} BuiltAll(rows: seq<TypeRow>, nodes: seq<Node>, edges: nat, limits: Limits)
    requires BuiltTo(GroupsOf(rows), |GroupsOf(rows)|, nodes, edges) && edges <= limits.maxEdges
    requires !Interrupted(rows) && |GroupsOf(rows)| <= limits.maxNodes
    ensures TypesAcceptable(rows, limits) && nodes == NodesFor(rows)
  {
    var groups := GroupsOf(rows);
    assert groups[..|groups|] == groups;
    GroupsPartition(rows);
    NodeEdges(groups, nodes);
    assert nodes == NodesFor(rows);
  }

  /** The type nodes, accepted exactly when the rows are acceptable and within the limits. */
  method BuildNodes(rows: seq<TypeRow>, limits: Limits) returns (r: Result<seq<Node>>)
    ensures r.Ok? ==> TypesAcceptable(rows, limits) && r.value == NodesFor(rows)
    ensures r.Err? ==> TypesFault(rows, limits, r.code)
  {
    var grouping := GroupRows(rows);
    if grouping.Err? {
      return Err(grouping.code);
    }
    var grouped := grouping.value;
    GroupsPartition(rows);
    if |grouped| > limits.maxNodes {
      return Err(NodeLimit);
    }
    var nodes: seq<Node>, fieldEdges: nat := [], 0;
    for index := 0 to |grouped|
      invariant BuiltTo(grouped, index, nodes, fieldEdges) && fieldEdges <= limits.maxEdges
    {
      var built := BuildNode(grouped[index]);
      if built.Err? {
        NodeFaultIsTypesFault(rows, limits, index, built.code);
        return Err(built.code);
      }
      BuiltNext(grouped, index, nodes, fieldEdges, built.value);
      fieldEdges := fieldEdges + EdgeCount(built.value.fields);
      nodes := nodes + [built.value];
      if fieldEdges > limits.maxEdges {
        return Err(EdgeLimit);
      }
    }
    BuiltAll(rows, nodes, fieldEdges, limits);
    return Ok(nodes);
  }
}
